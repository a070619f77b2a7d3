/** The contents of a parsed LDF file. */
module LdfDatabase {
  import opened Signals
  import Lin

  datatype Frame = Frame(name: string, id: Lin.uint8, publisher: string, length: int, signals: seq<SignalRef>)

  datatype Database = Database(
    protocolVersion: string,
    languageVersion: string,
    speed: real,
    masterNode: string,
    slaveNodes: seq<string>,
    frames: map<Lin.uint8, Frame>,
    signals: map<string, Signal>,
    schedules: map<string, seq<Lin.ScheduleEntry>>)

  const EMPTY := Database("", "", 0.0, "", [], map[], map[], map[])

  /** A frame Encode and Decode can work on without indexing out of bounds. */
  predicate SoundFrame(f: Frame) {
    f.id <= Lin.MAX_ID && 0 <= f.length <= Lin.MAX_DATA_LEN && SoundRefs(f.signals)
  }

  predicate SoundRefs(refs: seq<SignalRef>) {
    forall i :: 0 <= i < |refs| ==> refs[i].bitOffset >= 0
  }

  /** Every schedule slot names a declared frame. */
  predicate SoundEntries(frames: map<Lin.uint8, Frame>, entries: seq<Lin.ScheduleEntry>) {
    forall i :: 0 <= i < |entries| ==> entries[i].id in frames
  }

  predicate Sound(db: Database) {
    && (forall id: Lin.uint8 :: id in db.frames ==> db.frames[id].id == id && SoundFrame(db.frames[id]))
    && (forall t :: t in db.schedules ==> SoundEntries(db.frames, db.schedules[t]))
  }
}
