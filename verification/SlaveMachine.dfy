/**
 * Overlapping calls of the slave node. A call publishes on the bus first and brings the index up to date afterwards,
 * under a lock of its own, so that other calls can come in between.
 */
module SlaveMachine {
  import opened Options
  import opened Bytes
  import opened Lin
  import BusModel
  import opened Slave

  datatype Phase = Refused | Published(id: uint8, present: bool) | Recorded(id: uint8, present: bool)

  datatype State = State(ids: seq<uint8>, table: map<uint8, BusModel.Response>, closed: bool, calls: seq<Phase>)

  const INITIAL := State([], map[], false, [])

  datatype Action = Publish(id: uint8, data: Option<seq<byte>>) | Record(call: nat) | Close

  predicate Accepted(s: State, a: Action) {
    a.Publish? && CallError(Registry(s.ids, s.table, s.closed), a.id, a.data).None?
  }

  predicate Recordable(s: State, a: Action) {
    a.Record? && a.call < |s.calls| && s.calls[a.call].Published?
  }

  function Next(s: State, a: Action): State {
    match a
    case Publish(id, data) =>
      if Accepted(s, a) then
        s.(table := BusModel.Register(s.table, id, data, ENHANCED), calls := s.calls + [Published(id, data.Some?)])
      else
        s.(calls := s.calls + [Refused])
    case Record(k) =>
      if Recordable(s, a) then
        var c := s.calls[k];
        s.(ids := Indexed(s.ids, c.id, c.present), calls := s.calls[k := Recorded(c.id, c.present)])
      else
        s
    case Close => s.(closed := true)
  }

  function Reached(actions: seq<Action>): State {
    if |actions| == 0 then INITIAL else Next(Reached(actions[..|actions| - 1]), actions[|actions| - 1])
  }

  /** Publishing and recording without a break is the call of the sequential node. */
  lemma UnbrokenCall(s: State, id: uint8, data: Option<seq<byte>>)
    ensures var s' := Next(Next(s, Publish(id, data)), Record(|s.calls|));
            Registry(s'.ids, s'.table, s'.closed) ==
            After(Registry(s.ids, s.table, s.closed), SetResponse(id, data))
  {
  }

  // ---------- Who acted last ----------

  /** The call on id that changed the table last. */
  function LastPublisher(actions: seq<Action>, id: uint8): Option<nat> {
    if |actions| == 0 then None
    else
      var n := |actions| - 1;
      var s := Reached(actions[..n]);
      if Accepted(s, actions[n]) && actions[n].id == id then Some(|s.calls|)
      else LastPublisher(actions[..n], id)
  }

  /** The call on id that changed the index last. */
  function LastRecorder(actions: seq<Action>, id: uint8): Option<nat> {
    if |actions| == 0 then None
    else
      var n := |actions| - 1;
      var s := Reached(actions[..n]);
      if Recordable(s, actions[n]) && s.calls[actions[n].call].id == id then Some(actions[n].call)
      else LastRecorder(actions[..n], id)
  }

  predicate IsCallOn(s: State, k: Option<nat>, id: uint8) {
    k.Some? ==> k.value < |s.calls| && !s.calls[k.value].Refused? && s.calls[k.value].id == id
  }

  /** The call is a registration. */
  predicate Registers(s: State, k: Option<nat>) {
    k.Some? && k.value < |s.calls| && !s.calls[k.value].Refused? && s.calls[k.value].present
  }

  /** Table and index follow the last publisher and the last recorder. */
  predicate Follows(s: State, id: uint8, publisher: Option<nat>, recorder: Option<nat>) {
    && IsCallOn(s, publisher, id) && IsCallOn(s, recorder, id)
    && (id in s.table <==> Registers(s, publisher))
    && (id in s.ids <==> Registers(s, recorder))
  }

  lemma StepFollows(s: State, a: Action, id: uint8, publisher: Option<nat>, recorder: Option<nat>)
    requires Follows(s, id, publisher, recorder) && Distinct(s.ids)
    ensures Distinct(Next(s, a).ids)
    ensures Follows(Next(s, a), id,
                    if Accepted(s, a) && a.id == id then Some(|s.calls|) else publisher,
                    if Recordable(s, a) && s.calls[a.call].id == id then Some(a.call) else recorder)
  {
    if Recordable(s, a) {
      WithoutContents(s.ids, s.calls[a.call].id);
    }
  }

  lemma {:induction false} RunFollows(actions: seq<Action>, id: uint8)
    ensures var s := Reached(actions);
            Distinct(s.ids) && Follows(s, id, LastPublisher(actions, id), LastRecorder(actions, id))
  {
    if |actions| > 0 {
      var n := |actions| - 1;
      RunFollows(actions[..n], id);
      StepFollows(Reached(actions[..n]), actions[n], id,
                  LastPublisher(actions[..n], id), LastRecorder(actions[..n], id));
    }
  }

  /**
   * For each identifier, the call that published last and the call that recorded last do the same, or there are none.
   */
  ghost predicate LastCallsAgree(actions: seq<Action>) {
    forall id: uint8 ::
      Registers(Reached(actions), LastPublisher(actions, id)) == Registers(Reached(actions), LastRecorder(actions, id))
  }

  /** The exact condition for index and table to agree, at every moment of every run. */
  lemma AgreementExact(actions: seq<Action>)
    ensures Agrees(Reached(actions).ids, Reached(actions).table) <==> LastCallsAgree(actions)
  {
    forall id: uint8
      ensures id in Reached(actions).ids <==> Registers(Reached(actions), LastRecorder(actions, id))
      ensures id in Reached(actions).table <==> Registers(Reached(actions), LastPublisher(actions, id))
      ensures Distinct(Reached(actions).ids)
    {
      RunFollows(actions, id);
    }
    RunFollows(actions, 0);
  }

  // ---------- Calls on one identifier that do not overlap ----------

  /** A call on id has published but not recorded. */
  predicate InFlight(s: State, k: nat, id: uint8) {
    k < |s.calls| && s.calls[k].Published? && s.calls[k].id == id
  }

  /** No call publishes while another on the same identifier is in flight. */
  ghost predicate NonOverlapping(actions: seq<Action>) {
    forall n, k :: 0 <= n < |actions| && 0 <= k && Accepted(Reached(actions[..n]), actions[n]) ==>
      !InFlight(Reached(actions[..n]), k, actions[n].id)
  }

  /** At most one call on id is in flight, the last publisher; if none is, publisher and recorder are the same. */
  ghost predicate InOrder(s: State, id: uint8, publisher: Option<nat>, recorder: Option<nat>) {
    && IsCallOn(s, publisher, id)
    && (forall k: nat :: InFlight(s, k, id) ==> publisher == Some(k))
    && ((forall k: nat :: !InFlight(s, k, id)) ==> publisher == recorder)
  }

  lemma StepInOrder(s: State, a: Action, id: uint8, publisher: Option<nat>, recorder: Option<nat>)
    requires InOrder(s, id, publisher, recorder)
    requires Accepted(s, a) && a.id == id ==> forall k: nat :: !InFlight(s, k, id)
    ensures InOrder(Next(s, a), id,
                    if Accepted(s, a) && a.id == id then Some(|s.calls|) else publisher,
                    if Recordable(s, a) && s.calls[a.call].id == id then Some(a.call) else recorder)
  {
    var s' := Next(s, a);
    if a.Publish? {
      NewCall(s, a, id);
      assert (forall k: nat :: !InFlight(s', k, id)) ==> forall k: nat :: !InFlight(s, k, id);
    } else if Recordable(s, a) {
      FinishedCall(s, a, id);
      if s.calls[a.call].id != id {
        assert forall k: nat :: InFlight(s', k, id) == InFlight(s, k, id);
      }
    } else {
      assert forall k: nat :: InFlight(s', k, id) == InFlight(s, k, id);
    }
  }

  lemma NewCall(s: State, a: Action, id: uint8)
    requires a.Publish?
    ensures forall k: nat ::
              InFlight(Next(s, a), k, id) <==> InFlight(s, k, id) || (k == |s.calls| && Accepted(s, a) && a.id == id)
  {
  }

  lemma FinishedCall(s: State, a: Action, id: uint8)
    requires Recordable(s, a)
    ensures forall k: nat :: InFlight(Next(s, a), k, id) <==> InFlight(s, k, id) && k != a.call
    ensures s.calls[a.call].id == id ==> InFlight(s, a.call, id)
  {
  }

  lemma {:induction false} RunInOrder(actions: seq<Action>, id: uint8)
    requires NonOverlapping(actions)
    ensures InOrder(Reached(actions), id, LastPublisher(actions, id), LastRecorder(actions, id))
  {
    if |actions| > 0 {
      var n := |actions| - 1;
      EarlierNonOverlapping(actions, n);
      RunInOrder(actions[..n], id);
      var s := Reached(actions[..n]);
      StepInOrder(s, actions[n], id, LastPublisher(actions[..n], id), LastRecorder(actions[..n], id));
    }
  }

  lemma EarlierNonOverlapping(actions: seq<Action>, n: nat)
    requires NonOverlapping(actions) && n <= |actions|
    ensures NonOverlapping(actions[..n])
  {
    forall m, k | 0 <= m < n && 0 <= k && Accepted(Reached(actions[..n][..m]), actions[..n][m])
      ensures !InFlight(Reached(actions[..n][..m]), k, actions[..n][m].id)
    {
      assert actions[..n][..m] == actions[..m] && actions[..n][m] == actions[m];
    }
  }

  predicate Quiescent(s: State) {
    forall k :: 0 <= k < |s.calls| ==> !s.calls[k].Published?
  }

  /** When all calls are over and no two on the same identifier overlapped, index and table agree. */
  lemma QuiescentAgreement(actions: seq<Action>)
    requires NonOverlapping(actions) && Quiescent(Reached(actions))
    ensures Agrees(Reached(actions).ids, Reached(actions).table)
  {
    forall id: uint8
      ensures Registers(Reached(actions), LastPublisher(actions, id)) ==
              Registers(Reached(actions), LastRecorder(actions, id))
    {
      RunInOrder(actions, id);
      assert forall k: nat :: !InFlight(Reached(actions), k, id);
    }
    AgreementExact(actions);
  }

  lemma ReachedSnoc(actions: seq<Action>, a: Action)
    ensures Reached(actions + [a]) == Next(Reached(actions), a)
  {
    assert (actions + [a])[..|actions|] == actions;
  }

  /** Overlap can leave them apart for good: a removal that happens between the two steps of a registration. */
  lemma OverlapDisagrees(id: uint8, data: seq<byte>)
    requires id <= MAX_ID && 1 <= |data| <= MAX_DATA_LEN
    ensures var actions := [] + [Publish(id, Some(data))] + [Publish(id, None)] + [Record(1)] + [Record(0)];
            var s := Reached(actions);
            Quiescent(s) && id in s.ids && id !in s.table
  {
    var a, b, c, d := Publish(id, Some(data)), Publish(id, None), Record(1), Record(0);
    ReachedSnoc([], a);
    ReachedSnoc([] + [a], b);
    ReachedSnoc([] + [a] + [b], c);
    ReachedSnoc([] + [a] + [b] + [c], d);
    var s2 := Next(Next(INITIAL, a), b);
    var s3 := Next(s2, c);
    assert s2.calls == [Published(id, true), Published(id, false)];
    assert s3.calls == [Published(id, true), Recorded(id, false)];
  }
}
