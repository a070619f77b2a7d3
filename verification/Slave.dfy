/** The slave node: an index of registered identifiers beside the bus's response table. */
module Slave {
  import opened Options
  import opened Bytes
  import opened Lin
  import BusModel
  import VirtualBus

  /** The list without id, order kept. */
  function Without(ids: seq<uint8>, id: uint8): (r: seq<uint8>)
    ensures |r| <= |ids|
  {
    if |ids| == 0 then []
    else Without(ids[..|ids| - 1], id) + (if ids[|ids| - 1] != id then [ids[|ids| - 1]] else [])
  }

  predicate Distinct(ids: seq<uint8>) {
    forall i, j :: 0 <= i < j < |ids| ==> ids[i] != ids[j]
  }

  /** The list is free of duplicates and names exactly the keys of the table. */
  predicate Agrees(ids: seq<uint8>, table: map<uint8, BusModel.Response>) {
    Distinct(ids) && forall id: uint8 :: id in ids <==> id in table
  }

  lemma {:induction false} WithoutContents(ids: seq<uint8>, id: uint8)
    ensures forall x :: x in Without(ids, id) <==> x in ids && x != id
    ensures Distinct(ids) ==> Distinct(Without(ids, id))
  {
    if |ids| > 0 {
      var n := |ids| - 1;
      WithoutContents(ids[..n], id);
      assert ids == ids[..n] + [ids[n]];
      var w := Without(ids[..n], id);
      if Distinct(ids) && ids[n] != id {
        forall i | 0 <= i < |w| ensures w[i] != ids[n] {
          assert w[i] in w;
        }
      }
    }
  }

  // ---------- A call as a step on values ----------

  /** The index and the bus it belongs to. */
  datatype Registry = Registry(ids: seq<uint8>, table: map<uint8, BusModel.Response>, closed: bool)

  datatype Call = SetResponse(id: uint8, data: Option<seq<byte>>) | CloseBus

  function CallError(r: Registry, id: uint8, data: Option<seq<byte>>): Option<Error> {
    var check := BusModel.PublishCheck(id, data);
    if check.Some? then check else if r.closed then Some(Closed) else None
  }

  function Indexed(ids: seq<uint8>, id: uint8, present: bool): seq<uint8> {
    if !present then Without(ids, id) else if id in ids then ids else ids + [id]
  }

  function After(r: Registry, call: Call): Registry {
    match call
    case CloseBus => r.(closed := true)
    case SetResponse(id, data) =>
      if CallError(r, id, data).Some? then r
      else Registry(Indexed(r.ids, id, data.Some?), BusModel.Register(r.table, id, data, ENHANCED), r.closed)
  }

  function AfterAll(r: Registry, calls: seq<Call>): Registry {
    if |calls| == 0 then r else After(AfterAll(r, calls[..|calls| - 1]), calls[|calls| - 1])
  }

  lemma AfterAgrees(r: Registry, call: Call)
    requires Agrees(r.ids, r.table)
    ensures Agrees(After(r, call).ids, After(r, call).table)
  {
    if call.SetResponse? {
      WithoutContents(r.ids, call.id);
    }
  }

  /** Whatever calls are made, failing ones and calls on a closed bus included, index and table stay in agreement. */
  lemma {:induction false} IndexAgrees(calls: seq<Call>)
    ensures var r := AfterAll(Registry([], map[], false), calls); Agrees(r.ids, r.table)
  {
    if |calls| > 0 {
      IndexAgrees(calls[..|calls| - 1]);
      AfterAgrees(AfterAll(Registry([], map[], false), calls[..|calls| - 1]), calls[|calls| - 1]);
    }
  }

  /** An identifier is listed exactly when the last call that got through for it registered data. */
  predicate LastRegistered(calls: seq<Call>, id: uint8) {
    if |calls| == 0 then false
    else
      var n := |calls| - 1;
      var call := calls[n];
      if CloseBus in calls[..n] || call.CloseBus? || call.id != id || BusModel.PublishCheck(id, call.data).Some?
      then LastRegistered(calls[..n], id)
      else call.data.Some?
  }

  lemma ListedAfter(r: Registry, call: Call, id: uint8)
    ensures id in After(r, call).ids <==>
            if r.closed || call.CloseBus? || call.id != id || BusModel.PublishCheck(id, call.data).Some?
            then id in r.ids else call.data.Some?
  {
    if call.SetResponse? {
      WithoutContents(r.ids, call.id);
    }
  }

  lemma {:induction false} ListedMeansLastRegistered(calls: seq<Call>, id: uint8)
    ensures var r := AfterAll(Registry([], map[], false), calls);
            && (r.closed <==> CloseBus in calls)
            && (id in r.ids <==> LastRegistered(calls, id))
  {
    if |calls| > 0 {
      var n := |calls| - 1;
      ListedMeansLastRegistered(calls[..n], id);
      ListedAfter(AfterAll(Registry([], map[], false), calls[..n]), calls[n], id);
      assert calls == calls[..n] + [calls[n]];
    }
  }

  /** Call i is for this identifier and gets through: its arguments are acceptable and the bus is still open. */
  predicate GetsThrough(calls: seq<Call>, i: nat, id: uint8)
    requires i < |calls|
  {
    calls[i].SetResponse? && calls[i].id == id && BusModel.Acceptable(id, calls[i].data) && CloseBus !in calls[..i]
  }

  lemma GottenThrough(r: Registry, call: Call)
    requires call.SetResponse? && BusModel.Acceptable(call.id, call.data) && !r.closed
    ensures BusModel.TableSays(After(r, call).table, call.id, call.data, ENHANCED)
    ensures call.id in After(r, call).ids <==> call.data.Some?
  {
    WithoutContents(r.ids, call.id);
  }

  lemma OthersKeepResponse(r: Registry, call: Call, id: uint8)
    requires r.closed || call.CloseBus? || call.id != id || !BusModel.Acceptable(id, call.data)
    ensures var r' := After(r, call);
            && (id in r'.table <==> id in r.table) && (id in r.table ==> r'.table[id] == r.table[id])
            && (id in r'.ids <==> id in r.ids)
  {
    ListedAfter(r, call, id);
  }

  /** The last call that gets through decides: its data, with the enhanced checksum, is what the bus answers with. */
  lemma {:induction false} LastResponseHolds(calls: seq<Call>, i: nat, id: uint8)
    requires i < |calls| && GetsThrough(calls, i, id)
    requires forall j :: i < j < |calls| ==> !GetsThrough(calls, j, id)
    ensures var r := AfterAll(Registry([], map[], false), calls);
            && BusModel.TableSays(r.table, id, calls[i].data, ENHANCED)
            && (id in r.ids <==> calls[i].data.Some?)
  {
    var n := |calls| - 1;
    var r := AfterAll(Registry([], map[], false), calls[..n]);
    ListedMeansLastRegistered(calls[..n], id);
    if i == n {
      GottenThrough(r, calls[n]);
    } else {
      forall j | i <= j < n ensures GetsThrough(calls[..n], j, id) == GetsThrough(calls, j, id) {
        assert calls[..n][..j] == calls[..j];
      }
      assert !GetsThrough(calls, n, id);
      LastResponseHolds(calls[..n], i, id);
      OthersKeepResponse(r, calls[n], id);
    }
  }

  // ---------- The node ----------

  class Node {
    const bus: VirtualBus.Bus
    var ids: array<uint8>  // the first len elements are the index, the rest spare capacity
    var len: nat

    /** The index shares no storage with the bus. */
    ghost predicate Valid()
      reads this, bus, bus.subs, bus.stored
    {
      bus.Valid() && len <= ids.Length && forall a :: a in bus.stored ==> a as object != ids
    }

    function Index(): seq<uint8>
      requires len <= ids.Length
      reads this, ids
    {
      ids[..len]
    }

    ghost function View(): Registry
      requires len <= ids.Length
      reads this, ids, bus
    {
      Registry(Index(), bus.table, bus.closed)
    }

    constructor (bus: VirtualBus.Bus)
      requires bus.Valid()
      ensures Valid() && this.bus == bus && fresh(ids) && Index() == []
    {
      this.bus := bus;
      ids, len := new uint8[0], 0;
    }

    method ContainsId(id: uint8) returns (found: bool)
      requires len <= ids.Length
      ensures found <==> id in Index()
    {
      for i := 0 to len
        invariant id !in ids[..i]
      {
        if ids[i] == id {
          return true;
        }
      }
      found := false;
    }

    /** In-place filtering: the write position never overtakes the read position. */
    method RemoveId(id: uint8)
      requires len <= ids.Length
      modifies this`len, ids
      ensures len <= ids.Length && Index() == Without(old(Index()), id)
    {
      ghost var was := ids[..len];
      var w := 0;
      for i := 0 to len
        invariant w <= i && len == old(len)
        invariant ids[..w] == Without(was[..i], id)
        invariant ids[i..len] == was[i..]
      {
        var v := ids[i];
        assert v == ids[i..len][0] == was[i];
        assert was[..i + 1][..i] == was[..i];
        assert ids[i..len][1..] == ids[i + 1..len];
        if v != id {
          ids[w] := v;
          w := w + 1;
        }
      }
      assert was[..len] == was;
      len := w;
    }

    /** Appending, into a larger array when the capacity is used up. */
    method Append(id: uint8)
      requires len <= ids.Length
      modifies this`ids, this`len, ids
      ensures len <= ids.Length && Index() == old(Index()) + [id] && (ids == old(ids) || fresh(ids))
    {
      if len == ids.Length {
        var grown := new uint8[2 * len + 1];
        forall i | 0 <= i < len {
          grown[i] := ids[i];
        }
        assert grown[..len] == ids[..len];
        ids := grown;
      }
      ids[len] := id;
      len := len + 1;
    }

    /** Registering or removing a response; a call that fails changes neither the bus table nor the index. */
    method SetResponse(id: uint8, data: array?<byte>) returns (error: Option<Error>)
      requires Valid() && VirtualBus.Bus.Exposing(data) !! bus.stored
      modifies this`ids, this`len, ids, bus
      ensures Valid() && (ids == old(ids) || fresh(ids))
      ensures error == CallError(old(View()), id, old(VirtualBus.Bus.Slice(data)))
      ensures View() == After(old(View()), Call.SetResponse(id, old(VirtualBus.Bus.Slice(data))))
      ensures Agrees(old(Index()), old(bus.table)) ==> Agrees(Index(), bus.table)
    {
      if Agrees(Index(), bus.table) {
        AfterAgrees(View(), Call.SetResponse(id, VirtualBus.Bus.Slice(data)));
      }
      if id > MAX_ID {
        return Some(IdOutOfRange);
      }
      error := bus.Publish(id, data);
      if error.Some? {
        return;
      }
      Record(id, data != null);
    }

    method Record(id: uint8, present: bool)
      requires Valid()
      modifies this`ids, this`len, ids
      ensures Valid() && (ids == old(ids) || fresh(ids))
      ensures Index() == Indexed(old(Index()), id, present)
    {
      if present {
        var found := ContainsId(id);
        if !found {
          Append(id);
        }
      } else {
        RemoveId(id);
      }
    }

    /** A copy: later calls do not change what the caller holds. */
    method RegisteredIds() returns (out: array<uint8>)
      requires len <= ids.Length
      ensures fresh(out) && out[..] == Index()
    {
      out := new uint8[len](i requires 0 <= i < len reads this, ids => if i < len <= ids.Length then ids[i] else 0);
    }
  }
}
