/**
 * `analyze_availability` (services.py over Room objects, utils.py over dict
 * rows with the same fields): group the rooms that are free for a date range
 * by room type, in the order the types are first met.
 */
module Availability {
  import opened Common
  import opened Records

  /** One entry of the result list: a room type and its free rooms. */
  datatype TypeStats = TypeStats(
    id: int,
    name: string,
    price: int,
    cap: int,
    count: int,
    roomIds: seq<int>)

  /**
   * The filter rule: a room is offered unless its id is among the rooms with a
   * conflicting reservation, or it is under maintenance. Booked, occupied and
   * cleaning rooms are not excluded by their status.
   */
  predicate IsFree(room: Room, busy: set<int>) {
    room.id !in busy && room.status != Maintenance
  }

  /** The ids `get_conflict_ids` returned, as the set the filter tests against. */
  function Busy(conflictIds: seq<int>): (b: set<int>)
    ensures forall x :: x in b <==> x in conflictIds
  {
    set x | x in conflictIds
  }

  /** Reference: the ids of the free rooms of type `tid`, in encounter order. */
  function FreeIdsOfType(rooms: seq<Room>, busy: set<int>, tid: int): seq<int>
  {
    if |rooms| == 0 then []
    else (if IsFree(rooms[0], busy) && rooms[0].typeId == tid then [rooms[0].id] else [])
         + FreeIdsOfType(rooms[1..], busy, tid)
  }

  /** Reference: the first free room of type `tid`, whose type data labels the entry. */
  function FirstFreeOfType(rooms: seq<Room>, busy: set<int>, tid: int): Option<Room>
  {
    if |rooms| == 0 then None
    else if IsFree(rooms[0], busy) && rooms[0].typeId == tid then Some(rooms[0])
    else FirstFreeOfType(rooms[1..], busy, tid)
  }

  /**
   * One entry is right for `rooms`: it lists exactly the free rooms of its
   * type in encounter order, counts them, and carries the type data of the
   * first of them.
   */
  predicate EntryMatches(e: TypeStats, rooms: seq<Room>, busy: set<int>)
  {
    && e.roomIds == FreeIdsOfType(rooms, busy, e.id)
    && e.count == |e.roomIds|
    && FirstFreeOfType(rooms, busy, e.id).Some?
    && var f := FirstFreeOfType(rooms, busy, e.id).value;
       e.name == f.typeName && e.price == f.price && e.cap == f.capacity
  }

  /** Every type id has at most one entry. */
  predicate DistinctTypes(stats: seq<TypeStats>)
  {
    forall i, j :: 0 <= i < j < |stats| ==> stats[i].id != stats[j].id
  }

  /** Every free room's type has an entry. */
  predicate CoversFree(stats: seq<TypeStats>, rooms: seq<Room>, busy: set<int>)
  {
    forall k :: 0 <= k < |rooms| && IsFree(rooms[k], busy) ==>
      exists i :: 0 <= i < |stats| && stats[i].id == rooms[k].typeId
  }

  /** What a correct result looks like for `rooms` and `busy`. */
  predicate Summarises(stats: seq<TypeStats>, rooms: seq<Room>, busy: set<int>)
  {
    && DistinctTypes(stats)
    && (forall i :: 0 <= i < |stats| ==> EntryMatches(stats[i], rooms, busy))
    && CoversFree(stats, rooms, busy)
  }

  /** Position of the entry for type `tid` (the dict lookup `tid in stats_map`). */
  function IndexOfType(stats: seq<TypeStats>, tid: int): (r: Option<nat>)
    ensures r.Some? ==> r.value < |stats| && stats[r.value].id == tid
    ensures r.None? ==> forall i :: 0 <= i < |stats| ==> stats[i].id != tid
  {
    if |stats| == 0 then None
    else if stats[|stats| - 1].id == tid then Some(|stats| - 1)
    else IndexOfType(stats[..|stats| - 1], tid)
  }

  /** One iteration of the loop body for `room`. */
  function AddRoom(stats: seq<TypeStats>, room: Room, busy: set<int>): seq<TypeStats>
  {
    if !IsFree(room, busy) then stats
    else match IndexOfType(stats, room.typeId)
      case None =>
        stats + [TypeStats(room.typeId, room.typeName, room.price, room.capacity, 1, [room.id])]
      case Some(k) =>
        stats[k := stats[k].(count := stats[k].count + 1, roomIds := stats[k].roomIds + [room.id])]
  }

  lemma {:induction false} FreeIdsOfTypeSnoc(rooms: seq<Room>, room: Room, busy: set<int>, tid: int)
    ensures FreeIdsOfType(rooms + [room], busy, tid)
         == FreeIdsOfType(rooms, busy, tid) + (if IsFree(room, busy) && room.typeId == tid then [room.id] else [])
    decreases |rooms|
  {
    if |rooms| == 0 {
      assert rooms + [room] == [room];
    } else {
      assert (rooms + [room])[1..] == rooms[1..] + [room];
      FreeIdsOfTypeSnoc(rooms[1..], room, busy, tid);
    }
  }

  lemma {:induction false} FirstFreeOfTypeSnoc(rooms: seq<Room>, room: Room, busy: set<int>, tid: int)
    ensures FirstFreeOfType(rooms + [room], busy, tid)
         == if FirstFreeOfType(rooms, busy, tid).Some? then FirstFreeOfType(rooms, busy, tid)
            else if IsFree(room, busy) && room.typeId == tid then Some(room)
            else None
    decreases |rooms|
  {
    if |rooms| == 0 {
      assert rooms + [room] == [room];
    } else {
      assert (rooms + [room])[1..] == rooms[1..] + [room];
      FirstFreeOfTypeSnoc(rooms[1..], room, busy, tid);
    }
  }

  lemma {:induction false} FirstFreeFindsFree(rooms: seq<Room>, busy: set<int>, k: int)
    requires 0 <= k < |rooms| && IsFree(rooms[k], busy)
    ensures FirstFreeOfType(rooms, busy, rooms[k].typeId).Some?
    decreases |rooms|
  {
    if k > 0 && !(IsFree(rooms[0], busy) && rooms[0].typeId == rooms[k].typeId) {
      FirstFreeFindsFree(rooms[1..], busy, k - 1);
    }
  }

  lemma {:induction false} FreeIdsEmptyWithoutFirst(rooms: seq<Room>, busy: set<int>, tid: int)
    requires FirstFreeOfType(rooms, busy, tid).None?
    ensures FreeIdsOfType(rooms, busy, tid) == []
    decreases |rooms|
  {
    if |rooms| > 0 {
      FreeIdsEmptyWithoutFirst(rooms[1..], busy, tid);
    }
  }

  /** The loop body keeps the summary correct when one more room is processed. */
  lemma AddRoomSummarises(stats: seq<TypeStats>, rooms: seq<Room>, room: Room, busy: set<int>)
    requires Summarises(stats, rooms, busy)
    ensures Summarises(AddRoom(stats, room, busy), rooms + [room], busy)
  {
    AddRoomEntries(stats, rooms, room, busy);
    AddRoomCovers(stats, rooms, room, busy);
  }

  lemma AddRoomEntries(stats: seq<TypeStats>, rooms: seq<Room>, room: Room, busy: set<int>)
    requires Summarises(stats, rooms, busy)
    ensures forall i :: 0 <= i < |AddRoom(stats, room, busy)| ==> EntryMatches(AddRoom(stats, room, busy)[i], rooms + [room], busy)
  {
    var stats' := AddRoom(stats, room, busy);
    forall i | 0 <= i < |stats'| ensures EntryMatches(stats'[i], rooms + [room], busy) {
      var tid := stats'[i].id;
      FreeIdsOfTypeSnoc(rooms, room, busy, tid);
      FirstFreeOfTypeSnoc(rooms, room, busy, tid);
      if i < |stats| {
        assert EntryMatches(stats[i], rooms, busy);
      } else {
        NoEntryNoFreeRoom(stats, rooms, busy, tid);
        FreeIdsEmptyWithoutFirst(rooms, busy, tid);
      }
    }
  }

  lemma AddRoomCovers(stats: seq<TypeStats>, rooms: seq<Room>, room: Room, busy: set<int>)
    requires CoversFree(stats, rooms, busy)
    ensures CoversFree(AddRoom(stats, room, busy), rooms + [room], busy)
  {
    var rooms' := rooms + [room];
    var stats' := AddRoom(stats, room, busy);
    forall k | 0 <= k < |rooms'| && IsFree(rooms'[k], busy)
      ensures exists i :: 0 <= i < |stats'| && stats'[i].id == rooms'[k].typeId
    {
      if k < |rooms| {
        assert rooms'[k] == rooms[k];
        var i :| 0 <= i < |stats| && stats[i].id == rooms[k].typeId;
        assert stats'[i].id == rooms[k].typeId;
      } else if IndexOfType(stats, room.typeId).None? {
        assert stats'[|stats|].id == room.typeId;
      } else {
        var i := IndexOfType(stats, room.typeId).value;
        assert stats'[i].id == room.typeId;
      }
    }
  }

  /** A type without an entry has no free room so far. */
  lemma NoEntryNoFreeRoom(stats: seq<TypeStats>, rooms: seq<Room>, busy: set<int>, tid: int)
    requires Summarises(stats, rooms, busy)
    requires IndexOfType(stats, tid).None?
    ensures FirstFreeOfType(rooms, busy, tid).None?
  {
    if FirstFreeOfType(rooms, busy, tid).Some? {
      FirstFreeIsMember(rooms, busy, tid);
      assert false;
    }
  }

  lemma {:induction false} FirstFreeIsMember(rooms: seq<Room>, busy: set<int>, tid: int)
    requires FirstFreeOfType(rooms, busy, tid).Some?
    ensures exists k :: 0 <= k < |rooms| && rooms[k] == FirstFreeOfType(rooms, busy, tid).value && IsFree(rooms[k], busy)
    ensures FirstFreeOfType(rooms, busy, tid).value.typeId == tid
    decreases |rooms|
  {
    if !(IsFree(rooms[0], busy) && rooms[0].typeId == tid) {
      FirstFreeIsMember(rooms[1..], busy, tid);
      var k :| 0 <= k < |rooms[1..]| && rooms[1..][k] == FirstFreeOfType(rooms[1..], busy, tid).value
        && IsFree(rooms[1..][k], busy);
      assert rooms[k + 1] == rooms[1..][k];
    }
  }

  /**
   * services.py `analyze_availability`: one entry per room type that has a
   * free room, ids distinct, each listing exactly the free rooms of its type in
   * encounter order, with `count` equal to the list's length and the type data
   * of the first such room.
   */
  function AnalyzeAvailability(allRooms: seq<Room>, conflictIds: seq<int>): (r: seq<TypeStats>)
    ensures Summarises(r, allRooms, Busy(conflictIds))
    decreases |allRooms|
  {
    var busy := Busy(conflictIds);
    if |allRooms| == 0 then []
    else
      var prefix := allRooms[..|allRooms| - 1];
      var last := allRooms[|allRooms| - 1];
      var stats := AnalyzeAvailability(prefix, conflictIds);
      assert prefix + [last] == allRooms;
      AddRoomSummarises(stats, prefix, last, busy);
      AddRoom(stats, last, busy)
  }

  lemma {:induction false} FreeIdsMembership(rooms: seq<Room>, busy: set<int>, tid: int, id: int)
    ensures id in FreeIdsOfType(rooms, busy, tid)
        <==> exists j :: 0 <= j < |rooms| && rooms[j].id == id && rooms[j].typeId == tid && IsFree(rooms[j], busy)
    decreases |rooms|
  {
    if |rooms| > 0 {
      FreeIdsMembership(rooms[1..], busy, tid, id);
      if exists j :: 0 <= j < |rooms[1..]| && rooms[1..][j].id == id && rooms[1..][j].typeId == tid && IsFree(rooms[1..][j], busy) {
        var j :| 0 <= j < |rooms[1..]| && rooms[1..][j].id == id && rooms[1..][j].typeId == tid && IsFree(rooms[1..][j], busy);
        assert rooms[j + 1] == rooms[1..][j];
      }
      if exists j :: 0 <= j < |rooms| && rooms[j].id == id && rooms[j].typeId == tid && IsFree(rooms[j], busy) {
        var j :| 0 <= j < |rooms| && rooms[j].id == id && rooms[j].typeId == tid && IsFree(rooms[j], busy);
        if j > 0 {
          assert rooms[1..][j - 1] == rooms[j];
        }
      }
    }
  }

  /**
   * The filter rule as seen from one room (utils.py states it over dict rows):
   * with room numbers unique, a room is listed under its own type exactly when
   * it is not busy and not under maintenance; no id is listed under a type
   * it does not belong to.
   */
  lemma ListedIffFree(allRooms: seq<Room>, conflictIds: seq<int>, k: int)
    requires forall i, j :: 0 <= i < j < |allRooms| ==> allRooms[i].id != allRooms[j].id
    requires 0 <= k < |allRooms|
    ensures var stats := AnalyzeAvailability(allRooms, conflictIds);
      (exists i :: 0 <= i < |stats| && stats[i].id == allRooms[k].typeId && allRooms[k].id in stats[i].roomIds)
      <==> allRooms[k].id !in conflictIds && allRooms[k].status != Maintenance
    ensures var stats := AnalyzeAvailability(allRooms, conflictIds);
      forall i :: 0 <= i < |stats| && stats[i].id != allRooms[k].typeId ==> allRooms[k].id !in stats[i].roomIds
  {
    var busy := Busy(conflictIds);
    ListedOnlyIfFree(allRooms, conflictIds, k);
    if IsFree(allRooms[k], busy) {
      var i := FreeRoomListed(allRooms, conflictIds, k);
    }
  }

  /** A room id appears in an entry only if the entry is for the room's own type and the room is free. */
  lemma ListedOnlyIfFree(allRooms: seq<Room>, conflictIds: seq<int>, k: int)
    requires forall i, j :: 0 <= i < j < |allRooms| ==> allRooms[i].id != allRooms[j].id
    requires 0 <= k < |allRooms|
    ensures var stats := AnalyzeAvailability(allRooms, conflictIds);
      forall i :: 0 <= i < |stats| ==>
        (allRooms[k].id in stats[i].roomIds <==> stats[i].id == allRooms[k].typeId && IsFree(allRooms[k], Busy(conflictIds)))
  {
    var busy := Busy(conflictIds);
    var stats := AnalyzeAvailability(allRooms, conflictIds);
    forall i | 0 <= i < |stats|
      ensures allRooms[k].id in stats[i].roomIds <==> stats[i].id == allRooms[k].typeId && IsFree(allRooms[k], busy)
    {
      FreeIdsMembership(allRooms, busy, stats[i].id, allRooms[k].id);
    }
  }

  /** A free room is listed in the entry of its type, which the result has; `i` is that entry. */
  lemma FreeRoomListed(allRooms: seq<Room>, conflictIds: seq<int>, k: int) returns (i: nat)
    requires 0 <= k < |allRooms| && IsFree(allRooms[k], Busy(conflictIds))
    ensures var stats := AnalyzeAvailability(allRooms, conflictIds);
      i < |stats| && stats[i].id == allRooms[k].typeId && allRooms[k].id in stats[i].roomIds
  {
    var busy := Busy(conflictIds);
    var stats := AnalyzeAvailability(allRooms, conflictIds);
    assert CoversFree(stats, allRooms, busy);
    i :| 0 <= i < |stats| && stats[i].id == allRooms[k].typeId;
    assert stats[i].roomIds == FreeIdsOfType(allRooms, busy, stats[i].id);
    FreeIdsMembership(allRooms, busy, stats[i].id, allRooms[k].id);
    assert allRooms[k].typeId == stats[i].id && IsFree(allRooms[k], busy);
  }
}
