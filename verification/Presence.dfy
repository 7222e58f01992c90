/**
 Who is present on which channel. `Registry` is the abstract state and its
 operations; `PresenceRegistry` is the class that updates it in place.
 */
module Presences {
  import opened Seqs
  import opened JsMaps
  import opened Realtime

  /** The identity of a connection. */
  type Conn = nat
  type Room = JsMap<Conn, Presence>
  type Rooms = JsMap<string, Room>

  /** `map.delete(conn)` on one channel, dropping the channel's map once empty. */
  function LeaveRoom(rooms: Rooms, channel: string, conn: Conn): Rooms {
    if channel !in rooms.vals || conn !in rooms.vals[channel].vals then rooms
    else
      var room := rooms.vals[channel].Delete(conn);
      if room.order == [] then rooms.Delete(channel) else rooms.Set(channel, room)
  }

  predicate IsIn(rooms: Rooms, channel: string, conn: Conn) {
    channel in rooms.vals && conn in rooms.vals[channel].vals
  }

  function Hosting(rooms: Rooms, conn: Conn): string -> bool {
    (channel: string) => IsIn(rooms, channel, conn)
  }

  /** Leaves the channels one after the other, in the order given. */
  function LeaveRooms(rooms: Rooms, channels: seq<string>, conn: Conn): Rooms {
    if channels == [] then rooms
    else LeaveRoom(LeaveRooms(rooms, channels[..|channels| - 1], conn), channels[|channels| - 1], conn)
  }

  datatype Registry = Registry(rooms: Rooms, refs: map<Conn, nat>, nextRef: nat) {

    function RefFor(conn: Conn): nat {
      if conn in refs then refs[conn] else nextRef
    }

    function WithRef(conn: Conn): Registry {
      if conn in refs then this else Registry(rooms, refs[conn := nextRef], nextRef + 1)
    }

    function RoomOf(channel: string): Room {
      if channel in rooms.vals then rooms.vals[channel] else Entries([], map[])
    }

    function Track(channel: string, conn: Conn, sub: string, state: Json): Registry {
      var r := WithRef(conn);
      r.(rooms := rooms.Set(channel, RoomOf(channel).Set(conn, Presence(RefFor(conn), sub, state))))
    }

    function Untrack(channel: string, conn: Conn): Registry {
      this.(rooms := LeaveRoom(rooms, channel, conn))
    }

    /** The channels `conn` is on, in the order the channels were opened. */
    function ChannelsOf(conn: Conn): seq<string> {
      Seqs.Filter(rooms.order, Hosting(rooms, conn))
    }

    function RemoveConnection(conn: Conn): Registry {
      Registry(LeaveRooms(rooms, rooms.order, conn), refs - {conn}, nextRef)
    }

    function Snapshot(channel: string): seq<Presence> {
      RoomOf(channel).Values()
    }

    /** No empty channel is kept; references are distinct, issued, and on every entry. */
    ghost predicate Valid() {
      && NoEmptyRoom(rooms)
      && (forall ch, c :: IsIn(rooms, ch, c) ==> c in refs && rooms.vals[ch].vals[c].ref == refs[c])
      && 1 <= nextRef
      && (forall c :: c in refs ==> 1 <= refs[c] < nextRef)
      && (forall c, d :: c in refs && d in refs && refs[c] == refs[d] ==> c == d)
    }
  }

  ghost predicate NoEmptyRoom(rooms: Rooms) {
    forall ch :: ch in rooms.vals ==> rooms.vals[ch].order != []
  }

  lemma LeaveRoomEffect(rooms: Rooms, channel: string, conn: Conn)
    ensures var after := LeaveRoom(rooms, channel, conn);
            && !IsIn(after, channel, conn)
            && (forall ch, c :: IsIn(after, ch, c) <==> IsIn(rooms, ch, c) && !(ch == channel && c == conn))
            && (forall ch, c :: IsIn(after, ch, c) ==> after.vals[ch].vals[c] == rooms.vals[ch].vals[c])
            && (forall ch :: ch != channel ==> (ch in after.vals <==> ch in rooms.vals))
            && (forall ch :: ch != channel && ch in after.vals ==> after.vals[ch] == rooms.vals[ch])
            && (NoEmptyRoom(rooms) ==> NoEmptyRoom(after))
    ensures !IsIn(rooms, channel, conn) ==> LeaveRoom(rooms, channel, conn) == rooms
  {
    if IsIn(rooms, channel, conn) {
      var room := rooms.vals[channel].Delete(conn);
      room.EmptyBothWays();
    }
  }

  lemma {:induction false} LeaveRoomsEffect(rooms: Rooms, channels: seq<string>, conn: Conn)
    requires NoEmptyRoom(rooms)
    ensures var after := LeaveRooms(rooms, channels, conn);
            && (forall ch, c :: IsIn(after, ch, c) <==> IsIn(rooms, ch, c) && !(ch in channels && c == conn))
            && (forall ch, c :: IsIn(after, ch, c) ==> after.vals[ch].vals[c] == rooms.vals[ch].vals[c])
            && NoEmptyRoom(after)
            && (forall ch :: !(ch in channels && IsIn(rooms, ch, conn)) ==>
                 (ch in after.vals <==> ch in rooms.vals) &&
                 (ch in after.vals ==> after.vals[ch] == rooms.vals[ch]))
  {
    if channels != [] {
      var init, last := channels[..|channels| - 1], channels[|channels| - 1];
      assert channels == init + [last];
      LeaveRoomsEffect(rooms, init, conn);
      LeaveRoomEffect(LeaveRooms(rooms, init, conn), last, conn);
    }
  }

  /** One turn of the loop that takes a connection out of every channel. */
  lemma LeaveNext(rooms: Rooms, channels: seq<string>, i: nat, conn: Conn)
    requires NoEmptyRoom(rooms)
    requires Distinct(channels) && i < |channels|
    ensures var channel, before := channels[i], LeaveRooms(rooms, channels[..i], conn);
            && (IsIn(before, channel, conn) <==> IsIn(rooms, channel, conn))
            && LeaveRooms(rooms, channels[..i + 1], conn) == LeaveRoom(before, channel, conn)
            && Seqs.Filter(channels[..i + 1], Hosting(rooms, conn)) ==
                 Seqs.Filter(channels[..i], Hosting(rooms, conn)) + if IsIn(rooms, channel, conn) then [channel] else []
  {
    assert channels[..i + 1][..i] == channels[..i];
    assert channels[i] !in channels[..i];
    LeaveRoomsEffect(rooms, channels[..i], conn);
  }

  lemma WithRefValid(r: Registry, conn: Conn)
    requires r.Valid()
    ensures r.WithRef(conn).Valid()
    ensures conn in r.WithRef(conn).refs && r.WithRef(conn).refs[conn] == r.RefFor(conn)
  {
  }

  lemma TrackEffect(r: Registry, channel: string, conn: Conn, sub: string, state: Json)
    ensures var after := r.Track(channel, conn, sub, state);
            && (forall ch, c :: IsIn(after.rooms, ch, c) <==> IsIn(r.rooms, ch, c) || (ch == channel && c == conn))
            && (forall ch, c :: IsIn(after.rooms, ch, c) && !(ch == channel && c == conn) ==>
                 after.rooms.vals[ch].vals[c] == r.rooms.vals[ch].vals[c])
            && after.rooms.vals[channel].vals[conn] == Presence(r.RefFor(conn), sub, state)
            && (forall ch :: ch != channel ==> after.RoomOf(ch) == r.RoomOf(ch))
            && (forall c :: c in after.refs <==> c in r.refs || c == conn)
  {
  }

  lemma TrackValid(r: Registry, channel: string, conn: Conn, sub: string, state: Json)
    requires r.Valid()
    ensures r.Track(channel, conn, sub, state).Valid()
  {
    var after := r.Track(channel, conn, sub, state);
    WithRefValid(r, conn);
    TrackEffect(r, channel, conn, sub, state);
    assert after.refs == r.WithRef(conn).refs && after.nextRef == r.WithRef(conn).nextRef;
    forall ch | ch in after.rooms.vals ensures after.rooms.vals[ch].order != [] {
      if ch == channel {
        assert conn in after.rooms.vals[ch].order;
      }
    }
    forall ch, c | IsIn(after.rooms, ch, c)
      ensures c in after.refs && after.rooms.vals[ch].vals[c].ref == after.refs[c]
    {
    }
  }

  lemma UntrackEffect(r: Registry, channel: string, conn: Conn)
    requires r.Valid()
    ensures var after := r.Untrack(channel, conn);
            && after.Valid()
            && (forall ch, c :: IsIn(after.rooms, ch, c) <==> IsIn(r.rooms, ch, c) && !(ch == channel && c == conn))
            && (forall ch, c :: IsIn(after.rooms, ch, c) ==> after.rooms.vals[ch].vals[c] == r.rooms.vals[ch].vals[c])
            && (forall ch :: ch != channel ==> after.RoomOf(ch) == r.RoomOf(ch))
            && (!IsIn(r.rooms, channel, conn) ==> after == r)
  {
    LeaveRoomEffect(r.rooms, channel, conn);
  }

  lemma RemoveEffect(r: Registry, conn: Conn)
    requires r.Valid()
    ensures var after := r.RemoveConnection(conn);
            && after.Valid()
            && (forall ch, c :: IsIn(after.rooms, ch, c) <==> IsIn(r.rooms, ch, c) && c != conn)
            && (forall ch, c :: IsIn(after.rooms, ch, c) ==> after.rooms.vals[ch].vals[c] == r.rooms.vals[ch].vals[c])
            && (forall ch :: !IsIn(r.rooms, ch, conn) ==> after.RoomOf(ch) == r.RoomOf(ch))
            && (forall ch :: ch in r.ChannelsOf(conn) <==> IsIn(r.rooms, ch, conn))
  {
    LeaveRoomsEffect(r.rooms, r.rooms.order, conn);
    assert forall ch :: ch in r.rooms.order <==> ch in r.rooms.vals;
  }

  class PresenceRegistry {
    var rooms: Rooms
    var refs: map<Conn, nat>
    var nextRef: nat

    function State(): Registry
      reads this
    {
      Registry(rooms, refs, nextRef)
    }

    constructor ()
      ensures State() == Registry(Entries([], map[]), map[], 1)
      ensures State().Valid()
    {
      rooms, refs, nextRef := Entries([], map[]), map[], 1;
    }

    method RefFor(conn: Conn) returns (ref: nat)
      modifies this
      ensures State() == old(State()).WithRef(conn) && ref == old(State()).RefFor(conn)
    {
      if conn in refs {
        return refs[conn];
      }
      ref := nextRef;
      nextRef := nextRef + 1;
      refs := refs[conn := ref];
    }

    method Track(channel: string, conn: Conn, sub: string, state: Json) returns (entry: Presence)
      modifies this
      ensures State() == old(State()).Track(channel, conn, sub, state)
      ensures entry == Presence(old(State()).RefFor(conn), sub, state)
    {
      var room: Room := Entries([], map[]);
      if channel in rooms.vals {
        room := rooms.vals[channel];
      }
      var ref := RefFor(conn);
      entry := Presence(ref, sub, state);
      rooms := rooms.Set(channel, room.Set(conn, entry));
    }

    method Untrack(channel: string, conn: Conn) returns (removed: bool)
      requires NoEmptyRoom(rooms)
      modifies this
      ensures State() == old(State()).Untrack(channel, conn)
      ensures removed == IsIn(old(rooms), channel, conn)
    {
      removed := false;
      if channel in rooms.vals {
        var room := rooms.vals[channel];
        removed := conn in room.vals;
        room := room.Delete(conn);
        rooms := if room.order == [] then rooms.Delete(channel) else rooms.Set(channel, room);
      }
    }

    /** `map.delete(conn)` on one channel: was it there? */
    method Leave(channel: string, conn: Conn) returns (hit: bool)
      modifies this`rooms
      ensures rooms == LeaveRoom(old(rooms), channel, conn) && hit == IsIn(old(rooms), channel, conn)
    {
      hit := channel in rooms.vals && conn in rooms.vals[channel].vals;
      if hit {
        var room := rooms.vals[channel].Delete(conn);
        rooms := if room.order == [] then rooms.Delete(channel) else rooms.Set(channel, room);
      }
    }

    /** Leaves the channels in turn, listing those it was on. */
    method LeaveAll(channels: seq<string>, conn: Conn) returns (left: seq<string>)
      requires NoEmptyRoom(rooms) && Distinct(channels)
      modifies this`rooms
      ensures rooms == LeaveRooms(old(rooms), channels, conn)
      ensures left == Seqs.Filter(channels, Hosting(old(rooms), conn))
    {
      ghost var was := rooms;
      left := [];
      for i := 0 to |channels|
        invariant rooms == LeaveRooms(was, channels[..i], conn)
        invariant left == Seqs.Filter(channels[..i], Hosting(was, conn))
      {
        LeaveNext(was, channels, i, conn);
        var hit := Leave(channels[i], conn);
        if hit {
          left := left + [channels[i]];
        }
      }
      assert channels[..|channels|] == channels;
    }

    method RemoveConnection(conn: Conn) returns (left: seq<string>)
      requires NoEmptyRoom(rooms)
      modifies this
      ensures State() == old(State()).RemoveConnection(conn)
      ensures left == old(State()).ChannelsOf(conn)
    {
      left := LeaveAll(rooms.order, conn);
      refs := refs - {conn};
    }
  }
}
