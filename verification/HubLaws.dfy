/**
 Who receives what, told frame by frame: each rule is spelled out on roles, rows and
 values, apart from the functions that the hub decides with.
 */
module HubLaws {
  import opened Seqs
  import opened JsMaps
  import opened Realtime
  import opened Presences
  import opened HubModel

  // ---- changes ------------------------------------------------------------------------

  predicate IsAdmin(claims: Claims) {
    claims.role == "service" || claims.role == "laetoli_admin"
  }

  /** The row of a change: what is there now, or else what was. */
  function ChangedRow(note: Notification): Option<Row> {
    match note.record
    case Some(row) => Some(row)
    case None => note.old_
  }

  /** `column` is the first of the owner columns that the row has. */
  predicate IsOwnerColumn(columns: seq<string>, row: Row, column: string) {
    column in row && exists i :: 0 <= i < |columns| && columns[i] == column && column !in columns[..i] && forall j :: 0 <= j < i ==> columns[j] !in row
  }

  /** A string, or a number written like it. */
  predicate IsTextOf(v: Json, text: string) {
    v == JStr(text) || v == JNum(text)
  }

  predicate SameValue(a: Json, b: Json) {
    a == b || (a.JStr? && IsTextOf(b, a.s)) || (a.JNum? && IsTextOf(b, a.text))
  }

  /** Admins see every change; others none that is truncated, and of an owned row only its owner. */
  ghost predicate MaySee(columns: seq<string>, claims: Claims, note: Notification) {
    || IsAdmin(claims)
    || (!note.truncated &&
        forall column :: ChangedRow(note).Some? && IsOwnerColumn(columns, ChangedRow(note).value, column) ==>
          IsTextOf(ChangedRow(note).value[column], claims.sub))
  }

  /** The subscription asks for this event, and for a row with this value if it names one. */
  predicate AsksFor(sub: Subscription, note: Notification) {
    && (sub.event == AnyEvent || sub.event == Only(note.event))
    && match sub.filter
       case None => true
       case Some(f) => ChangedRow(note).Some? && f.column in ChangedRow(note).value && SameValue(ChangedRow(note).value[f.column], f.value)
  }

  lemma OwnerGate(columns: seq<string>, claims: Claims, note: Notification)
    ensures PassesOwnerGate(claims, note, columns) <==> MaySee(columns, claims, note)
  {
    if ChangedRow(note).Some? {
      var row := ChangedRow(note).value;
      forall i: nat | FirstOwnerColumn(columns, row, i) ensures IsOwnerColumn(columns, row, columns[i]) {
        assert columns[i] !in columns[..i];
      }
      forall column | IsOwnerColumn(columns, row, column) ensures exists i: nat :: FirstOwnerColumn(columns, row, i) && columns[i] == column {
        var i :| 0 <= i < |columns| && columns[i] == column && forall j :: 0 <= j < i ==> columns[j] !in row;
        assert FirstOwnerColumn(columns, row, i);
      }
    }
  }

  lemma FilterRule(f: Filter, note: Notification)
    ensures MatchesFilter(f, note) <==>
              ChangedRow(note).Some? && f.column in ChangedRow(note).value && SameValue(ChangedRow(note).value[f.column], f.value)
  {
  }

  lemma AsksRule(sub: Subscription, note: Notification)
    ensures MatchesEvent(sub.event, note) && (sub.filter.Some? ==> MatchesFilter(sub.filter.value, note)) <==> AsksFor(sub, note)
  {
    if sub.filter.Some? {
      FilterRule(sub.filter.value, note);
    }
  }

  /** Whether a client hears of a change, spelled out. */
  ghost predicate Hears(cfg: Config, client: ClientState, note: Notification) {
    && note.table in client.subs
    && MaySee(cfg.ownerColumns, client.claims, note)
    && AsksFor(client.subs[note.table], note)
  }

  lemma HearsRule(cfg: Config, client: ClientState, note: Notification)
    ensures Receives(cfg, client, note) <==> Hears(cfg, client, note)
  {
    if note.table in client.subs {
      OwnerGate(cfg.ownerColumns, client.claims, note);
      AsksRule(client.subs[note.table], note);
    }
  }

  lemma DispatchReaches(cfg: Config, s: HubState, note: Notification, down: set<Conn>, c: Conn)
    ensures FramesTo(Step(cfg, s, Notify(note, down)).log, c) == FramesTo(s.log, c) +
              if c in s.clients.vals && Hears(cfg, s.clients.vals[c], note) && c !in down
              then [Change(note.table, note.event, note.record, note.old_, note.truncated)] else []
  {
    DispatchIsExact(cfg, s, note, down, c);
    if c in s.clients.vals {
      HearsRule(cfg, s.clients.vals[c], note);
    }
  }

  /**
   In every state of the hub, a change reaches a connection in exactly one frame if it is
   subscribed to the table, may see the row, and asked for the event and the value; and in
   no frame otherwise. The frame carries the change as it was notified.
   */
  lemma ChangeReachesExactly(cfg: Config, s: HubState, note: Notification, down: set<Conn>, c: Conn)
    ensures FramesTo(Step(cfg, s, Notify(note, down)).log, c) == FramesTo(s.log, c) +
              if c in s.clients.vals && c !in down
                 && note.table in s.clients.vals[c].subs
                 && MaySee(cfg.ownerColumns, s.clients.vals[c].claims, note)
                 && AsksFor(s.clients.vals[c].subs[note.table], note)
              then [Change(note.table, note.event, note.record, note.old_, note.truncated)] else []
  {
    DispatchReaches(cfg, s, note, down, c);
  }

  lemma OwnerMaySee(columns: seq<string>, claims: Claims, note: Notification, i: nat, owner: string)
    requires !note.truncated && ChangedRow(note).Some? && i < |columns| && columns[i] in ChangedRow(note).value
    requires forall j :: 0 <= j < i ==> columns[j] !in ChangedRow(note).value
    requires IsTextOf(ChangedRow(note).value[columns[i]], owner)
    ensures MaySee(columns, claims, note) <==> IsAdmin(claims) || claims.sub == owner
  {
    assert columns[i] !in columns[..i];
    assert IsOwnerColumn(columns, ChangedRow(note).value, columns[i]);
  }

  /** A change whose owner column holds a text reaches that owner and the admins, and nobody else. */
  lemma OwnedChangeReachesOwner(cfg: Config, s: HubState, note: Notification, down: set<Conn>, c: Conn, i: nat, owner: string)
    requires c in s.clients.vals && note.table in s.clients.vals[c].subs && c !in down
    requires !note.truncated && ChangedRow(note).Some? && i < |cfg.ownerColumns| && cfg.ownerColumns[i] in ChangedRow(note).value
    requires forall j :: 0 <= j < i ==> cfg.ownerColumns[j] !in ChangedRow(note).value
    requires IsTextOf(ChangedRow(note).value[cfg.ownerColumns[i]], owner)
    ensures var client := s.clients.vals[c];
            |FramesTo(Step(cfg, s, Notify(note, down)).log, c)| == |FramesTo(s.log, c)| +
              if (IsAdmin(client.claims) || client.claims.sub == owner) && AsksFor(client.subs[note.table], note) then 1 else 0
  {
    OwnerMaySee(cfg.ownerColumns, s.clients.vals[c].claims, note, i, owner);
    DispatchReaches(cfg, s, note, down, c);
  }

  /** The owner cannot be told: the change is truncated, or its first owner column holds no text. */
  predicate IsWithoutOwner(columns: seq<string>, note: Notification, i: nat) {
    || note.truncated
    || (&& ChangedRow(note).Some? && i < |columns| && columns[i] in ChangedRow(note).value
        && (forall j :: 0 <= j < i ==> columns[j] !in ChangedRow(note).value)
        && !ChangedRow(note).value[columns[i]].JStr? && !ChangedRow(note).value[columns[i]].JNum?)
  }

  lemma OnlyAdminsMaySee(columns: seq<string>, claims: Claims, note: Notification, i: nat)
    requires IsWithoutOwner(columns, note, i)
    ensures MaySee(columns, claims, note) <==> IsAdmin(claims)
  {
    if !note.truncated {
      assert columns[i] !in columns[..i];
      assert IsOwnerColumn(columns, ChangedRow(note).value, columns[i]);
    }
  }

  /** A change without an owner that can be told reaches admins only. */
  lemma UnownedChangeReachesAdmins(cfg: Config, s: HubState, note: Notification, down: set<Conn>, c: Conn, i: nat)
    requires IsWithoutOwner(cfg.ownerColumns, note, i)
    requires c in s.clients.vals && note.table in s.clients.vals[c].subs && c !in down
    ensures var client := s.clients.vals[c];
            |FramesTo(Step(cfg, s, Notify(note, down)).log, c)| == |FramesTo(s.log, c)| +
              if IsAdmin(client.claims) && AsksFor(client.subs[note.table], note) then 1 else 0
  {
    OnlyAdminsMaySee(cfg.ownerColumns, s.clients.vals[c].claims, note, i);
    DispatchReaches(cfg, s, note, down, c);
  }

  // ---- commands -----------------------------------------------------------------------------

  // ---- what a message asks for -------------------------------------------------------------------

  predicate HasText(m: Json, field: string, text: string) {
    Field(m, field) == Some(JStr(text))
  }

  /** No event, null and "*" all ask for every event. */
  predicate AsksForEvent(v: Option<Json>, event: EventFilter) {
    match event
    case AnyEvent => v == None || v == Some(JNull) || v == Some(JStr("*"))
    case Only(INSERT) => v == Some(JStr("INSERT"))
    case Only(UPDATE) => v == Some(JStr("UPDATE"))
    case Only(DELETE) => v == Some(JStr("DELETE"))
  }

  predicate AsksForFilter(v: Option<Json>, filter: Option<Filter>) {
    match filter
    case None => v == None || v == Some(JNull)
    case Some(f) =>
      v.Some? && f.column != "" && HasText(v.value, "column", f.column) && Field(v.value, "value") == Some(f.value)
  }

  predicate IsOn(m: Json, kind: string, channel: string) {
    HasText(m, "type", kind) && channel != "" && HasText(m, "channel", channel)
  }

  /** What a message asks for, field by field. */
  predicate Means(m: Json, command: Command) {
    match command
    case Subscribe(sub) =>
      IsOn(m, "subscribe", sub.channel) && AsksForEvent(Field(m, "event"), sub.event) && AsksForFilter(Field(m, "filter"), sub.filter)
    case Unsubscribe(channel) => IsOn(m, "unsubscribe", channel)
    case Relay(channel, name, payload) =>
      IsOn(m, "broadcast", channel) && name != "" && HasText(m, "event", name) && payload == Field(m, "payload")
    case Track(channel, state) =>
      && IsOn(m, "presence_track", channel)
      && (Field(m, "state") == Some(state) || state == JObj([]))
      && (Field(m, "state") == Some(state) <==> Field(m, "state").Some? && Field(m, "state").value.JObj?)
    case Untrack(channel) => IsOn(m, "presence_untrack", channel)
    case Authenticate => HasText(m, "type", "auth")
    case Reject(_) => false
  }

  lemma EventIsRead(v: Option<Json>, event: EventFilter)
    ensures AsksForEvent(v, event) <==> DecodeEvent(v) == Some(event)
  {
  }

  lemma SubscriptionIsRead(m: Json, sub: Subscription)
    requires sub.channel != ""
    ensures DecodeSubscribe(m, sub.channel) == Subscribe(sub) <==>
              AsksForEvent(Field(m, "event"), sub.event) && AsksForFilter(Field(m, "filter"), sub.filter)
  {
    EventIsRead(Field(m, "event"), sub.event);
  }

  lemma SubscribeIsRead(m: Json, sub: Subscription)
    ensures Decode(Some(m)) == Subscribe(sub) <==> Means(m, Subscribe(sub))
  {
    if sub.channel != "" {
      SubscriptionIsRead(m, sub);
    }
  }

  lemma RelayIsRead(m: Json, channel: string, name: string, payload: Option<Json>)
    ensures Decode(Some(m)) == Relay(channel, name, payload) <==> Means(m, Relay(channel, name, payload))
  {
  }

  lemma TrackIsRead(m: Json, channel: string, state: Json)
    ensures Decode(Some(m)) == Track(channel, state) <==> Means(m, Track(channel, state))
  {
  }

  /** A message is read as a command exactly if it means that command. */
  lemma CommandIsRead(m: Json, command: Command)
    requires !command.Reject?
    ensures Decode(Some(m)) == command <==> Means(m, command)
  {
    match command
    case Subscribe(sub) => SubscribeIsRead(m, sub);
    case Relay(channel, name, payload) => RelayIsRead(m, channel, name, payload);
    case Track(channel, state) => TrackIsRead(m, channel, state);
    case Unsubscribe(_) =>
    case Untrack(_) =>
    case Authenticate =>
  }

  // ---- what each message does ---------------------------------------------------------------------

  /** A registered connection's message has the effect of its command. */
  lemma MeantIsObeyed(cfg: Config, s: HubState, c: Conn, m: Json, command: Command, down: set<Conn>)
    requires Means(m, command) && c in s.clients.vals
    ensures Step(cfg, s, Inbound(c, Some(m), down)) == s.(flaky := s.flaky + down).Obey(cfg, c, command, down)
  {
    CommandIsRead(m, command);
  }

  lemma PushOne(s: HubState, c: Conn, frame: Frame, down: set<Conn>, d: Conn)
    ensures FramesTo(s.Push([c], frame, down).log, d) == FramesTo(s.log, d) + if d == c && c !in down then [frame] else []
  {
    DeliverOnce(s.log, [c], frame, down, d);
  }

  /** An announcement sends each live subscriber of the channel one roster frame. */
  lemma AnnounceIsExact(s: HubState, channel: string, kind: PresenceEvent, down: set<Conn>, d: Conn)
    ensures FramesTo(s.Announce(channel, kind, down).log, d) == FramesTo(s.log, d) +
              if IsSubscribed(s.clients, d, channel) && d !in down then [Roster(channel, kind, s.presence.Snapshot(channel))] else []
  {
    FilterDistinct(s.clients.order, SubscribedTo(s.clients, channel));
    SubscribersAre(s.clients, channel);
    DeliverOnce(s.log, Subscribers(s.clients, channel), Roster(channel, kind, s.presence.Snapshot(channel)), down, d);
  }

  /**
   Subscribing keeps exactly what was asked for, leaves every other subscription alone, and
   answers the sender with an acknowledgement and the roster, and nobody else.
   */
  lemma SubscribeKeepsWhatWasAsked(cfg: Config, s: HubState, c: Conn, m: Json, sub: Subscription, down: set<Conn>, d: Conn)
    requires Means(m, Subscribe(sub)) && c in s.clients.vals
    ensures var after := Step(cfg, s, Inbound(c, Some(m), down));
            && after.clients.vals == s.clients.vals[c := ClientState(s.clients.vals[c].claims, s.clients.vals[c].subs[sub.channel := sub])]
            && after.clients.order == s.clients.order && after.presence == s.presence
            && FramesTo(after.log, d) == FramesTo(s.log, d) +
                 if d == c && c !in down then [Subscribed(sub.channel), Roster(sub.channel, Sync, s.presence.Snapshot(sub.channel))] else []
  {
    MeantIsObeyed(cfg, s, c, m, Subscribe(sub), down);
    var s0 := s.(flaky := s.flaky + down);
    var s1 := s0.WithSubs(c, s.clients.vals[c].subs[sub.channel := sub]);
    PushOne(s1, c, Subscribed(sub.channel), down, d);
    PushOne(s1.Push([c], Subscribed(sub.channel), down), c, Roster(sub.channel, Sync, s.presence.Snapshot(sub.channel)), down, d);
  }

  /** Leaving a channel tells its subscribers the roster without the entry, if there was one. */
  lemma LeavingTells(s: HubState, c: Conn, channel: string, down: set<Conn>, d: Conn)
    ensures var after := s.Leaving(c, channel, down);
            && !IsIn(after.presence.rooms, channel, c)
            && FramesTo(after.log, d) == FramesTo(s.log, d) +
                 if IsIn(s.presence.rooms, channel, c) && IsSubscribed(s.clients, d, channel) && d !in down
                 then [Roster(channel, Leave, after.presence.Snapshot(channel))] else []
  {
    LeaveRoomEffect(s.presence.rooms, channel, c);
    if IsIn(s.presence.rooms, channel, c) {
      AnnounceIsExact(s.(presence := s.presence.Untrack(channel, c)), channel, Leave, down, d);
    }
  }

  /**
   Unsubscribing drops that subscription alone, acknowledges it to the sender, and tells the
   other subscribers that the sender left if it was present.
   */
  lemma UnsubscribeDrops(cfg: Config, s: HubState, c: Conn, m: Json, channel: string, down: set<Conn>, d: Conn)
    requires Means(m, Unsubscribe(channel)) && c in s.clients.vals
    ensures var after := Step(cfg, s, Inbound(c, Some(m), down));
            && after.clients.vals == s.clients.vals[c := ClientState(s.clients.vals[c].claims, s.clients.vals[c].subs - {channel})]
            && !IsIn(after.presence.rooms, channel, c)
            && FramesTo(after.log, d) == FramesTo(s.log, d) +
                 (if d == c && c !in down then [Unsubscribed(channel)] else []) +
                 (if d != c && IsIn(s.presence.rooms, channel, c) && IsSubscribed(s.clients, d, channel) && d !in down
                  then [Roster(channel, Leave, after.presence.Snapshot(channel))] else [])
  {
    MeantIsObeyed(cfg, s, c, m, Unsubscribe(channel), down);
    var s1 := s.(flaky := s.flaky + down).WithSubs(c, s.clients.vals[c].subs - {channel});
    PushOne(s1, c, Unsubscribed(channel), down, d);
    LeavingTells(s1.Push([c], Unsubscribed(channel), down), c, channel, down, d);
  }

  /** A broadcast reaches each other live subscriber once as it was sent, and the sender only if so configured. */
  lemma BroadcastReaches(cfg: Config, s: HubState, c: Conn, m: Json, channel: string, name: string, payload: Option<Json>,
                         down: set<Conn>, d: Conn)
    requires Means(m, Relay(channel, name, payload)) && c in s.clients.vals
    ensures FramesTo(Step(cfg, s, Inbound(c, Some(m), down)).log, d) == FramesTo(s.log, d) +
              if IsSubscribed(s.clients, d, channel) && d !in down && (d != c || cfg.broadcastSelf)
              then [Broadcast(channel, name, payload, s.clients.vals[c].claims.sub)] else []
  {
    MeantIsObeyed(cfg, s, c, m, Relay(channel, name, payload), down);
    RelayIsExact(cfg, s.(flaky := s.flaky + down), c, channel, name, payload, down, d);
  }

  /** Tracking shows every subscriber the roster with the new entry, as a join. */
  lemma TrackTells(cfg: Config, s: HubState, c: Conn, m: Json, channel: string, state: Json, down: set<Conn>, d: Conn)
    requires Means(m, Track(channel, state)) && c in s.clients.vals
    ensures var after := Step(cfg, s, Inbound(c, Some(m), down));
            && IsIn(after.presence.rooms, channel, c)
            && after.presence.rooms.vals[channel].vals[c].state == state
            && after.presence.rooms.vals[channel].vals[c].sub == s.clients.vals[c].claims.sub
            && FramesTo(after.log, d) == FramesTo(s.log, d) +
                 if IsSubscribed(s.clients, d, channel) && d !in down then [Roster(channel, Join, after.presence.Snapshot(channel))] else []
  {
    MeantIsObeyed(cfg, s, c, m, Track(channel, state), down);
    var sub := s.clients.vals[c].claims.sub;
    TrackEffect(s.presence, channel, c, sub, state);
    AnnounceIsExact(s.(flaky := s.flaky + down, presence := s.presence.Track(channel, c, sub, state)), channel, Join, down, d);
  }

  /** Untracking shows every subscriber the roster without the entry, as a leave, if there was one. */
  lemma UntrackTells(cfg: Config, s: HubState, c: Conn, m: Json, channel: string, down: set<Conn>, d: Conn)
    requires Means(m, Untrack(channel)) && c in s.clients.vals
    ensures var after := Step(cfg, s, Inbound(c, Some(m), down));
            && !IsIn(after.presence.rooms, channel, c)
            && FramesTo(after.log, d) == FramesTo(s.log, d) +
                 if IsIn(s.presence.rooms, channel, c) && IsSubscribed(s.clients, d, channel) && d !in down
                 then [Roster(channel, Leave, after.presence.Snapshot(channel))] else []
  {
    MeantIsObeyed(cfg, s, c, m, Untrack(channel), down);
    LeavingTells(s.(flaky := s.flaky + down), c, channel, down, d);
  }

  /** A leave for each of the channels. */
  function Leaves(channels: seq<string>, presence: Registry): seq<Frame> {
    seq(|channels|, i requires 0 <= i < |channels| => Roster(channels[i], Leave, presence.Snapshot(channels[i])))
  }

  function HearsOf(clients: Clients, d: Conn): string -> bool {
    (channel: string) => IsSubscribed(clients, d, channel)
  }

  lemma LeavesNext(channels: seq<string>, last: string, presence: Registry)
    ensures Leaves(channels + [last], presence) == Leaves(channels, presence) + [Roster(last, Leave, presence.Snapshot(last))]
  {
  }

  /** Between the states, `d` was told of a leave on each of the channels it subscribes to. */
  ghost predicate ToldLeaves(s: HubState, after: HubState, channels: seq<string>, down: set<Conn>, d: Conn) {
    && after.clients == s.clients && after.presence == s.presence
    && FramesTo(after.log, d) == FramesTo(s.log, d) +
         if d in down then [] else Leaves(Seqs.Filter(channels, HearsOf(s.clients, d)), s.presence)
  }

  lemma NextLeave(s: HubState, t: HubState, channels: seq<string>, last: string, down: set<Conn>, d: Conn)
    requires ToldLeaves(s, t, channels, down, d)
    ensures ToldLeaves(s, t.Announce(last, Leave, down), channels + [last], down, d)
  {
    var heard := Seqs.Filter(channels, HearsOf(s.clients, d));
    AnnounceIsExact(t, last, Leave, down, d);
    FilterSnoc(channels, last, HearsOf(s.clients, d));
    LeavesNext(heard, last, s.presence);
    if d !in down && IsSubscribed(s.clients, d, last) {
      Associate(FramesTo(s.log, d), Leaves(heard, s.presence), [Roster(last, Leave, s.presence.Snapshot(last))]);
    }
  }

  lemma {:induction false} AnnounceAllTells(s: HubState, channels: seq<string>, down: set<Conn>, d: Conn, after: HubState)
    requires after == s.AnnounceAll(channels, Leave, down)
    ensures ToldLeaves(s, after, channels, down, d)
    decreases |channels|
  {
    if channels != [] {
      var init, last := channels[..|channels| - 1], channels[|channels| - 1];
      var t := s.AnnounceAll(init, Leave, down);
      assert after == t.Announce(last, Leave, down);
      AnnounceAllTells(s, init, down, d, t);
      NextLeave(s, t, init, last, down, d);
      assert init + [last] == channels;
    }
  }

  /**
   A connection that goes is registered and present nowhere, and every other live connection
   is told it left, once for each channel that it subscribes to and the other was on.
   */
  lemma DisconnectTells(cfg: Config, s: HubState, c: Conn, down: set<Conn>, d: Conn)
    requires s.presence.Valid() && d != c
    ensures var after := Step(cfg, s, Disconnect(c, down));
            && after.clients.vals == s.clients.vals - {c}
            && (forall channel :: !IsIn(after.presence.rooms, channel, c))
            && FramesTo(after.log, d) == FramesTo(s.log, d) +
                 if d in down then []
                 else Leaves(Seqs.Filter(Seqs.Filter(s.presence.rooms.order, (channel: string) => IsIn(s.presence.rooms, channel, c)),
                                         (channel: string) => IsSubscribed(s.clients, d, channel)), after.presence)
  {
    var gone := HubState(s.clients.Delete(c), s.presence.RemoveConnection(c), s.log, s.flaky + down);
    RemoveEffect(s.presence, c);
    AnnounceAllTells(gone, s.presence.ChannelsOf(c), down, d, Step(cfg, s, Disconnect(c, down)));
    FilterSame(s.presence.rooms.order, Hosting(s.presence.rooms, c), (channel: string) => IsIn(s.presence.rooms, channel, c));
    FilterSame(s.presence.ChannelsOf(c), HearsOf(gone.clients, d), (channel: string) => IsSubscribed(s.clients, d, channel));
  }

  /** A new connection is registered with its claims and no subscription; one that is known stays as it is. */
  lemma ConnectRegisters(cfg: Config, s: HubState, c: Conn, claims: Claims)
    ensures var after := Step(cfg, s, Connect(c, claims));
            && after.clients.vals == (if c in s.clients.vals then s.clients.vals else s.clients.vals[c := ClientState(claims, map[])])
            && after.presence == s.presence && after.log == s.log
  {
  }

  // ---- rosters, entry by entry --------------------------------------------------------------------

  lemma RoomAfterTrack(r: Registry, channel: string, c: Conn, sub: string, state: Json)
    ensures r.Track(channel, c, sub, state).RoomOf(channel) == r.RoomOf(channel).Set(c, Presence(r.RefFor(c), sub, state))
    ensures IsIn(r.rooms, channel, c) <==> c in r.RoomOf(channel).vals
  {
  }

  lemma ValuesSet(room: Room, c: Conn, entry: Presence, i: nat)
    requires c in room.vals ==> i < |room.order| && room.order[i] == c
    ensures room.Set(c, entry).Values() == if c in room.vals then room.Values()[i := entry] else room.Values() + [entry]
  {
    assert forall k :: 0 <= k < |room.order| ==> room.order[k] in room.vals;
  }

  /** A newcomer's entry is the last of the roster; a new state takes the place of the old one. */
  lemma RosterAfterTrack(r: Registry, channel: string, c: Conn, sub: string, state: Json, i: nat)
    requires IsIn(r.rooms, channel, c) ==> i < |r.RoomOf(channel).order| && r.RoomOf(channel).order[i] == c
    ensures r.Track(channel, c, sub, state).Snapshot(channel) ==
              if IsIn(r.rooms, channel, c) then r.Snapshot(channel)[i := Presence(r.RefFor(c), sub, state)]
              else r.Snapshot(channel) + [Presence(r.RefFor(c), sub, state)]
  {
    RoomAfterTrack(r, channel, c, sub, state);
    ValuesSet(r.RoomOf(channel), c, Presence(r.RefFor(c), sub, state), i);
  }

  lemma RoomAfterLeave(r: Registry, channel: string, c: Conn)
    requires IsIn(r.rooms, channel, c)
    ensures var after := r.Untrack(channel, c).RoomOf(channel);
            && after.order == Without(r.RoomOf(channel).order, c)
            && forall d :: d in after.order ==> d in after.vals && d in r.RoomOf(channel).vals && after.vals[d] == r.RoomOf(channel).vals[d]
  {
  }

  lemma ValuesWithout(before: Room, after: Room, i: nat)
    requires i < |before.order| && after.order == before.order[..i] + before.order[i + 1..]
    requires forall d :: d in after.order ==> d in after.vals && d in before.vals && after.vals[d] == before.vals[d]
    ensures after.Values() == before.Values()[..i] + before.Values()[i + 1..]
  {
  }

  /** Who leaves is taken out of the roster, and the others keep their order. */
  lemma RosterAfterLeave(r: Registry, channel: string, c: Conn, i: nat)
    requires IsIn(r.rooms, channel, c) && i < |r.RoomOf(channel).order| && r.RoomOf(channel).order[i] == c
    ensures r.Untrack(channel, c).Snapshot(channel) == r.Snapshot(channel)[..i] + r.Snapshot(channel)[i + 1..]
  {
    RoomAfterLeave(r, channel, c);
    WithoutAt(r.RoomOf(channel).order, i);
    ValuesWithout(r.RoomOf(channel), r.Untrack(channel, c).RoomOf(channel), i);
  }

  // ---- after unsubscribing --------------------------------------------------------------------

  function ChangeOn(channel: string): Frame -> bool {
    (f: Frame) => f.Change? && f.channel == channel
  }

  /** The changes on a channel that reached a connection. */
  function ChangesTo(log: seq<Delivery>, c: Conn, channel: string): seq<Frame> {
    Seqs.Filter(FramesTo(log, c), ChangeOn(channel))
  }

  lemma OtherSnoc(log: seq<Delivery>, dest: Conn, frame: Frame, c: Conn, channel: string)
    requires dest != c || !ChangeOn(channel)(frame)
    ensures ChangesTo(log + [Delivery(dest, frame)], c, channel) == ChangesTo(log, c, channel)
  {
    FramesSnoc(log, Delivery(dest, frame), c);
    FilterSnoc(FramesTo(log, c), frame, ChangeOn(channel));
    assert FramesTo(log, c) + [] == FramesTo(log, c);
  }

  lemma {:induction false} PushOther(log: seq<Delivery>, dests: seq<Conn>, frame: Frame, down: set<Conn>, c: Conn, channel: string)
    requires c !in dests || !ChangeOn(channel)(frame)
    ensures ChangesTo(log + Deliver(dests, frame, down), c, channel) == ChangesTo(log, c, channel)
  {
    if dests == [] {
      assert log + Deliver(dests, frame, down) == log;
    } else {
      var init, last := dests[..|dests| - 1], dests[|dests| - 1];
      assert dests == init + [last];
      PushOther(log, init, frame, down, c, channel);
      DeliverSnoc(log, init, last, frame, down);
      OtherSnoc(log + Deliver(init, frame, down), last, frame, c, channel);
    }
  }

  lemma {:induction false} AnnounceAllOther(s: HubState, channels: seq<string>, kind: PresenceEvent, down: set<Conn>, c: Conn, channel: string)
    ensures ChangesTo(s.AnnounceAll(channels, kind, down).log, c, channel) == ChangesTo(s.log, c, channel)
    ensures s.AnnounceAll(channels, kind, down).clients == s.clients
  {
    if channels != [] {
      var init, last := channels[..|channels| - 1], channels[|channels| - 1];
      AnnounceAllOther(s, init, kind, down, c, channel);
      var t := s.AnnounceAll(init, kind, down);
      PushOther(t.log, Subscribers(t.clients, last), Roster(last, kind, t.presence.Snapshot(last)), down, c, channel);
    }
  }

  /** From one state to the next nothing is heard, and nothing new is subscribed to. */
  ghost predicate IsQuiet(s: HubState, after: HubState, c: Conn, channel: string) {
    && ChangesTo(after.log, c, channel) == ChangesTo(s.log, c, channel)
    && (IsSubscribed(after.clients, c, channel) ==> IsSubscribed(s.clients, c, channel))
  }

  lemma PushIsQuiet(s: HubState, dests: seq<Conn>, frame: Frame, down: set<Conn>, c: Conn, channel: string)
    requires !frame.Change?
    ensures IsQuiet(s, s.Push(dests, frame, down), c, channel)
  {
    PushOther(s.log, dests, frame, down, c, channel);
  }

  lemma LeavingIsQuiet(s: HubState, d: Conn, ch: string, down: set<Conn>, c: Conn, channel: string)
    ensures IsQuiet(s, s.Leaving(d, ch, down), c, channel)
  {
    var t := s.(presence := s.presence.Untrack(ch, d));
    if IsIn(s.presence.rooms, ch, d) {
      PushIsQuiet(t, Subscribers(t.clients, ch), Roster(ch, Leave, t.presence.Snapshot(ch)), down, c, channel);
    }
  }

  lemma TrackingIsQuiet(s: HubState, d: Conn, ch: string, state: Json, down: set<Conn>, c: Conn, channel: string)
    requires d in s.clients.vals
    ensures IsQuiet(s, s.Tracking(d, ch, state, down), c, channel)
  {
    var t := s.(presence := s.presence.Track(ch, d, s.clients.vals[d].claims.sub, state));
    PushIsQuiet(t, Subscribers(t.clients, ch), Roster(ch, Join, t.presence.Snapshot(ch)), down, c, channel);
  }

  lemma UnsubscribingIsQuiet(s: HubState, d: Conn, ch: string, down: set<Conn>, c: Conn, channel: string)
    requires d in s.clients.vals
    ensures IsQuiet(s, s.Unsubscribing(d, ch, down), c, channel)
  {
    var t := s.WithSubs(d, s.clients.vals[d].subs - {ch});
    PushIsQuiet(t, [d], Unsubscribed(ch), down, c, channel);
    LeavingIsQuiet(t.Push([d], Unsubscribed(ch), down), d, ch, down, c, channel);
  }

  lemma SubscribingOther(s: HubState, d: Conn, sub: Subscription, down: set<Conn>, c: Conn, channel: string)
    requires d in s.clients.vals && !(c == d && sub.channel == channel)
    ensures IsQuiet(s, s.Subscribing(d, sub, down), c, channel)
  {
    var t := s.WithSubs(d, s.clients.vals[d].subs[sub.channel := sub]);
    var u := t.Push([d], Subscribed(sub.channel), down);
    PushIsQuiet(t, [d], Subscribed(sub.channel), down, c, channel);
    PushIsQuiet(u, [d], Roster(sub.channel, Sync, s.presence.Snapshot(sub.channel)), down, c, channel);
  }

  lemma ObeyOther(cfg: Config, s: HubState, d: Conn, command: Command, down: set<Conn>, c: Conn, channel: string)
    requires d in s.clients.vals && !(c == d && command.Subscribe? && command.sub.channel == channel)
    ensures IsQuiet(s, s.Obey(cfg, d, command, down), c, channel)
  {
    match command
    case Reject(why) => PushIsQuiet(s, [d], Error(why), down, c, channel);
    case Authenticate =>
    case Subscribe(sub) => SubscribingOther(s, d, sub, down, c, channel);
    case Unsubscribe(ch) => UnsubscribingIsQuiet(s, d, ch, down, c, channel);
    case Relay(ch, name, payload) =>
      PushIsQuiet(s, RelayDests(cfg, s.clients, d, ch), Broadcast(ch, name, payload, s.clients.vals[d].claims.sub), down, c, channel);
    case Track(ch, state) => TrackingIsQuiet(s, d, ch, state, down, c, channel);
    case Untrack(ch) => LeavingIsQuiet(s, d, ch, down, c, channel);
  }

  /** Does the event subscribe the connection to the channel? */
  predicate Subscribes(e: Event, c: Conn, channel: string) {
    e.Inbound? && e.conn == c && Decode(e.raw).Subscribe? && Decode(e.raw).sub.channel == channel
  }

  lemma StepHearsNothing(cfg: Config, s: HubState, e: Event, c: Conn, channel: string)
    requires !IsSubscribed(s.clients, c, channel) && !Subscribes(e, c, channel)
    ensures var after := Step(cfg, s, e);
            !IsSubscribed(after.clients, c, channel) && ChangesTo(after.log, c, channel) == ChangesTo(s.log, c, channel)
  {
    match e
    case Connect(d, claims) =>
    case Disconnect(d, down) =>
      AnnounceAllOther(HubState(s.clients.Delete(d), s.presence.RemoveConnection(d), s.log, s.flaky + down),
                       s.presence.ChannelsOf(d), Leave, down, c, channel);
    case Inbound(d, raw, down) =>
      if d in s.clients.vals {
        ObeyOther(cfg, s.(flaky := s.flaky + down), d, Decode(raw), down, c, channel);
      }
    case Notify(note, down) =>
      PushOther(s.log, Seqs.Filter(s.clients.order, Receiving(cfg, s.clients, note)), ChangeFrame(note), down, c, channel);
  }

  /** A connection that is not subscribed to a channel hears no change on it until it subscribes. */
  lemma {:induction false} UnsubscribedHearsNothing(cfg: Config, s: HubState, events: seq<Event>, c: Conn, channel: string)
    requires !IsSubscribed(s.clients, c, channel) && forall i :: 0 <= i < |events| ==> !Subscribes(events[i], c, channel)
    ensures !IsSubscribed(Run(cfg, s, events).clients, c, channel)
    ensures ChangesTo(Run(cfg, s, events).log, c, channel) == ChangesTo(s.log, c, channel)
  {
    if events != [] {
      var init := events[..|events| - 1];
      UnsubscribedHearsNothing(cfg, s, init, c, channel);
      StepHearsNothing(cfg, Run(cfg, s, init), events[|events| - 1], c, channel);
    }
  }

  // ---- what is refused ---------------------------------------------------------------------------

  predicate IsEventText(v: Option<Json>) {
    v.None? || v.value.JNull? || (v.value.JStr? && (v.value.s == "*" || v.value.s == "INSERT" || v.value.s == "UPDATE" || v.value.s == "DELETE"))
  }

  /** A non-empty string in a field of the message. */
  predicate Names(m: Json, field: string) {
    Field(m, field).Some? && Field(m, field).value.JStr? && Field(m, field).value.s != ""
  }

  predicate IsOneOf(m: Json, kinds: set<string>) {
    Field(m, "type").Some? && Field(m, "type").value.JStr? && Field(m, "type").value.s in kinds
  }

  /** A subscription's filter is absent, null, or names a column and holds a value. */
  predicate IsFilter(f: Option<Json>) {
    f.None? || f.value.JNull? || (Names(f.value, "column") && Field(f.value, "value").Some?)
  }

  /** The complaint about a message, if it is refused. */
  ghost function Refusal(m: Json): Option<Complaint> {
    if !m.JObj? && !m.JArr? then Some(Malformed)
    else if IsOneOf(m, {"auth"}) then None
    else if !IsOneOf(m, {"subscribe", "unsubscribe", "broadcast", "presence_track", "presence_untrack"}) then Some(UnknownType)
    else if !Names(m, "channel") then Some(NoChannel)
    else if IsOneOf(m, {"subscribe"}) then
      if !IsEventText(Field(m, "event")) then Some(BadEvent) else if !IsFilter(Field(m, "filter")) then Some(BadFilter) else None
    else if IsOneOf(m, {"broadcast"}) && !Names(m, "event") then Some(NoEvent)
    else None
  }

  lemma EventRefusal(v: Option<Json>)
    ensures DecodeEvent(v).None? <==> !IsEventText(v)
  {
  }

  lemma SubscribeRefusal(m: Json, channel: string)
    ensures DecodeSubscribe(m, channel).Reject? <==> !IsEventText(Field(m, "event")) || !IsFilter(Field(m, "filter"))
    ensures DecodeSubscribe(m, channel).Reject? ==>
              DecodeSubscribe(m, channel) == Reject(if !IsEventText(Field(m, "event")) then BadEvent else BadFilter)
  {
    EventRefusal(Field(m, "event"));
  }

  lemma KindIsOneOf(m: Json, kinds: set<string>)
    requires "" !in kinds
    ensures IsOneOf(m, kinds) <==> Text(Field(m, "type")).Some? && Text(Field(m, "type")).value in kinds
  {
  }

  /** Which frames are refused, each with its complaint; all others are commands. */
  lemma RefusalIsExact(m: Json)
    ensures Decode(None) == Reject(NotJson)
    ensures Refusal(m).Some? ==> Decode(Some(m)) == Reject(Refusal(m).value)
    ensures Refusal(m).None? ==> !Decode(Some(m)).Reject?
  {
    KindIsOneOf(m, {"auth"});
    KindIsOneOf(m, {"subscribe", "unsubscribe", "broadcast", "presence_track", "presence_untrack"});
    KindIsOneOf(m, {"subscribe"});
    KindIsOneOf(m, {"broadcast"});
    if Names(m, "channel") {
      SubscribeRefusal(m, Field(m, "channel").value.s);
    }
    if IsOneOf(m, {"subscribe"}) {
      assert Text(Field(m, "type")) == Some("subscribe");
      assert "subscribe" != "auth";
    } else if IsOneOf(m, {"broadcast"}) {
      assert Text(Field(m, "type")) == Some("broadcast");
      assert "broadcast" != "auth" && "broadcast" != "unsubscribe" && "broadcast" != "presence_track" && "broadcast" != "presence_untrack";
    }
  }

  /** A refused frame is answered to its sender with the complaint, and changes nothing; strangers are ignored. */
  lemma RefusedTells(cfg: Config, s: HubState, c: Conn, raw: Option<Json>, why: Complaint, down: set<Conn>, d: Conn)
    requires match raw case None => why == NotJson case Some(m) => Refusal(m) == Some(why)
    ensures var after := Step(cfg, s, Inbound(c, raw, down));
            && after.clients == s.clients && after.presence == s.presence
            && FramesTo(after.log, d) == FramesTo(s.log, d) + if c in s.clients.vals && d == c && c !in down then [Error(why)] else []
  {
    if raw.Some? {
      RefusalIsExact(raw.value);
    } else {
      RefusalIsExact(JNull);
    }
    PushOne(s.(flaky := s.flaky + down), c, Error(why), down, d);
  }
}
