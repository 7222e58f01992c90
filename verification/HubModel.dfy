/**
 The hub as a state machine: registered clients, presence, and the log of frames
 that reached a socket. Each step names the sockets whose `send` throws during it.
 */
module HubModel {
  import opened Seqs
  import opened JsMaps
  import opened Realtime
  import opened Presences

  datatype ClientState = ClientState(claims: Claims, subs: map<string, Subscription>)
  type Clients = JsMap<Conn, ClientState>
  datatype Delivery = Delivery(dest: Conn, frame: Frame)
  datatype Config = Config(ownerColumns: seq<string>, broadcastSelf: bool)

  /** The frames that arrive when `frame` is sent to each of `dests` in turn. */
  function Deliver(dests: seq<Conn>, frame: Frame, down: set<Conn>): seq<Delivery> {
    if dests == [] then []
    else
      Deliver(dests[..|dests| - 1], frame, down) +
      (var c := dests[|dests| - 1]; if c in down then [] else [Delivery(c, frame)])
  }

  predicate IsSubscribed(clients: Clients, c: Conn, channel: string) {
    c in clients.vals && channel in clients.vals[c].subs
  }

  function SubscribedTo(clients: Clients, channel: string): Conn -> bool {
    (c: Conn) => IsSubscribed(clients, c, channel)
  }

  function Subscribers(clients: Clients, channel: string): seq<Conn> {
    Seqs.Filter(clients.order, SubscribedTo(clients, channel))
  }

  /** Does `client` get this change? The four gates of a dispatch. */
  ghost predicate Receives(cfg: Config, client: ClientState, note: Notification) {
    && note.table in client.subs
    && PassesOwnerGate(client.claims, note, cfg.ownerColumns)
    && MatchesEvent(client.subs[note.table].event, note)
    && (client.subs[note.table].filter.Some? ==> MatchesFilter(client.subs[note.table].filter.value, note))
  }

  ghost function Receiving(cfg: Config, clients: Clients, note: Notification): Conn -> bool {
    (c: Conn) => c in clients.vals && Receives(cfg, clients.vals[c], note)
  }

  function Others(sender: Conn): Conn -> bool {
    (c: Conn) => c != sender
  }

  /** Who a broadcast goes to. */
  function RelayDests(cfg: Config, clients: Clients, from: Conn, channel: string): seq<Conn> {
    if cfg.broadcastSelf then Subscribers(clients, channel)
    else Seqs.Filter(Subscribers(clients, channel), Others(from))
  }

  datatype HubState = HubState(clients: Clients, presence: Registry, log: seq<Delivery>, flaky: set<Conn>) {

    function Push(dests: seq<Conn>, frame: Frame, down: set<Conn>): HubState {
      this.(log := log + Deliver(dests, frame, down))
    }

    function Announce(channel: string, kind: PresenceEvent, down: set<Conn>): HubState {
      Push(Subscribers(clients, channel), Roster(channel, kind, presence.Snapshot(channel)), down)
    }

    function AnnounceAll(channels: seq<string>, kind: PresenceEvent, down: set<Conn>): HubState {
      if channels == [] then this
      else AnnounceAll(channels[..|channels| - 1], kind, down).Announce(channels[|channels| - 1], kind, down)
    }

    function Add(c: Conn, claims: Claims): HubState {
      if c in clients.vals then this
      else this.(clients := clients.Set(c, ClientState(claims, map[])))
    }

    function Remove(c: Conn, down: set<Conn>): HubState {
      HubState(clients.Delete(c), presence.RemoveConnection(c), log, flaky + down)
        .AnnounceAll(presence.ChannelsOf(c), Leave, down)
    }

    function Leaving(c: Conn, channel: string, down: set<Conn>): HubState {
      var s := this.(presence := presence.Untrack(channel, c));
      if IsIn(presence.rooms, channel, c) then s.Announce(channel, Leave, down) else s
    }

    function WithSubs(c: Conn, subs: map<string, Subscription>): HubState
      requires c in clients.vals
    {
      this.(clients := clients.Set(c, clients.vals[c].(subs := subs)))
    }

    function Subscribing(c: Conn, sub: Subscription, down: set<Conn>): HubState
      requires c in clients.vals
    {
      WithSubs(c, clients.vals[c].subs[sub.channel := sub])
        .Push([c], Subscribed(sub.channel), down)
        .Push([c], Roster(sub.channel, Sync, presence.Snapshot(sub.channel)), down)
    }

    function Unsubscribing(c: Conn, channel: string, down: set<Conn>): HubState
      requires c in clients.vals
    {
      WithSubs(c, clients.vals[c].subs - {channel}).Push([c], Unsubscribed(channel), down).Leaving(c, channel, down)
    }

    function Relaying(cfg: Config, c: Conn, channel: string, name: string, payload: Option<Json>, down: set<Conn>): HubState
      requires c in clients.vals
    {
      Push(RelayDests(cfg, clients, c, channel), Broadcast(channel, name, payload, clients.vals[c].claims.sub), down)
    }

    function Tracking(c: Conn, channel: string, state: Json, down: set<Conn>): HubState
      requires c in clients.vals
    {
      this.(presence := presence.Track(channel, c, clients.vals[c].claims.sub, state)).Announce(channel, Join, down)
    }

    function Obey(cfg: Config, c: Conn, command: Command, down: set<Conn>): HubState
      requires c in clients.vals
    {
      match command
      case Reject(why) => Push([c], Error(why), down)
      case Authenticate => this
      case Subscribe(sub) => Subscribing(c, sub, down)
      case Unsubscribe(channel) => Unsubscribing(c, channel, down)
      case Relay(channel, name, payload) => Relaying(cfg, c, channel, name, payload, down)
      case Track(channel, state) => Tracking(c, channel, state, down)
      case Untrack(channel) => Leaving(c, channel, down)
    }

    function Handle(cfg: Config, c: Conn, raw: Option<Json>, down: set<Conn>): HubState {
      if c !in clients.vals then this
      else this.(flaky := flaky + down).Obey(cfg, c, Decode(raw), down)
    }

    ghost function Dispatch(cfg: Config, note: Notification, down: set<Conn>): HubState {
      this.(flaky := flaky + down)
        .Push(Seqs.Filter(clients.order, Receiving(cfg, clients, note)), ChangeFrame(note), down)
    }
  }

  const INITIAL: HubState := HubState(Entries([], map[]), Registry(Entries([], map[]), map[], 1), [], {})

  datatype Event =
    | Connect(conn: Conn, claims: Claims)
    | Disconnect(conn: Conn, down: set<Conn>)
    | Inbound(conn: Conn, raw: Option<Json>, down: set<Conn>)
    | Notify(note: Notification, down: set<Conn>)

  ghost function Step(cfg: Config, s: HubState, e: Event): HubState {
    match e
    case Connect(c, claims) => s.Add(c, claims)
    case Disconnect(c, down) => s.Remove(c, down)
    case Inbound(c, raw, down) => s.Handle(cfg, c, raw, down)
    case Notify(note, down) => s.Dispatch(cfg, note, down)
  }

  ghost function Run(cfg: Config, s: HubState, events: seq<Event>): HubState {
    if events == [] then s
    else Step(cfg, Run(cfg, s, events[..|events| - 1]), events[|events| - 1])
  }

  // ---- what a connection was last told --------------------------------------

  /** The presences in the last roster of `channel` that reached `c`. */
  function LastRoster(log: seq<Delivery>, c: Conn, channel: string): Option<seq<Presence>> {
    if log == [] then None
    else
      var d := log[|log| - 1];
      if d.dest == c && d.frame.Roster? && d.frame.channel == channel then Some(d.frame.presences)
      else LastRoster(log[..|log| - 1], c, channel)
  }

  /** Everyone who is subscribed and whose sends never failed knows the roster. */
  ghost predicate Informed(s: HubState) {
    forall c, ch :: IsSubscribed(s.clients, c, ch) && c !in s.flaky ==>
      LastRoster(s.log, c, ch) == Some(s.presence.Snapshot(ch))
  }

  /** Every presence belongs to a registered client and carries its `sub`. */
  ghost predicate Owned(s: HubState) {
    && (forall ch, c :: IsIn(s.presence.rooms, ch, c) ==>
          c in s.clients.vals && s.presence.rooms.vals[ch].vals[c].sub == s.clients.vals[c].claims.sub)
    && (forall c :: c in s.presence.refs ==> c in s.clients.vals)
  }

  ghost predicate Invariant(s: HubState) {
    s.presence.Valid() && Owned(s) && Informed(s)
  }

  lemma {:induction false} DeliverLast(log: seq<Delivery>, dests: seq<Conn>, frame: Frame, down: set<Conn>, c: Conn, channel: string)
    ensures LastRoster(log + Deliver(dests, frame, down), c, channel) ==
            if c in dests && c !in down && frame.Roster? && frame.channel == channel then Some(frame.presences)
            else LastRoster(log, c, channel)
  {
    if dests == [] {
      assert log + Deliver(dests, frame, down) == log;
    } else {
      var init, last := dests[..|dests| - 1], dests[|dests| - 1];
      assert dests == init + [last];
      DeliverLast(log, init, frame, down, c, channel);
      var before := log + Deliver(init, frame, down);
      if last in down {
        assert log + Deliver(dests, frame, down) == before;
      } else {
        assert log + Deliver(dests, frame, down) == before + [Delivery(last, frame)];
        assert (before + [Delivery(last, frame)])[..|before|] == before;
      }
    }
  }

  lemma SubscribersAre(clients: Clients, channel: string)
    ensures forall c :: c in Subscribers(clients, channel) <==> IsSubscribed(clients, c, channel)
  {
  }

  /** A roster announcement informs exactly the channel's subscribers. */
  lemma AnnounceInforms(s: HubState, channel: string, kind: PresenceEvent, down: set<Conn>, c: Conn, ch: string)
    ensures LastRoster(s.Announce(channel, kind, down).log, c, ch) ==
            if ch == channel && IsSubscribed(s.clients, c, ch) && c !in down then Some(s.presence.Snapshot(ch))
            else LastRoster(s.log, c, ch)
  {
    SubscribersAre(s.clients, channel);
    DeliverLast(s.log, Subscribers(s.clients, channel), Roster(channel, kind, s.presence.Snapshot(channel)), down, c, ch);
  }

  lemma {:induction false} AnnounceAllInforms(s: HubState, channels: seq<string>, kind: PresenceEvent, down: set<Conn>, c: Conn, ch: string)
    ensures var after := s.AnnounceAll(channels, kind, down);
            && after == s.(log := after.log)
            && LastRoster(after.log, c, ch) ==
                 if ch in channels && IsSubscribed(s.clients, c, ch) && c !in down then Some(s.presence.Snapshot(ch))
                 else LastRoster(s.log, c, ch)
  {
    if channels != [] {
      var init, last := channels[..|channels| - 1], channels[|channels| - 1];
      assert channels == init + [last];
      AnnounceAllInforms(s, init, kind, down, c, ch);
      AnnounceInforms(s.AnnounceAll(init, kind, down), last, kind, down, c, ch);
    }
  }

  /** Frames other than rosters leave what is known as it was. */
  lemma PushKeepsInformed(s: HubState, dests: seq<Conn>, frame: Frame, down: set<Conn>)
    requires Informed(s) && !frame.Roster?
    ensures Informed(s.Push(dests, frame, down))
  {
    forall c, ch | IsSubscribed(s.clients, c, ch) && c !in s.flaky
      ensures LastRoster(s.Push(dests, frame, down).log, c, ch) == Some(s.presence.Snapshot(ch))
    {
      DeliverLast(s.log, dests, frame, down, c, ch);
    }
  }

  /** Changing one channel's roster and announcing it keeps everyone informed. */
  lemma AnnounceKeepsInformed(before: HubState, s: HubState, channel: string, kind: PresenceEvent, down: set<Conn>)
    requires Informed(before)
    requires s == before.(presence := s.presence) && down <= s.flaky
    requires forall ch :: ch != channel ==> s.presence.Snapshot(ch) == before.presence.Snapshot(ch)
    ensures Informed(s.Announce(channel, kind, down))
  {
    forall c, ch | IsSubscribed(s.clients, c, ch) && c !in s.flaky
      ensures LastRoster(s.Announce(channel, kind, down).log, c, ch) == Some(s.presence.Snapshot(ch))
    {
      AnnounceInforms(s, channel, kind, down, c, ch);
    }
  }

  lemma TrackInvariant(s: HubState, channel: string, c: Conn, state: Json, down: set<Conn>)
    requires Invariant(s) && c in s.clients.vals && down <= s.flaky
    ensures Invariant(s.Tracking(c, channel, state, down))
  {
    var p := s.presence.Track(channel, c, s.clients.vals[c].claims.sub, state);
    TrackValid(s.presence, channel, c, s.clients.vals[c].claims.sub, state);
    TrackEffect(s.presence, channel, c, s.clients.vals[c].claims.sub, state);
    assert Owned(s.(presence := p));
    AnnounceKeepsInformed(s, s.(presence := p), channel, Join, down);
  }

  lemma LeavingInvariant(s: HubState, c: Conn, channel: string, down: set<Conn>)
    requires Invariant(s) && down <= s.flaky
    ensures Invariant(s.Leaving(c, channel, down))
  {
    UntrackEffect(s.presence, channel, c);
    var p := s.presence.Untrack(channel, c);
    if IsIn(s.presence.rooms, channel, c) {
      AnnounceKeepsInformed(s, s.(presence := p), channel, Leave, down);
    }
  }

  lemma SubscribeInvariant(s: HubState, c: Conn, sub: Subscription, down: set<Conn>)
    requires Invariant(s) && c in s.clients.vals && down <= s.flaky
    ensures Invariant(s.Subscribing(c, sub, down))
  {
    var s1 := s.WithSubs(c, s.clients.vals[c].subs[sub.channel := sub]);
    var s2 := s1.Push([c], Subscribed(sub.channel), down);
    var s3 := s2.Push([c], Roster(sub.channel, Sync, s.presence.Snapshot(sub.channel)), down);
    forall d, ch | IsSubscribed(s3.clients, d, ch) && d !in s3.flaky
      ensures LastRoster(s3.log, d, ch) == Some(s3.presence.Snapshot(ch))
    {
      DeliverLast(s1.log, [c], Subscribed(sub.channel), down, d, ch);
      DeliverLast(s2.log, [c], Roster(sub.channel, Sync, s.presence.Snapshot(sub.channel)), down, d, ch);
      assert (d == c && ch == sub.channel) || IsSubscribed(s.clients, d, ch);
    }
  }

  lemma RemoveInvariant(s: HubState, c: Conn, down: set<Conn>)
    requires Invariant(s)
    ensures Invariant(s.Remove(c, down))
  {
    var mid := HubState(s.clients.Delete(c), s.presence.RemoveConnection(c), s.log, s.flaky + down);
    var left := s.presence.ChannelsOf(c);
    RemoveEffect(s.presence, c);
    assert Owned(mid);
    forall d, ch | IsSubscribed(mid.clients, d, ch) && d !in mid.flaky
      ensures LastRoster(s.Remove(c, down).log, d, ch) == Some(mid.presence.Snapshot(ch))
    {
      AnnounceAllInforms(mid, left, Leave, down, d, ch);
      assert IsSubscribed(s.clients, d, ch);
    }
    AnnounceAllInforms(mid, left, Leave, down, c, "");
  }

  lemma UnsubscribeInvariant(s: HubState, c: Conn, channel: string, down: set<Conn>)
    requires Invariant(s) && c in s.clients.vals && down <= s.flaky
    ensures Invariant(s.Unsubscribing(c, channel, down))
  {
    var s1 := s.WithSubs(c, s.clients.vals[c].subs - {channel});
    assert forall d, ch :: IsSubscribed(s1.clients, d, ch) ==> IsSubscribed(s.clients, d, ch);
    PushKeepsInformed(s1, [c], Unsubscribed(channel), down);
    LeavingInvariant(s1.Push([c], Unsubscribed(channel), down), c, channel, down);
  }

  lemma PushInvariant(s: HubState, dests: seq<Conn>, frame: Frame, down: set<Conn>)
    requires Invariant(s) && !frame.Roster?
    ensures Invariant(s.Push(dests, frame, down))
  {
    PushKeepsInformed(s, dests, frame, down);
  }

  lemma RelayInvariant(cfg: Config, s: HubState, c: Conn, channel: string, name: string, payload: Option<Json>, down: set<Conn>)
    requires Invariant(s) && c in s.clients.vals
    ensures Invariant(s.Relaying(cfg, c, channel, name, payload, down))
  {
    PushKeepsInformed(s, RelayDests(cfg, s.clients, c, channel), Broadcast(channel, name, payload, s.clients.vals[c].claims.sub), down);
  }

  lemma ObeyInvariant(cfg: Config, s: HubState, c: Conn, command: Command, down: set<Conn>)
    requires Invariant(s) && c in s.clients.vals && down <= s.flaky
    ensures Invariant(s.Obey(cfg, c, command, down))
  {
    var after := s.Obey(cfg, c, command, down);
    match command
    case Reject(why) =>
      PushInvariant(s, [c], Error(why), down);
      assert after == s.Push([c], Error(why), down);
    case Authenticate =>
      assert after == s;
    case Subscribe(sub) =>
      SubscribeInvariant(s, c, sub, down);
      assert after == s.Subscribing(c, sub, down);
    case Unsubscribe(channel) =>
      UnsubscribeInvariant(s, c, channel, down);
      assert after == s.Unsubscribing(c, channel, down);
    case Relay(channel, name, payload) =>
      RelayInvariant(cfg, s, c, channel, name, payload, down);
      assert after == s.Relaying(cfg, c, channel, name, payload, down);
    case Track(channel, state) =>
      TrackInvariant(s, channel, c, state, down);
      assert after == s.Tracking(c, channel, state, down);
    case Untrack(channel) =>
      LeavingInvariant(s, c, channel, down);
      assert after == s.Leaving(c, channel, down);
  }

  lemma StepInvariant(cfg: Config, s: HubState, e: Event)
    requires Invariant(s)
    ensures Invariant(Step(cfg, s, e))
  {
    match e
    case Connect(c, claims) =>
      var s' := s.Add(c, claims);
      assert forall d, ch :: IsSubscribed(s'.clients, d, ch) ==> IsSubscribed(s.clients, d, ch);
    case Disconnect(c, down) => RemoveInvariant(s, c, down);
    case Inbound(c, raw, down) =>
      if c in s.clients.vals {
        ObeyInvariant(cfg, s.(flaky := s.flaky + down), c, Decode(raw), down);
      }
    case Notify(note, down) =>
      PushKeepsInformed(s.(flaky := s.flaky + down), Seqs.Filter(s.clients.order, Receiving(cfg, s.clients, note)), ChangeFrame(note), down);
  }

  /**
   In every run, for each client subscribed to a channel and none of whose sends
   failed, the last roster it was sent for the channel is the current one.
   */
  lemma {:induction false} RunsKeepSubscribersInformed(cfg: Config, events: seq<Event>)
    ensures Invariant(Run(cfg, INITIAL, events))
  {
    if events != [] {
      RunsKeepSubscribersInformed(cfg, events[..|events| - 1]);
      StepInvariant(cfg, Run(cfg, INITIAL, events[..|events| - 1]), events[|events| - 1]);
    }
  }

  // ---- references -------------------------------------------------------------

  /** From one registry to a later one, a reference is either kept or newly issued. */
  ghost predicate RefsGrow(r: Registry, later: Registry) {
    && r.nextRef <= later.nextRef
    && forall c :: c in later.refs ==>
         later.refs[c] >= r.nextRef || (c in r.refs && later.refs[c] == r.refs[c])
  }

  /** A command changes the registry by tracking or leaving, or not at all. */
  lemma ObeyPresence(cfg: Config, s: HubState, c: Conn, command: Command, down: set<Conn>)
    requires c in s.clients.vals
    ensures s.Obey(cfg, c, command, down).presence ==
            match command
            case Track(channel, state) => s.presence.Track(channel, c, s.clients.vals[c].claims.sub, state)
            case Untrack(channel) => s.presence.Untrack(channel, c)
            case Unsubscribe(channel) => s.presence.Untrack(channel, c)
            case _ => s.presence
  {
  }

  lemma ObeyRefs(cfg: Config, s: HubState, c: Conn, command: Command, down: set<Conn>)
    requires c in s.clients.vals
    ensures RefsGrow(s.presence, s.Obey(cfg, c, command, down).presence)
  {
    ObeyPresence(cfg, s, c, command, down);
    if command.Track? {
      TrackRefs(s.presence, command.channel, c, s.clients.vals[c].claims.sub, command.state);
    }
  }

  lemma TrackRefs(r: Registry, channel: string, c: Conn, sub: string, state: Json)
    ensures RefsGrow(r, r.Track(channel, c, sub, state))
  {
  }

  lemma StepRefs(cfg: Config, s: HubState, e: Event)
    ensures RefsGrow(s.presence, Step(cfg, s, e).presence)
  {
    match e
    case Connect(_, _) =>
    case Disconnect(c, down) =>
      var mid := HubState(s.clients.Delete(c), s.presence.RemoveConnection(c), s.log, s.flaky + down);
      AnnounceAllInforms(mid, s.presence.ChannelsOf(c), Leave, down, c, "");
    case Inbound(c, raw, down) =>
      if c in s.clients.vals {
        ObeyRefs(cfg, s.(flaky := s.flaky + down), c, Decode(raw), down);
      }
    case Notify(_, _) =>
  }

  lemma {:induction false} RunRefs(cfg: Config, s: HubState, events: seq<Event>)
    ensures RefsGrow(s.presence, Run(cfg, s, events).presence)
  {
    if events != [] {
      RunRefs(cfg, s, events[..|events| - 1]);
      StepRefs(cfg, Run(cfg, s, events[..|events| - 1]), events[|events| - 1]);
    }
  }

  /** A reference never names two connections, at one moment or at two moments of a run. */
  lemma ReferencesAreNeverReused(cfg: Config, events: seq<Event>, more: seq<Event>, ch: string, c: Conn, ch': string, d: Conn)
    requires var s := Run(cfg, INITIAL, events); var t := Run(cfg, s, more);
             && IsIn(s.presence.rooms, ch, c) && IsIn(t.presence.rooms, ch', d)
             && s.presence.rooms.vals[ch].vals[c].ref == t.presence.rooms.vals[ch'].vals[d].ref
    ensures c == d
  {
    var s := Run(cfg, INITIAL, events);
    RunsKeepSubscribersInformed(cfg, events);
    RunRefs(cfg, s, more);
    RunInvariant(cfg, s, more);
  }

  lemma {:induction false} RunInvariant(cfg: Config, s: HubState, events: seq<Event>)
    requires Invariant(s)
    ensures Invariant(Run(cfg, s, events))
  {
    if events != [] {
      RunInvariant(cfg, s, events[..|events| - 1]);
      StepInvariant(cfg, Run(cfg, s, events[..|events| - 1]), events[|events| - 1]);
    }
  }

  // ---- exact delivery ----------------------------------------------------------

  /** The frames that reached `c`, in order. */
  function FramesTo(log: seq<Delivery>, c: Conn): seq<Frame> {
    if log == [] then []
    else
      var d := log[|log| - 1];
      FramesTo(log[..|log| - 1], c) + if d.dest == c then [d.frame] else []
  }

  lemma FramesSnoc(log: seq<Delivery>, d: Delivery, c: Conn)
    ensures FramesTo(log + [d], c) == FramesTo(log, c) + if d.dest == c then [d.frame] else []
  {
    assert (log + [d])[..|log|] == log;
  }

  lemma {:induction false} DeliverOnce(log: seq<Delivery>, dests: seq<Conn>, frame: Frame, down: set<Conn>, c: Conn)
    requires Distinct(dests)
    ensures FramesTo(log + Deliver(dests, frame, down), c) ==
            FramesTo(log, c) + if c in dests && c !in down then [frame] else []
  {
    if dests == [] {
      assert log + Deliver(dests, frame, down) == log;
    } else {
      var init, last := dests[..|dests| - 1], dests[|dests| - 1];
      assert dests == init + [last] && last !in init;
      assert c in dests <==> c in init || c == last;
      DeliverOnce(log, init, frame, down, c);
      DeliverSnoc(log, init, last, frame, down);
      var before := log + Deliver(init, frame, down);
      FramesSnoc(before, Delivery(last, frame), c);
      assert c == last ==> FramesTo(before, c) == FramesTo(log, c);
    }
  }

  lemma DeliverSnoc(log: seq<Delivery>, init: seq<Conn>, last: Conn, frame: Frame, down: set<Conn>)
    ensures log + Deliver(init + [last], frame, down) ==
            if last in down then log + Deliver(init, frame, down) else log + Deliver(init, frame, down) + [Delivery(last, frame)]
  {
    assert (init + [last])[..|init|] == init;
  }

  /**
   A dispatch sends a connection one change frame exactly when it is registered
   and passes all four gates; which other sockets are dead makes no difference.
   */
  lemma DispatchIsExact(cfg: Config, s: HubState, note: Notification, down: set<Conn>, c: Conn)
    ensures var s' := s.Dispatch(cfg, note, down);
            && FramesTo(s'.log, c) == FramesTo(s.log, c) +
                 (if c in s.clients.vals && Receives(cfg, s.clients.vals[c], note) && c !in down
                  then [ChangeFrame(note)] else [])
            && s' == s.(log := s'.log, flaky := s.flaky + down)
  {
    var receiving := Receiving(cfg, s.clients, note);
    FilterDistinct(s.clients.order, receiving);
    DeliverOnce(s.log, Seqs.Filter(s.clients.order, receiving), ChangeFrame(note), down, c);
  }

  lemma RelayDestsAre(cfg: Config, clients: Clients, from: Conn, channel: string, c: Conn)
    ensures Distinct(RelayDests(cfg, clients, from, channel))
    ensures c in RelayDests(cfg, clients, from, channel) <==>
            IsSubscribed(clients, c, channel) && (c != from || cfg.broadcastSelf)
  {
    FilterDistinct(clients.order, SubscribedTo(clients, channel));
    FilterDistinct(Subscribers(clients, channel), Others(from));
    SubscribersAre(clients, channel);
  }

  /** A broadcast reaches every live subscriber of the channel once, and the sender only by configuration. */
  lemma RelayIsExact(cfg: Config, s: HubState, from: Conn, channel: string, name: string, payload: Option<Json>, down: set<Conn>, c: Conn)
    requires from in s.clients.vals
    ensures FramesTo(s.Obey(cfg, from, Relay(channel, name, payload), down).log, c) == FramesTo(s.log, c) +
              if IsSubscribed(s.clients, c, channel) && c !in down && (c != from || cfg.broadcastSelf)
              then [Broadcast(channel, name, payload, s.clients.vals[from].claims.sub)] else []
  {
    RelayDestsAre(cfg, s.clients, from, channel, c);
    DeliverOnce(s.log, RelayDests(cfg, s.clients, from, channel),
                Broadcast(channel, name, payload, s.clients.vals[from].claims.sub), down, c);
  }
}
