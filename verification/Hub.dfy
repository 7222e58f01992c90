/**
 The hub itself: the class that keeps clients and presence and sends frames, one
 loop over sockets at a time. Every method is tied to the matching step of
 `HubModel`, so the theorems about runs hold of sequences of its calls.
 */
module Hubs {
  import opened Seqs
  import opened JsMaps
  import opened Realtime
  import opened Presences
  import opened HubModel

  class Hub {
    const cfg: Config
    const presence: PresenceRegistry
    var clients: Clients
    /** Frames that reached a socket, oldest first. */
    var log: seq<Delivery>
    /** Sockets that were dead during some call so far. */
    ghost var flaky: set<Conn>

    ghost function State(): HubState
      reads this, presence
    {
      HubState(clients, presence.State(), log, flaky)
    }

    ghost predicate Valid()
      reads this, presence
    {
      Invariant(State())
    }

    constructor (ownerColumns: seq<string>, broadcastSelf: bool)
      ensures Valid() && State() == INITIAL && fresh(presence)
      ensures cfg == Config(if ownerColumns == [] then ["user_id", "owner"] else ownerColumns, broadcastSelf)
    {
      cfg := Config(if |ownerColumns| > 0 then ownerColumns else DEFAULT_OWNER_COLUMNS, broadcastSelf);
      presence := new PresenceRegistry();
      clients, log, flaky := Entries([], map[]), [], {};
    }

    /** `target.send(frame)`; a throwing socket is ignored. */
    method Send(dest: Conn, frame: Frame, down: set<Conn>)
      modifies this`log
      ensures State() == old(State()).Push([dest], frame, down)
    {
      assert [dest][..0] == [];
      assert Deliver([dest], frame, down) == if dest in down then [] else [Delivery(dest, frame)];
      if dest !in down {
        log := log + [Delivery(dest, frame)];
      }
    }

    method SendAll(dests: seq<Conn>, frame: Frame, down: set<Conn>)
      modifies this`log
      ensures State() == old(State()).Push(dests, frame, down)
    {
      for i := 0 to |dests|
        invariant log == old(log) + Deliver(dests[..i], frame, down)
      {
        assert dests[..i + 1][..i] == dests[..i];
        if dests[i] !in down {
          log := log + [Delivery(dests[i], frame)];
        }
      }
      assert dests[..|dests|] == dests;
    }

    method ChannelSubscribers(channel: string) returns (out: seq<Conn>)
      ensures out == Subscribers(clients, channel)
    {
      out := [];
      for i := 0 to |clients.order|
        invariant out == Seqs.Filter(clients.order[..i], SubscribedTo(clients, channel))
      {
        assert clients.order[..i + 1][..i] == clients.order[..i];
        var c := clients.order[i];
        if channel in clients.vals[c].subs {
          out := out + [c];
        }
      }
      assert clients.order[..|clients.order|] == clients.order;
    }

    method AnnouncePresence(channel: string, kind: PresenceEvent, down: set<Conn>)
      modifies this`log
      ensures State() == old(State()).Announce(channel, kind, down)
    {
      var frame := Roster(channel, kind, presence.State().Snapshot(channel));
      var dests := ChannelSubscribers(channel);
      SendAll(dests, frame, down);
    }

    /** Register a freshly authenticated client; a known one keeps its state. */
    method Add(c: Conn, claims: Claims)
      requires Valid()
      modifies this
      ensures Valid() && State() == Step(cfg, old(State()), Connect(c, claims))
    {
      StepInvariant(cfg, State(), Connect(c, claims));
      if c !in clients.vals {
        clients := clients.Set(c, ClientState(claims, map[]));
      }
    }

    /** Drop a client and announce its leave on every channel it was on. */
    method Remove(c: Conn, down: set<Conn>)
      requires Valid()
      modifies this, presence
      ensures Valid() && State() == Step(cfg, old(State()), Disconnect(c, down))
    {
      StepInvariant(cfg, State(), Disconnect(c, down));
      Drop(c, down);
    }

    method Drop(c: Conn, down: set<Conn>)
      requires NoEmptyRoom(presence.rooms)
      modifies this, presence
      ensures State() == old(State()).Remove(c, down)
    {
      flaky := flaky + down;
      clients := clients.Delete(c);
      var left := presence.RemoveConnection(c);
      AnnounceLeaves(left, down);
    }

    method AnnounceLeaves(left: seq<string>, down: set<Conn>)
      modifies this`log
      ensures State() == old(State()).AnnounceAll(left, Leave, down)
    {
      for i := 0 to |left|
        invariant State() == old(State()).AnnounceAll(left[..i], Leave, down)
      {
        assert left[..i + 1][..i] == left[..i];
        AnnouncePresence(left[i], Leave, down);
      }
      assert left[..|left|] == left;
    }

    /** Handle one inbound text frame; `None` is text that is not JSON. */
    method HandleMessage(c: Conn, raw: Option<Json>, down: set<Conn>)
      requires Valid()
      modifies this, presence
      ensures Valid() && State() == Step(cfg, old(State()), Inbound(c, raw, down))
    {
      StepInvariant(cfg, State(), Inbound(c, raw, down));
      if c in clients.vals {
        flaky := flaky + down;
        Perform(c, Decode(raw), down);
      }
    }

    method Perform(c: Conn, command: Command, down: set<Conn>)
      requires c in clients.vals && NoEmptyRoom(presence.rooms)
      modifies this, presence
      ensures State() == old(State()).Obey(cfg, c, command, down)
    {
      match command
      case Reject(why) => Send(c, Error(why), down);
      case Authenticate =>
      case Subscribe(sub) => HandleSubscribe(c, sub, down);
      case Unsubscribe(channel) => HandleUnsubscribe(c, channel, down);
      case Relay(channel, name, payload) => HandleBroadcast(c, channel, name, payload, down);
      case Track(channel, state) => HandleTrack(c, channel, state, down);
      case Untrack(channel) => LeavePresence(c, channel, down);
    }

    method HandleTrack(c: Conn, channel: string, state: Json, down: set<Conn>)
      requires c in clients.vals
      modifies this`log, presence
      ensures State() == old(State()).Tracking(c, channel, state, down)
    {
      var _ := presence.Track(channel, c, clients.vals[c].claims.sub, state);
      AnnouncePresence(channel, Join, down);
    }

    method HandleSubscribe(c: Conn, sub: Subscription, down: set<Conn>)
      requires c in clients.vals
      modifies this`clients, this`log
      ensures State() == old(State()).Subscribing(c, sub, down)
    {
      var client := clients.vals[c];
      clients := clients.Set(c, client.(subs := client.subs[sub.channel := sub]));
      Send(c, Subscribed(sub.channel), down);
      Send(c, Roster(sub.channel, Sync, presence.State().Snapshot(sub.channel)), down);
    }

    method HandleUnsubscribe(c: Conn, channel: string, down: set<Conn>)
      requires c in clients.vals && NoEmptyRoom(presence.rooms)
      modifies this`clients, this`log, presence
      ensures State() == old(State()).Unsubscribing(c, channel, down)
    {
      var client := clients.vals[c];
      clients := clients.Set(c, client.(subs := client.subs - {channel}));
      Send(c, Unsubscribed(channel), down);
      LeavePresence(c, channel, down);
    }

    method LeavePresence(c: Conn, channel: string, down: set<Conn>)
      requires NoEmptyRoom(presence.rooms)
      modifies this`log, presence
      ensures State() == old(State()).Leaving(c, channel, down)
    {
      var removed := presence.Untrack(channel, c);
      if removed {
        AnnouncePresence(channel, Leave, down);
      }
    }

    method HandleBroadcast(c: Conn, channel: string, name: string, payload: Option<Json>, down: set<Conn>)
      requires c in clients.vals
      modifies this`log
      ensures State() == old(State()).Relaying(cfg, c, channel, name, payload, down)
    {
      var subscribers := ChannelSubscribers(channel);
      var recipients := if cfg.broadcastSelf then subscribers else Seqs.Filter(subscribers, Others(c));
      assert recipients == RelayDests(cfg, clients, c, channel);
      SendAll(recipients, Broadcast(channel, name, payload, clients.vals[c].claims.sub), down);
    }

    /** Fan a row change out: owner gate first, then event and filter. */
    method Dispatch(note: Notification, down: set<Conn>)
      requires Valid()
      modifies this
      ensures Valid() && State() == Step(cfg, old(State()), Notify(note, down))
    {
      StepInvariant(cfg, State(), Notify(note, down));
      FanOut(note, down);
    }

    method FanOut(note: Notification, down: set<Conn>)
      modifies this`log, this`flaky
      ensures State() == old(State()).Dispatch(cfg, note, down)
    {
      flaky := flaky + down;
      var candidates := Candidates(note);
      RecipientsAreGated(note, candidates, cfg.ownerColumns, Gate(cfg, note));
      var entitled := RecipientsFor(note, candidates, cfg.ownerColumns);
      SendChosen(entitled, note, down);
      ChosenAreReceiving(cfg, clients, clients.order, note);
    }

    method SendChosen(entitled: seq<SubscriberView>, note: Notification, down: set<Conn>)
      modifies this`log
      ensures State() == old(State()).Push(Chosen(entitled, note), ChangeFrame(note), down)
    {
      for i := 0 to |entitled|
        invariant log == old(log) + Deliver(Chosen(entitled[..i], note), ChangeFrame(note), down)
      {
        var v := entitled[i];
        ChosenNext(entitled, i, note, down);
        if Matches(v, note) {
          if v.conn !in down {
            log := log + [Delivery(v.conn, ChangeFrame(note))];
          }
        }
      }
      assert entitled[..|entitled|] == entitled;
    }

    /** One view per client subscribed to the changed table. */
    method Candidates(note: Notification) returns (views: seq<SubscriberView>)
      ensures views == Views(clients, clients.order, note.table)
    {
      views := [];
      for i := 0 to |clients.order|
        invariant views == Views(clients, clients.order[..i], note.table)
      {
        assert clients.order[..i + 1][..i] == clients.order[..i];
        var c := clients.order[i];
        var state := clients.vals[c];
        if note.table in state.subs {
          views := views + [SubscriberView(c, state.claims, state.subs[note.table])];
        }
      }
      assert clients.order[..|clients.order|] == clients.order;
    }
  }

  function Views(clients: Clients, order: seq<Conn>, table: string): seq<SubscriberView>
    requires forall c :: c in order ==> c in clients.vals
  {
    if order == [] then []
    else
      var c := order[|order| - 1];
      var state := clients.vals[c];
      Views(clients, order[..|order| - 1], table) +
      if table in state.subs then [SubscriberView(c, state.claims, state.subs[table])] else []
  }

  predicate Matches(v: SubscriberView, note: Notification) {
    MatchesEvent(v.sub.event, note) && (v.sub.filter.None? || MatchesFilter(v.sub.filter.value, note))
  }

  /** The connections whose subscription matches the event and the filter. */
  function Chosen(views: seq<SubscriberView>, note: Notification): seq<Conn> {
    if views == [] then []
    else
      var v := views[|views| - 1];
      Chosen(views[..|views| - 1], note) + if Matches(v, note) then [v.conn] else []
  }

  ghost function Gate(cfg: Config, note: Notification): SubscriberView -> bool {
    (v: SubscriberView) => PassesOwnerGate(v.claims, note, cfg.ownerColumns)
  }

  lemma ChosenNext(views: seq<SubscriberView>, i: nat, note: Notification, down: set<Conn>)
    requires i < |views|
    ensures Deliver(Chosen(views[..i + 1], note), ChangeFrame(note), down) ==
            Deliver(Chosen(views[..i], note), ChangeFrame(note), down) +
            if Matches(views[i], note) && views[i].conn !in down then [Delivery(views[i].conn, ChangeFrame(note))] else []
  {
    var before, v := Chosen(views[..i], note), views[i];
    assert views[..i + 1][..i] == views[..i];
    if Matches(v, note) {
      assert Chosen(views[..i + 1], note) == before + [v.conn];
      assert (before + [v.conn])[..|before|] == before;
    } else {
      assert Chosen(views[..i + 1], note) == before;
    }
  }

  lemma ChosenSnoc(views: seq<SubscriberView>, v: SubscriberView, gate: SubscriberView -> bool, note: Notification)
    ensures Chosen(Seqs.Filter(views + [v], gate), note) ==
            Chosen(Seqs.Filter(views, gate), note) + if gate(v) && Matches(v, note) then [v.conn] else []
  {
    var f, all := Seqs.Filter(views, gate), views + [v];
    assert all[..|all| - 1] == views && all[|all| - 1] == v;
    if gate(v) {
      assert Seqs.Filter(all, gate) == f + [v];
      assert (f + [v])[..|f + [v]| - 1] == f;
    } else {
      assert Seqs.Filter(all, gate) == f;
    }
  }

  lemma ReceivesByView(cfg: Config, clients: Clients, c: Conn, note: Notification)
    requires c in clients.vals
    ensures var state := clients.vals[c];
            Receiving(cfg, clients, note)(c) <==>
              && note.table in state.subs
              && var v := SubscriberView(c, state.claims, state.subs[note.table]); Gate(cfg, note)(v) && Matches(v, note)
  {
  }

  /** Gathering views, gating them and choosing among them is one filter of the clients. */
  lemma {:induction false} ChosenAreReceiving(cfg: Config, clients: Clients, order: seq<Conn>, note: Notification)
    requires forall c :: c in order ==> c in clients.vals
    ensures Chosen(Seqs.Filter(Views(clients, order, note.table), Gate(cfg, note)), note) ==
            Seqs.Filter(order, Receiving(cfg, clients, note))
  {
    if order != [] {
      var init, c := order[..|order| - 1], order[|order| - 1];
      ChosenAreReceiving(cfg, clients, init, note);
      var state, views, gate := clients.vals[c], Views(clients, init, note.table), Gate(cfg, note);
      var receives := Receiving(cfg, clients, note);
      var picked := Seqs.Filter(init, receives);
      assert Seqs.Filter(order, receives) == picked + if receives(c) then [c] else [];
      ReceivesByView(cfg, clients, c, note);
      if note.table in state.subs {
        var v := SubscriberView(c, state.claims, state.subs[note.table]);
        ChosenSnoc(views, v, gate, note);
        assert Views(clients, order, note.table) == views + [v];
      } else {
        assert Views(clients, order, note.table) == views;
      }
    }
  }
}
