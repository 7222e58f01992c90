/**
 Values of the realtime service: parsed JSON, notifications, subscriptions and
 frames, and the pure decisions made on them (who may see a change, whether a
 filter matches, what an inbound message asks for).
 */
module Realtime {
  import opened Seqs

  /**
   A parsed JSON value. A number is represented by its JavaScript `String(n)`
   rendering, which identifies it; an object lists its fields in key order.
   */
  datatype Json =
    | JNull
    | JBool(b: bool)
    | JNum(text: string)
    | JStr(s: string)
    | JArr(items: seq<Json>)
    | JObj(fields: seq<(string, Json)>)

  /** `v[name]` of a parsed value: absent for non-objects and missing keys. */
  function Field(v: Json, name: string): Option<Json> {
    if v.JObj? then Lookup(v.fields, name) else None
  }

  function Lookup(fields: seq<(string, Json)>, name: string): Option<Json> {
    if fields == [] then None
    else if fields[0].0 == name then Some(fields[0].1)
    else Lookup(fields[1..], name)
  }

  datatype ChangeEvent = INSERT | UPDATE | DELETE
  datatype EventFilter = AnyEvent | Only(event: ChangeEvent)
  datatype Filter = Filter(column: string, value: Json)
  datatype Subscription = Subscription(channel: string, event: EventFilter, filter: Option<Filter>)
  datatype Claims = Claims(sub: string, role: string)
  type Row = map<string, Json>
  datatype Notification = Notification(
    schema: string, table: string, event: ChangeEvent,
    record: Option<Row>, old_: Option<Row>, truncated: bool)

  datatype Presence = Presence(ref: nat, sub: string, state: Json)
  datatype PresenceEvent = Sync | Join | Leave
  datatype Complaint =
    | NotJson | Malformed | NoChannel | BadEvent | BadFilter | NoEvent | UnknownType

  /** What the server sends to a connection. */
  datatype Frame =
    | Change(channel: string, event: ChangeEvent, record: Option<Row>, old_: Option<Row>, truncated: bool)
    | Subscribed(channel: string)
    | Unsubscribed(channel: string)
    | Broadcast(channel: string, name: string, payload: Option<Json>, from: string)
    | Roster(channel: string, kind: PresenceEvent, presences: seq<Presence>)
    | Error(why: Complaint)

  // ---- owner gate and filters ----------------------------------------------

  const ADMIN_ROLES: set<string> := {"service", "laetoli_admin"}
  const DEFAULT_OWNER_COLUMNS: seq<string> := ["user_id", "owner"]

  function RowOf(note: Notification): Option<Row> {
    if note.record.Some? then note.record else note.old_
  }

  /** The value in the first of `columns` that the row has. */
  function OwnerValue(columns: seq<string>, row: Row): Option<Json> {
    if columns == [] then None
    else if columns[0] in row then Some(row[columns[0]])
    else OwnerValue(columns[1..], row)
  }

  predicate OwnerMatches(sub: string, owner: Json) {
    match owner
    case JStr(s) => sub == s
    case JNum(text) => sub == text
    case _ => false
  }

  /** A candidate of a dispatch; `conn` stands for the view object's identity. */
  datatype SubscriberView = SubscriberView(conn: nat, claims: Claims, sub: Subscription)

  function RecipientsFor(note: Notification, views: seq<SubscriberView>, columns: seq<string>): seq<SubscriberView> {
    var row := RowOf(note);
    if note.truncated then Seqs.Filter(views, (v: SubscriberView) => v.claims.role in ADMIN_ROLES)
    else if row.None? then views
    else
      var owner := OwnerValue(columns, row.value);
      if owner.None? then views
      else Seqs.Filter(views, (v: SubscriberView) =>
        v.claims.role in ADMIN_ROLES || OwnerMatches(v.claims.sub, owner.value))
  }

  /** The owner gate as a rule about one connection. */
  ghost predicate PassesOwnerGate(claims: Claims, note: Notification, columns: seq<string>) {
    || claims.role in ADMIN_ROLES
    || (&& !note.truncated
        && (RowOf(note).Some? ==>
              forall i: nat | FirstOwnerColumn(columns, RowOf(note).value, i) ::
                OwnerMatches(claims.sub, RowOf(note).value[columns[i]])))
  }

  ghost predicate FirstOwnerColumn(columns: seq<string>, row: Row, i: nat) {
    && i < |columns| && columns[i] in row
    && forall j :: 0 <= j < i ==> columns[j] !in row
  }

  lemma {:induction false} OwnerValueIsFirst(columns: seq<string>, row: Row) returns (i: nat)
    ensures OwnerValue(columns, row).None? ==> forall c :: c in columns ==> c !in row
    ensures OwnerValue(columns, row).Some? ==>
              FirstOwnerColumn(columns, row, i) && OwnerValue(columns, row).value == row[columns[i]]
  {
    i := 0;
    if columns != [] && columns[0] !in row {
      i := OwnerValueIsFirst(columns[1..], row);
      if OwnerValue(columns, row).Some? {
        i := i + 1;
        assert columns[i] == columns[1..][i - 1];
        forall j | 0 <= j < i ensures columns[j] !in row {
          if j > 0 { assert columns[j] == columns[1..][j - 1]; }
        }
      }
    }
  }

  /** `RecipientsFor` keeps exactly the views that pass the gate. */
  lemma RecipientsAreGated(note: Notification, views: seq<SubscriberView>, columns: seq<string>, gate: SubscriberView -> bool)
    requires forall v :: v in views ==> gate(v) == PassesOwnerGate(v.claims, note, columns)
    ensures RecipientsFor(note, views, columns) == Seqs.Filter(views, gate)
  {
    var row := RowOf(note);
    if note.truncated {
      FilterSame(views, (v: SubscriberView) => v.claims.role in ADMIN_ROLES, gate);
    } else if row.None? {
      FilterAll(views, gate);
    } else {
      var i := OwnerValueIsFirst(columns, row.value);
      var owner := OwnerValue(columns, row.value);
      if owner.None? {
        assert forall k: nat :: !FirstOwnerColumn(columns, row.value, k);
        FilterAll(views, gate);
      } else {
        assert forall k: nat | FirstOwnerColumn(columns, row.value, k) :: k == i;
        FilterSame(views, (v: SubscriberView) =>
          v.claims.role in ADMIN_ROLES || OwnerMatches(v.claims.sub, owner.value), gate);
      }
    }
  }

  /** JSON equality with numbers and strings compared by their text. */
  predicate ValuesEqual(a: Json, b: Json) {
    || a == b
    || (&& (a.JNum? || a.JStr?) && (b.JNum? || b.JStr?)
        && (if a.JNum? then a.text else a.s) == (if b.JNum? then b.text else b.s))
  }

  predicate MatchesFilter(filter: Filter, note: Notification) {
    var row := RowOf(note);
    row.Some? && filter.column in row.value && ValuesEqual(row.value[filter.column], filter.value)
  }

  predicate MatchesEvent(event: EventFilter, note: Notification) {
    event.AnyEvent? || event.event == note.event
  }

  function ChangeFrame(note: Notification): Frame {
    Change(note.table, note.event, note.record, note.old_, note.truncated)
  }

  // ---- inbound messages -----------------------------------------------------

  datatype Command =
    | Subscribe(sub: Subscription)
    | Unsubscribe(channel: string)
    | Relay(channel: string, name: string, payload: Option<Json>)
    | Track(channel: string, state: Json)
    | Untrack(channel: string)
    | Authenticate
    | Reject(why: Complaint)

  /** A non-empty string, or nothing. */
  function Text(v: Option<Json>): Option<string> {
    if v.Some? && v.value.JStr? && v.value.s != "" then Some(v.value.s) else None
  }

  function DecodeEvent(v: Option<Json>): Option<EventFilter> {
    if v.None? || v.value.JNull? then Some(AnyEvent)
    else if v.value == JStr("*") then Some(AnyEvent)
    else if v.value == JStr("INSERT") then Some(Only(INSERT))
    else if v.value == JStr("UPDATE") then Some(Only(UPDATE))
    else if v.value == JStr("DELETE") then Some(Only(DELETE))
    else None
  }

  function DecodeSubscribe(m: Json, channel: string): Command {
    var event := DecodeEvent(Field(m, "event"));
    var f := Field(m, "filter");
    if event.None? then Reject(BadEvent)
    else if f.None? || f.value.JNull? then Subscribe(Subscription(channel, event.value, None))
    else
      var column, value := Text(Field(f.value, "column")), Field(f.value, "value");
      if column.None? || value.None? then Reject(BadFilter)
      else Subscribe(Subscription(channel, event.value, Some(Filter(column.value, value.value))))
  }

  /** What a raw frame asks for; `None` is text that is not JSON. */
  function Decode(raw: Option<Json>): Command {
    if raw.None? then Reject(NotJson)
    else if !raw.value.JObj? && !raw.value.JArr? then Reject(Malformed)
    else
      var m := raw.value;
      var kind, channel := Text(Field(m, "type")), Text(Field(m, "channel"));
      if kind == Some("auth") then Authenticate
      else if kind.None? || kind.value !in {"subscribe", "unsubscribe", "broadcast", "presence_track", "presence_untrack"} then
        Reject(UnknownType)
      else if channel.None? then Reject(NoChannel)
      else if kind.value == "subscribe" then DecodeSubscribe(m, channel.value)
      else if kind.value == "unsubscribe" then Unsubscribe(channel.value)
      else if kind.value == "presence_untrack" then Untrack(channel.value)
      else if kind.value == "presence_track" then
        var state := Field(m, "state");
        Track(channel.value, if state.Some? && state.value.JObj? then state.value else JObj([]))
      else
        var name := Text(Field(m, "event"));
        if name.None? then Reject(NoEvent) else Relay(channel.value, name.value, Field(m, "payload"))
  }

  // ---- the client's side of the wire ----------------------------------------

  function EventText(event: EventFilter): string {
    if event.AnyEvent? then "*"
    else match event.event
      case INSERT => "INSERT"
      case UPDATE => "UPDATE"
      case DELETE => "DELETE"
  }

  function Message(kind: string, channel: string, rest: seq<(string, Json)>): Json {
    JObj([("type", JStr(kind)), ("channel", JStr(channel))] + rest)
  }

  /** The message a client sends for a command. */
  function Encode(c: Command): Json
    requires !c.Reject?
  {
    match c
    case Subscribe(s) =>
      Message("subscribe", s.channel, [("event", JStr(EventText(s.event)))] +
        if s.filter.None? then []
        else [("filter", JObj([("column", JStr(s.filter.value.column)), ("value", s.filter.value.value)]))])
    case Unsubscribe(channel) => Message("unsubscribe", channel, [])
    case Relay(channel, name, payload) =>
      Message("broadcast", channel, [("event", JStr(name))] +
        if payload.None? then [] else [("payload", payload.value)])
    case Track(channel, state) => Message("presence_track", channel, [("state", state)])
    case Untrack(channel) => Message("presence_untrack", channel, [])
    case Authenticate => JObj([("type", JStr("auth"))])
  }

  /** A command a client can express: named channels, columns and events. */
  predicate Expressible(c: Command) {
    match c
    case Subscribe(s) => s.channel != "" && (s.filter.Some? ==> s.filter.value.column != "")
    case Unsubscribe(channel) => channel != ""
    case Relay(channel, name, _) => channel != "" && name != ""
    case Track(channel, state) => channel != "" && state.JObj?
    case Untrack(channel) => channel != ""
    case Authenticate => true
    case Reject(_) => false
  }

  lemma LookupMessage(kind: string, channel: string, rest: seq<(string, Json)>)
    ensures Lookup(Message(kind, channel, rest).fields, "type") == Some(JStr(kind))
    ensures Lookup(Message(kind, channel, rest).fields, "channel") == Some(JStr(channel))
    ensures forall name :: name != "type" && name != "channel" ==>
              Lookup(Message(kind, channel, rest).fields, name) == Lookup(rest, name)
  {
    var fields := Message(kind, channel, rest).fields;
    assert fields[1..][1..] == rest;
    assert fields[1..][0].0 == "channel";
    assert "channel" != "type";
  }

  lemma LookupSecond(name: string, v: Json, name': string, v': Json)
    requires name != name'
    ensures Lookup([(name, v), (name', v')], name) == Some(v)
    ensures Lookup([(name, v), (name', v')], name') == Some(v')
  {
    assert [(name, v), (name', v')][1..] == [(name', v')];
  }

  lemma DecodeEventText(event: EventFilter)
    ensures DecodeEvent(Some(JStr(EventText(event)))) == Some(event)
  {
  }

  lemma DecodeEncodeSubscribe(s: Subscription)
    requires Expressible(Subscribe(s))
    ensures Decode(Some(Encode(Subscribe(s)))) == Subscribe(s)
  {
    var m, event := Encode(Subscribe(s)), JStr(EventText(s.event));
    DecodeEventText(s.event);
    assert "event" != "filter" && "event" != "type" && "filter" != "type" && "event" != "channel" && "filter" != "channel";
    if s.filter.None? {
      assert [("event", event)] + [] == [("event", event)];
      LookupMessage("subscribe", s.channel, [("event", event)]);
      assert [("event", event)][1..] == [];
      assert Lookup([("event", event)], "filter") == None;
      assert Field(m, "event") == Some(event) && Field(m, "filter") == None;
    } else {
      var column, value := JStr(s.filter.value.column), s.filter.value.value;
      assert "column" != "value";
      LookupSecond("column", column, "value", value);
      var f := JObj([("column", column), ("value", value)]);
      LookupSecond("event", event, "filter", f);
      assert [("event", event)] + [("filter", f)] == [("event", event), ("filter", f)];
      LookupMessage("subscribe", s.channel, [("event", event), ("filter", f)]);
      assert Field(m, "event") == Some(event) && Field(m, "filter") == Some(f);
    }
    assert Decode(Some(m)) == DecodeSubscribe(m, s.channel);
  }

  lemma DecodeEncodeRelay(channel: string, name: string, payload: Option<Json>)
    requires channel != "" && name != ""
    ensures Decode(Some(Encode(Relay(channel, name, payload)))) == Relay(channel, name, payload)
  {
    assert "event" != "payload" && "event" != "type" && "payload" != "type" && "event" != "channel" && "payload" != "channel";
    var tail := if payload.None? then [] else [("payload", payload.value)];
    LookupMessage("broadcast", channel, [("event", JStr(name))] + tail);
    assert ([("event", JStr(name))] + tail)[1..] == tail;
    assert Lookup([("event", JStr(name))] + tail, "payload") == Lookup(tail, "payload") == payload;
  }

  /** Decoding what a client encoded gives the command back. */
  lemma DecodeEncode(c: Command)
    requires Expressible(c)
    ensures Decode(Some(Encode(c))) == c
  {
    match c
    case Subscribe(s) => DecodeEncodeSubscribe(s);
    case Unsubscribe(channel) => LookupMessage("unsubscribe", channel, []);
    case Relay(channel, name, payload) => DecodeEncodeRelay(channel, name, payload);
    case Track(channel, state) => LookupMessage("presence_track", channel, [("state", state)]);
    case Untrack(channel) => LookupMessage("presence_untrack", channel, []);
    case Authenticate =>
  }

  /** The filter's equality is an equivalence, so `5` and `"5"` select the same rows. */
  lemma ValuesEqualIsEquivalence(a: Json, b: Json, c: Json)
    ensures ValuesEqual(a, a)
    ensures ValuesEqual(a, b) ==> ValuesEqual(b, a)
    ensures ValuesEqual(a, b) && ValuesEqual(b, c) ==> ValuesEqual(a, c)
  {
  }
}
