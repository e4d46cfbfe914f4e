/**
 * The server of src/bin/server.rs with its sockets replaced by text: every
 * registered client's stream is the text written to it so far, and the
 * connection a handler serves is the sequence of what its successive
 * `Message::from_reader` calls return. The shared canvas and the registry
 * are the two objects the handler's lock-protected steps change.
 */
module Server {
  import opened Basics
  import opened Versions
  import opened CanvasGrid
  import opened Codec
  import CanvasObject
  import CodecProperties

  /** `ClientUid` is a `u8`. */
  type ClientUid = u8

  /** `text` written to the stream of every target; the other streams as they were. */
  function Delivered<K>(streams: map<K, string>, targets: set<K>, text: string): (r: map<K, string>)
    ensures r.Keys == streams.Keys
  {
    map u | u in streams :: if u in targets then streams[u] + text else streams[u]
  }

  /** The largest uid of a non-empty set, which `keys().max()` finds. */
  ghost function MaxUid(uids: set<ClientUid>): (m: ClientUid)
    requires uids != {}
    ensures m in uids && forall u :: u in uids ==> u <= m
  {
    var u :| u in uids;
    var rest := uids - {u};
    assert forall v :: v in uids ==> v in rest || v == u;
    if rest == {} then u
    else
      var r := MaxUid(rest);
      if u > r then u else r
  }

  /** `get_new_uid`: 1 for an empty registry, otherwise one more than the largest uid. */
  ghost function NewUid(uids: set<ClientUid>): nat {
    if uids == {} then 1 else MaxUid(uids) + 1
  }

  /** The registry `Clients`: for each connected uid, what has been written to its stream. */
  class Clients {
    var list: map<ClientUid, string>

    /** `Clients::new`: nobody registered. */
    constructor ()
      ensures list == map[]
    {
      list := map[];
    }

    /** `broadcast`: the text goes to every registered client. */
    method Broadcast(text: string)
      modifies this
      ensures list == Delivered(old(list), old(list).Keys, text)
    {
      ghost var start := list;
      var todo := list.Keys;
      while todo != {}
        invariant todo <= start.Keys && list.Keys == start.Keys
        invariant forall u :: u in start ==> list[u] == if u !in todo then start[u] + text else start[u]
        decreases todo
      {
        var u :| u in todo;
        list := list[u := list[u] + text];
        todo := todo - {u};
      }
    }

    /** `send`: the text goes to every registered client but `client`. */
    method Send(client: ClientUid, text: string)
      modifies this
      ensures list == Delivered(old(list), old(list).Keys - {client}, text)
    {
      ghost var start := list;
      var todo := list.Keys;
      while todo != {}
        invariant todo <= start.Keys && list.Keys == start.Keys
        invariant forall u :: u in start ==> list[u] == if u !in todo && u != client then start[u] + text else start[u]
        decreases todo
      {
        var u :| u in todo;
        todo := todo - {u};
        if u == client {
          continue;
        }
        list := list[u := list[u] + text];
      }
    }

    /**
     * `add`: registers a new stream under a fresh uid. The source panics if
     * the uid was already there, which the uid's choice rules out.
     */
    method Add() returns (uid: ClientUid)
      requires forall u :: u in list ==> u < 255
      modifies this
      ensures uid !in old(list) && uid == NewUid(old(list).Keys)
      ensures list == old(list)[uid := ""]
    {
      uid := GetNewUid();
      if uid in list {
        assert false;
      }
      list := list[uid := ""];
    }

    /** `remove`: takes the client out of the registry and hands back its stream, if it was there. */
    method Remove(client: ClientUid) returns (stream: Option<string>)
      modifies this
      ensures stream == if client in old(list) then Some(old(list)[client]) else None
      ensures list == old(list) - {client}
    {
      stream := if client in list then Some(list[client]) else None;
      list := list - {client};
    }

    /**
     * `get_new_uid`: one more than the largest uid, or 1. The source warns
     * that it panics once the largest uid is 255.
     */
    method GetNewUid() returns (uid: ClientUid)
      requires forall u :: u in list ==> u < 255
      ensures uid == NewUid(list.Keys)
      ensures uid !in list && forall u :: u in list ==> u < uid
    {
      uid := NextUid(list.Keys);
    }
  }

  /** The search behind `get_new_uid`: `keys().max()` plus one, or 1 when there is no key. */
  method NextUid(uids: set<ClientUid>) returns (uid: ClientUid)
    requires forall u :: u in uids ==> u < 255
    ensures uid == NewUid(uids)
    ensures uid !in uids && forall u :: u in uids ==> u < uid
  {
    var best: ClientUid := 0;
    var todo := uids;
    while todo != {}
      invariant todo <= uids
      invariant forall v :: v in uids && v !in todo ==> v <= best
      invariant if todo == uids then best == 0 else best in uids && best !in todo
      decreases todo
    {
      var u :| u in todo;
      if u > best {
        best := u;
      }
      todo := todo - {u};
    }
    if uids != {} {
      var m := MaxUid(uids);
      assert m <= best && best <= m;
    }
    uid := best + 1;
  }

  // ---------------------------------------------------------------------------
  // handle_stream

  /** Why a handler panics. */
  datatype Panic = UnknownVersion | ExpectedVersion | Unimplemented | UnexpectedMessage

  /** How `handle_stream` ends: the client quit, a read failed (`?`), or the handler panicked. */
  datatype Ending = Left | Disconnected(error: ParseMessageError) | Crashed(reason: Panic)

  /** The `i`-th read; once the input is exhausted `read_line` reads nothing, which is a `FormatError` of the empty line. */
  function Read(inputs: seq<Result<Message, ParseMessageError>>, i: nat): (r: Result<Message, ParseMessageError>)
    ensures r.Ok? ==> i < |inputs|
  {
    if i < |inputs| then inputs[i] else Err(FormatError(""))
  }

  /** The two lock-protected things every handler shares: the canvas and the registry's streams. */
  datatype Shared = Shared(canvas: Grid, streams: map<ClientUid, string>)

  /** A `CharSet` from `uid`: set the cell if it is on the canvas, and forward the message to everyone else either way. */
  function ApplyCharSet(s: Shared, uid: ClientUid, x: usize, y: usize, c: char): (r: Shared)
    requires s.canvas.Valid()
  {
    Shared(
      if s.canvas.IsIn(x, y) then s.canvas.Set(x, y, c) else s.canvas,
      Delivered(s.streams, s.streams.Keys - {uid}, Format(CharSet(x, y, c))))
  }

  /** The main loop of `handle_stream` from the `i`-th read on: the shared state it leaves and how it ends. */
  function Serve(s: Shared, uid: ClientUid, inputs: seq<Result<Message, ParseMessageError>>, i: nat): (r: (Shared, Ending))
    requires s.canvas.Valid() && i <= |inputs|
    ensures r.0.canvas.Valid() && r.0.canvas.width == s.canvas.width && r.0.canvas.height == s.canvas.height
    decreases |inputs| - i
  {
    match Read(inputs, i)
    case Err(e) => (s, Disconnected(e))
    case Ok(Quit) => (Shared(s.canvas, s.streams - {uid}), Left)
    case Ok(CharSet(x, y, c)) => Serve(ApplyCharSet(s, uid, x, y, c), uid, inputs, i + 1)
    case Ok(CanvasSet(_)) => (s, Crashed(Unimplemented))
    case Ok(_) => (s, Crashed(UnexpectedMessage))
  }

  /** `handle_stream` as a whole: the version check on the first read, then the main loop. */
  function Session(s: Shared, uid: ClientUid, inputs: seq<Result<Message, ParseMessageError>>): (Shared, Ending)
    requires s.canvas.Valid()
  {
    match Read(inputs, 0)
    case Err(e) => (s, Disconnected(e))
    case Ok(VersionReq(v)) =>
      if v != ProtocolVersion then (s, Crashed(UnknownVersion)) else Serve(s, uid, inputs, 1)
    case Ok(_) => (s, Crashed(ExpectedVersion))
  }

  /**
   * The `CharSet` messages read from the `i`-th read on, up to the first read
   * that is anything else: what the main loop forwards to the other clients.
   */
  function Relayed(inputs: seq<Result<Message, ParseMessageError>>, i: nat): (ms: seq<Message>)
    requires i <= |inputs|
    ensures i + |ms| <= |inputs|
    ensures forall j :: 0 <= j < |ms| ==> ms[j].CharSet?
    decreases |inputs| - i
  {
    match Read(inputs, i)
    case Ok(CharSet(x, y, c)) => [CharSet(x, y, c)] + Relayed(inputs, i + 1)
    case _ => []
  }

  /** The relayed messages are the longest run of `CharSet` reads from the `i`-th on, in order. */
  lemma {:induction false} RelayedRun(inputs: seq<Result<Message, ParseMessageError>>, i: nat)
    requires i <= |inputs|
    ensures var ms := Relayed(inputs, i);
      && (forall j :: 0 <= j < |ms| ==> Read(inputs, i + j) == Ok(ms[j]))
      && !(Read(inputs, i + |ms|).Ok? && Read(inputs, i + |ms|).value.CharSet?)
    decreases |inputs| - i
  {
    var ms := Relayed(inputs, i);
    match Read(inputs, i)
    case Ok(CharSet(x, y, c)) =>
      RelayedRun(inputs, i + 1);
      var rest := Relayed(inputs, i + 1);
      assert ms == [CharSet(x, y, c)] + rest;
      forall j | 0 <= j < |ms|
        ensures Read(inputs, i + j) == Ok(ms[j])
      {
        if j > 0 {
          assert ms[j] == rest[j - 1];
        }
      }
    case _ =>
  }

  /** What a whole `handle_stream` forwards: nothing unless the version request is accepted. */
  function SessionRelayed(inputs: seq<Result<Message, ParseMessageError>>): seq<Message> {
    if Read(inputs, 0) == Ok(VersionReq(ProtocolVersion)) then Relayed(inputs, 1) else []
  }

  /** The relayed messages as the other clients receive them, one after another. */
  function RelayedText(ms: seq<Message>): string
    requires forall j :: 0 <= j < |ms| ==> ms[j].CharSet?
  {
    FormatAll(ms)
  }

  /** What `handle_stream` writes on the connection it serves: the refusal line, or the acknowledgement and the canvas. */
  function Reply(g: Grid, first: Result<Message, ParseMessageError>): string
    requires WellFormed(CanvasSet(g))
  {
    match first
    case Ok(VersionReq(v)) =>
      if v != ProtocolVersion then "Unknown version\n" else Format(VersionAck) + Format(CanvasSet(g))
    case _ => ""
  }

  class Server {
    const canvas: CanvasObject.Canvas
    const clients: Clients

    predicate Valid()
      reads this, canvas
    {
      canvas.Valid() && canvas.width <= UsizeMax && canvas.height <= UsizeMax
    }

    function State(): Shared
      reads this, canvas, clients
    {
      Shared(canvas.Value(), clients.list)
    }

    constructor (canvas: CanvasObject.Canvas, clients: Clients)
      ensures this.canvas == canvas && this.clients == clients
    {
      this.canvas := canvas;
      this.clients := clients;
    }

    /**
     * `handle_stream` for client `uid`: what it writes back on its own
     * connection, and the shared state and ending `Session` describes.
     */
    method HandleStream(uid: ClientUid, inputs: seq<Result<Message, ParseMessageError>>) returns (end: Ending, reply: string)
      requires Valid()
      modifies canvas, clients
      ensures Valid()
      ensures reply == Reply(old(canvas.Value()), Read(inputs, 0))
      ensures (State(), end) == Session(old(State()), uid, inputs)
    {
      reply := "";
      var first := Read(inputs, 0);
      match first {
        case Err(e) =>
          return Disconnected(e), reply;
        case Ok(VersionReq(v)) =>
          if v != ProtocolVersion {
            reply := reply + "Unknown version\n";
            return Crashed(UnknownVersion), reply;
          }
          reply := reply + Format(VersionAck);
        case Ok(_) =>
          return Crashed(ExpectedVersion), reply;
      }
      reply := reply + Format(CanvasSet(canvas.Value()));
      end := MainLoop(uid, inputs);
    }

    /** The main loop of `handle_stream`, from the read after the version request on. */
    method MainLoop(uid: ClientUid, inputs: seq<Result<Message, ParseMessageError>>) returns (end: Ending)
      requires Valid() && 1 <= |inputs|
      modifies canvas, clients
      ensures Valid()
      ensures (State(), end) == Serve(old(State()), uid, inputs, 1)
    {
      var i := 1;
      while true
        invariant Valid() && 1 <= i <= |inputs|
        invariant Serve(State(), uid, inputs, i) == Serve(old(State()), uid, inputs, 1)
        decreases |inputs| - i
      {
        var msg := Read(inputs, i);
        match msg {
          case Err(e) =>
            return Disconnected(e);
          case Ok(Quit) =>
            var _ := clients.Remove(uid);
            return Left;
          case Ok(CharSet(x, y, c)) =>
            if canvas.Value().IsIn(x, y) {
              canvas.Set(x, y, c);
            }
            clients.Send(uid, Format(CharSet(x, y, c)));
            i := i + 1;
          case Ok(CanvasSet(_)) =>
            return Crashed(Unimplemented);
          case Ok(_) =>
            return Crashed(UnexpectedMessage);
        }
      }
    }

    /**
     * One connection as `main` runs it: register the stream, serve it, and
     * remove the uid again when the handler returns (a second removal after
     * `Quit`, which changes nothing). A handler that panics unwinds its
     * thread before the removal, so a crashed client's uid stays registered.
     */
    method Connection(inputs: seq<Result<Message, ParseMessageError>>) returns (uid: ClientUid, end: Ending, reply: string)
      requires Valid() && forall u :: u in clients.list ==> u < 255
      modifies canvas, clients
      ensures Valid() && uid !in old(clients.list)
      ensures reply == Reply(old(canvas.Value()), Read(inputs, 0))
      ensures clients.list.Keys == old(clients.list).Keys + (if end.Crashed? then {uid} else {})
      ensures end.Crashed? ==> clients.list[uid] == ""
      ensures forall u :: u in old(clients.list) ==> u in clients.list && clients.list[u] == old(clients.list)[u] + RelayedText(SessionRelayed(inputs))
      ensures var (after, e) := Session(Shared(old(canvas.Value()), old(clients.list)[uid := ""]), uid, inputs);
        && end == e && canvas.Value() == after.canvas
        && clients.list == if end.Crashed? then after.streams else after.streams - {uid}
    {
      uid := clients.Add();
      end, reply := HandleStream(uid, inputs);
      if !end.Crashed? {
        var _ := clients.Remove(uid);
      }
      ConnectionRegistry(old(clients.list), old(canvas.Value()), uid, inputs);
    }
  }

  // ---------------------------------------------------------------------------
  // What the main loop does to the shared state

  /** The text of one message followed by the text of the rest. */
  lemma FormatAllCons(m: Message, ms: seq<Message>)
    requires WellFormed(m) && forall j :: 0 <= j < |ms| ==> WellFormed(ms[j])
    ensures forall j :: 0 <= j < |[m] + ms| ==> WellFormed(([m] + ms)[j])
    ensures FormatAll([m] + ms) == Format(m) + FormatAll(ms)
  {
    var all := [m] + ms;
    assert all[1..] == ms;
    assert Written(all)[1..] == Written(ms);
  }

  /** How the main loop ends on a read that does not continue it. */
  function Stopped(last: Result<Message, ParseMessageError>): Ending {
    match last
    case Err(e) => Disconnected(e)
    case Ok(Quit) => Left
    case Ok(CanvasSet(_)) => Crashed(Unimplemented)
    case Ok(_) => Crashed(UnexpectedMessage)
  }

  /** Which reads make the main loop leave, disconnect or hit `unimplemented!()`. */
  lemma StoppedCases(last: Result<Message, ParseMessageError>)
    ensures Stopped(last).Left? <==> last == Ok(Quit)
    ensures Stopped(last).Disconnected? <==> last.Err?
    ensures last.Err? ==> Stopped(last) == Disconnected(last.error)
    ensures Stopped(last) == Crashed(Unimplemented) <==> last.Ok? && last.value.CanvasSet?
  {
  }

  /** The main loop relays the `CharSet`s it reads and ends on the first read after them. */
  lemma {:induction false} ServeStops(s: Shared, uid: ClientUid, inputs: seq<Result<Message, ParseMessageError>>, i: nat)
    requires s.canvas.Valid() && i <= |inputs|
    ensures Serve(s, uid, inputs, i).1 == Stopped(Read(inputs, i + |Relayed(inputs, i)|))
    decreases |inputs| - i
  {
    match Read(inputs, i)
    case Ok(CharSet(x, y, c)) =>
      ServeStopsStep(s, uid, inputs, i, x, y, c);
      ServeStops(ApplyCharSet(s, uid, x, y, c), uid, inputs, i + 1);
    case _ =>
      assert Relayed(inputs, i) == [];
      ServeStopsHere(s, uid, inputs, i);
  }

  /** A `CharSet` read moves both the main loop and the relayed run on by one read. */
  lemma ServeStopsStep(s: Shared, uid: ClientUid, inputs: seq<Result<Message, ParseMessageError>>, i: nat, x: usize, y: usize, c: char)
    requires s.canvas.Valid() && i <= |inputs| && Read(inputs, i) == Ok(CharSet(x, y, c))
    ensures Serve(s, uid, inputs, i).1 == Serve(ApplyCharSet(s, uid, x, y, c), uid, inputs, i + 1).1
    ensures i + |Relayed(inputs, i)| == i + 1 + |Relayed(inputs, i + 1)|
  {
    ServeCharSet(s, uid, inputs, i, x, y, c);
    RelayedCons(inputs, i, x, y, c);
  }

  /** A read other than a `CharSet` ends the main loop as `Stopped` says. */
  lemma ServeStopsHere(s: Shared, uid: ClientUid, inputs: seq<Result<Message, ParseMessageError>>, i: nat)
    requires s.canvas.Valid() && i <= |inputs|
    requires !(Read(inputs, i).Ok? && Read(inputs, i).value.CharSet?)
    ensures Serve(s, uid, inputs, i).1 == Stopped(Read(inputs, i))
  {
  }

  /**
   * How the main loop ends, in terms of the read after the relayed
   * `CharSet`s: `Quit` leaves, and a failed read disconnects with its error.
   */
  lemma ServeEnding(s: Shared, uid: ClientUid, inputs: seq<Result<Message, ParseMessageError>>, i: nat)
    requires s.canvas.Valid() && i <= |inputs|
    ensures var e := Serve(s, uid, inputs, i).1; var last := Read(inputs, i + |Relayed(inputs, i)|);
      && (e.Left? <==> last == Ok(Quit))
      && (e.Disconnected? <==> last.Err?)
      && (last.Err? ==> e == Disconnected(last.error))
  {
    ServeStops(s, uid, inputs, i);
    var last := Read(inputs, i + |Relayed(inputs, i)|);
    StoppedCases(last);
  }

  /** The main loop panics on `unimplemented!()` exactly when the read after the relayed `CharSet`s is a `CanvasSet`. */
  lemma ServeUnimplemented(s: Shared, uid: ClientUid, inputs: seq<Result<Message, ParseMessageError>>, i: nat)
    requires s.canvas.Valid() && i <= |inputs|
    ensures var last := Read(inputs, i + |Relayed(inputs, i)|);
      Serve(s, uid, inputs, i).1 == Crashed(Unimplemented) <==> last.Ok? && last.value.CanvasSet?
  {
    ServeStops(s, uid, inputs, i);
    var last := Read(inputs, i + |Relayed(inputs, i)|);
    StoppedCases(last);
  }

  /**
   * The registry after the main loop: the client's own uid is gone exactly
   * when it quit, nobody else joins or leaves, and nothing is ever written to
   * the client's own stream through the registry.
   */
  lemma {:induction false} ServeRegistry(s: Shared, uid: ClientUid, inputs: seq<Result<Message, ParseMessageError>>, i: nat)
    requires s.canvas.Valid() && i <= |inputs|
    ensures var (t, e) := Serve(s, uid, inputs, i);
      && t.streams.Keys == (if e.Left? then s.streams.Keys - {uid} else s.streams.Keys)
      && (uid in t.streams ==> t.streams[uid] == s.streams[uid])
    decreases |inputs| - i
  {
    var r := Read(inputs, i);
    if r.Ok? && r.value.CharSet? {
      var m := r.value;
      ServeCharSet(s, uid, inputs, i, m.x, m.y, m.c);
      ServeRegistry(ApplyCharSet(s, uid, m.x, m.y, m.c), uid, inputs, i + 1);
    }
  }

  /** A `CharSet` read is applied and the loop goes on with the next read. */
  lemma ServeCharSet(s: Shared, uid: ClientUid, inputs: seq<Result<Message, ParseMessageError>>, i: nat, x: usize, y: usize, c: char)
    requires s.canvas.Valid() && i <= |inputs| && Read(inputs, i) == Ok(CharSet(x, y, c))
    ensures Serve(s, uid, inputs, i) == Serve(ApplyCharSet(s, uid, x, y, c), uid, inputs, i + 1)
  {
  }

  /** A `CharSet` read heads the relayed messages, and its text heads their text. */
  lemma RelayedCons(inputs: seq<Result<Message, ParseMessageError>>, i: nat, x: usize, y: usize, c: char)
    requires i <= |inputs| && Read(inputs, i) == Ok(CharSet(x, y, c))
    ensures Relayed(inputs, i) == [CharSet(x, y, c)] + Relayed(inputs, i + 1)
  {
  }

  /** The text of the relayed messages starts with the text of the first. */
  lemma RelayedTextCons(inputs: seq<Result<Message, ParseMessageError>>, i: nat, x: usize, y: usize, c: char)
    requires i <= |inputs| && Read(inputs, i) == Ok(CharSet(x, y, c))
    ensures RelayedText(Relayed(inputs, i)) == Format(CharSet(x, y, c)) + RelayedText(Relayed(inputs, i + 1))
  {
    FormatAllCons(CharSet(x, y, c), Relayed(inputs, i + 1));
  }

  /** Every other registered client receives the relayed `CharSet`s, in the order they were read. */
  lemma {:induction false} ServeRelays(s: Shared, uid: ClientUid, inputs: seq<Result<Message, ParseMessageError>>, i: nat, u: ClientUid)
    requires s.canvas.Valid() && i <= |inputs|
    requires u in s.streams && u != uid
    ensures var t := Serve(s, uid, inputs, i).0;
      u in t.streams && t.streams[u] == s.streams[u] + RelayedText(Relayed(inputs, i))
    decreases |inputs| - i
  {
    match Read(inputs, i)
    case Ok(CharSet(x, y, c)) =>
      var s' := ApplyCharSet(s, uid, x, y, c);
      ServeCharSet(s, uid, inputs, i, x, y, c);
      RelayedTextCons(inputs, i, x, y, c);
      ServeRelays(s', uid, inputs, i + 1, u);
      assert s'.streams[u] == s.streams[u] + Format(CharSet(x, y, c));
    case _ =>
      assert Relayed(inputs, i) == [];
  }

  /**
   * After a whole `handle_stream` the registry holds the same other clients;
   * the handler's own uid is gone only after `Quit`, and its stream is untouched.
   */
  lemma SessionKeys(s: Shared, uid: ClientUid, inputs: seq<Result<Message, ParseMessageError>>)
    requires s.canvas.Valid()
    ensures (Session(s, uid, inputs).0.streams - {uid}).Keys == s.streams.Keys - {uid}
    ensures var (t, e) := Session(s, uid, inputs);
      && t.streams.Keys == (if e.Left? then s.streams.Keys - {uid} else s.streams.Keys)
      && (uid in t.streams ==> t.streams[uid] == s.streams[uid])
  {
    if Read(inputs, 0) == Ok(VersionReq(ProtocolVersion)) {
      ServeRegistry(s, uid, inputs, 1);
    }
  }

  /** Over a whole `handle_stream`, every other client receives what the session relays. */
  lemma SessionRelays(s: Shared, uid: ClientUid, inputs: seq<Result<Message, ParseMessageError>>, u: ClientUid)
    requires s.canvas.Valid() && u in s.streams && u != uid
    ensures var t := Session(s, uid, inputs).0.streams;
      u in t && t[u] == s.streams[u] + RelayedText(SessionRelayed(inputs))
  {
    if Read(inputs, 0) == Ok(VersionReq(ProtocolVersion)) {
      ServeRelays(s, uid, inputs, 1, u);
    }
  }

  /**
   * The registry `main` leaves after one connection that joined with an empty
   * stream: every other client stays and gains what the session relays; the
   * connection's own uid is gone, unless the handler panicked, which leaves
   * it registered with its empty stream.
   */
  lemma ConnectionRegistry(before: map<ClientUid, string>, g: Grid, uid: ClientUid, inputs: seq<Result<Message, ParseMessageError>>)
    requires g.Valid() && uid !in before
    ensures var (after, e) := Session(Shared(g, before[uid := ""]), uid, inputs);
      var list := if e.Crashed? then after.streams else after.streams - {uid};
      && list.Keys == before.Keys + (if e.Crashed? then {uid} else {})
      && (e.Crashed? ==> list[uid] == "")
      && forall u :: u in before ==> u in list && list[u] == before[u] + RelayedText(SessionRelayed(inputs))
  {
    var joined := Shared(g, before[uid := ""]);
    SessionKeys(joined, uid, inputs);
    forall u | u in before
      ensures var t := Session(joined, uid, inputs).0.streams; u in t && t[u] == before[u] + RelayedText(SessionRelayed(inputs))
    {
      SessionRelays(joined, uid, inputs, u);
    }
  }

  /** Whether one of the messages is a `CharSet` naming cell `(x, y)`. */
  predicate Names(ms: seq<Message>, x: nat, y: nat) {
    exists j :: 0 <= j < |ms| && ms[j].CharSet? && ms[j].x == x && ms[j].y == y
  }

  /** A message naming the cell among the later ones names it among all. */
  lemma NamesLater(ms: seq<Message>, x: nat, y: nat)
    requires |ms| > 0 && Names(ms[1..], x, y)
    ensures Names(ms, x, y)
  {
    var j :| 0 <= j < |ms[1..]| && ms[1..][j].CharSet? && ms[1..][j].x == x && ms[1..][j].y == y;
    assert ms[j + 1] == ms[1..][j];
  }

  /** The main loop leaves every cell no relayed `CharSet` names as it was. */
  lemma {:induction false} ServeUntouched(s: Shared, uid: ClientUid, inputs: seq<Result<Message, ParseMessageError>>, i: nat)
    requires s.canvas.Valid() && i <= |inputs|
    ensures var g := Serve(s, uid, inputs, i).0.canvas;
      forall x: nat, y: nat :: s.canvas.IsIn(x, y) && !Names(Relayed(inputs, i), x, y) ==> g.Get(x, y) == s.canvas.Get(x, y)
    decreases |inputs| - i
  {
    match Read(inputs, i)
    case Ok(CharSet(cx, cy, c)) =>
      var s' := ApplyCharSet(s, uid, cx, cy, c);
      ServeUntouched(s', uid, inputs, i + 1);
      var ms := Relayed(inputs, i);
      forall x: nat, y: nat | s.canvas.IsIn(x, y) && !Names(ms, x, y)
        ensures Serve(s, uid, inputs, i).0.canvas.Get(x, y) == s.canvas.Get(x, y)
      {
        if Names(ms[1..], x, y) {
          NamesLater(ms, x, y);
        }
        assert ms[0] == CharSet(cx, cy, c);
      }
    case _ =>
  }

  /** A cell ends up holding the character of the last relayed `CharSet` that names it, if it is on the canvas. */
  lemma {:induction false} ServeLastWrite(s: Shared, uid: ClientUid, inputs: seq<Result<Message, ParseMessageError>>, i: nat, j: nat)
    requires s.canvas.Valid() && i <= |inputs|
    requires j < |Relayed(inputs, i)|
    requires var m := Relayed(inputs, i)[j]; s.canvas.IsIn(m.x, m.y) && !Names(Relayed(inputs, i)[j + 1..], m.x, m.y)
    ensures var m := Relayed(inputs, i)[j]; Serve(s, uid, inputs, i).0.canvas.Get(m.x, m.y) == m.c
    decreases |inputs| - i
  {
    var ms := Relayed(inputs, i);
    match Read(inputs, i)
    case Ok(CharSet(cx, cy, c)) =>
      var s' := ApplyCharSet(s, uid, cx, cy, c);
      assert ms[1..] == Relayed(inputs, i + 1);
      if j == 0 {
        ServeUntouched(s', uid, inputs, i + 1);
      } else {
        assert ms[j + 1..] == ms[1..][j..];
        ServeLastWrite(s', uid, inputs, i + 1, j - 1);
      }
    case _ =>
  }

  // ---------------------------------------------------------------------------
  // The handshake

  /** An accepted version request is answered with text a client reads back as `VersionAck` and then the canvas. */
  lemma AcceptedReplyReadsBack(g: Grid)
    requires CodecProperties.RoundTrips(CanvasSet(g))
    ensures var reply := Reply(g, Ok(VersionReq(ProtocolVersion))); var n := |Format(VersionAck)|;
      && Decode(reply, 0) == Decoded(Ok(VersionAck), n)
      && Decode(reply, n) == Decoded(Ok(CanvasSet(g)), |reply|)
  {
    var reply := Reply(g, Ok(VersionReq(ProtocolVersion)));
    assert "" + Format(VersionAck) + Format(CanvasSet(g)) == reply;
    CodecProperties.DecodeFormat("", VersionAck, Format(CanvasSet(g)));
    assert Format(VersionAck) + Format(CanvasSet(g)) + "" == reply;
    CodecProperties.DecodeFormat(Format(VersionAck), CanvasSet(g), "");
  }
}
