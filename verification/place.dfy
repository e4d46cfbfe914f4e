/**
 * The rules of examples/an-ascii-place.rs, a server on which every client may
 * place one character per cooldown period. Its threads and its channel are
 * replaced by sequences: a client connection handles the placements its
 * client sends, each with the instant it was received; the canvas keeper
 * handles what the channel delivers; the connection manager handles what
 * `accept` returns. Every stream is the text written to it so far.
 */
module Place {
  import opened Basics
  import opened Versions
  import opened CanvasGrid
  import Codec
  import CanvasObject
  import Server

  /** A TCP port number. */
  type Port = n: nat | n < 0x1_0000

  /** `ClientId` is the peer's `SocketAddr`: its address and its port. */
  datatype ClientId = ClientId(ip: seq<u8>, port: Port)

  /** What the client connections send to the canvas keeper. */
  datatype ThreadMessage = SetChar(id: ClientId, x: usize, y: usize, c: char) | Shutdown

  /** A `SetChar` the client sent, and the instant (`Instant::now()`) at which it was received. */
  datatype Placement = Placement(x: usize, y: usize, c: char, time: int)

  // ---------------------------------------------------------------------------
  // The cooldown of `ClientConnection::run`

  /** `now - since` on `Instant`s, which is zero when `since` is the later one. */
  function Elapsed(now: int, since: int): nat {
    if now >= since then now - since else 0
  }

  /** A placement received at `now` is accepted once `wait` has elapsed since `lastWrite`. */
  predicate CooledDown(now: int, lastWrite: int, wait: nat) {
    Elapsed(now, lastWrite) >= wait
  }

  /** Where the cooldown stands: `last_write`, and the placements accepted and rejected so far, in order. */
  datatype Tally = Tally(lastWrite: int, passed: seq<Placement>, held: seq<Placement>)

  /** The cooldown's decision on one more placement. */
  function Judge(t: Tally, wait: nat, p: Placement): Tally {
    if CooledDown(p.time, t.lastWrite, wait) then Tally(p.time, t.passed + [p], t.held)
    else Tally(t.lastWrite, t.passed, t.held + [p])
  }

  /** Where the cooldown stands after the placements `ps`, with `last_write` starting at `start`. */
  function Cooldown(start: int, wait: nat, ps: seq<Placement>): Tally
    decreases |ps|
  {
    if ps == [] then Tally(start, [], [])
    else Judge(Cooldown(start, wait, ps[..|ps| - 1]), wait, ps[|ps| - 1])
  }

  /** The `SetChar`s a client with this id forwards for the placements `ps`. */
  function Forwards(id: ClientId, ps: seq<Placement>): (ms: seq<ThreadMessage>)
    ensures |ms| == |ps|
    ensures forall k :: 0 <= k < |ps| ==> ms[k] == SetChar(id, ps[k].x, ps[k].y, ps[k].c)
    decreases |ps|
  {
    if ps == [] then [] else Forwards(id, ps[..|ps| - 1]) + [SetChar(id, ps[|ps| - 1].x, ps[|ps| - 1].y, ps[|ps| - 1].c)]
  }

  /** Every placement of `ps` names a cell of `g`. */
  predicate InBounds(g: Grid, ps: seq<Placement>) {
    forall k :: 0 <= k < |ps| ==> g.IsIn(ps[k].x, ps[k].y)
  }

  /** What a rejecting client is sent back for the placements `ps`: each cell with its current character. */
  function Restorations(g: Grid, ps: seq<Placement>): (rs: seq<(usize, usize, char)>)
    requires g.Valid() && InBounds(g, ps)
    ensures |rs| == |ps|
    ensures forall k :: 0 <= k < |ps| ==> rs[k] == (ps[k].x, ps[k].y, g.Get(ps[k].x, ps[k].y))
    decreases |ps|
  {
    if ps == [] then []
    else
      var p := ps[|ps| - 1];
      Restorations(g, ps[..|ps| - 1]) + [(p.x, p.y, g.Get(p.x, p.y))]
  }

  /** How `ClientConnection::run` stops: its input ends, or a rejected placement is off the canvas and `get` panics. */
  datatype Stop = InputEnded | GetOutOfBounds(index: nat)

  /** The placements `run` handled before it stopped: all of them, or those before the one that panicked. */
  function Handled(ps: seq<Placement>, stop: Stop): seq<Placement> {
    if stop.GetOutOfBounds? && stop.index <= |ps| then ps[..stop.index] else ps
  }

  /** One client's connection thread. */
  class ClientConnection {
    const wait: nat
    const id: ClientId
    const canvas: CanvasObject.Canvas
    var lastWrite: int
    /** What was sent to the keeper, in order. */
    var forwarded: seq<ThreadMessage>
    /** The `send_char_update` calls made back to the client, in order. */
    var restored: seq<(usize, usize, char)>

    /** The connection the manager builds: `last_write` is `wait` before the instant of connection. */
    constructor (wait: nat, id: ClientId, now: int, canvas: CanvasObject.Canvas)
      ensures this.wait == wait && this.id == id && this.canvas == canvas
      ensures lastWrite == now - wait && forwarded == [] && restored == []
    {
      this.wait := wait;
      this.id := id;
      this.canvas := canvas;
      lastWrite := now - wait;
      forwarded := [];
      restored := [];
    }

    /**
     * The loop of `run` over the placements the client sends, until the
     * input ends or a rejected placement panics; see `Handle`.
     */
    method Run(ps: seq<Placement>) returns (stop: Stop)
      requires canvas.Valid()
      modifies this
      ensures stop.GetOutOfBounds? ==>
        && stop.index < |ps|
        && !CooledDown(ps[stop.index].time, lastWrite, wait)
        && !canvas.Value().IsIn(ps[stop.index].x, ps[stop.index].y)
      ensures var t := Cooldown(old(lastWrite), wait, Handled(ps, stop));
        && lastWrite == t.lastWrite
        && forwarded == old(forwarded) + Forwards(id, t.passed)
        && InBounds(canvas.Value(), t.held)
        && restored == old(restored) + Restorations(canvas.Value(), t.held)
    {
      var last, sent, answered;
      stop, last, sent, answered := Handle(canvas.Value(), id, wait, lastWrite, ps);
      lastWrite, forwarded, restored := last, forwarded + sent, restored + answered;
    }
  }

  /**
   * The loop of `ClientConnection::run` on a client with this id, from
   * `last_write` at `start`, reading the canvas `g`: an accepted placement
   * resets the timer and is forwarded to the keeper; a rejected one is
   * answered with the cell's current character, and panics off the canvas.
   */
  method Handle(g: Grid, id: ClientId, wait: nat, start: int, ps: seq<Placement>)
    returns (stop: Stop, last: int, sent: seq<ThreadMessage>, answered: seq<(usize, usize, char)>)
    requires g.Valid()
    ensures stop.GetOutOfBounds? ==>
      && stop.index < |ps|
      && !CooledDown(ps[stop.index].time, last, wait)
      && !g.IsIn(ps[stop.index].x, ps[stop.index].y)
    ensures var t := Cooldown(start, wait, Handled(ps, stop));
      && last == t.lastWrite
      && sent == Forwards(id, t.passed)
      && InBounds(g, t.held) && answered == Restorations(g, t.held)
  {
    ghost var t := Tally(start, [], []);
    last, sent, answered := start, [], [];
    var i := 0;
    while i < |ps|
      invariant 0 <= i <= |ps| && t == Cooldown(start, wait, ps[..i])
      invariant Matches(g, id, t, last, sent, answered)
    {
      var p := ps[i];
      CooldownStep(start, wait, ps, i, t);
      var ok;
      ok, last, sent, answered := Decide(g, id, wait, t, last, sent, answered, p);
      if !ok {
        return GetOutOfBounds(i), last, sent, answered;
      }
      t := Judge(t, wait, p);
      i := i + 1;
    }
    assert ps[..i] == ps;
    stop := InputEnded;
  }

  /**
   * One turn of the loop: an accepted placement resets the timer and is
   * forwarded; a rejected one is answered with the cell's character, and
   * panics (`ok` false) off the canvas.
   */
  method Decide(g: Grid, id: ClientId, wait: nat, ghost t: Tally, last: int, sent: seq<ThreadMessage>, answered: seq<(usize, usize, char)>, p: Placement)
    returns (ok: bool, last': int, sent': seq<ThreadMessage>, answered': seq<(usize, usize, char)>)
    requires g.Valid() && Matches(g, id, t, last, sent, answered)
    ensures ok <==> CooledDown(p.time, last, wait) || g.IsIn(p.x, p.y)
    ensures ok ==> Matches(g, id, Judge(t, wait, p), last', sent', answered')
    ensures !ok ==> last' == last && sent' == sent && answered' == answered
  {
    if CooledDown(p.time, last, wait) {
      ForwardsSnoc(id, t.passed, p);
      return true, p.time, sent + [SetChar(id, p.x, p.y, p.c)], answered;
    }
    if !g.IsIn(p.x, p.y) {
      return false, last, sent, answered;
    }
    RestorationsSnoc(g, t.held, p);
    return true, last, sent, answered + [(p.x, p.y, g.Get(p.x, p.y))];
  }

  /** What `Handle` has produced agrees with the cooldown's tally. */
  predicate Matches(g: Grid, id: ClientId, t: Tally, last: int, sent: seq<ThreadMessage>, answered: seq<(usize, usize, char)>)
    requires g.Valid()
  {
    && last == t.lastWrite
    && sent == Forwards(id, t.passed)
    && InBounds(g, t.held) && answered == Restorations(g, t.held)
  }

  /** The cooldown after one more placement is its decision on it. */
  lemma CooldownStep(start: int, wait: nat, ps: seq<Placement>, i: nat, t: Tally)
    requires i < |ps| && t == Cooldown(start, wait, ps[..i])
    ensures Cooldown(start, wait, ps[..i + 1]) == Judge(t, wait, ps[i])
  {
    assert ps[..i + 1][..i] == ps[..i];
  }

  /** Forwarding one more placement appends its `SetChar`. */
  lemma ForwardsSnoc(id: ClientId, ps: seq<Placement>, p: Placement)
    ensures Forwards(id, ps + [p]) == Forwards(id, ps) + [SetChar(id, p.x, p.y, p.c)]
  {
    assert (ps + [p])[..|ps|] == ps;
  }

  /** Rejecting one more placement on the canvas appends its cell and character. */
  lemma RestorationsSnoc(g: Grid, ps: seq<Placement>, p: Placement)
    requires g.Valid() && InBounds(g, ps) && g.IsIn(p.x, p.y)
    ensures InBounds(g, ps + [p])
    ensures Restorations(g, ps + [p]) == Restorations(g, ps) + [(p.x, p.y, g.Get(p.x, p.y))]
  {
    assert (ps + [p])[..|ps|] == ps;
  }

  /**
   * The cooldown's bookkeeping: `last_write` is the last accepted instant,
   * the first accepted placement came `wait` after the start, and each
   * accepted placement came `wait` after the one before it.
   */
  lemma {:induction false} PassedSpaced(start: int, wait: nat, ps: seq<Placement>)
    ensures var t := Cooldown(start, wait, ps);
      && t.lastWrite == (if t.passed == [] then start else t.passed[|t.passed| - 1].time)
      && (t.passed != [] ==> CooledDown(t.passed[0].time, start, wait))
      && forall k :: 0 < k < |t.passed| ==> CooledDown(t.passed[k].time, t.passed[k - 1].time, wait)
    decreases |ps|
  {
    if ps != [] {
      PassedSpaced(start, wait, ps[..|ps| - 1]);
    }
  }

  /** With a positive wait, accepted placements `j - i` apart are at least `(j - i) * wait` apart in time. */
  lemma {:induction false} SpacedApart(start: int, wait: nat, ps: seq<Placement>, i: nat, j: nat)
    requires wait > 0
    requires i <= j < |Cooldown(start, wait, ps).passed|
    ensures Cooldown(start, wait, ps).passed[j].time - Cooldown(start, wait, ps).passed[i].time >= (j - i) * wait
    decreases j - i
  {
    var acc := Cooldown(start, wait, ps).passed;
    if i < j {
      SpacedApart(start, wait, ps, i, j - 1);
      PassedSpaced(start, wait, ps);
      assert CooledDown(acc[j].time, acc[j - 1].time, wait);
      assert (j - i) * wait == (j - 1 - i) * wait + wait;
    }
  }

  /** Every placement is either accepted or rejected, and none is lost or duplicated. */
  lemma {:induction false} PassedHeldSplit(start: int, wait: nat, ps: seq<Placement>)
    ensures multiset(Cooldown(start, wait, ps).passed) + multiset(Cooldown(start, wait, ps).held) == multiset(ps)
    decreases |ps|
  {
    if ps != [] {
      PassedHeldSplit(start, wait, ps[..|ps| - 1]);
      assert ps == ps[..|ps| - 1] + [ps[|ps| - 1]];
    }
  }

  /** A client's first placement, received after it connected, is accepted, because `last_write` starts `wait` early. */
  lemma FirstPlacementPasses(connected: int, wait: nat, p: Placement)
    requires p.time >= connected
    ensures Cooldown(connected - wait, wait, [p]) == Tally(p.time, [p], [])
  {
    assert [p][..0] == [];
  }

  // ---------------------------------------------------------------------------
  // `CanvasKeeper::run`

  /** The canvas and the stream of every registered client, which the keeper changes under their locks. */
  datatype World = World(canvas: Grid, streams: map<ClientId, string>)

  /**
   * One `SetChar` from the channel: off the canvas it is ignored; otherwise
   * the cell is set and a `CharSet` written to every client but the sender.
   */
  function Apply(w: World, id: ClientId, x: usize, y: usize, c: char): (r: World)
    requires w.canvas.Valid()
    ensures r.canvas.Valid() && r.canvas.width == w.canvas.width && r.canvas.height == w.canvas.height
    ensures r.streams.Keys == w.streams.Keys
    ensures !w.canvas.IsIn(x, y) ==> r == w
    ensures w.canvas.IsIn(x, y) ==>
      && r.canvas.Get(x, y) == c
      && (forall x', y' :: w.canvas.IsIn(x', y') && (x' != x || y' != y) ==> r.canvas.Get(x', y') == w.canvas.Get(x', y'))
      && forall u :: u in w.streams ==>
           r.streams[u] == if u == id then w.streams[u] else w.streams[u] + Codec.Format(Codec.CharSet(x, y, c))
  {
    if !w.canvas.IsIn(x, y) then w
    else World(w.canvas.Set(x, y, c), Server.Delivered(w.streams, w.streams.Keys - {id}, Codec.Format(Codec.CharSet(x, y, c))))
  }

  /** How the keeper's loop ends: on `Shutdown`, or with the error of a channel that has no sender left. */
  datatype KeeperEnd = ShutDown | ChannelClosed

  /** The keeper's loop over the messages the channel delivers, in order. */
  function Keep(w: World, inbox: seq<ThreadMessage>): (r: (World, KeeperEnd))
    requires w.canvas.Valid()
    ensures r.0.canvas.Valid() && r.0.canvas.width == w.canvas.width && r.0.canvas.height == w.canvas.height
    ensures r.0.streams.Keys == w.streams.Keys
    decreases |inbox|
  {
    if inbox == [] then (w, ChannelClosed)
    else
      match inbox[0]
      case Shutdown => (w, ShutDown)
      case SetChar(id, x, y, c) => Keep(Apply(w, id, x, y, c), inbox[1..])
  }

  /** The registry shared by the manager and the keeper: each client's stream. */
  class Registry {
    var streams: map<ClientId, string>

    constructor ()
      ensures streams == map[]
    {
      streams := map[];
    }
  }

  class CanvasKeeper {
    const canvas: CanvasObject.Canvas
    const registry: Registry

    constructor (canvas: CanvasObject.Canvas, registry: Registry)
      ensures this.canvas == canvas && this.registry == registry
    {
      this.canvas := canvas;
      this.registry := registry;
    }

    function State(): World
      reads this, canvas, registry
    {
      World(canvas.Value(), registry.streams)
    }

    /** The `SetChar` arm of `run`, with both locks held. */
    method OnSetChar(id: ClientId, x: usize, y: usize, c: char)
      requires canvas.Valid()
      modifies canvas, registry
      ensures canvas.Valid() && State() == Apply(old(State()), id, x, y, c)
    {
      if !canvas.Value().IsIn(x, y) {
        return;
      }
      canvas.Set(x, y, c);
      WriteToOthers(id, Codec.Format(Codec.CharSet(x, y, c)));
    }

    /** The loop over the registry in the `SetChar` arm: `text` goes to every client but `id`. */
    method WriteToOthers(id: ClientId, text: string)
      modifies registry
      ensures registry.streams == Server.Delivered(old(registry.streams), old(registry.streams).Keys - {id}, text)
    {
      ghost var start := registry.streams;
      var todo := registry.streams.Keys;
      while todo != {}
        invariant todo <= start.Keys && registry.streams.Keys == start.Keys
        invariant forall u :: u in start ==>
          registry.streams[u] == if u !in todo && u != id then start[u] + text else start[u]
        decreases todo
      {
        var addr :| addr in todo;
        todo := todo - {addr};
        if addr == id {
          continue;
        }
        registry.streams := registry.streams[addr := registry.streams[addr] + text];
      }
    }

    /** `run`: handles what the channel delivers until `Shutdown`. */
    method Run(inbox: seq<ThreadMessage>) returns (end: KeeperEnd)
      requires canvas.Valid()
      modifies canvas, registry
      ensures canvas.Valid() && (State(), end) == Keep(old(State()), inbox)
    {
      var i := 0;
      while i < |inbox|
        invariant 0 <= i <= |inbox| && canvas.Valid()
        invariant Keep(State(), inbox[i..]) == Keep(old(State()), inbox)
      {
        match inbox[i] {
          case Shutdown =>
            return ShutDown;
          case SetChar(id, x, y, c) =>
            OnSetChar(id, x, y, c);
        }
        assert inbox[i..][1..] == inbox[i + 1..];
        i := i + 1;
      }
      return ChannelClosed;
    }
  }

  /** The keeper ends on `Shutdown` exactly when the channel delivers one. */
  lemma {:induction false} KeepEnds(w: World, inbox: seq<ThreadMessage>)
    requires w.canvas.Valid()
    ensures Keep(w, inbox).1 == ShutDown <==> Shutdown in inbox
    decreases |inbox|
  {
    if inbox != [] && inbox[0].SetChar? {
      KeepEnds(Apply(w, inbox[0].id, inbox[0].x, inbox[0].y, inbox[0].c), inbox[1..]);
      assert inbox == [inbox[0]] + inbox[1..];
    }
  }

  /** Nothing the channel delivers after the first `Shutdown` has any effect. */
  lemma {:induction false} KeepStopsAtShutdown(w: World, before: seq<ThreadMessage>, after: seq<ThreadMessage>)
    requires w.canvas.Valid() && Shutdown !in before
    ensures Keep(w, before + [Shutdown] + after) == Keep(w, before + [Shutdown])
    ensures Keep(w, before + [Shutdown]).1 == ShutDown
    decreases |before|
  {
    if before == [] {
      assert (before + [Shutdown] + after)[0] == Shutdown;
    } else {
      var m := before[0];
      assert m.SetChar?;
      var next := Apply(w, m.id, m.x, m.y, m.c);
      KeepStopsAtShutdown(next, before[1..], after);
      assert (before + [Shutdown] + after)[1..] == before[1..] + [Shutdown] + after;
      assert (before + [Shutdown])[1..] == before[1..] + [Shutdown];
    }
  }

  /**
   * The `CharSet`s client `u` is sent while the keeper handles `inbox` on a
   * `width x height` canvas: one for every `SetChar` before the first
   * `Shutdown` that names a cell and comes from another client.
   */
  function RelayedTo(width: nat, height: nat, u: ClientId, inbox: seq<ThreadMessage>): (ms: seq<Codec.Message>)
    ensures forall j :: 0 <= j < |ms| ==> ms[j].CharSet?
    decreases |inbox|
  {
    if inbox == [] then []
    else
      match inbox[0]
      case Shutdown => []
      case SetChar(id, x, y, c) =>
        if x < width && y < height && id != u then [Codec.CharSet(x, y, c)] + RelayedTo(width, height, u, inbox[1..])
        else RelayedTo(width, height, u, inbox[1..])
  }

  /** A registered client's stream gains exactly the `CharSet`s relayed to it, in the order the channel delivered them. */
  lemma {:induction false} KeepRelays(w: World, inbox: seq<ThreadMessage>, u: ClientId)
    requires w.canvas.Valid() && u in w.streams
    ensures Keep(w, inbox).0.streams[u] == w.streams[u] + Codec.FormatAll(RelayedTo(w.canvas.width, w.canvas.height, u, inbox))
    decreases |inbox|
  {
    var rest := RelayedTo(w.canvas.width, w.canvas.height, u, inbox);
    if inbox == [] || inbox[0].Shutdown? {
      assert rest == [];
    } else {
      var m := inbox[0];
      var next := Apply(w, m.id, m.x, m.y, m.c);
      KeepRelays(next, inbox[1..], u);
      var later := RelayedTo(w.canvas.width, w.canvas.height, u, inbox[1..]);
      if w.canvas.IsIn(m.x, m.y) && m.id != u {
        assert rest == [Codec.CharSet(m.x, m.y, m.c)] + later;
        Server.FormatAllCons(Codec.CharSet(m.x, m.y, m.c), later);
      } else {
        assert rest == later;
      }
    }
  }

  // ---------------------------------------------------------------------------
  // `ConnectionManager::run`

  /** What one `accept` returns: a client and the instant it connected, or an error. */
  datatype Accept = Accepted(addr: ClientId, now: int) | AcceptFailed

  /** How the manager's loop ends: it waits in `accept` forever, or panics on an address already registered. */
  datatype ManagerEnd = Waiting | DuplicateClient(addr: ClientId)

  /** The clients the manager admits from `accepts`, in order, with their instants of connection. */
  function Arrivals(accepts: seq<Accept>): (r: seq<(ClientId, int)>)
    ensures |r| <= |accepts|
    decreases |accepts|
  {
    if accepts == [] then []
    else
      match accepts[0]
      case AcceptFailed => Arrivals(accepts[1..])
      case Accepted(addr, now) => [(addr, now)] + Arrivals(accepts[1..])
  }

  /** The registry after the manager's loop over `accepts`: failed accepts are skipped; a new client gets an empty stream. */
  function Admit(streams: map<ClientId, string>, accepts: seq<Accept>): (r: (map<ClientId, string>, ManagerEnd))
    decreases |accepts|
  {
    if accepts == [] then (streams, Waiting)
    else
      match accepts[0]
      case AcceptFailed => Admit(streams, accepts[1..])
      case Accepted(addr, _) =>
        if addr in streams then (streams, DuplicateClient(addr)) else Admit(streams[addr := ""], accepts[1..])
  }

  /** No address of `addrs` is in `known`, and none occurs twice. */
  predicate AllNew(known: set<ClientId>, addrs: seq<(ClientId, int)>) {
    && (forall i :: 0 <= i < |addrs| ==> addrs[i].0 !in known)
    && forall i, j :: 0 <= i < j < |addrs| ==> addrs[i].0 != addrs[j].0
  }

  /** The manager keeps every registered stream and gives each new client an empty one. */
  lemma {:induction false} AdmitKeeps(streams: map<ClientId, string>, accepts: seq<Accept>)
    ensures var r := Admit(streams, accepts);
      && (forall u :: u in streams ==> u in r.0 && r.0[u] == streams[u])
      && (forall u :: u in r.0 && u !in streams ==> r.0[u] == "")
    decreases |accepts|
  {
    if accepts != [] && accepts[0].Accepted? && accepts[0].addr !in streams {
      var grown := streams[accepts[0].addr := ""];
      assert Admit(streams, accepts) == Admit(grown, accepts[1..]);
      AdmitKeeps(grown, accepts[1..]);
    } else if accepts != [] && accepts[0].AcceptFailed? {
      AdmitKeeps(streams, accepts[1..]);
    }
  }

  /**
   * The manager goes on accepting exactly when no address arrives that is
   * registered already, and then it has registered every arrival.
   */
  lemma {:induction false} AdmitRegisters(streams: map<ClientId, string>, accepts: seq<Accept>)
    ensures var r := Admit(streams, accepts);
      && (r.1 == Waiting <==> AllNew(streams.Keys, Arrivals(accepts)))
      && (r.1 == Waiting ==> r.0.Keys == streams.Keys + set a | a in Arrivals(accepts) :: a.0)
    decreases |accepts|
  {
    if accepts != [] {
      var rest := Arrivals(accepts[1..]);
      match accepts[0]
      case AcceptFailed =>
        AdmitRegisters(streams, accepts[1..]);
      case Accepted(addr, now) =>
        var all := [(addr, now)] + rest;
        assert Arrivals(accepts) == all;
        if addr in streams {
          assert Admit(streams, accepts).1 == DuplicateClient(addr);
          assert all[0].0 in streams.Keys;
        } else {
          var grown := streams[addr := ""];
          assert Admit(streams, accepts) == Admit(grown, accepts[1..]);
          assert grown.Keys == streams.Keys + {addr};
          AdmitRegisters(grown, accepts[1..]);
          AllNewCons(streams.Keys, (addr, now), rest);
          assert (set a | a in all :: a.0) == {addr} + set a | a in rest :: a.0;
        }
    }
  }

  /** `AllNew` of a sequence with a first element, in terms of its tail. */
  lemma AllNewCons(known: set<ClientId>, a: (ClientId, int), rest: seq<(ClientId, int)>)
    requires a.0 !in known
    ensures AllNew(known, [a] + rest) <==> AllNew(known + {a.0}, rest)
  {
    var all := [a] + rest;
    if AllNew(known, all) {
      forall i | 0 <= i < |rest|
        ensures rest[i].0 !in known + {a.0}
      {
        assert rest[i] == all[i + 1] && all[0] == a;
      }
      forall i, j | 0 <= i < j < |rest|
        ensures rest[i].0 != rest[j].0
      {
        assert rest[i] == all[i + 1] && rest[j] == all[j + 1];
      }
    }
    if AllNew(known + {a.0}, rest) {
      forall i, j | 0 <= i < j < |all|
        ensures all[i].0 != all[j].0
      {
        assert all[j] == rest[j - 1];
        if i > 0 {
          assert all[i] == rest[i - 1];
        }
      }
    }
  }

  /** Arrivals of a concatenation are the arrivals of each part. */
  lemma {:induction false} ArrivalsAppend(front: seq<Accept>, back: seq<Accept>)
    ensures Arrivals(front + back) == Arrivals(front) + Arrivals(back)
    decreases |front|
  {
    if front != [] {
      var all := front + back;
      assert all[0] == front[0] && all[1..] == front[1..] + back;
      ArrivalsAppend(front[1..], back);
    } else {
      assert front + back == back;
    }
  }

  class ConnectionManager {
    const wait: nat
    const canvas: CanvasObject.Canvas
    const registry: Registry

    constructor (wait: nat, canvas: CanvasObject.Canvas, registry: Registry)
      ensures this.wait == wait && this.canvas == canvas && this.registry == registry
    {
      this.wait := wait;
      this.canvas := canvas;
      this.registry := registry;
    }

    /**
     * `run`: registers each accepted client and builds its connection, which
     * the source hands to a thread of its own; stops by panicking on an
     * address that is registered already.
     */
    method Run(accepts: seq<Accept>) returns (end: ManagerEnd, spawned: seq<ClientConnection>)
      modifies registry
      ensures (registry.streams, end) == Admit(old(registry.streams), accepts)
      ensures |spawned| <= |Arrivals(accepts)| && (end == Waiting ==> |spawned| == |Arrivals(accepts)|)
      ensures forall k :: 0 <= k < |spawned| ==>
        && fresh(spawned[k])
        && spawned[k].wait == wait && spawned[k].canvas == canvas
        && spawned[k].id == Arrivals(accepts)[k].0
        && spawned[k].lastWrite == Arrivals(accepts)[k].1 - wait
        && spawned[k].forwarded == [] && spawned[k].restored == []
    {
      spawned := [];
      var i := 0;
      while i < |accepts|
        invariant 0 <= i <= |accepts|
        invariant Admit(registry.streams, accepts[i..]) == Admit(old(registry.streams), accepts)
        invariant |spawned| == |Arrivals(accepts[..i])|
        invariant forall k :: 0 <= k < |spawned| ==>
          && fresh(spawned[k])
          && spawned[k].wait == wait && spawned[k].canvas == canvas
          && spawned[k].id == Arrivals(accepts[..i])[k].0
          && spawned[k].lastWrite == Arrivals(accepts[..i])[k].1 - wait
          && spawned[k].forwarded == [] && spawned[k].restored == []
      {
        ArrivalsAppend(accepts[..i], [accepts[i]]);
        assert accepts[..i + 1] == accepts[..i] + [accepts[i]];
        assert accepts[i..][1..] == accepts[i + 1..];
        match accepts[i] {
          case AcceptFailed =>
          case Accepted(id, now) =>
            if id in registry.streams {
              ArrivalsAppend(accepts[..i + 1], accepts[i + 1..]);
              assert accepts[..i + 1] + accepts[i + 1..] == accepts;
              return DuplicateClient(id), spawned;
            }
            registry.streams := registry.streams[id := ""];
            var client := new ClientConnection(wait, id, now, canvas);
            spawned := spawned + [client];
        }
        i := i + 1;
      }
      assert accepts[..i] == accepts;
      end := Waiting;
    }
  }
}
