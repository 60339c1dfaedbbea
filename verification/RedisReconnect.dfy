/**
  The reconnect protocol of contrail-collector/redis_connection.cc with the reconnects that
  contrail-collector/OpServerProxy.cc posts, for any number of connections that share the static
  callback map.

  What hiredis does is an event: opening a context, and the one connect callback and at most one
  disconnect callback that follow on it. A context whose connect failed, or that disconnected, is
  freed, so that its address can come back as a new context.
 */
module RedisReconnect {
  import opened Options

  type Context = nat

  datatype State = INIT | PENDING | CONNECTED | DISCONNECTED

  /**
    One connection: `timer` is set while the reconnect timer is armed, `posted` counts posted
    reconnects, and `setups` the posted functions that are to set up a connection that came up.
   */
  datatype Conn = Conn(context: Option<Context>, state: State, timer: bool, posted: nat, setups: nat)

  /** An entry of the callback map: whose it is, and which of its two callbacks are still set. */
  datatype Callbacks = Callbacks(owner: nat, connect: bool, disconnect: bool)

  /** A context on the side of hiredis: its connect callback is due, or its disconnect callback is. */
  datatype Phase = Opening | Open

  datatype World = World(conns: map<nat, Conn>, fns: map<Context, Callbacks>, live: map<Context, Phase>)

  /** What redisAsyncConnect and redisSecureConnection come to. */
  datatype Attempt = Refused | SecureFailed | Opened(context: Context)

  datatype Event =
    | RunPosted(id: nat, attempt: Attempt)
    | TimerFires(id: nat, attempt: Attempt)
    | ConnectDone(c: Context, ok: bool)
    | Disconnected(c: Context)
    | Replied(c: Context)
    | RunSetup(id: nat)

  // ----- The steps; there is no next state if an assertion of the source fails

  /** RAC_Connect on the connection `conn`. */
  function Connect(w: World, id: nat, conn: Conn, attempt: Attempt): Option<World> {
    if conn.context.Some? then None
    else match attempt
      case Opened(c) =>
        if c in w.fns then None
        else Some(World(w.conns[id := conn.(context := Some(c), state := PENDING)],
                        w.fns[c := Callbacks(id, true, true)], w.live[c := Opening]))
      case _ => Some(w.(conns := w.conns[id := conn.(timer := true)]))
  }

  function ConnectEnds(w: World, c: Context, id: nat, conn: Conn, ok: bool): World
    requires c in w.fns
  {
    if ok then World(w.conns[id := conn.(state := CONNECTED, setups := conn.setups + 1)], w.fns[c := w.fns[c].(connect := false)], w.live[c := Open])
    else World(w.conns[id := conn.(context := None, timer := true)], w.fns - {c}, w.live - {c})
  }

  function Disconnect(w: World, c: Context, id: nat, conn: Conn): World {
    World(w.conns[id := conn.(context := None, state := DISCONNECTED, posted := conn.posted + 1)], w.fns - {c}, w.live - {c})
  }

  function Step(w: World, ev: Event): Option<World>
    requires Allowed(w, ev)
  {
    match ev
    case RunPosted(id, attempt) => Connect(w, id, w.conns[id].(posted := w.conns[id].posted - 1), attempt)
    case TimerFires(id, attempt) => Connect(w, id, w.conns[id].(timer := false), attempt)
    case ConnectDone(c, ok) =>
      if c !in w.fns || w.fns[c].owner !in w.conns || !w.fns[c].connect then None
      else Some(ConnectEnds(w, c, w.fns[c].owner, w.conns[w.fns[c].owner], ok))
    case Disconnected(c) =>
      if c !in w.fns then Some(w.(live := w.live - {c}))
      else if w.fns[c].owner !in w.conns || !w.fns[c].disconnect then None
      else Some(Disconnect(w, c, w.fns[c].owner, w.conns[w.fns[c].owner]))
    case Replied(c) =>
      if c !in w.fns || w.fns[c].owner !in w.conns then Some(w)
      else Some(w.(conns := w.conns[w.fns[c].owner := MoreSetups(w.conns[w.fns[c].owner])]))
    case RunSetup(id) =>
      var conn := w.conns[id];
      if conn.context.None? || conn.context.value !in w.fns then None
      else Some(w.(conns := w.conns[id := conn.(setups := conn.setups - 1)]))
  }

  /** The reply to the first command posts the second half of the setup. */
  function MoreSetups(conn: Conn): Conn {
    conn.(setups := conn.setups + 1)
  }

  /** What asio and hiredis promise of the events they deliver. */
  predicate Allowed(w: World, ev: Event) {
    match ev
    case RunPosted(id, attempt) => id in w.conns && w.conns[id].posted > 0 && (attempt.Opened? ==> attempt.context !in w.live)
    case TimerFires(id, attempt) => id in w.conns && w.conns[id].timer && (attempt.Opened? ==> attempt.context !in w.live)
    case ConnectDone(c, _) => c in w.live && w.live[c] == Opening
    case Disconnected(c) => c in w.live && w.live[c] == Open
    case Replied(c) => c in w.live && w.live[c] == Open
    case RunSetup(id) => id in w.conns && w.conns[id].setups > 0
  }

  /** The event runs a setup on a connection that has dropped since the setup was posted. */
  predicate SetupTooLate(w: World, ev: Event) {
    ev.RunSetup? && ev.id in w.conns && w.conns[ev.id].context.None?
  }

  // ----- The invariant

  /** Exactly one of: a context, an armed timer, a posted reconnect. */
  predicate OneToken(conn: Conn) {
    || (conn.context.Some? && !conn.timer && conn.posted == 0)
    || (conn.context.None? && conn.timer && conn.posted == 0)
    || (conn.context.None? && !conn.timer && conn.posted == 1)
  }

  ghost predicate ConnOk(w: World, id: nat)
    requires id in w.conns
  {
    var conn := w.conns[id];
    && OneToken(conn)
    && (conn.context.None? ==> conn.state != CONNECTED)
    && (conn.context.Some? ==>
          var c := conn.context.value;
          && c in w.fns && c in w.live
          && w.fns[c] == Callbacks(id, w.live[c] == Opening, true)
          && conn.state == if w.live[c] == Opening then PENDING else CONNECTED)
  }

  ghost predicate Inv(w: World) {
    && (forall id :: id in w.conns ==> ConnOk(w, id))
    && (forall c :: c in w.fns ==> w.fns[c].owner in w.conns && w.conns[w.fns[c].owner].context == Some(c))
    && w.fns.Keys == w.live.Keys
  }

  lemma ConnectKeepsInv(w: World, id: nat, conn: Conn, attempt: Attempt)
    requires Inv(w) && id in w.conns && w.conns[id].context == None && w.conns[id].state == conn.state
    requires conn.context == None && !conn.timer && conn.posted == 0 && (attempt.Opened? ==> attempt.context !in w.live)
    ensures Connect(w, id, conn, attempt).Some? && Inv(Connect(w, id, conn, attempt).value)
  {
    if attempt.Opened? {
      OpenedKeepsInv(w, id, conn, attempt.context);
    } else {
      ConnChangeKeepsInv(w, id, conn.(timer := true));
    }
  }

  lemma OpenedKeepsInv(w: World, id: nat, conn: Conn, c: Context)
    requires Inv(w) && id in w.conns && w.conns[id].context == None
    requires conn.context == None && !conn.timer && conn.posted == 0 && c !in w.live
    ensures Connect(w, id, conn, Opened(c)).Some? && Inv(Connect(w, id, conn, Opened(c)).value)
  {
    var w' := Connect(w, id, conn, Opened(c)).value;
    forall k | k in w'.conns
      ensures ConnOk(w', k)
    {
      assert k in w.conns && ConnOk(w, k);
    }
  }

  /** A change of one connection that leaves its context and state, and one token. */
  lemma ConnChangeKeepsInv(w: World, id: nat, conn: Conn)
    requires Inv(w) && id in w.conns && OneToken(conn)
    requires conn.context == w.conns[id].context && conn.state == w.conns[id].state
    ensures Inv(w.(conns := w.conns[id := conn]))
  {
    var w' := w.(conns := w.conns[id := conn]);
    forall k | k in w'.conns
      ensures ConnOk(w', k)
    {
      assert k in w.conns && ConnOk(w, k) && ConnOk(w, id);
    }
  }

  lemma ConnectEndsKeepsInv(w: World, c: Context, ok: bool)
    requires Inv(w) && c in w.live && w.live[c] == Opening
    ensures Inv(ConnectEnds(w, c, w.fns[c].owner, w.conns[w.fns[c].owner], ok))
  {
    var id := w.fns[c].owner;
    var w' := ConnectEnds(w, c, id, w.conns[id], ok);
    assert ConnOk(w, id);
    forall k | k in w'.conns
      ensures ConnOk(w', k)
    {
      assert ConnOk(w, k);
    }
  }

  lemma DisconnectKeepsInv(w: World, c: Context)
    requires Inv(w) && c in w.live && w.live[c] == Open
    ensures Inv(Disconnect(w, c, w.fns[c].owner, w.conns[w.fns[c].owner]))
  {
    var id := w.fns[c].owner;
    var w' := Disconnect(w, c, id, w.conns[id]);
    assert ConnOk(w, id);
    forall k | k in w'.conns
      ensures ConnOk(w', k)
    {
      assert ConnOk(w, k);
    }
  }

  /** From a state of the invariant an assertion fails exactly in a setup that comes too late; else the invariant is kept. */
  lemma StepKeepsInv(w: World, ev: Event)
    requires Inv(w) && Allowed(w, ev)
    ensures Step(w, ev).None? <==> SetupTooLate(w, ev)
    ensures Step(w, ev).Some? ==> Inv(Step(w, ev).value)
  {
    match ev
    case RunPosted(id, attempt) =>
      assert ConnOk(w, id);
      ConnectKeepsInv(w, id, w.conns[id].(posted := w.conns[id].posted - 1), attempt);
    case TimerFires(id, attempt) =>
      assert ConnOk(w, id);
      ConnectKeepsInv(w, id, w.conns[id].(timer := false), attempt);
    case ConnectDone(c, ok) =>
      assert ConnOk(w, w.fns[c].owner);
      ConnectEndsKeepsInv(w, c, ok);
    case Disconnected(c) =>
      assert ConnOk(w, w.fns[c].owner);
      DisconnectKeepsInv(w, c);
    case Replied(c) =>
      assert ConnOk(w, w.fns[c].owner);
      ConnChangeKeepsInv(w, w.fns[c].owner, MoreSetups(w.conns[w.fns[c].owner]));
    case RunSetup(id) =>
      assert ConnOk(w, id);
      if w.conns[id].context.Some? {
        ConnChangeKeepsInv(w, id, w.conns[id].(setups := w.conns[id].setups - 1));
      }
  }

  /** Each connection starts with its first connect to be done. */
  function Start(ids: set<nat>): World {
    World(map id | id in ids :: Conn(None, INIT, false, 1, 0), map[], map[])
  }

  /** The state after the events, unless an assertion fails on the way. */
  function Run(ids: set<nat>, events: seq<Event>): Option<World>
    requires Legal(ids, events)
    decreases |events|, 1
  {
    if events == [] then Some(Start(ids))
    else
      var before := Run(ids, events[..|events| - 1]);
      if before.None? then None else Step(before.value, events[|events| - 1])
  }

  /** Each event is one that asio and hiredis can deliver in the state it meets. */
  predicate Legal(ids: set<nat>, events: seq<Event>)
    decreases |events|, 0
  {
    events == [] ||
    (Legal(ids, events[..|events| - 1]) &&
     (Run(ids, events[..|events| - 1]).Some? ==> Allowed(Run(ids, events[..|events| - 1]).value, events[|events| - 1])))
  }

  /** The run fails an assertion at event `i`, in a setup that comes too late. */
  predicate FailsAt(ids: set<nat>, events: seq<Event>, i: nat) {
    && i < |events| && Legal(ids, events[..i])
    && Run(ids, events[..i]).Some? && SetupTooLate(Run(ids, events[..i]).value, events[i])
  }

  /**
    Over every run the only assertion that ever fails is that of a setup that comes too late. Up to
    there each connection has exactly one token and the callback map has exactly the live contexts.
   */
  lemma {:induction false} SingleToken(ids: set<nat>, events: seq<Event>)
    requires Legal(ids, events)
    ensures Run(ids, events).Some? ==> Inv(Run(ids, events).value)
    ensures Run(ids, events).None? <==> exists i :: FailsAt(ids, events, i)
    decreases |events|
  {
    if events != [] {
      var n := |events| - 1;
      var past := events[..n];
      SingleToken(ids, past);
      if Run(ids, past).Some? {
        StepKeepsInv(Run(ids, past).value, events[n]);
        LastFails(ids, events, past);
      } else {
        var i :| FailsAt(ids, past, i);
        FailedBefore(ids, events, i);
      }
    }
  }

  lemma {:induction false} FailedBefore(ids: set<nat>, events: seq<Event>, i: nat)
    requires events != [] && i < |events| - 1
    ensures FailsAt(ids, events[..|events| - 1], i) <==> FailsAt(ids, events, i)
  {
    assert events[..|events| - 1][..i] == events[..i];
  }

  lemma {:induction false} LastFails(ids: set<nat>, events: seq<Event>, past: seq<Event>)
    requires events != [] && past == events[..|events| - 1] && Legal(ids, events) && Run(ids, past).Some?
    requires forall i :: !FailsAt(ids, past, i)
    ensures SetupTooLate(Run(ids, past).value, events[|events| - 1]) <==> exists i :: FailsAt(ids, events, i)
  {
    var n := |events| - 1;
    assert SetupTooLate(Run(ids, past).value, events[n]) <==> FailsAt(ids, events, n);
    forall i: nat | i < n
      ensures !FailsAt(ids, events, i)
    {
      FailedBefore(ids, events, i);
    }
  }

  /** In particular none fails in a run without setups. */
  lemma NoSetupNoFailure(ids: set<nat>, events: seq<Event>)
    requires Legal(ids, events) && forall i :: 0 <= i < |events| ==> !events[i].RunSetup?
    ensures Run(ids, events).Some? && Inv(Run(ids, events).value)
  {
    SingleToken(ids, events);
  }

  /** Each live context belongs to exactly one connection, which is not waiting to reconnect. */
  lemma OneOwner(w: World, c: Context)
    requires Inv(w) && c in w.live
    ensures exists id :: id in w.conns && w.conns[id].context == Some(c) && !w.conns[id].timer && w.conns[id].posted == 0
    ensures forall a, b :: a in w.conns && b in w.conns ==>
              (w.conns[a].context == Some(c) && w.conns[b].context == Some(c) ==> a == b)
  {
    var id := w.fns[c].owner;
    assert ConnOk(w, id);
    forall a | a in w.conns && w.conns[a].context == Some(c)
      ensures a == id
    {
      assert ConnOk(w, a);
    }
  }

  // ----- The implementation

  class RedisConnections {
    var conns: map<nat, Conn>
    var fns: map<Context, Callbacks>         // rac_cb_fns_map_
    ghost var live: map<Context, Phase>

    ghost function View(): World
      reads this
    {
      World(conns, fns, live)
    }

    constructor (ids: set<nat>)
      ensures View() == Start(ids) && Inv(View())
    {
      conns := map id | id in ids :: Conn(None, INIT, false, 1, 0);
      fns, live := map[], map[];
    }

    /** RAC_Connect */
    method RacConnect(id: nat, conn: Conn, attempt: Attempt)
      requires conn.context == None && (attempt.Opened? ==> attempt.context !in fns)
      modifies this
      ensures Connect(old(View()), id, conn, attempt) == Some(View())
    {
      assert conn.context == None;
      match attempt
      case Opened(c) =>
        assert c !in fns;
        fns := fns[c := Callbacks(id, true, true)];
        conns := conns[id := conn.(context := Some(c), state := PENDING)];
        live := live[c := Opening];
      case _ =>
        conns := conns[id := conn.(timer := true)];
    }

    /** RAC_ConnectProcess, run from the queue of posted functions. */
    method ConnectProcess(id: nat, attempt: Attempt)
      requires Inv(View()) && Allowed(View(), RunPosted(id, attempt))
      modifies this
      ensures Step(old(View()), RunPosted(id, attempt)) == Some(View()) && Inv(View())
    {
      StepKeepsInv(View(), RunPosted(id, attempt));
      assert ConnOk(View(), id);
      RacConnect(id, conns[id].(posted := conns[id].posted - 1), attempt);
    }

    /** RAC_Reconnect, for a timer that was not cancelled. */
    method Reconnect(id: nat, attempt: Attempt)
      requires Inv(View()) && Allowed(View(), TimerFires(id, attempt))
      modifies this
      ensures Step(old(View()), TimerFires(id, attempt)) == Some(View()) && Inv(View())
    {
      StepKeepsInv(View(), TimerFires(id, attempt));
      assert ConnOk(View(), id);
      RacConnect(id, conns[id].(timer := false), attempt);
    }

    /** RAC_ConnectCallback */
    method ConnectCallback(c: Context, ok: bool)
      requires Inv(View()) && Allowed(View(), ConnectDone(c, ok))
      modifies this
      ensures Step(old(View()), ConnectDone(c, ok)) == Some(View()) && Inv(View())
    {
      StepKeepsInv(View(), ConnectDone(c, ok));
      assert c in fns;
      var id := fns[c].owner;
      assert ConnOk(View(), id);
      assert fns[c].connect;
      ConnectCallbackProcess(c, id, ok);
    }

    /** RAC_ConnectCallbackProcess, with the connect callback taken out of the map. */
    method ConnectCallbackProcess(c: Context, id: nat, ok: bool)
      requires c in fns && id in conns && conns[id].context == Some(c)
      modifies this
      ensures View() == ConnectEnds(old(View()), c, id, old(conns[id]), ok)
    {
      var conn := conns[id];
      if ok {
        fns := fns[c := fns[c].(connect := false)];
        conns := conns[id := conn.(state := CONNECTED, setups := conn.setups + 1)];
        live := live[c := Open];
      } else {
        fns := fns - {conn.context.value};
        conns := conns[id := conn.(context := None, timer := true)];
        live := live - {c};
      }
    }

    /** RAC_DisconnectCallback, RAC_DisconnectCallbackProcess and the reconnect that its client posts. */
    method DisconnectCallback(c: Context)
      requires Inv(View()) && Allowed(View(), Disconnected(c))
      modifies this
      ensures Step(old(View()), Disconnected(c)) == Some(View()) && Inv(View())
    {
      StepKeepsInv(View(), Disconnected(c));
      live := live - {c};
      if c !in fns {
        return;
      }
      var id := fns[c].owner;
      var conn := conns[id];
      assert ConnOk(old(View()), id);
      assert fns[c].disconnect;
      fns := fns - {conn.context.value};
      conns := conns[id := conn.(state := DISCONNECTED, context := None, posted := conn.posted + 1)];
    }

    /** The guard of RedisAsyncCommand and RedisAsyncArgCmd: the context a command goes to, if it goes out. */
    method Command(id: nat) returns (issued: Option<Context>)
      requires Inv(View()) && id in conns
      ensures issued.Some? <==> conns[id].context.Some? && live[conns[id].context.value] == Open
      ensures issued.Some? ==> issued == conns[id].context && issued.value in live && live[issued.value] == Open
    {
      assert ConnOk(View(), id);
      if conns[id].state != CONNECTED {
        return None;
      }
      issued := conns[id].context;
    }

    /** toConnectCallbackProcess, and fromConnectCallbackProcess, for a reply that is not an error. */
    method ReplyCallback(c: Context)
      requires Inv(View()) && Allowed(View(), Replied(c))
      modifies this
      ensures Step(old(View()), Replied(c)) == Some(View()) && Inv(View())
    {
      StepKeepsInv(View(), Replied(c));
      if c !in fns {
        return;
      }
      conns := conns[fns[c].owner := MoreSetups(conns[fns[c].owner])];
    }

    /** The assertion of SetClientAsyncCmdCb. */
    method SetClientAsyncCmdCb(id: nat) returns (passes: bool)
      requires Inv(View()) && id in conns
      ensures passes <==> conns[id].context.Some?
    {
      assert ConnOk(View(), id);
      passes := conns[id].context.Some? && conns[id].context.value in fns;
    }

    /** ToOpsAuthenticated or ToOpsConnUpPostProcess, run from the queue of posted functions. */
    method PostedSetup(id: nat) returns (passes: bool)
      requires Inv(View()) && Allowed(View(), RunSetup(id))
      modifies this
      ensures passes <==> !SetupTooLate(old(View()), RunSetup(id))
      ensures if passes then Step(old(View()), RunSetup(id)) == Some(View()) && Inv(View())
              else Step(old(View()), RunSetup(id)) == None
    {
      StepKeepsInv(View(), RunSetup(id));
      passes := SetClientAsyncCmdCb(id);
      if passes {
        conns := conns[id := conns[id].(setups := conns[id].setups - 1)];
      }
    }
  }

  /** A run that fails: a connection comes up, which posts its setup, and drops before the setup runs. */
  lemma {:induction false} DropBeforePostedSetup(id: nat, c: Context)
    ensures var events := [RunPosted(id, Opened(c)), ConnectDone(c, true), Disconnected(c), RunSetup(id)];
            Legal({id}, events) && Run({id}, events) == None
  {
    var e1, e2, e3, e4 := RunPosted(id, Opened(c)), ConnectDone(c, true), Disconnected(c), RunSetup(id);
    var conn := Conn(None, INIT, false, 0, 0);
    var w1 := World(map[id := conn.(context := Some(c), state := PENDING)], map[c := Callbacks(id, true, true)], map[c := Opening]);
    var w2 := World(map[id := conn.(context := Some(c), state := CONNECTED, setups := 1)],
                    map[c := Callbacks(id, false, true)], map[c := Open]);
    var w3 := World(map[id := conn.(state := DISCONNECTED, posted := 1, setups := 1)], map[], map[]);
    UpAndDown(id, c, conn, w1, w2, w3);
    FourEvents({id}, e1, w1, e2, w2, e3, w3, e4);
  }

  lemma {:induction false} FourEvents(ids: set<nat>, e1: Event, w1: World, e2: Event, w2: World, e3: Event, w3: World, e4: Event)
    requires Allowed(Start(ids), e1) && Step(Start(ids), e1) == Some(w1) && Allowed(w1, e2) && Step(w1, e2) == Some(w2)
    requires Allowed(w2, e3) && Step(w2, e3) == Some(w3) && Allowed(w3, e4)
    ensures Legal(ids, [e1, e2, e3, e4]) && Run(ids, [e1, e2, e3, e4]) == Step(w3, e4)
  {
    OneMoreEvent(ids, [], e1, Start(ids), [e1]);
    OneMoreEvent(ids, [e1], e2, w1, [e1, e2]);
    OneMoreEvent(ids, [e1, e2], e3, w2, [e1, e2, e3]);
    OneMoreEvent(ids, [e1, e2, e3], e4, w3, [e1, e2, e3, e4]);
  }

  lemma UpAndDown(id: nat, c: Context, conn: Conn, w1: World, w2: World, w3: World)
    requires conn == Conn(None, INIT, false, 0, 0)
    requires w1 == World(map[id := conn.(context := Some(c), state := PENDING)], map[c := Callbacks(id, true, true)], map[c := Opening])
    requires w2 == World(map[id := conn.(context := Some(c), state := CONNECTED, setups := 1)],
                         map[c := Callbacks(id, false, true)], map[c := Open])
    requires w3 == World(map[id := conn.(state := DISCONNECTED, posted := 1, setups := 1)], map[], map[])
    ensures Allowed(Start({id}), RunPosted(id, Opened(c))) && Step(Start({id}), RunPosted(id, Opened(c))) == Some(w1)
    ensures Step(w1, ConnectDone(c, true)) == Some(w2) && Step(w2, Disconnected(c)) == Some(w3)
    ensures Step(w3, RunSetup(id)) == None
  {
    var s := Start({id});
    assert s.conns == map[id := Conn(None, INIT, false, 1, 0)];
    assert s.conns[id := conn.(context := Some(c), state := PENDING)] == w1.conns;
    assert w1.conns[id := w2.conns[id]] == w2.conns && w1.fns[c := w2.fns[c]] == w2.fns && w1.live[c := Open] == w2.live;
    assert w2.conns[id := w3.conns[id]] == w3.conns && w2.fns - {c} == map[] && w2.live - {c} == map[];
  }

  lemma {:induction false} OneMoreEvent(ids: set<nat>, events: seq<Event>, e: Event, w: World, more: seq<Event>)
    requires Legal(ids, events) && Run(ids, events) == Some(w) && Allowed(w, e) && more == events + [e]
    ensures Legal(ids, more) && Run(ids, more) == Step(w, e)
  {
    assert more[..|events|] == events;
  }
}
