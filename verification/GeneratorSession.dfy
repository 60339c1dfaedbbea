/**
  Generators and the sessions they are attached to: contrail-collector/generator.cc and
  contrail-collector/collector.cc. A generator's state machine is deferred under back pressure for a
  time that grows exponentially.
 */
module GeneratorSession {
  import opened Options

  const INITIAL_DEFER_MSEC := 300
  const MAX_DEFER_MSEC := 30000

  /** GetDeferTimeMSec */
  function DeferTime(event: nat, lastExpiry: nat, lastDeferUsec: nat): (msec: nat)
    requires lastDeferUsec == 0 || lastExpiry == 0 || event >= lastExpiry
  {
    if lastDeferUsec == 0 || lastExpiry == 0 then INITIAL_DEFER_MSEC
    else
      var since := event - lastExpiry;
      if since <= 2 * lastDeferUsec then
        var doubled := 2 * lastDeferUsec / 1000;
        if doubled < MAX_DEFER_MSEC then doubled else MAX_DEFER_MSEC
      else if 2 * lastDeferUsec <= since && since <= 4 * lastDeferUsec then lastDeferUsec / 1000
      else INITIAL_DEFER_MSEC
  }

  /** The defer time after `n` doublings of the first one. */
  function Rung(n: nat): nat {
    if n == 0 then INITIAL_DEFER_MSEC
    else if 2 * Rung(n - 1) < MAX_DEFER_MSEC then 2 * Rung(n - 1) else MAX_DEFER_MSEC
  }

  const DEFER_TIMES: set<int> := {0, 300, 600, 1200, 2400, 4800, 9600, 19200, 30000}

  lemma DeferTimeInSet(event: nat, lastExpiry: nat, last: nat)
    requires last in DEFER_TIMES && (last == 0 || lastExpiry == 0 || event >= lastExpiry)
    ensures DeferTime(event, lastExpiry, last * 1000) in DEFER_TIMES - {0}
  {
    assert 2 * (last * 1000) / 1000 == 2 * last;
  }

  /** The longer the pressure stayed away, the shorter the defer time, down to the initial one. */
  lemma DeferTimeFalls(e1: nat, e2: nat, lastExpiry: nat, last: nat)
    requires last in DEFER_TIMES - {0} && 0 < lastExpiry <= e1 <= e2
    ensures DeferTime(e1, lastExpiry, last * 1000) >= DeferTime(e2, lastExpiry, last * 1000) >= INITIAL_DEFER_MSEC
    ensures DeferTime(e2, lastExpiry, last * 1000) > last ==> e2 - lastExpiry <= 2000 * last
    ensures DeferTime(e2, lastExpiry, last * 1000) < last ==> e2 - lastExpiry > 4000 * last
  {
    assert 2 * (last * 1000) / 1000 == 2 * last;
  }

  /** The first defer time is the initial one; after that it doubles within twice, stays within four times, and starts anew later. */
  lemma DeferTimeCases(event: nat, lastExpiry: nat, last: nat)
    requires last == 0 || lastExpiry == 0 || event >= lastExpiry
    ensures var d, since := DeferTime(event, lastExpiry, last * 1000), event - lastExpiry;
            if last == 0 || lastExpiry == 0 then d == 300
            else if since <= 2000 * last then d == (if 2 * last < 30000 then 2 * last else 30000)
            else if since <= 4000 * last then d == last
            else d == 300
  {
    assert 2 * (last * 1000) / 1000 == 2 * last && last * 1000 / 1000 == last;
  }

  // ----- The state

  type Session = nat
  type Id = string

  /** A generator; `starts` and `expiries` count those of the defer timer, and `changes` those of the defer time, since it was attached. */
  datatype Gen = Gen(
    session: Option<Session>,
    machine: Option<Session>,        // the state machine, that of a session
    timer: Option<bool>,             // the defer timer, and whether it runs
    deferred: bool,                  // whether the state machine's dequeue is deferred
    connects: nat,
    resets: nat,
    deferMsec: nat,
    expiry: nat,
    starts: nat,
    expiries: nat,
    changes: nat)

  /** The collector: its generators, the generator that each session points to, and the clock in microseconds. */
  datatype World = World(gens: map<Id, Gen>, pointer: map<Session, Id>, now: nat)

  datatype Event =
    | Ctrl(s: Session, id: Id)
    | Close(s: Session)
    | BackPressure(id: Id, time: nat)
    | TimerExpires(id: Id, time: nat)

  /** A new generator. */
  function Created(s: Session): Gen {
    Gen(Some(s), Some(s), Some(false), false, 1, 0, 0, 0, 0, 0, 0)
  }

  /** ConnectSession: the defer time and the time of the last expiry are left as they are. */
  function Attached(g: Gen, s: Session): Gen {
    g.(session := Some(s), machine := Some(s), timer := Some(false), deferred := false, connects := g.connects + 1)
  }

  function Detached(g: Gen): Gen {
    Gen(None, None, None, false, g.connects, g.resets + 1, 0, 0, 0, 0, 0)
  }

  function Pressed(g: Gen, now: nat): Gen
    requires g.deferMsec == 0 || g.expiry == 0 || now >= g.expiry
  {
    if g.machine.None? || g.timer == Some(true) then g
    else
      var d := DeferTime(now, g.expiry, g.deferMsec * 1000);
      g.(deferred := true, deferMsec := d, timer := Some(true), starts := g.starts + 1,
         changes := if d != g.deferMsec then g.changes + 1 else g.changes)
  }

  function Expired(g: Gen, now: nat): Gen {
    g.(expiry := now, deferred := if g.machine.Some? then false else g.deferred, timer := Some(false), expiries := g.expiries + 1)
  }

  function Step(w: World, ev: Event): World
    requires Allowed(w, ev)
  {
    match ev
    case Ctrl(s, id) =>
      if id !in w.gens then w.(gens := w.gens[id := Created(s)], pointer := w.pointer[s := id])
      else if w.gens[id].session.None? then
        w.(gens := w.gens[id := Attached(w.gens[id], s)], pointer := w.pointer[s := id])
      else w
    case Close(s) =>
      if w.gens[w.pointer[s]].session != Some(s) then w
      else w.(gens := w.gens[w.pointer[s] := Detached(w.gens[w.pointer[s]])], pointer := w.pointer - {s})
    case BackPressure(id, time) =>
      if id !in w.gens then w.(now := time) else w.(gens := w.gens[id := Pressed(w.gens[id], time)], now := time)
    case TimerExpires(id, time) => w.(gens := w.gens[id := Expired(w.gens[id], time)], now := time)
  }

  /** What is promised of the events: sessions with a generator close, the clock does not go back, and only a running timer expires. */
  predicate Allowed(w: World, ev: Event) {
    match ev
    case Ctrl(_, _) => true
    case Close(s) => s in w.pointer && w.pointer[s] in w.gens
    case BackPressure(id, time) => time >= w.now && (id in w.gens ==> w.gens[id].expiry <= w.now)
    case TimerExpires(id, time) => time >= w.now && id in w.gens && w.gens[id].timer == Some(true)
  }

  // ----- The invariant

  ghost predicate GenOk(g: Gen, now: nat) {
    && g.expiry <= now && g.deferMsec in DEFER_TIMES
    && (match g.session
        case Some(s) => g.machine == Some(s) && g.timer.Some? && g.deferred == g.timer.value && g.connects == g.resets + 1
        case None =>
          && g.machine == None && g.timer == None && !g.deferred && g.connects == g.resets
          && g.deferMsec == 0 && g.expiry == 0 && g.starts == 0)
    && g.starts == g.expiries + (if g.timer == Some(true) then 1 else 0)
    && g.changes <= g.starts
  }

  ghost predicate Inv(w: World) {
    && (forall id :: id in w.gens ==> GenOk(w.gens[id], w.now))
    && (forall s :: s in w.pointer ==> w.pointer[s] in w.gens && w.gens[w.pointer[s]].session == Some(s))
    && (forall id :: id in w.gens && w.gens[id].session.Some? ==>
          w.gens[id].session.value in w.pointer && w.pointer[w.gens[id].session.value] == id)
  }

  /** A session that is attached to a generator does not name another one that has no session. */
  predicate OneGenerator(w: World, ev: Event) {
    ev.Ctrl? && ev.s in w.pointer && w.pointer[ev.s] != ev.id ==> ev.id in w.gens && w.gens[ev.id].session.Some?
  }

  lemma PressedOk(g: Gen, now: nat, time: nat)
    requires GenOk(g, now) && now <= time
    ensures GenOk(Pressed(g, time), time) && Pressed(g, time).session == g.session
  {
    if g.machine.Some? && g.timer != Some(true) {
      DeferTimeInSet(time, g.expiry, g.deferMsec);
    }
  }

  function Attach(w: World, s: Session, id: Id, g: Gen): World {
    w.(gens := w.gens[id := g], pointer := w.pointer[s := id])
  }

  lemma AttachKeepsInv(w: World, s: Session, id: Id, g: Gen)
    requires Inv(w) && (id in w.gens ==> w.gens[id].session.None?) && s !in w.pointer
    requires GenOk(g, w.now) && g.session == Some(s)
    ensures Inv(Attach(w, s, id, g))
  {
    var w' := Attach(w, s, id, g);
    forall i | i in w'.gens
      ensures GenOk(w'.gens[i], w'.now)
      ensures w'.gens[i].session.Some? ==> w'.gens[i].session.value in w'.pointer && w'.pointer[w'.gens[i].session.value] == i
    {
      assert i != id ==> i in w.gens && GenOk(w.gens[i], w.now);
      assert i != id && w.gens[i].session.Some? ==> w.gens[i].session.value in w.pointer;
    }
    forall t | t in w'.pointer
      ensures w'.pointer[t] in w'.gens && w'.gens[w'.pointer[t]].session == Some(t)
    {
      assert t != s ==> t in w.pointer && w.gens[w.pointer[t]].session == Some(t);
    }
  }

  /** The first generator still has the session, which points to the second. */
  lemma SecondAttachBreaksInv(w: World, s: Session, id: Id, g: Gen)
    requires Inv(w) && s in w.pointer && w.pointer[s] != id
    ensures !Inv(Attach(w, s, id, g))
  {
    assert Attach(w, s, id, g).gens[w.pointer[s]].session == Some(s);
  }

  lemma CtrlKeepsInv(w: World, s: Session, id: Id)
    requires Inv(w)
    ensures Inv(Step(w, Ctrl(s, id))) <==> OneGenerator(w, Ctrl(s, id))
  {
    if id !in w.gens || w.gens[id].session.None? {
      var g := if id in w.gens then Attached(w.gens[id], s) else Created(s);
      assert Step(w, Ctrl(s, id)) == Attach(w, s, id, g);
      if s !in w.pointer {
        AttachKeepsInv(w, s, id, g);
      } else {
        SecondAttachBreaksInv(w, s, id, g);
      }
    }
  }

  lemma CloseKeepsInv(w: World, s: Session)
    requires Inv(w) && Allowed(w, Close(s))
    ensures Inv(Step(w, Close(s)))
  {
    var id := w.pointer[s];
    assert GenOk(Detached(w.gens[id]), w.now);
  }

  lemma TimeKeepsInv(w: World, id: Id, g: Gen, time: nat)
    requires Inv(w) && id in w.gens && GenOk(g, time) && g.session == w.gens[id].session && w.now <= time
    ensures Inv(w.(gens := w.gens[id := g], now := time))
  {
  }

  /** The invariant is kept by every event but a control message that would attach a session to a second generator. */
  lemma InvariantKeptIff(w: World, ev: Event)
    requires Inv(w) && Allowed(w, ev)
    ensures Inv(Step(w, ev)) <==> OneGenerator(w, ev)
  {
    match ev
    case Ctrl(s, id) => CtrlKeepsInv(w, s, id);
    case Close(s) => CloseKeepsInv(w, s);
    case BackPressure(id, time) =>
      if id in w.gens {
        PressedOk(w.gens[id], w.now, time);
        TimeKeepsInv(w, id, Pressed(w.gens[id], time), time);
      }
    case TimerExpires(id, time) =>
      TimeKeepsInv(w, id, Expired(w.gens[id], time), time);
  }

  /** A run that breaks it: the same session names two generators. */
  lemma TwoGeneratorsBreakInv(s: Session, a: Id, b: Id)
    requires a != b
    ensures Inv(Step(START, Ctrl(s, a))) && !Inv(Step(Step(START, Ctrl(s, a)), Ctrl(s, b)))
  {
    InvariantKeptIff(START, Ctrl(s, a));
    InvariantKeptIff(Step(START, Ctrl(s, a)), Ctrl(s, b));
  }

  // ----- Runs

  const START := World(map[], map[], 0)

  function Run(events: seq<Event>): World
    requires Legal(events)
    decreases |events|, 1
  {
    if events == [] then START else Step(Run(events[..|events| - 1]), events[|events| - 1])
  }

  predicate Legal(events: seq<Event>)
    decreases |events|, 0
  {
    events == [] ||
    (&& Legal(events[..|events| - 1])
     && Allowed(Run(events[..|events| - 1]), events[|events| - 1])
     && OneGenerator(Run(events[..|events| - 1]), events[|events| - 1]))
  }

  lemma {:induction false} InvariantOverRuns(events: seq<Event>)
    requires Legal(events)
    ensures Inv(Run(events))
    decreases |events|
  {
    if events != [] {
      InvariantOverRuns(events[..|events| - 1]);
      InvariantKeptIff(Run(events[..|events| - 1]), events[|events| - 1]);
    }
  }

  /** What the invariant says of a generator, over every run. */
  lemma GeneratorOverRuns(events: seq<Event>, id: Id)
    requires Legal(events) && id in Run(events).gens
    ensures var g := Run(events).gens[id];
            && (g.session.Some? <==> g.machine.Some?) && (g.session.Some? <==> g.timer.Some?)
            && (g.connects > g.resets <==> g.session.Some?)
            && g.deferMsec in DEFER_TIMES && g.changes <= g.expiries + 1
            && (g.deferred <==> g.timer == Some(true))
            && (g.session.None? ==> g.deferMsec == 0 && g.expiry == 0)
  {
    InvariantOverRuns(events);
  }

  // ----- Exponential back-off

  /** One spell of back pressure: when it came, and when the defer timer expired. */
  datatype Spell = Spell(pressed: nat, expired: nat)

  /** The spells follow each other, and the last expiry before them was at `last`. */
  predicate InOrder(last: nat, spells: seq<Spell>)
    decreases |spells|
  {
    spells == [] || (last <= spells[0].pressed <= spells[0].expired && InOrder(spells[0].expired, spells[1..]))
  }

  /** The generator after the spells. */
  function AfterSpells(g: Gen, last: nat, spells: seq<Spell>): Gen
    requires g.expiry == last && InOrder(last, spells)
    decreases |spells|
  {
    if spells == [] then g
    else AfterSpells(Expired(Pressed(g, spells[0].pressed), spells[0].expired), spells[0].expired, spells[1..])
  }

  /** Each spell comes within twice the defer time of the last expiry, when that is on rung `n` and climbs. */
  predicate Prompt(n: nat, last: nat, spells: seq<Spell>)
    decreases |spells|
  {
    spells == [] || (spells[0].pressed <= last + 2000 * Rung(n) && Prompt(n + 1, spells[0].expired, spells[1..]))
  }

  /** Under prompt back pressure the defer time doubles each time, up to the maximum. */
  lemma {:induction false} ClimbDoubles(g: Gen, last: nat, spells: seq<Spell>, n: nat)
    requires g.machine.Some? && g.timer == Some(false) && g.deferMsec == Rung(n) && g.expiry == last > 0
    requires InOrder(last, spells) && Prompt(n, last, spells)
    ensures AfterSpells(g, last, spells).deferMsec == Rung(n + |spells|)
    decreases |spells|
  {
    if spells != [] {
      var p := Pressed(g, spells[0].pressed);
      RungPositive(n);
      DeferTimeCases(spells[0].pressed, last, g.deferMsec);
      assert p.deferMsec == Rung(n + 1);
      ClimbDoubles(Expired(p, spells[0].expired), spells[0].expired, spells[1..], n + 1);
    }
  }

  lemma RungPositive(n: nat)
    ensures 0 < Rung(n) <= MAX_DEFER_MSEC
  {
  }

  /** The maximum is reached at the seventh doubling and kept from then on. */
  lemma {:induction false} RungMax(n: nat)
    ensures Rung(n) == MAX_DEFER_MSEC <==> n >= 7
  {
    assert Rung(1) == 600;
    assert Rung(3) == 2400;
    assert Rung(5) == 9600;
    assert Rung(6) == 19200;
    assert Rung(7) == MAX_DEFER_MSEC;
    if n > 7 {
      RungMax(n - 1);
    }
  }

  // ----- The implementation

  class Collector {
    var gens: map<Id, Gen>              // gen_map_
    var pointer: map<Session, Id>       // each session's generator
    ghost var now: nat

    ghost function View(): World
      reads this
    {
      World(gens, pointer, now)
    }

    constructor ()
      ensures View() == START && Inv(View())
    {
      gens, pointer, now := map[], map[], 0;
    }

    /** ReceiveSandeshCtrlMsg, from the lookup of the generator on: attach the session or refuse it. */
    method ReceiveSandeshCtrlMsg(s: Session, id: Id) returns (accepted: bool)
      requires Inv(View())
      modifies this
      ensures View() == Step(old(View()), Ctrl(s, id))
      ensures Inv(View()) <==> OneGenerator(old(View()), Ctrl(s, id))
      ensures accepted <==> id !in old(gens) || old(gens[id]).session.None?
    {
      InvariantKeptIff(View(), Ctrl(s, id));
      var attached := Created(s);
      if id in gens {
        var gen := gens[id];
        if gen.session.Some? {
          return false;
        }
        assert gen.timer == None;        // CreateStateMachineDeferTimer
        attached := Attached(gen, s);
      }
      assert Step(View(), Ctrl(s, id)) == Attach(View(), s, id, attached);
      gens, pointer := gens[id := attached], pointer[s := id];
      accepted := true;
    }

    /** DisconnectSession, of the collector and of the generator. */
    method DisconnectSession(s: Session)
      requires Inv(View()) && Allowed(View(), Close(s))
      modifies this
      ensures View() == Step(old(View()), Close(s)) && Inv(View())
    {
      InvariantKeptIff(View(), Close(s));
      var id := pointer[s];
      assert gens[id].session == Some(s);   // so the branch for another session is not taken
      assert gens[id].timer.Some?;          // StopStateMachineDeferTimer
      gens := gens[id := Detached(gens[id])];
      pointer := pointer - {s};
    }

    /** ProcessRulesCb under back pressure. */
    method ProcessRulesCb(id: Id, time: nat)
      requires Inv(View()) && Allowed(View(), BackPressure(id, time)) && id in gens
      modifies this
      ensures View() == Step(old(View()), BackPressure(id, time)) && Inv(View())
    {
      InvariantKeptIff(View(), BackPressure(id, time));
      now := time;
      var gen := gens[id];
      if gen.machine.Some? {
        if gen.timer == Some(true) {
          assert gens == gens[id := gen];
          return;
        }
        assert gen.expiry <= time;          // GetDeferTimeMSec
        var d := DeferTime(time, gen.expiry, gen.deferMsec * 1000);
        gen := gen.(deferred := true, deferMsec := d, timer := Some(true), starts := gen.starts + 1,
                    changes := if d != gen.deferMsec then gen.changes + 1 else gen.changes);
        assert gen == Pressed(gens[id], time);
        gens := gens[id := gen];
      } else {
        assert gens == gens[id := gen];
      }
    }

    method StateMachineDeferTimerExpired(id: Id, time: nat)
      requires Inv(View()) && Allowed(View(), TimerExpires(id, time))
      modifies this
      ensures View() == Step(old(View()), TimerExpires(id, time)) && Inv(View())
    {
      InvariantKeptIff(View(), TimerExpires(id, time));
      now := time;
      gens := gens[id := Expired(gens[id], time)];
    }

    /** GetGeneratorSummaryInfo lists exactly the generators that have a session. */
    method GeneratorSummary() returns (listed: set<Id>)
      requires Inv(View())
      ensures forall id :: id in listed <==> id in gens && gens[id].session.Some? && gens[id].timer.Some?
    {
      listed := set id | id in gens && gens[id].connects > gens[id].resets;
    }
  }
}
