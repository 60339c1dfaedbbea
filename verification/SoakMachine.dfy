/**
  The alarm soak machine as a value, and what holds over every timed run of it.

  A machine never looks at another machine: the only thing the alarms share is the timer wheel.
  This module therefore gives each alarm its own transition functions and its own due time, and
  states the behaviour of a whole table of alarms (`World`) without any wheel. The module
  `AlarmTimers` proves that the imperative code, which does use the wheel, computes exactly this.
 */
module SoakMachine {
  import opened Options

  /** (table, UVE key, alarm name): the key under which an alarm sits on the wheel. */
  datatype Key = Key(tab: string, uv: string, nm: string)

  datatype State = Idle | SoakActive | Active | SoakIdle

  /** UVEAlarmConfig; a timer of 0 is a disabled timer. */
  datatype Config = Config(
    activeTimer: nat,
    idleTimer: nat,
    freqTimes: nat,
    freqSeconds: nat,
    freqCheck: bool)

  datatype Machine = Machine(
    cfg: Config,
    state: State,
    activeTimeout: Option<int>,
    idleTimeout: Option<int>,
    deleteTimeout: Option<int>,
    stamps: seq<int>,
    head: nat)

  function Fresh(cfg: Config): Machine {
    Machine(cfg, Idle, None, None, None, [], 0)
  }

  /** get_uai hands the alarm out only in these two states. */
  predicate Visible(m: Machine) {
    m.state == Active || m.state == SoakIdle
  }

  // ----- The frequency ring

  predicate RingOk(m: Machine) {
    && m.head <= m.cfg.freqTimes
    && m.head <= |m.stamps| <= m.cfg.freqTimes + 1
    && (|m.stamps| <= m.cfg.freqTimes ==> m.head == |m.stamps|)
  }

  function LogStamp(m: Machine, stamp: int): Machine
    requires RingOk(m)
  {
    if !m.cfg.freqCheck then m
    else
      var stamps := if |m.stamps| <= m.head then m.stamps + [stamp] else m.stamps[m.head := stamp];
      m.(stamps := stamps, head := (m.head + 1) % (m.cfg.freqTimes + 1))
  }

  predicate FreqExceeded(m: Machine)
    requires RingOk(m)
  {
    var n := m.cfg.freqTimes;
    && m.cfg.freqCheck && n != 0 && m.cfg.freqSeconds != 0
    && |m.stamps| >= n + 1
    && m.stamps[(m.head + n) % n] - m.stamps[(m.head + n + 1) % n] <= m.cfg.freqSeconds
  }

  /** The machine after logging the stamps of `h`, one after the other. */
  function LogAll(m: Machine, h: seq<int>): (r: Machine)
    requires RingOk(m)
    ensures RingOk(r) && r.cfg == m.cfg && r == m.(stamps := r.stamps, head := r.head)
  {
    if h == [] then m
    else
      var before := LogAll(m, h[..|h| - 1]);
      NextHead(before.head, m.cfg.freqTimes);
      LogStamp(before, h[|h| - 1])
  }

  /** Where the stamp number `i` goes in a ring of `size` places. */
  function Place(i: nat, size: nat): (p: nat)
    requires size > 0
    ensures p < size
  {
    if i == 0 then 0 else if Place(i - 1, size) == size - 1 then 0 else Place(i - 1, size) + 1
  }

  lemma {:induction false} PlaceLater(i: nat, j: nat, size: nat)
    requires i <= j <= i + size && size > 0
    ensures Place(j, size) == if Place(i, size) + (j - i) < size then Place(i, size) + (j - i) else Place(i, size) + (j - i) - size
    decreases j
  {
    if i < j {
      PlaceLater(i, j - 1, size);
    }
  }

  /** A ring of `size` places holds the latest of the stamps of `h`, or all of them while there are fewer. */
  ghost predicate HoldsLatest(stamps: seq<int>, head: nat, size: nat, h: seq<int>)
    requires size > 0
  {
    && head == Place(|h|, size) && |stamps| == (if |h| < size then |h| else size)
    && forall i :: 0 <= i < |h| && |h| - size <= i ==> IsAt(stamps, Place(i, size), h[i])
  }

  predicate IsAt(stamps: seq<int>, p: nat, stamp: int) {
    p < |stamps| && stamps[p] == stamp
  }

  lemma {:induction false} OneMoreStamp(stamps: seq<int>, head: nat, size: nat, h: seq<int>, stamp: int)
    requires size > 0 && HoldsLatest(stamps, head, size, h)
    ensures (|stamps| <= head ==> |stamps| == head) &&
            HoldsLatest(if |stamps| <= head then stamps + [stamp] else stamps[head := stamp],
                        if head == size - 1 then 0 else head + 1, size, h + [stamp])
  {
    var n, more := |h|, h + [stamp];
    PlaceWhileFilling(n, size);
    var after := if |stamps| <= head then stamps + [stamp] else stamps[head := stamp];
    forall i | 0 <= i < |more| && |more| - size <= i
      ensures IsAt(after, Place(i, size), more[i])
    {
      PlaceLater(i, n, size);
      if i < n {
        assert IsAt(stamps, Place(i, size), h[i]);
      }
    }
  }

  lemma {:induction false} PlaceWhileFilling(n: nat, size: nat)
    requires size > 0
    ensures n < size ==> Place(n, size) == n
  {
    if n < size {
      PlaceLater(0, n, size);
    }
  }

  /** The ring of the machine holds the latest FreqCheck_Times + 1 stamps. */
  lemma {:induction false} RingHoldsLatest(m: Machine, h: seq<int>)
    requires m.cfg.freqCheck && m.stamps == [] && m.head == 0
    ensures HoldsLatest(LogAll(m, h).stamps, LogAll(m, h).head, m.cfg.freqTimes + 1, h)
  {
    if h != [] {
      var n := |h| - 1;
      var before, r := LogAll(m, h[..n]), LogAll(m, h);
      RingHoldsLatest(m, h[..n]);
      LoggedOne(m, h, before, r);
      RingGoesOn(before.stamps, before.head, m.cfg.freqTimes + 1, h, r.stamps, r.head);
    }
  }

  lemma {:induction false} LoggedOne(m: Machine, h: seq<int>, before: Machine, r: Machine)
    requires RingOk(m) && m.cfg.freqCheck && h != [] && before == LogAll(m, h[..|h| - 1]) && r == LogAll(m, h)
    ensures before.head <= m.cfg.freqTimes && r.head == if before.head == m.cfg.freqTimes then 0 else before.head + 1
    ensures var stamp := h[|h| - 1];
            r.stamps == if |before.stamps| <= before.head then before.stamps + [stamp] else before.stamps[before.head := stamp]
  {
    NextHead(before.head, m.cfg.freqTimes);
  }

  lemma {:induction false} RingGoesOn(stamps: seq<int>, head: nat, size: nat, h: seq<int>, stamps': seq<int>, head': nat)
    requires size > 0 && h != [] && HoldsLatest(stamps, head, size, h[..|h| - 1])
    requires head < size && head' == if head == size - 1 then 0 else head + 1
    requires stamps' == if |stamps| <= head then stamps + [h[|h| - 1]] else stamps[head := h[|h| - 1]]
    ensures HoldsLatest(stamps', head', size, h)
  {
    OneMoreStamp(stamps, head, size, h[..|h| - 1], h[|h| - 1]);
    assert h[..|h| - 1] + [h[|h| - 1]] == h;
  }

  /**
    What the frequency check comes to. Its two places are those of an older and a newer stamp, in this
    order, so that the difference is never positive: the check is met exactly from the stamp number
    FreqCheck_Times + 1 on, however far apart they are.
   */
  lemma {:induction false} FrequencyIsCount(m: Machine, h: seq<int>)
    requires m.cfg.freqCheck && m.stamps == [] && m.head == 0
    requires forall i, j :: 0 <= i <= j < |h| ==> h[i] <= h[j]
    ensures FreqExceeded(LogAll(m, h)) <==> m.cfg.freqTimes != 0 && m.cfg.freqSeconds != 0 && |h| >= m.cfg.freqTimes + 1
  {
    RingHoldsLatest(m, h);
    if m.cfg.freqTimes != 0 && |h| >= m.cfg.freqTimes + 1 {
      OlderFirst(LogAll(m, h).stamps, LogAll(m, h).head, m.cfg.freqTimes, h);
    }
  }

  /** The two places that a full ring is read at. */
  lemma {:induction false} OlderFirst(stamps: seq<int>, head: nat, n: nat, h: seq<int>)
    requires HoldsLatest(stamps, head, n + 1, h) && n != 0 && |h| >= n + 1
    requires forall i, j :: 0 <= i <= j < |h| ==> h[i] <= h[j]
    ensures |stamps| == n + 1 && stamps[(head + n) % n] <= stamps[(head + n + 1) % n]
  {
    RingPlaces(head, n);
    StampAt(stamps, head, n + 1, h, 0);
    StampAt(stamps, head, n + 1, h, 1);
    if n > 1 {
      StampAt(stamps, head, n + 1, h, 2);
    }
  }

  /** The stamps from the oldest one on lie from the head on, around the ring. */
  lemma {:induction false} StampAt(stamps: seq<int>, head: nat, size: nat, h: seq<int>, d: nat)
    requires size > 0 && HoldsLatest(stamps, head, size, h) && size <= |h| && d < size
    ensures IsAt(stamps, if head + d < size then head + d else head + d - size, h[|h| - size + d])
  {
    var oldest := |h| - size;
    PlaceLater(oldest, |h|, size);
    PlaceLater(oldest, oldest + d, size);
    assert IsAt(stamps, Place(oldest + d, size), h[oldest + d]);
  }

  lemma RingPlaces(head: nat, n: nat)
    requires n != 0 && head <= n
    ensures (head + n) % n == if head == n then 0 else head
    ensures (head + n + 1) % n == if n == 1 then 0 else if head == n then 1 else if head == n - 1 then 0 else head + 1
  {
    if head == n {
      Remainder(head + n, n, 2, 0);
    } else {
      Remainder(head + n, n, 1, head);
    }
    if n > 1 && head == n {
      Remainder(head + n + 1, n, 2, 1);
    } else if n > 1 && head < n - 1 {
      Remainder(head + n + 1, n, 1, head + 1);
    } else if n > 1 {
      Remainder(head + n + 1, n, 2, 0);
    }
  }

  lemma Remainder(x: nat, n: nat, q: nat, r: nat)
    requires n > 0 && x == q * n + r && r < n && q <= 2
    ensures x % n == r
  {
    var d := q - x / n;
    assert d * n == x % n - r by {
      assert x == (x / n) * n + x % n;
    }
    if d >= 1 {
      AtLeastOnce(d, n);
    } else if d <= -1 {
      AtLeastOnce(-d, n);
    }
  }

  lemma AtLeastOnce(d: int, n: int)
    requires d >= 1 && n >= 0
    ensures d * n >= n
  {
  }

  // ----- One machine, one event

  /** set_alarms at time `now`; `stamp` is the alarm's own timestamp, logged by the frequency ring. */
  function Raised(m: Machine, now: int, stamp: int): Machine
    requires RingOk(m)
  {
    match m.state
    case SoakIdle => m.(state := Active)
    case Idle =>
      var logged := LogStamp(m, stamp);
      if m.cfg.activeTimer == 0 || FreqExceeded(logged) then logged.(state := Active)
      else logged.(state := SoakActive, activeTimeout := Some(now + m.cfg.activeTimer))
    case _ => m
  }

  /** Entering Idle at time `t` arms the delete timer, if there is one. */
  function ToIdle(m: Machine, t: int): Machine {
    if m.cfg.freqSeconds != 0 then m.(state := Idle, deleteTimeout := Some(t + m.cfg.freqSeconds))
    else m.(state := Idle)
  }

  /** clear_alarms at time `now`. */
  function Lowered(m: Machine, now: int): Machine {
    match m.state
    case SoakActive => ToIdle(m, now)
    case Active =>
      if m.cfg.idleTimer == 0 then ToIdle(m, now)
      else m.(state := SoakIdle, idleTimeout := Some(now + m.cfg.idleTimer))
    case _ => m
  }

  /** clear_alarms asks its caller to delete the machine: it fell to Idle with no delete timer. */
  predicate LoweredAway(m: Machine) {
    && m.cfg.freqSeconds == 0
    && (m.state == SoakActive || (m.state == Active && m.cfg.idleTimer == 0))
  }

  /** The time at which the machine is on the wheel, if it is. */
  function Due(m: Machine): Option<int> {
    match m.state
    case SoakActive => m.activeTimeout
    case SoakIdle => m.idleTimeout
    case Idle => m.deleteTimeout
    case Active => None
  }

  predicate WellFormed(m: Machine) {
    && RingOk(m)
    && (m.state == SoakActive ==> m.activeTimeout.Some?)
    && (m.state == SoakIdle ==> m.idleTimeout.Some?)
    && (m.activeTimeout.Some? ==> m.activeTimeout.value > 0)
    && (m.idleTimeout.Some? ==> m.idleTimeout.value > 0)
    && (m.deleteTimeout.Some? ==> m.deleteTimeout.value > 0 && m.cfg.freqSeconds != 0)
  }

  /** What every machine kept in the table satisfies: only Active alarms have no timer running. */
  predicate Settled(m: Machine) {
    WellFormed(m) && (m.state != Active ==> Due(m).Some?)
  }

  predicate Within(due: Option<int>, lo: int, hi: int) {
    due.Some? && lo <= due.value <= hi
  }

  // ----- One machine, one catch-up of the timers over the seconds lo..hi

  /**
    What the timers of the seconds `lo` to `hi`, run one by one, leave of a machine. A machine that
    goes idle on the way arms its delete timer at the second it went idle, not at `hi`.
   */
  function CaughtUp(m: Machine, lo: int, hi: int): Machine {
    if !Within(Due(m), lo, hi) then m
    else match m.state
      case SoakActive => m.(state := Active)
      case SoakIdle => ToIdle(m, Due(m).value)
      case _ => m
  }

  /** The catch-up asks for the deletion of the machine. */
  predicate Doomed(m: Machine, lo: int, hi: int) {
    && Within(Due(m), lo, hi)
    && match m.state
       case Idle => true
       case SoakIdle => m.cfg.freqSeconds == 0 || m.idleTimeout.value + m.cfg.freqSeconds <= hi
       case _ => false
  }

  /** The catch-up reports the machine as updated. */
  predicate Updated(m: Machine, lo: int, hi: int) {
    && Within(Due(m), lo, hi)
    && (m.state == SoakActive || (m.state == SoakIdle && m.cfg.freqSeconds != 0))
  }

  // ----- A table of machines

  /** The alarms, and the first second whose timers have not been run (None before the first run). */
  datatype World = World(alarms: map<Key, Machine>, lastRun: Option<int>)

  datatype Event =
    | Raise(key: Key, cfg: Config, now: int, stamp: int)
    | Lower(key: Key, now: int)
    | Tick(now: int)
    | Stop(tab: string, uv: string, now: int)

  /** The first second that a catch-up at time `now` looks at. */
  function From(lastRun: Option<int>, now: int): int {
    if lastRun.Some? then lastRun.value else now
  }

  /** The table after every alarm caught up and the doomed ones were deleted. */
  function Survivors(alarms: map<Key, Machine>, lo: int, hi: int): map<Key, Machine> {
    map k | k in alarms && !Doomed(alarms[k], lo, hi) :: CaughtUp(alarms[k], lo, hi)
  }

  ghost predicate AllSettled(alarms: map<Key, Machine>) {
    forall k :: k in alarms ==> Settled(alarms[k])
  }

  function Step(w: World, e: Event): World
    requires AllSettled(w.alarms)
  {
    match e
    case Raise(k, cfg, now, stamp) =>
      var m := if k in w.alarms then w.alarms[k] else Fresh(cfg);
      w.(alarms := w.alarms[k := Raised(m, now, stamp)])
    case Lower(k, now) =>
      if k !in w.alarms then w
      else if LoweredAway(w.alarms[k]) then w.(alarms := w.alarms - {k})
      else w.(alarms := w.alarms[k := Lowered(w.alarms[k], now)])
    case Tick(now) =>
      World(Survivors(w.alarms, From(w.lastRun, now), now), Some(now + 1))
    case Stop(tab, uv, _) =>
      w.(alarms := map k | k in w.alarms && (k.tab != tab || k.uv != uv) :: w.alarms[k])
  }

  // ----- A step, seen from one alarm

  function At(alarms: map<Key, Machine>, k: Key): Option<Machine> {
    if k in alarms then Some(alarms[k]) else None
  }

  predicate SettledAt(o: Option<Machine>) {
    o.Some? ==> Settled(o.value)
  }

  /** What the event leaves of one alarm, when a catch-up looks at the seconds from `lo` on. */
  function StepAt(o: Option<Machine>, e: Event, k: Key, lo: int): Option<Machine>
    requires SettledAt(o)
  {
    match e
    case Raise(k', cfg, now, stamp) =>
      if k' == k then Some(Raised(if o.Some? then o.value else Fresh(cfg), now, stamp)) else o
    case Lower(k', now) =>
      if k' != k || o.None? then o else if LoweredAway(o.value) then None else Some(Lowered(o.value, now))
    case Tick(now) =>
      if o.None? || Doomed(o.value, lo, now) then None else Some(CaughtUp(o.value, lo, now))
    case Stop(tab, uv, _) =>
      if k.tab == tab && k.uv == uv then None else o
  }

  lemma StepIsPointwise(w: World, e: Event, k: Key)
    requires AllSettled(w.alarms)
    ensures At(Step(w, e).alarms, k) == StepAt(At(w.alarms, k), e, k, From(w.lastRun, e.now))
  {
  }

  // ----- Every step keeps the table settled

  lemma NextHead(head: nat, n: nat)
    requires head <= n
    ensures (head + 1) % (n + 1) == if head == n then 0 else head + 1
  {
  }

  lemma RaiseSettles(m: Machine, now: int, stamp: int)
    requires WellFormed(m) && now > 0
    ensures Settled(Raised(m, now, stamp))
    ensures Raised(m, now, stamp).cfg == m.cfg
  {
    NextHead(m.head, m.cfg.freqTimes);
    assert RingOk(LogStamp(m, stamp));
  }

  /** An idle alarm that is raised soaks, unless no soak is configured or its raises have been counted up. */
  lemma RaisedUnsoaked(m: Machine, h: seq<int>, now: int, stamp: int)
    requires m.stamps == [] && m.head == 0 && m.state == Idle && m.cfg.freqCheck
    requires forall i, j :: 0 <= i <= j < |h + [stamp]| ==> (h + [stamp])[i] <= (h + [stamp])[j]
    ensures var cfg, raised := m.cfg, Raised(LogAll(m, h), now, stamp);
            raised.state == if cfg.activeTimer == 0 || (cfg.freqTimes != 0 && cfg.freqSeconds != 0 && |h| >= cfg.freqTimes) then Active
                            else SoakActive
  {
    assert (h + [stamp])[..|h|] == h;
    FrequencyIsCount(m, h + [stamp]);
  }

  lemma LowerSettles(m: Machine, now: int)
    requires Settled(m) && now > 0 && !LoweredAway(m)
    ensures Settled(Lowered(m, now))
  {
  }

  lemma CatchUpSettles(m: Machine, lo: int, hi: int)
    requires Settled(m) && !Doomed(m, lo, hi)
    ensures Settled(CaughtUp(m, lo, hi))
  {
  }

  lemma StepSettlesAt(o: Option<Machine>, e: Event, k: Key, lo: int)
    requires SettledAt(o) && e.now > 0
    ensures SettledAt(StepAt(o, e, k, lo))
  {
    match e
    case Raise(k', cfg, now, stamp) =>
      if k' == k {
        RaiseSettles(if o.Some? then o.value else Fresh(cfg), now, stamp);
      }
    case Lower(k', now) =>
      if k' == k && o.Some? && !LoweredAway(o.value) {
        LowerSettles(o.value, now);
      }
    case Tick(now) =>
      if o.Some? && !Doomed(o.value, lo, now) {
        CatchUpSettles(o.value, lo, now);
      }
    case Stop(_, _, _) =>
  }

  lemma StepSettles(w: World, e: Event)
    requires AllSettled(w.alarms) && e.now > 0
    ensures AllSettled(Step(w, e).alarms)
  {
    forall k
      ensures SettledAt(At(Step(w, e).alarms, k))
    {
      StepSettlesAt(At(w.alarms, k), e, k, From(w.lastRun, e.now));
      StepIsPointwise(w, e, k);
    }
    assert forall k :: k in Step(w, e).alarms ==> At(Step(w, e).alarms, k) == Some(Step(w, e).alarms[k]);
  }

  // ----- Runs

  const START := World(map[], None)

  /** Clock readings are positive and never go back. */
  ghost predicate ClockOk(tr: seq<Event>) {
    && (forall i :: 0 <= i < |tr| ==> tr[i].now > 0)
    && (forall i, j :: 0 <= i < j < |tr| ==> tr[i].now <= tr[j].now)
  }

  /** The world after the events of `tr`, from an empty table. */
  ghost function Run(tr: seq<Event>): (w: World)
    requires ClockOk(tr)
    ensures AllSettled(w.alarms)
  {
    if tr == [] then START
    else
      var before := Run(tr[..|tr| - 1]);
      StepSettles(before, tr[|tr| - 1]);
      Step(before, tr[|tr| - 1])
  }

  lemma RunStep(tr: seq<Event>, e: Event)
    requires ClockOk(tr + [e])
    ensures ClockOk(tr) && Run(tr + [e]) == Step(Run(tr), e)
  {
    assert (tr + [e])[..|tr|] == tr;
    assert forall i :: 0 <= i < |tr| ==> tr[i] == (tr + [e])[i];
  }

  // ----- What the alarm's condition has been doing, read off the events alone

  /** The condition of an alarm: never raised, raised since a time, or cleared since a time. */
  datatype Signal = Never | Up(since: int) | Down(since: int)

  function NextSignal(s: Signal, e: Event, k: Key): Signal {
    match e
    case Raise(k', _, now, _) => if k' == k && !s.Up? then Up(now) else s
    case Lower(k', now) => if k' == k && s.Up? then Down(now) else s
    case Tick(_) => s
    case Stop(tab, uv, _) => if k.tab == tab && k.uv == uv then Never else s
  }

  function SignalOf(tr: seq<Event>, k: Key): Signal {
    if tr == [] then Never else NextSignal(SignalOf(tr[..|tr| - 1], k), tr[|tr| - 1], k)
  }

  lemma SignalStep(tr: seq<Event>, e: Event, k: Key)
    ensures SignalOf(tr + [e], k) == NextSignal(SignalOf(tr, k), e, k)
  {
    assert (tr + [e])[..|tr|] == tr;
  }

  /** How a machine follows its signal. */
  predicate FollowsAt(o: Option<Machine>, s: Signal) {
    if o.None? then !s.Up?
    else
      var m := o.value;
      match m.state
      case Idle => !s.Up?
      case SoakActive => s.Up? && m.activeTimeout == Some(s.since + m.cfg.activeTimer)
      case Active => s.Up?
      case SoakIdle =>
        s.Down? && m.cfg.idleTimer != 0 && m.idleTimeout == Some(s.since + m.cfg.idleTimer)
  }

  predicate Follows(w: World, k: Key, s: Signal) {
    FollowsAt(At(w.alarms, k), s)
  }

  lemma RaiseFollows(m: Machine, now: int, stamp: int, s: Signal)
    requires RingOk(m) && FollowsAt(Some(m), s)
    ensures FollowsAt(Some(Raised(m, now, stamp)), if s.Up? then s else Up(now))
  {
  }

  lemma StepFollowsAt(o: Option<Machine>, e: Event, k: Key, lo: int, s: Signal)
    requires SettledAt(o) && FollowsAt(o, s)
    ensures FollowsAt(StepAt(o, e, k, lo), NextSignal(s, e, k))
  {
    if e.Raise? && e.key == k {
      RaiseFollows(if o.Some? then o.value else Fresh(e.cfg), e.now, e.stamp, s);
    }
  }

  lemma StepFollows(w: World, e: Event, k: Key, s: Signal)
    requires AllSettled(w.alarms) && Follows(w, k, s)
    ensures Follows(Step(w, e), k, NextSignal(s, e, k))
  {
    StepIsPointwise(w, e, k);
    StepFollowsAt(At(w.alarms, k), e, k, From(w.lastRun, e.now), s);
  }

  lemma {:induction false} MachineFollowsSignal(tr: seq<Event>, k: Key)
    requires ClockOk(tr)
    ensures Follows(Run(tr), k, SignalOf(tr, k))
  {
    if tr != [] {
      var before := tr[..|tr| - 1];
      MachineFollowsSignal(before, k);
      StepFollows(Run(before), tr[|tr| - 1], k, SignalOf(before, k));
    }
  }

  // ----- The delete timer

  /** The alarm was visible when it was last cleared. */
  ghost function ShownWhenCleared(tr: seq<Event>, k: Key): bool
    requires ClockOk(tr)
  {
    if tr == [] then false
    else
      var before, e := tr[..|tr| - 1], tr[|tr| - 1];
      if Clears(e, k, SignalOf(before, k)) then VisibleIn(Run(before), k) else ShownWhenCleared(before, k)
  }

  predicate Clears(e: Event, k: Key, s: Signal) {
    e.Lower? && e.key == k && s.Up?
  }

  /** When an alarm cleared at `since` is to be gone: it soaks if it was visible, and then waits to be deleted. */
  function GoneAt(since: int, shown: bool, cfg: Config): int {
    since + (if shown then cfg.idleTimer else 0) + cfg.freqSeconds
  }

  predicate ClearedAt(o: Option<Machine>, s: Signal, shown: bool) {
    o.Some? ==>
      && (o.value.state == SoakIdle ==> shown)
      && (o.value.state == Idle ==>
            s.Down? && o.value.cfg.freqSeconds != 0 && o.value.deleteTimeout == Some(GoneAt(s.since, shown, o.value.cfg)))
  }

  lemma StepClearedAt(o: Option<Machine>, e: Event, k: Key, lo: int, s: Signal, shown: bool)
    requires SettledAt(o) && FollowsAt(o, s) && ClearedAt(o, s, shown)
    ensures ClearedAt(StepAt(o, e, k, lo), NextSignal(s, e, k), if Clears(e, k, s) then VisibleAt(o) else shown)
  {
  }

  /** Over every run, an idle alarm is due for deletion when its clear, its idle soak if it was visible, and FreqCheck_Seconds say. */
  lemma {:induction false} DeleteTimerOverRuns(tr: seq<Event>, k: Key)
    requires ClockOk(tr)
    ensures ClearedAt(At(Run(tr).alarms, k), SignalOf(tr, k), ShownWhenCleared(tr, k))
  {
    if tr != [] {
      var before, e := tr[..|tr| - 1], tr[|tr| - 1];
      DeleteTimerOverRuns(before, k);
      MachineFollowsSignal(before, k);
      StepIsPointwise(Run(before), e, k);
      StepClearedAt(At(Run(before).alarms, k), e, k, From(Run(before).lastRun, e.now), SignalOf(before, k), ShownWhenCleared(before, k));
    }
  }

  /** With nothing overdue, a catch-up keeps an alarm exactly if it is raised or its time to be gone is yet to come. */
  lemma DeletedWhenDue(tr: seq<Event>, now: int, k: Key)
    requires ClockOk(tr + [Tick(now)])
    requires ClockOk(tr) && k in Run(tr).alarms && NothingOverdue(Run(tr), now)
    ensures var s := SignalOf(tr, k);
            s.Up? || (s.Down? && (k in Run(tr + [Tick(now)]).alarms <==>
                                  now < GoneAt(s.since, ShownWhenCleared(tr, k), Run(tr).alarms[k].cfg)))
    ensures SignalOf(tr, k).Up? ==> k in Run(tr + [Tick(now)]).alarms
  {
    RunStep(tr, Tick(now));
    MachineFollowsSignal(tr, k);
    DeleteTimerOverRuns(tr, k);
    StepIsPointwise(Run(tr), Tick(now), k);
    DoomedAt(Run(tr).alarms[k], now, k, From(Run(tr).lastRun, now), SignalOf(tr, k), ShownWhenCleared(tr, k));
  }

  lemma DoomedAt(m: Machine, now: int, k: Key, lo: int, s: Signal, shown: bool)
    requires Settled(m) && FollowsAt(Some(m), s) && ClearedAt(Some(m), s, shown) && (Due(m).Some? ==> Due(m).value >= lo)
    ensures s.Up? || s.Down?
    ensures s.Up? ==> !Doomed(m, lo, now)
    ensures s.Down? ==> (Doomed(m, lo, now) <==> GoneAt(s.since, shown, m.cfg) <= now)
  {
  }

  /**
    Nothing else deletes an alarm: it goes in a catch-up once its time to be gone has come, at its
    clear if that time is the same moment, or with its UVE.
   */
  lemma DeletedOnlyWhenDue(tr: seq<Event>, e: Event, k: Key)
    requires ClockOk(tr + [e]) && ClockOk(tr)
    ensures k in Run(tr).alarms && k !in Run(tr + [e]).alarms ==>
            var s, cfg := SignalOf(tr, k), Run(tr).alarms[k].cfg;
            || (e.Tick? && s.Down? && GoneAt(s.since, ShownWhenCleared(tr, k), cfg) <= e.now)
            || (Clears(e, k, s) && GoneAt(e.now, VisibleIn(Run(tr), k), cfg) == e.now)
            || (e.Stop? && e.tab == k.tab && e.uv == k.uv)
  {
    RunStep(tr, e);
    MachineFollowsSignal(tr, k);
    DeleteTimerOverRuns(tr, k);
    StepIsPointwise(Run(tr), e, k);
    if k in Run(tr).alarms && k !in Run(tr + [e]).alarms {
      GoneOnlyAt(Run(tr).alarms[k], e, k, From(Run(tr).lastRun, e.now), SignalOf(tr, k), ShownWhenCleared(tr, k));
    }
  }

  lemma GoneOnlyAt(m: Machine, e: Event, k: Key, lo: int, s: Signal, shown: bool)
    requires Settled(m) && FollowsAt(Some(m), s) && ClearedAt(Some(m), s, shown) && StepAt(Some(m), e, k, lo).None?
    ensures || (e.Tick? && s.Down? && GoneAt(s.since, shown, m.cfg) <= e.now)
            || (Clears(e, k, s) && GoneAt(e.now, Visible(m), m.cfg) == e.now)
            || (e.Stop? && e.tab == k.tab && e.uv == k.uv)
  {
  }

  /** A clear deletes the alarm at once exactly if there is nothing to wait for. */
  lemma ClearDeletesAtOnce(tr: seq<Event>, now: int, k: Key)
    requires ClockOk(tr + [Lower(k, now)])
    requires ClockOk(tr) && k in Run(tr).alarms && SignalOf(tr, k).Up?
    ensures k !in Run(tr + [Lower(k, now)]).alarms <==> GoneAt(now, VisibleIn(Run(tr), k), Run(tr).alarms[k].cfg) == now
  {
    RunStep(tr, Lower(k, now));
    MachineFollowsSignal(tr, k);
    StepIsPointwise(Run(tr), Lower(k, now), k);
  }

  // ----- Visibility

  predicate VisibleAt(o: Option<Machine>) {
    o.Some? && Visible(o.value)
  }

  predicate VisibleIn(w: World, k: Key) {
    VisibleAt(At(w.alarms, k))
  }

  /** The config that governs alarm `k` when `e` happens: a new machine takes the one it is given. */
  function ConfigAt(w: World, k: Key, e: Event): Option<Config> {
    if k in w.alarms then Some(w.alarms[k].cfg)
    else if e.Raise? && e.key == k then Some(e.cfg)
    else None
  }

  /** No timer of the table lies before the seconds that a catch-up at `now` will look at. */
  ghost predicate NothingOverdue(w: World, now: int) {
    forall k :: k in w.alarms && Due(w.alarms[k]).Some? ==> Due(w.alarms[k]).value >= From(w.lastRun, now)
  }

  /**
    Soak safety. An alarm that was hidden becomes visible only in two ways: timers run after it was
    raised for ActiveTimer seconds on end; or it is raised with no soak time configured, or with the
    frequency check on.
   */
  lemma ShownOnlyAfterSoaking(tr: seq<Event>, e: Event, k: Key)
    requires ClockOk(tr + [e]) && ClockOk(tr)
    ensures !VisibleIn(Run(tr), k) && VisibleIn(Run(tr + [e]), k) ==>
              && ConfigAt(Run(tr), k, e).Some?
              && var cfg := ConfigAt(Run(tr), k, e).value;
                 || (e.Tick? && SignalOf(tr, k).Up? && SignalOf(tr, k).since + cfg.activeTimer <= e.now)
                 || (e.Raise? && e.key == k && (cfg.activeTimer == 0 || cfg.freqCheck))
  {
    RunStep(tr, e);
    MachineFollowsSignal(tr, k);
    StepIsPointwise(Run(tr), e, k);
    if !VisibleIn(Run(tr), k) && VisibleIn(Run(tr + [e]), k) {
      ShownAt(At(Run(tr).alarms, k), e, k, From(Run(tr).lastRun, e.now), SignalOf(tr, k));
    }
  }

  lemma ShownAt(o: Option<Machine>, e: Event, k: Key, lo: int, s: Signal)
    requires SettledAt(o) && FollowsAt(o, s) && !VisibleAt(o) && VisibleAt(StepAt(o, e, k, lo))
    ensures if e.Tick? then o.Some? && s.Up? && s.since + o.value.cfg.activeTimer <= e.now
            else
              && e.Raise? && e.key == k
              && var cfg := if o.Some? then o.value.cfg else e.cfg; cfg.activeTimer == 0 || cfg.freqCheck
  {
  }

  /**
    The converse safety. A visible alarm is withdrawn only by timers run after it was clear for
    IdleTimer seconds on end, by a clear with no idle soak configured, or because its UVE stopped.
   */
  lemma HiddenOnlyAfterSoaking(tr: seq<Event>, e: Event, k: Key)
    requires ClockOk(tr + [e]) && ClockOk(tr)
    ensures VisibleIn(Run(tr), k) && !VisibleIn(Run(tr + [e]), k) ==>
              var cfg := Run(tr).alarms[k].cfg;
              || (e.Tick? && SignalOf(tr, k).Down? && SignalOf(tr, k).since + cfg.idleTimer <= e.now)
              || (e.Lower? && e.key == k && cfg.idleTimer == 0)
              || (e.Stop? && e.tab == k.tab && e.uv == k.uv)
  {
    RunStep(tr, e);
    MachineFollowsSignal(tr, k);
    StepIsPointwise(Run(tr), e, k);
    if VisibleIn(Run(tr), k) && !VisibleIn(Run(tr + [e]), k) {
      HiddenAt(At(Run(tr).alarms, k), e, k, From(Run(tr).lastRun, e.now), SignalOf(tr, k));
    }
  }

  lemma HiddenAt(o: Option<Machine>, e: Event, k: Key, lo: int, s: Signal)
    requires SettledAt(o) && FollowsAt(o, s) && VisibleAt(o) && !VisibleAt(StepAt(o, e, k, lo))
    ensures || (e.Tick? && s.Down? && s.since + o.value.cfg.idleTimer <= e.now)
            || (e.Lower? && e.key == k && o.value.cfg.idleTimer == 0)
            || (e.Stop? && e.tab == k.tab && e.uv == k.uv)
  {
  }

  /**
    Soak exactness. When no timer is overdue, visibility after the timers ran is decided by the
    signal and the clock, in both directions.
   */
  lemma VisibleAfterTick(tr: seq<Event>, now: int, k: Key)
    requires ClockOk(tr + [Tick(now)])
    requires ClockOk(tr) && k in Run(tr).alarms
    requires NothingOverdue(Run(tr), now)
    ensures var s, cfg := SignalOf(tr, k), Run(tr).alarms[k].cfg;
            VisibleIn(Run(tr + [Tick(now)]), k) <==>
            || (s.Up? && (VisibleIn(Run(tr), k) || s.since + cfg.activeTimer <= now))
            || (s.Down? && VisibleIn(Run(tr), k) && now < s.since + cfg.idleTimer)
  {
    RunStep(tr, Tick(now));
    MachineFollowsSignal(tr, k);
    StepIsPointwise(Run(tr), Tick(now), k);
    TickedAt(At(Run(tr).alarms, k), now, k, From(Run(tr).lastRun, now), SignalOf(tr, k));
  }

  lemma TickedAt(o: Option<Machine>, now: int, k: Key, lo: int, s: Signal)
    requires SettledAt(o) && FollowsAt(o, s) && o.Some? && (Due(o.value).Some? ==> Due(o.value).value >= lo)
    ensures VisibleAt(StepAt(o, Tick(now), k, lo)) <==>
            || (s.Up? && (VisibleAt(o) || s.since + o.value.cfg.activeTimer <= now))
            || (s.Down? && VisibleAt(o) && now < s.since + o.value.cfg.idleTimer)
  {
  }

  /** A catch-up reports every alarm whose visibility it changes, as updated or to be deleted, and as updated no other. */
  lemma ChangesAreReported(m: Machine, k: Key, lo: int, now: int)
    requires Settled(m)
    ensures Visible(m) != VisibleAt(StepAt(Some(m), Tick(now), k, lo)) ==> Updated(m, lo, now) || Doomed(m, lo, now)
    ensures Updated(m, lo, now) ==> Visible(m) != Visible(CaughtUp(m, lo, now))
  {
  }

  // ----- Missed timers

  /** A catch-up leaves a machine no timer at or before `hi`, unless it had one before `lo`. */
  lemma CaughtUpIsLater(m: Machine, lo: int, hi: int)
    requires Settled(m) && !Doomed(m, lo, hi)
    requires lo <= hi + 1
    ensures var due := Due(CaughtUp(m, lo, hi));
            (due.Some? ==> due.value > hi) <==> (Due(m).Some? ==> Due(m).value >= lo)
  {
  }

  lemma {:induction false} LastRunIsPast(tr: seq<Event>)
    requires ClockOk(tr)
    ensures Run(tr).lastRun.Some? ==> tr != [] && Run(tr).lastRun.value <= tr[|tr| - 1].now + 1
  {
    if tr != [] {
      LastRunIsPast(tr[..|tr| - 1]);
    }
  }

  /** Every timer that a catch-up leaves on the table is later than `now`, exactly if none was overdue. */
  lemma TickLeavesOnlyLater(tr: seq<Event>, now: int)
    requires ClockOk(tr + [Tick(now)])
    ensures ClockOk(tr)
    ensures var later := Run(tr + [Tick(now)]).alarms;
            (forall k :: k in later && Due(later[k]).Some? ==> Due(later[k]).value > now)
            <==> NothingOverdue(Run(tr), now)
  {
    RunStep(tr, Tick(now));
    LastRunIsPast(tr);
    var w := Run(tr);
    var later := Run(tr + [Tick(now)]).alarms;
    var lo := From(w.lastRun, now);
    if tr != [] {
      assert (tr + [Tick(now)])[|tr| - 1] == tr[|tr| - 1];
      assert (tr + [Tick(now)])[|tr|] == Tick(now);
    }
    assert lo <= now + 1;
    forall k | k in later
      ensures (Due(later[k]).Some? ==> Due(later[k]).value > now)
              <==> (Due(w.alarms[k]).Some? ==> Due(w.alarms[k]).value >= lo)
    {
      CaughtUpIsLater(w.alarms[k], lo, now);
    }
    forall k | k in w.alarms && Due(w.alarms[k]).Some? && Due(w.alarms[k]).value < lo
      ensures k in later
    {
    }
  }

  /** Whenever the timers run for the first time in `tr`, no timer has passed yet. */
  ghost predicate FirstRunInTime(tr: seq<Event>)
    requires ClockOk(tr)
  {
    forall i :: 0 <= i < |tr| && tr[i].Tick? && Run(tr[..i]).lastRun.None? ==>
                  NothingOverdue(Run(tr[..i]), tr[i].now)
  }

  predicate LaterAt(o: Option<Machine>, lo: int) {
    o.Some? && Due(o.value).Some? ==> Due(o.value).value >= lo
  }

  lemma RaisedIsLater(m: Machine, now: int, stamp: int, lo: int)
    requires RingOk(m) && LaterAt(Some(m), lo) && lo <= now + 1
    ensures LaterAt(Some(Raised(m, now, stamp)), lo)
  {
  }

  /** No event makes a timer overdue. */
  lemma StepIsLater(o: Option<Machine>, e: Event, k: Key, lo: int)
    requires SettledAt(o) && LaterAt(o, lo) && lo <= e.now + 1 && e.now > 0
    ensures LaterAt(StepAt(o, e, k, lo), if e.Tick? then e.now + 1 else lo)
  {
    match e
    case Raise(k', cfg, now, stamp) =>
      if k' == k {
        RaisedIsLater(if o.Some? then o.value else Fresh(cfg), now, stamp, lo);
      }
    case Lower(_, _) =>
    case Tick(now) =>
      if o.Some? && !Doomed(o.value, lo, now) {
        CaughtUpIsLater(o.value, lo, now);
      }
    case Stop(_, _, _) =>
  }

  lemma StepKeepsNothingOverdue(w: World, e: Event)
    requires AllSettled(w.alarms) && e.now > 0
    requires w.lastRun.Some? ==> w.lastRun.value <= e.now + 1
    requires w.lastRun.Some? || e.Tick? ==> NothingOverdue(w, e.now)
    ensures Step(w, e).lastRun.Some? ==> NothingOverdue(Step(w, e), e.now)
  {
    if w.lastRun.Some? || e.Tick? {
      forall k
        ensures LaterAt(At(Step(w, e).alarms, k), From(Step(w, e).lastRun, e.now))
      {
        StepIsPointwise(w, e, k);
        StepIsLater(At(w.alarms, k), e, k, From(w.lastRun, e.now));
      }
      assert forall k :: k in Step(w, e).alarms ==> At(Step(w, e).alarms, k) == Some(Step(w, e).alarms[k]);
    }
  }

  /**
    No missed timers: over every run whose first catch-up came in time, no timer is ever overdue
    again, whatever raises, clears, stops and catch-ups follow.
   */
  lemma {:induction false} NoMissedTimers(tr: seq<Event>)
    requires ClockOk(tr) && FirstRunInTime(tr)
    ensures Run(tr).lastRun.Some? ==> NothingOverdue(Run(tr), Run(tr).lastRun.value)
  {
    if tr != [] {
      var n := |tr| - 1;
      var before := tr[..n];
      FirstRunInTimeBefore(tr);
      NoMissedTimers(before);
      LastRunIsPast(before);
      StepKeepsNothingOverdue(Run(before), tr[n]);
    }
  }

  lemma FirstRunInTimeBefore(tr: seq<Event>)
    requires tr != [] && ClockOk(tr) && FirstRunInTime(tr)
    ensures ClockOk(tr[..|tr| - 1]) && FirstRunInTime(tr[..|tr| - 1])
    ensures var n := |tr| - 1;
            tr[n].Tick? && Run(tr[..n]).lastRun.None? ==> NothingOverdue(Run(tr[..n]), tr[n].now)
  {
    assert forall i :: 0 <= i < |tr| ==> tr[..|tr| - 1][..i] == tr[..i];
  }

  predicate About(e: Event, k: Key) {
    match e
    case Raise(k', _, _, _) => k' == k
    case Lower(k', _) => k' == k
    case Tick(_) => false
    case Stop(tab, uv, _) => tab == k.tab && uv == k.uv
  }

  /** A missed timer is missed for good: no later catch-up touches its alarm. */
  lemma {:induction false} MissedForever(tr: seq<Event>, more: seq<Event>, k: Key)
    requires ClockOk(tr + more)
    requires ClockOk(tr) && Run(tr).lastRun.Some? && k in Run(tr).alarms
    requires Due(Run(tr).alarms[k]).Some?
    requires Due(Run(tr).alarms[k]).value < Run(tr).lastRun.value
    requires forall i :: 0 <= i < |more| ==> !About(more[i], k)
    ensures k in Run(tr + more).alarms && Run(tr + more).alarms[k] == Run(tr).alarms[k]
    ensures Run(tr + more).lastRun.Some? && Run(tr + more).lastRun.value >= Run(tr).lastRun.value
    decreases |more|
  {
    if more == [] {
      assert tr + more == tr;
    } else {
      var n := |more| - 1;
      var before, e := tr + more[..n], more[n];
      assert before + [e] == tr + more;
      RunStep(before, e);
      MissedForever(tr, more[..n], k);
      LastRunIsPast(before);
      assert (before + [e])[|before| - 1].now <= (before + [e])[|before|].now;
      MissedOnce(Run(before), e, k);
    }
  }

  lemma MissedOnce(w: World, e: Event, k: Key)
    requires AllSettled(w.alarms) && w.lastRun.Some? && w.lastRun.value <= e.now + 1
    requires k in w.alarms && Due(w.alarms[k]).Some? && Due(w.alarms[k]).value < w.lastRun.value
    requires !About(e, k)
    ensures var after := Step(w, e);
            && k in after.alarms && after.alarms[k] == w.alarms[k]
            && after.lastRun.Some? && after.lastRun.value >= w.lastRun.value
  {
    StepIsPointwise(w, e, k);
  }

  /** The first run of the timers does miss one if it comes later than the soak time of a raised alarm. */
  lemma FirstRunCanMiss()
    ensures var k, cfg := Key("t", "u", "n"), Config(1, 0, 0, 0, false);
            var tr := [Raise(k, cfg, 1, 0), Tick(3)];
            && ClockOk(tr)
            && k in Run(tr).alarms && !VisibleIn(Run(tr), k)
            && SignalOf(tr, k) == Up(1)
            && Run(tr).lastRun == Some(4) && Due(Run(tr).alarms[k]) == Some(2)
  {
    var k, cfg := Key("t", "u", "n"), Config(1, 0, 0, 0, false);
    var e1, e2 := Raise(k, cfg, 1, 0), Tick(3);
    var m := Machine(cfg, SoakActive, Some(2), None, None, [], 0);
    var w1, w2 := World(map[k := m], None), World(map[k := m], Some(4));
    assert [] + [e1] == [e1] && [e1] + [e2] == [e1, e2];
    assert ClockOk([e1, e2]);
    RunStep([e1], e2);
    RunStep([], e1);
    SoakedOnce(k, cfg);
    assert Step(w1, e2) == w2 by {
      assert Survivors(w1.alarms, 3, 3) == w1.alarms;
    }
    SignalStep([], e1, k);
    SignalStep([e1], e2, k);
  }

  lemma SoakedOnce(k: Key, cfg: Config)
    requires cfg == Config(1, 0, 0, 0, false)
    ensures Step(START, Raise(k, cfg, 1, 0))
         == World(map[k := Machine(cfg, SoakActive, Some(2), None, None, [], 0)], None)
  {
    assert LogStamp(Fresh(cfg), 0) == Fresh(cfg);
    assert Raised(Fresh(cfg), 1, 0) == Machine(cfg, SoakActive, Some(2), None, None, [], 0);
  }
}
