/**
  The alarm state machines, their shared timer wheel and the table that the controller keeps of
  them, in the imperative form of contrail-opserver/alarmgen.py.

  Every method is proved to keep the wheel an exact index of the due times of the table's alarms
  (`Indexes`), and to have the effect that `SoakMachine.Step` gives without any wheel.
 */
module AlarmTimers {
  import opened Options
  import opened SoakMachine

  /** tab_alarms_timer: the alarms that are due at each second. */
  type Wheel = map<int, set<Key>>

  function With(b: Wheel, t: int, k: Key): Wheel {
    b[t := (if t in b then b[t] else {}) + {k}]
  }

  function Without(b: Wheel, t: int, k: Key): Wheel
    requires t in b
  {
    if b[t] - {k} == {} then b - {t} else b[t := b[t] - {k}]
  }

  /**
    The wheel holds every alarm that has a due time in the bucket of that time, holds nothing else,
    and has no empty bucket.
   */
  ghost predicate Indexes(b: Wheel, alarms: map<Key, Machine>) {
    && (forall t :: t in b ==> b[t] != {})
    && (forall t, k :: t in b && k in b[t] ==> k in alarms && Due(alarms[k]) == Some(t))
    && (forall k :: k in alarms && Due(alarms[k]).Some? ==>
                      Due(alarms[k]).value in b && k in b[Due(alarms[k]).value])
  }

  /** An alarm is in exactly the bucket of its own timeout, and in none at all when it is Active. */
  lemma OneBucketEach(b: Wheel, alarms: map<Key, Machine>, k: Key)
    requires Indexes(b, alarms) && AllSettled(alarms) && k in alarms
    ensures alarms[k].state == Active ==> forall t :: t in b ==> k !in b[t]
    ensures alarms[k].state != Active ==>
              forall t :: t in b ==> (k in b[t] <==> Due(alarms[k]) == Some(t))
    ensures alarms[k].state != Active ==> Due(alarms[k]).value in b
  {
  }

  lemma UnindexedWithout(b: Wheel, alarms: map<Key, Machine>, k: Key)
    requires Indexes(b, alarms) && k in alarms && Due(alarms[k]).Some?
    ensures Indexes(Without(b, Due(alarms[k]).value, k), alarms - {k})
  {
  }

  lemma IndexedWith(b: Wheel, alarms: map<Key, Machine>, k: Key, m: Machine)
    requires Indexes(b, alarms) && k !in alarms
    ensures Indexes(if Due(m).Some? then With(b, Due(m).value, k) else b, alarms[k := m])
  {
  }

  /** The wheel once `k` left the bucket of `m` for that of `m'`. */
  function Replaced(b: Wheel, m: Machine, m': Machine, k: Key): Wheel
    requires Due(m).Some? ==> Due(m).value in b
  {
    var b1 := if Due(m).Some? then Without(b, Due(m).value, k) else b;
    if Due(m').Some? then With(b1, Due(m').value, k) else b1
  }

  /** Replacing a machine by one with another due time. */
  lemma Reindexed(b: Wheel, alarms: map<Key, Machine>, k: Key, m: Machine)
    requires Indexes(b, alarms) && k in alarms
    ensures Due(alarms[k]).Some? ==> Indexes(Without(b, Due(alarms[k]).value, k), alarms - {k})
    ensures Due(alarms[k]).None? ==> Indexes(b, alarms - {k})
    ensures Indexes(Replaced(b, alarms[k], m, k), alarms[k := m])
  {
    var b1 := if Due(alarms[k]).Some? then Without(b, Due(alarms[k]).value, k) else b;
    if Due(alarms[k]).Some? {
      UnindexedWithout(b, alarms, k);
    }
    IndexedWith(b1, alarms - {k}, k, m);
    assert (alarms - {k})[k := m] == alarms[k := m];
  }

  class TimerWheel {
    var buckets: Wheel
    var lastRun: Option<int>

    constructor ()
      ensures buckets == map[] && lastRun == None
    {
      buckets, lastRun := map[], None;
    }

    method Remove(index: int, k: Key)
      requires index in buckets
      modifies this`buckets
      ensures buckets == Without(old(buckets), index, k)
    {
      buckets := buckets[index := buckets[index] - {k}];
      if buckets[index] == {} {
        buckets := buckets - {index};
      }
    }

    method Add(index: int, k: Key)
      modifies this`buckets
      ensures buckets == With(old(buckets), index, k)
    {
      if index !in buckets {
        buckets := buckets[index := {}];
      }
      buckets := buckets[index := buckets[index] + {k}];
    }

    /**
      update_tab_alarms_timer. `error` is the duplicate-timer branch, which exits the process.
     */
    method Update(k: Key, index: int, timeout: Option<int>) returns (error: bool)
      requires index > 0 && index in buckets && k in buckets[index]
      modifies this`buckets
      ensures !error ==> buckets == Moved(old(buckets), k, index, timeout)
      ensures error <==> timeout.Some? && timeout.value >= 0 &&
                         timeout.value in Without(old(buckets), index, k) &&
                         k in old(buckets)[timeout.value] && timeout.value != index
    {
      error := false;
      var timers := buckets[index] - {k};
      buckets := buckets[index := timers];
      if timers == {} {
        buckets := buckets - {index};
      }
      if timeout.Some? && timeout.value >= 0 {
        if timeout.value !in buckets {
          buckets := buckets[timeout.value := {}];
        }
        if k in buckets[timeout.value] {
          error := true;
          return;
        }
        buckets := buckets[timeout.value := buckets[timeout.value] + {k}];
      }
    }

    /** The first half of a bucket: every alarm in it fires, in any order. */
    method FireBucket(t: int, tab: Tab, bucket: set<Key>, ghost live: map<Key, Machine>, ghost shown: map<Key, Machine>)
      returns (deletes: seq<Key>, updates: seq<Key>, firings: seq<Firing>, ghost order: seq<Key>)
      requires Shows(tab, shown) && Reveals(shown, live)
      requires forall k :: k in bucket ==> k in live && Settled(live[k]) && Due(live[k]) == Some(t)
      modifies Objects(tab)
      ensures Shows(tab, Fired(shown, bucket, t))
      ensures FiredLists(deletes, updates, firings, order, live, bucket, t)
    {
      deletes, updates, firings, order := [], [], [], [];
      var todo := bucket;
      ghost var done: set<Key> := {};
      FiredNone(shown, t);
      while todo != {}
        invariant forall k :: k in bucket <==> k in todo || k in done
        invariant forall k :: k in todo ==> k !in done
        invariant Shows(tab, Fired(shown, done, t))
        invariant FiredLists(deletes, updates, firings, order, live, done, t)
      {
        var k :| k in todo;
        FiredMore(shown, done, k, t);
        var deleteAlarm, updateAlarm, timeout := FireOne(t, tab, k, Fired(shown, done, t));
        ListsFired(deletes, updates, firings, order, live, done, k, t);
        deletes := if deleteAlarm then deletes + [k] else deletes;
        updates := if updateAlarm then updates + [k] else updates;
        firings, order := firings + [Firing(k, deleteAlarm, timeout)], order + [k];
        todo, done := todo - {k}, done + {k};
      }
      assert done == bucket;
    }

    method FireOne(t: int, tab: Tab, k: Key, ghost shown: map<Key, Machine>)
      returns (deleteAlarm: bool, updateAlarm: bool, timeout: Option<int>)
      requires Shows(tab, shown) && k in shown && Settled(shown[k]) && Due(shown[k]) == Some(t)
      modifies tab[k]
      ensures Shows(tab, shown[k := CaughtUp(shown[k], t, t)])
      ensures deleteAlarm == Doomed(shown[k], t, t) && updateAlarm == Updated(shown[k], t, t) && timeout == NextTimeout(shown[k])
    {
      deleteAlarm, updateAlarm, timeout := tab[k].RunSoakingTimer(t);
    }

    /** The second half of a bucket: every alarm that fired moves on in the wheel. */
    method ApplyFirings(t: int, firings: seq<Firing>, ghost order: seq<Key>, ghost live: map<Key, Machine>)
      returns (error: bool)
      requires Indexes(buckets, live) && AllSettled(live)
      requires t in buckets && Lists(order, buckets[t])
      requires FiringsOf(firings, order, live, t)
      modifies this`buckets
      ensures !error
      ensures Indexes(buckets, Survivors(live, t, t))
    {
      error := false;
      ghost var bucket, done: set<Key> := buckets[t], {};
      assert FireAll(live, done, t) == live;
      for i := 0 to |firings|
        invariant !error
        invariant forall k :: k in done <==> k in order[..i]
        invariant Indexes(buckets, FireAll(live, done, t))
      {
        var f := firings[i];
        assert f.key == order[i] && f.key !in done;
        error := MoveNext(f, t, live, done);
        done := done + {f.key};
        assert order[..i + 1] == order[..i] + [f.key];
      }
      assert order[..|firings|] == order;
      AllFired(live, bucket, done, t);
    }

    method MoveNext(f: Firing, t: int, ghost live: map<Key, Machine>, ghost done: set<Key>) returns (error: bool)
      requires Indexes(buckets, FireAll(live, done, t))
      requires f.key in live && f.key !in done && Settled(live[f.key]) && Due(live[f.key]) == Some(t)
      requires f.doomed == Doomed(live[f.key], t, t) && f.timeout == NextTimeout(live[f.key])
      modifies this`buckets
      ensures !error && Indexes(buckets, FireAll(live, done + {f.key}, t))
    {
      FiredOneMore(live, done, f.key, t);
      error := Move(f, t, FireAll(live, done, t));
    }

    method Move(f: Firing, t: int, ghost current: map<Key, Machine>) returns (error: bool)
      requires Indexes(buckets, current)
      requires f.key in current && Settled(current[f.key]) && Due(current[f.key]) == Some(t)
      requires f.doomed == Doomed(current[f.key], t, t) && f.timeout == NextTimeout(current[f.key])
      modifies this`buckets
      ensures !error && Indexes(buckets, Fire(current, f.key, t))
    {
      FiredMoves(buckets, current, f.key, t);
      error := false;
      if f.timeout.Some? || f.doomed {
        error := Update(f.key, t, f.timeout);
      }
    }

    /** The timers of one second. */
    method RunBucket(t: int, tab: Tab, ghost live: map<Key, Machine>, ghost shown: map<Key, Machine>)
      returns (deletes: seq<Key>, updates: seq<Key>, error: bool)
      requires t in buckets && Shows(tab, shown) && Reveals(shown, live)
      requires Indexes(buckets, live) && AllSettled(live)
      modifies this`buckets, Objects(tab)
      ensures !error
      ensures Indexes(buckets, Survivors(live, t, t))
      ensures Shows(tab, Fired(shown, old(buckets)[t], t))
      ensures Reports(deletes, updates, live, t, t)
    {
      var bucket := buckets[t];
      assert DoomedIn(live, live.Keys, t, t) == DoomedIn(live, bucket, t, t);
      assert UpdatedIn(live, live.Keys, t, t) == UpdatedIn(live, bucket, t, t);
      var firings: seq<Firing>;
      ghost var order: seq<Key>;
      deletes, updates, firings, order := FireBucket(t, tab, bucket, live, shown);
      error := ApplyFirings(t, firings, order, live);
    }

    method RunSecond(t: int, tab: Tab, deletes0: seq<Key>, updates0: seq<Key>, 
                     ghost alarms: map<Key, Machine>, ghost lo: int, ghost done: int)
      returns (deletes: seq<Key>, updates: seq<Key>, error: bool)
      requires lo <= t && t == done + 1 && CaughtUpTo(tab, buckets, alarms, lo, done)
      requires Reports(deletes0, updates0, alarms, lo, done)
      modifies this`buckets, Objects(tab)
      ensures !error && CaughtUpTo(tab, buckets, alarms, lo, t) && Reports(deletes, updates, alarms, lo, t)
    {
      ghost var live, shown := Survivors(alarms, lo, done), AllCaughtUp(alarms, lo, done);
      CatchUpSplitsAll(alarms, live, lo, done, t);
      deletes, updates, error := [], [], false;
      if t in buckets {
        ShownSplits(alarms, live, buckets[t], lo, done, t);
        deletes, updates, error := RunBucket(t, tab, live, shown);
      } else {
        NothingDue(buckets, live, t);
        ShownSplits(alarms, live, {}, lo, done, t);
        FiredNone(shown, t);
      }
      ReportsGrow(deletes0, updates0, deletes, updates, alarms, live, lo, done, t);
      deletes, updates := deletes0 + deletes, updates0 + updates;
    }

    /** The loop of run_timers, from its first second. */
    method CatchUp(lo: int, now: int, tab: Tab, ghost alarms: map<Key, Machine>)
      returns (deletes: seq<Key>, updates: seq<Key>, error: bool)
      requires lo <= now + 1 && CaughtUpTo(tab, buckets, alarms, lo, lo - 1) && Reports([], [], alarms, lo, lo - 1)
      modifies this`buckets, Objects(tab)
      ensures !error && CaughtUpTo(tab, buckets, alarms, lo, now) && Reports(deletes, updates, alarms, lo, now)
    {
      deletes, updates, error := [], [], false;
      var done := lo - 1;
      while done < now
        invariant lo - 1 <= done <= now
        invariant !error && CaughtUpTo(tab, buckets, alarms, lo, done)
        invariant Reports(deletes, updates, alarms, lo, done)
      {
        deletes, updates, error := RunSecond(done + 1, tab, deletes, updates, alarms, lo, done);
        done := done + 1;
      }
    }

    /**
      run_timers: every second since the last run is looked at in turn, also for the delete timers
      that the catch-up itself arms. Each alarm ends up where it would have on its own.
     */
    method RunTimers(now: int, tab: Tab, ghost alarms: map<Key, Machine>)
      returns (deletes: seq<Key>, updates: seq<Key>, error: bool)
      requires Shows(tab, alarms) && AllSettled(alarms) && Indexes(buckets, alarms)
      requires From(lastRun, now) <= now + 1
      modifies this, Objects(tab)
      ensures !error && lastRun == Some(now + 1)
      ensures CaughtUpTo(tab, buckets, alarms, old(From(lastRun, now)), now)
      ensures Reports(deletes, updates, alarms, old(From(lastRun, now)), now)
    {
      var lo := if lastRun.None? then now else lastRun.value;
      NothingToCatchUp(alarms, lo, lo - 1);
      deletes, updates, error := CatchUp(lo, now, tab, alarms);
      lastRun := Some(now + 1);
    }

    /** delete_tab_alarms_timer, for the alarms of `stopped`. */
    method StopTimers(tab: Tab, stopped: set<Key>, ghost alarms: map<Key, Machine>)
      requires Shows(tab, alarms) && AllSettled(alarms) && Indexes(buckets, alarms)
      requires stopped <= tab.Keys
      modifies this`buckets
      ensures Indexes(buckets, alarms - stopped)
    {
      var todo := stopped;
      ghost var live := alarms;
      while todo != {}
        invariant todo <= stopped && live == alarms - (stopped - todo)
        invariant Indexes(buckets, live)
      {
        var k :| k in todo;
        tab[k].DeleteTimers(this, live);
        todo, live := todo - {k}, live - {k};
      }
      assert stopped - todo == stopped;
    }
  }

  /** The wheel after alarm `k` left bucket `index` for the one of `timeout`, if that is a time. */
  function Moved(b: Wheel, k: Key, index: int, timeout: Option<int>): Wheel
    requires index in b
  {
    var b1 := Without(b, index, k);
    if timeout.Some? && timeout.value >= 0 then With(b1, timeout.value, k) else b1
  }

  class AlarmStateMachine {
    const key: Key
    const cfg: Config
    var state: State
    var activeTimeout: Option<int>
    var idleTimeout: Option<int>
    var deleteTimeout: Option<int>
    var stamps: seq<int>
    var head: nat

    constructor (key: Key, cfg: Config)
      ensures this.key == key && View() == Fresh(cfg)
    {
      this.key, this.cfg := key, cfg;
      state, activeTimeout, idleTimeout, deleteTimeout := Idle, None, None, None;
      stamps, head := [], 0;
    }

    ghost function View(): Machine
      reads this
    {
      Machine(cfg, state, activeTimeout, idleTimeout, deleteTimeout, stamps, head)
    }

    method IsFrequencyExceeded() returns (r: bool)
      requires RingOk(View())
      ensures r == FreqExceeded(View())
    {
      if !cfg.freqCheck || cfg.freqTimes == 0 || cfg.freqSeconds == 0 {
        return false;
      }
      if |stamps| < cfg.freqTimes + 1 {
        return false;
      }
      var start := (head + cfg.freqTimes + 1) % cfg.freqTimes;
      var end := (head + cfg.freqTimes) % cfg.freqTimes;
      return stamps[end] - stamps[start] <= cfg.freqSeconds;
    }

    method LogTimestamp(stamp: int)
      requires RingOk(View())
      modifies this`stamps, this`head
      ensures View() == LogStamp(old(View()), stamp) && RingOk(View())
    {
      NextHead(head, cfg.freqTimes);
      if cfg.freqCheck {
        if |stamps| <= head {
          stamps := stamps + [stamp];
        } else {
          stamps := stamps[head := stamp];
        }
        head := (head + 1) % (cfg.freqTimes + 1);
      }
    }

    method SetAlarms(wheel: TimerWheel, now: int, stamp: int, ghost alarms: map<Key, Machine>)
      requires WellFormed(View()) && now > 0
      requires Indexes(wheel.buckets, alarms) && key in alarms && alarms[key] == View()
      modifies this, wheel`buckets
      ensures View() == Raised(old(View()), now, stamp)
      ensures Indexes(wheel.buckets, alarms[key := View()])
    {
      Reindexed(wheel.buckets, alarms, key, Raised(View(), now, stamp));
      if state == SoakIdle {
        state := Active;
        wheel.Remove(idleTimeout.value, key);
      } else if state == Idle {
        SetIdle(wheel, now, stamp);
      } else {
        assert alarms[key := View()] == alarms;
      }
    }

    /** set_alarms on an idle alarm. */
    method SetIdle(wheel: TimerWheel, now: int, stamp: int)
      requires state == Idle && RingOk(View())
      requires deleteTimeout.Some? ==> deleteTimeout.value > 0 && deleteTimeout.value in wheel.buckets
      modifies this, wheel`buckets
      ensures View() == Raised(old(View()), now, stamp)
      ensures wheel.buckets == Replaced(old(wheel.buckets), old(View()), View(), key)
    {
      if deleteTimeout.Some? && deleteTimeout.value != 0 && deleteTimeout.value in wheel.buckets {
        wheel.Remove(deleteTimeout.value, key);
      }
      LogTimestamp(stamp);
      var exceeded := IsFrequencyExceeded();
      if cfg.activeTimer == 0 || exceeded {
        state := Active;
      } else {
        state := SoakActive;
        activeTimeout := Some(now + cfg.activeTimer);
        wheel.Add(activeTimeout.value, key);
      }
    }

    method ClearAlarms(wheel: TimerWheel, now: int, ghost alarms: map<Key, Machine>) returns (deleteAlarm: bool)
      requires Settled(View()) && now > 0
      requires Indexes(wheel.buckets, alarms) && key in alarms && alarms[key] == View()
      modifies this, wheel`buckets
      ensures View() == Lowered(old(View()), now)
      ensures deleteAlarm == LoweredAway(old(View()))
      ensures Indexes(wheel.buckets, if deleteAlarm then alarms - {key} else alarms[key := View()])
    {
      Reindexed(wheel.buckets, alarms, key, Lowered(View(), now));
      deleteAlarm := false;
      if state == SoakActive {
        state := Idle;
        wheel.Remove(activeTimeout.value, key);
        if cfg.freqSeconds != 0 {
          deleteTimeout := Some(now + cfg.freqSeconds);
          wheel.Add(deleteTimeout.value, key);
        } else {
          deleteAlarm := true;
        }
      } else if state == Active {
        if cfg.idleTimer == 0 {
          state := Idle;
          if cfg.freqSeconds != 0 {
            deleteTimeout := Some(now + cfg.freqSeconds);
            wheel.Add(deleteTimeout.value, key);
          } else {
            deleteAlarm := true;
          }
        } else {
          state := SoakIdle;
          idleTimeout := Some(now + cfg.idleTimer);
          wheel.Add(idleTimeout.value, key);
        }
      } else {
        assert alarms[key := View()] == alarms;
      }
    }

    /** run_uve_soaking_timer at the second in whose bucket the alarm was found. */
    method RunSoakingTimer(now: int) returns (deleteAlarm: bool, updateAlarm: bool, timeout: Option<int>)
      requires WellFormed(View()) && Due(View()) == Some(now)
      modifies this
      ensures View() == CaughtUp(old(View()), now, now)
      ensures deleteAlarm == Doomed(old(View()), now, now)
      ensures updateAlarm == Updated(old(View()), now, now)
      ensures timeout == NextTimeout(old(View()))
    {
      deleteAlarm, updateAlarm, timeout := false, false, None;
      if state == SoakActive {
        if now >= activeTimeout.value {
          state := Active;
          timeout, updateAlarm := Some(-1), true;
        }
      } else if state == SoakIdle {
        var expired := 0;
        if idleTimeout.value != 0 {
          expired := now - idleTimeout.value;
        }
        if expired >= 0 {
          state := Idle;
          if cfg.freqSeconds != 0 {
            deleteTimeout := Some(now + cfg.freqSeconds);
            timeout, updateAlarm := deleteTimeout, true;
          } else {
            deleteAlarm := true;
          }
        }
      } else if state == Idle {
        var expired := 0;
        if deleteTimeout.value > 0 {
          expired := now - deleteTimeout.value;
        }
        deleteAlarm := expired >= 0;
      }
    }

    method DeleteTimers(wheel: TimerWheel, ghost alarms: map<Key, Machine>)
      requires Settled(View())
      requires Indexes(wheel.buckets, alarms) && key in alarms && alarms[key] == View()
      modifies wheel`buckets
      ensures Indexes(wheel.buckets, alarms - {key})
    {
      Reindexed(wheel.buckets, alarms, key, View());
      match state
      case Idle =>
        if deleteTimeout.Some? && deleteTimeout.value > 0 {
          wheel.Remove(deleteTimeout.value, key);
        }
      case SoakActive =>
        if activeTimeout.Some? && activeTimeout.value > 0 {
          wheel.Remove(activeTimeout.value, key);
        }
      case SoakIdle =>
        if idleTimeout.Some? && idleTimeout.value > 0 {
          wheel.Remove(idleTimeout.value, key);
        }
      case Active =>
    }
  }

  /** What a machine that fires reports: -1 for no further timer, None when it is to be deleted. */
  function NextTimeout(m: Machine): Option<int> {
    match m.state
    case SoakActive => Some(-1)
    case SoakIdle =>
      if m.cfg.freqSeconds != 0 && m.idleTimeout.Some? then Some(m.idleTimeout.value + m.cfg.freqSeconds) else None
    case _ => None
  }

  // ----- Catching up second by second

  /** Running the timers of the seconds lo..t is running those of lo..t-1 and then those of t. */
  lemma CatchUpSplits(m: Machine, lo: int, t: int)
    requires Settled(m) && lo <= t
    ensures var before := CaughtUp(m, lo, t - 1);
            if Doomed(m, lo, t - 1) then
              && CaughtUp(m, lo, t) == before
              && Doomed(m, lo, t)
              && Updated(m, lo, t) == Updated(m, lo, t - 1)
            else
              && Settled(before)
              && CaughtUp(m, lo, t) == CaughtUp(before, t, t)
              && Doomed(m, lo, t) == Doomed(before, t, t)
              && Updated(m, lo, t) == (Updated(m, lo, t - 1) || Updated(before, t, t))
              && !(Updated(m, lo, t - 1) && Updated(before, t, t))
  {
  }

  /** A machine that fires moves on the wheel from its bucket to that of its next timeout, if any. */
  lemma FiredMoves(b: Wheel, alarms: map<Key, Machine>, k: Key, t: int)
    requires Indexes(b, alarms) && k in alarms && Settled(alarms[k]) && Due(alarms[k]) == Some(t)
    ensures var timeout := NextTimeout(alarms[k]);
            && (timeout.Some? || Doomed(alarms[k], t, t))
            && t > 0 && t in b && k in b[t]
            && (timeout.Some? && timeout.value in Without(b, t, k) ==> k !in Without(b, t, k)[timeout.value])
            && Indexes(Moved(b, k, t, timeout), Fire(alarms, k, t))
  {
    Reindexed(b, alarms, k, CaughtUp(alarms[k], t, t));
    FiredTimeout(alarms[k], t);
  }

  /** What a machine that fires reports is where it is due next. */
  lemma FiredTimeout(m: Machine, t: int)
    requires Settled(m) && Due(m) == Some(t)
    ensures t > 0 && (Doomed(m, t, t) ==> NextTimeout(m).None? || NextTimeout(m).value < 0)
    ensures !Doomed(m, t, t) ==>
              var due := Due(CaughtUp(m, t, t));
              NextTimeout(m).Some? && (if due.Some? then NextTimeout(m) == due && due.value >= 0 else NextTimeout(m).value < 0)
  {
  }

  /** The table of live alarms after `k` alone fired at `t`. */
  ghost function Fire(alarms: map<Key, Machine>, k: Key, t: int): map<Key, Machine>
    requires k in alarms
  {
    if Doomed(alarms[k], t, t) then alarms - {k} else alarms[k := CaughtUp(alarms[k], t, t)]
  }

  /** The live alarms after those of `done` fired at `t`. */
  ghost function FireAll(alarms: map<Key, Machine>, done: set<Key>, t: int): map<Key, Machine> {
    map k | k in alarms && !(k in done && Doomed(alarms[k], t, t)) ::
      if k in done then CaughtUp(alarms[k], t, t) else alarms[k]
  }

  /** `s` lists the elements of `xs`, each once. */
  ghost predicate Lists<T(!new)>(s: seq<T>, xs: set<T>) {
    && (forall x :: x in s <==> x in xs)
    && (forall i, j :: 0 <= i < j < |s| ==> s[i] != s[j])
  }

  lemma ListsMore<T(!new)>(s: seq<T>, xs: set<T>, x: T)
    requires Lists(s, xs) && x !in xs
    ensures Lists(s + [x], xs + {x})
  {
  }

  ghost function DoomedIn(live: map<Key, Machine>, keys: set<Key>, lo: int, hi: int): set<Key> {
    set k | k in keys && k in live && Doomed(live[k], lo, hi)
  }

  ghost function UpdatedIn(live: map<Key, Machine>, keys: set<Key>, lo: int, hi: int): set<Key> {
    set k | k in keys && k in live && Updated(live[k], lo, hi)
  }

  /** What the first half of a bucket hands to the second half about each alarm that fired. */
  datatype Firing = Firing(key: Key, doomed: bool, timeout: Option<int>)

  ghost predicate FiringsOf(fs: seq<Firing>, order: seq<Key>, live: map<Key, Machine>, t: int) {
    && |fs| == |order|
    && forall i :: 0 <= i < |fs| ==>
                     && order[i] in live
                     && fs[i] == Firing(order[i], Doomed(live[order[i]], t, t), NextTimeout(live[order[i]]))
  }

  ghost predicate FiredLists(deletes: seq<Key>, updates: seq<Key>, firings: seq<Firing>, order: seq<Key>,
                             live: map<Key, Machine>, done: set<Key>, t: int) {
    && Lists(deletes, DoomedIn(live, done, t, t))
    && Lists(updates, UpdatedIn(live, done, t, t))
    && Lists(order, done) && FiringsOf(firings, order, live, t)
  }

  lemma ListsFired(deletes: seq<Key>, updates: seq<Key>, firings: seq<Firing>, order: seq<Key>,
                   live: map<Key, Machine>, done: set<Key>, k: Key, t: int)
    requires FiredLists(deletes, updates, firings, order, live, done, t) && k in live && k !in done
    ensures FiredLists(if Doomed(live[k], t, t) then deletes + [k] else deletes,
                       if Updated(live[k], t, t) then updates + [k] else updates,
                       firings + [Firing(k, Doomed(live[k], t, t), NextTimeout(live[k]))], order + [k],
                       live, done + {k}, t)
  {
    ListsMore(order, done, k);
    assert DoomedIn(live, done + {k}, t, t) ==
           DoomedIn(live, done, t, t) + (if Doomed(live[k], t, t) then {k} else {});
    assert UpdatedIn(live, done + {k}, t, t) ==
           UpdatedIn(live, done, t, t) + (if Updated(live[k], t, t) then {k} else {});
    ListsMore(deletes, DoomedIn(live, done, t, t), k);
    ListsMore(updates, UpdatedIn(live, done, t, t), k);
  }

  type UveKey = (string, string)

  function UveOf(k: Key): UveKey {
    (k.tab, k.uv)
  }

  type Tab = map<Key, AlarmStateMachine>

  ghost function Objects(tab: Tab): set<AlarmStateMachine> {
    set k | k in tab :: tab[k]
  }

  ghost predicate PartOf(tab: Tab, all: Tab) {
    forall k :: k in tab ==> k in all && tab[k] == all[k]
  }

  /** The machines of `tab`, each under its own key, read as values. */
  ghost predicate Shows(tab: Tab, alarms: map<Key, Machine>)
    reads Objects(tab)
  {
    && tab.Keys == alarms.Keys
    && forall k :: k in tab ==> tab[k].key == k && tab[k].View() == alarms[k]
  }

  /** The machines of `live` are among those of `shown`. */
  ghost predicate Reveals(shown: map<Key, Machine>, live: map<Key, Machine>) {
    forall k :: k in live ==> k in shown && shown[k] == live[k]
  }

  /** The machines after those of `done` fired at `t`, also the ones to be deleted. */
  ghost function Fired(shown: map<Key, Machine>, done: set<Key>, t: int): map<Key, Machine> {
    map k | k in shown :: if k in done then CaughtUp(shown[k], t, t) else shown[k]
  }

  lemma FiredNone(shown: map<Key, Machine>, t: int)
    ensures Fired(shown, {}, t) == shown
  {
  }

  lemma FiredMore(shown: map<Key, Machine>, done: set<Key>, k: Key, t: int)
    requires k in shown && k !in done
    ensures k in Fired(shown, done, t) && Fired(shown, done, t)[k] == shown[k]
    ensures Fired(shown, done, t)[k := CaughtUp(shown[k], t, t)] == Fired(shown, done + {k}, t)
  {
  }

  /** All machines caught up, also the ones to be deleted. */
  ghost function AllCaughtUp(alarms: map<Key, Machine>, lo: int, hi: int): map<Key, Machine> {
    map k | k in alarms :: CaughtUp(alarms[k], lo, hi)
  }

  /** From `alarms`, the timers of the seconds lo..hi have been run. */
  ghost predicate CaughtUpTo(tab: Tab, b: Wheel, alarms: map<Key, Machine>, lo: int, hi: int)
    reads Objects(tab)
  {
    Shows(tab, AllCaughtUp(alarms, lo, hi)) && AllSettled(alarms) && Indexes(b, Survivors(alarms, lo, hi))
  }

  /** The two lists that a catch-up over lo..hi returns: the doomed and the updated, each once. */
  ghost predicate Reports(deletes: seq<Key>, updates: seq<Key>, alarms: map<Key, Machine>, lo: int, hi: int) {
    && Lists(deletes, DoomedIn(alarms, alarms.Keys, lo, hi))
    && Lists(updates, UpdatedIn(alarms, alarms.Keys, lo, hi))
  }

  lemma ReportsGrow(deletes0: seq<Key>, updates0: seq<Key>, deletes: seq<Key>, updates: seq<Key>,
                    alarms: map<Key, Machine>, live: map<Key, Machine>, lo: int, done: int, t: int)
    requires AllSettled(alarms) && lo <= t && t == done + 1 && live == Survivors(alarms, lo, done)
    requires Reports(deletes0, updates0, alarms, lo, done)
    requires Reports(deletes, updates, live, t, t)
    ensures Reports(deletes0 + deletes, updates0 + updates, alarms, lo, t)
  {
    DoomedSplits(alarms, live, lo, done, t);
    UpdatedSplits(alarms, live, lo, done, t);
    ListsJoin(deletes0, DoomedIn(alarms, alarms.Keys, lo, done), deletes, DoomedIn(live, live.Keys, t, t));
    ListsJoin(updates0, UpdatedIn(alarms, alarms.Keys, lo, done), updates, UpdatedIn(live, live.Keys, t, t));
  }

  lemma NothingToCatchUp(alarms: map<Key, Machine>, lo: int, hi: int)
    requires hi < lo
    ensures Survivors(alarms, lo, hi) == alarms == AllCaughtUp(alarms, lo, hi)
    ensures Reports([], [], alarms, lo, hi)
  {
  }

  lemma NothingDue(b: Wheel, live: map<Key, Machine>, t: int)
    requires Indexes(b, live) && t !in b
    ensures Survivors(live, t, t) == live
    ensures forall k :: k in live ==> Due(live[k]) != Some(t)
    ensures Reports([], [], live, t, t)
  {
  }

  /** `CatchUpSplits` for an alarm of the table. */
  lemma SplitsAt(alarms: map<Key, Machine>, live: map<Key, Machine>, lo: int, done: int, t: int, k: Key)
    requires lo <= t && t == done + 1 && live == Survivors(alarms, lo, done) && k in alarms && Settled(alarms[k])
    ensures k in live <==> !Doomed(alarms[k], lo, done)
    ensures k in live ==>
              && live[k] == CaughtUp(alarms[k], lo, done) && Settled(live[k])
              && CaughtUp(alarms[k], lo, t) == CaughtUp(live[k], t, t)
              && Doomed(alarms[k], lo, t) == Doomed(live[k], t, t)
              && Updated(alarms[k], lo, t) == (Updated(alarms[k], lo, done) || Updated(live[k], t, t))
              && !(Updated(alarms[k], lo, done) && Updated(live[k], t, t))
    ensures k !in live ==>
              && CaughtUp(alarms[k], lo, t) == CaughtUp(alarms[k], lo, done)
              && Doomed(alarms[k], lo, t) && Updated(alarms[k], lo, t) == Updated(alarms[k], lo, done)
  {
    CatchUpSplits(alarms[k], lo, t);
  }

  lemma CatchUpSplitsAll(alarms: map<Key, Machine>, live: map<Key, Machine>, lo: int, done: int, t: int)
    requires AllSettled(alarms) && lo <= t && t == done + 1 && live == Survivors(alarms, lo, done)
    ensures AllSettled(live) && Reveals(AllCaughtUp(alarms, lo, done), live)
    ensures Survivors(live, t, t) == Survivors(alarms, lo, t)
  {
    SurvivorsSettled(alarms, lo, done);
    var a, b := Survivors(live, t, t), Survivors(alarms, lo, t);
    forall k
      ensures k in a <==> k in b
      ensures k in b ==> a[k] == b[k]
    {
      if k in alarms {
        SplitsAt(alarms, live, lo, done, t, k);
      }
    }
  }

  lemma SurvivorsSettled(alarms: map<Key, Machine>, lo: int, hi: int)
    requires AllSettled(alarms)
    ensures AllSettled(Survivors(alarms, lo, hi))
  {
    forall k | k in alarms && !Doomed(alarms[k], lo, hi)
      ensures Settled(CaughtUp(alarms[k], lo, hi))
    {
      CatchUpSettles(alarms[k], lo, hi);
    }
  }

  /** Firing the bucket of `t` catches all machines up with `t`. */
  lemma ShownSplits(alarms: map<Key, Machine>, live: map<Key, Machine>, bucket: set<Key>, lo: int, done: int, t: int)
    requires AllSettled(alarms) && lo <= t && t == done + 1 && live == Survivors(alarms, lo, done)
    requires forall k :: k in bucket <==> k in live && Due(live[k]) == Some(t)
    ensures Fired(AllCaughtUp(alarms, lo, done), bucket, t) == AllCaughtUp(alarms, lo, t)
  {
    forall k | k in alarms
      ensures Fired(AllCaughtUp(alarms, lo, done), bucket, t)[k] == CaughtUp(alarms[k], lo, t)
    {
      SplitsAt(alarms, live, lo, done, t, k);
    }
  }

  lemma DoomedSplits(alarms: map<Key, Machine>, live: map<Key, Machine>, lo: int, done: int, t: int)
    requires AllSettled(alarms) && lo <= t && t == done + 1 && live == Survivors(alarms, lo, done)
    ensures var before, now := DoomedIn(alarms, alarms.Keys, lo, done), DoomedIn(live, live.Keys, t, t);
            before !! now && DoomedIn(alarms, alarms.Keys, lo, t) == before + now
  {
    forall k | k in alarms
      ensures Doomed(alarms[k], lo, t) <==> Doomed(alarms[k], lo, done) || (k in live && Doomed(live[k], t, t))
      ensures k in live ==> !Doomed(alarms[k], lo, done)
    {
      SplitsAt(alarms, live, lo, done, t, k);
    }
  }

  lemma UpdatedSplits(alarms: map<Key, Machine>, live: map<Key, Machine>, lo: int, done: int, t: int)
    requires AllSettled(alarms) && lo <= t && t == done + 1 && live == Survivors(alarms, lo, done)
    ensures var before, now := UpdatedIn(alarms, alarms.Keys, lo, done), UpdatedIn(live, live.Keys, t, t);
            before !! now && UpdatedIn(alarms, alarms.Keys, lo, t) == before + now
  {
    forall k | k in alarms
      ensures Updated(alarms[k], lo, t) <==> Updated(alarms[k], lo, done) || (k in live && Updated(live[k], t, t))
      ensures k in live ==> !(Updated(alarms[k], lo, done) && Updated(live[k], t, t))
    {
      SplitsAt(alarms, live, lo, done, t, k);
    }
  }

  lemma ListsJoin<T(!new)>(s: seq<T>, xs: set<T>, more: seq<T>, ys: set<T>)
    requires Lists(s, xs) && xs !! ys && Lists(more, ys)
    ensures Lists(s + more, xs + ys)
  {
    forall i, j | 0 <= i < j < |s + more|
      ensures (s + more)[i] != (s + more)[j]
    {
      if i < |s| <= j {
        assert s[i] in xs && more[j - |s|] in ys;
      }
    }
  }

  lemma FiredOneMore(live: map<Key, Machine>, done: set<Key>, k: Key, t: int)
    requires k in live && k !in done
    ensures k in FireAll(live, done, t) && FireAll(live, done, t)[k] == live[k]
    ensures Fire(FireAll(live, done, t), k, t) == FireAll(live, done + {k}, t)
  {
  }

  lemma AllFired(live: map<Key, Machine>, bucket: set<Key>, done: set<Key>, t: int)
    requires AllSettled(live) && forall k :: k in live ==> (Due(live[k]) == Some(t) <==> k in bucket)
    requires forall k :: k in done <==> k in bucket
    ensures FireAll(live, done, t) == Survivors(live, t, t)
  {
    forall k | k in live && k !in done
      ensures !Doomed(live[k], t, t) && CaughtUp(live[k], t, t) == live[k]
    {
    }
  }

  // ----- The controller's table

  /** The inner dictionaries that tab_alarms has: one for each UVE with an alarm. */
  ghost function UvesOf(alarms: set<Key>): set<UveKey> {
    set k | k in alarms :: UveOf(k)
  }

  lemma ShowsMore(tab: Tab, alarms: map<Key, Machine>, k: Key, created: AlarmStateMachine, m: Machine)
    requires Shows(tab, alarms) && created.key == k && created.View() == m
    ensures Shows(tab[k := created], alarms[k := m]) && UvesOf(alarms[k := m].Keys) == UvesOf(alarms.Keys) + {UveOf(k)}
  {
    assert alarms[k := m].Keys == alarms.Keys + {k};
    UvesMore(alarms.Keys, k);
  }

  lemma UvesMore(keys: set<Key>, k: Key)
    ensures UvesOf(keys + {k}) == UvesOf(keys) + {UveOf(k)}
  {
  }

  /** Without the alarms of a UVE. */
  lemma WithoutUve(alarms: map<Key, Machine>, u: UveKey, stopped: set<Key>)
    requires forall k :: k in stopped <==> k in alarms && UveOf(k) == u
    ensures alarms - stopped == map k | k in alarms && (k.tab != u.0 || k.uv != u.1) :: alarms[k]
    ensures UvesOf((alarms - stopped).Keys) == UvesOf(alarms.Keys) - {u}
  {
  }

  /**
    Running the timers of lo..now brings the controller down: it goes on to publish the alarms of an
    updated UVE that lost its last alarm in the same catch-up.
   */
  ghost predicate Orphaned(alarms: map<Key, Machine>, lo: int, now: int) {
    exists k :: k in alarms && Updated(alarms[k], lo, now) &&
                forall k' :: k' in alarms && UveOf(k') == UveOf(k) ==> Doomed(alarms[k'], lo, now)
  }

  /** tab_alarms, flattened to the full key, with the set of UVE keys that have an inner dictionary. */
  class AlarmTable {
    var tab: Tab
    var uves: set<UveKey>
    const wheel: TimerWheel
    ghost var alarms: map<Key, Machine>  // the machines of `tab`, as values

    ghost function View(): World
      reads this, wheel
    {
      World(alarms, wheel.lastRun)
    }

    ghost predicate Linked()
      reads this, wheel, Objects(tab)
    {
      && Shows(tab, alarms)
      && uves == UvesOf(alarms.Keys)
      && Indexes(wheel.buckets, alarms)
    }

    ghost predicate Valid()
      reads this, wheel, Objects(tab)
    {
      Linked() && AllSettled(alarms)
    }

    constructor ()
      ensures Valid() && fresh(wheel) && View() == START
    {
      tab, uves, alarms := map[], {}, map[];
      wheel := new TimerWheel();
    }

    /** A rule of the alarm fires in examine_uve_for_alarms. */
    method RaiseAlarm(k: Key, cfg: Config, now: int, stamp: int)
      requires Valid() && now > 0
      modifies this, wheel`buckets, Objects(tab)
      ensures Valid()
      ensures forall k' :: k' in tab ==> if k' in old(tab) then tab[k'] == old(tab)[k'] else fresh(tab[k'])
      ensures View() == Step(old(View()), Raise(k, cfg, now, stamp))
    {
      StepSettles(View(), Raise(k, cfg, now, stamp));
      RaiseOne(k, cfg, now, stamp);
    }

    method RaiseOne(k: Key, cfg: Config, now: int, stamp: int)
      requires Linked() && (k in alarms ==> WellFormed(alarms[k])) && now > 0
      modifies this`tab, this`uves, this`alarms, wheel`buckets, Objects(tab)
      ensures Linked()
      ensures forall k' :: k' in tab ==> if k' in old(tab) then tab[k'] == old(tab)[k'] else fresh(tab[k'])
      ensures alarms == old(alarms)[k := Raised(if k in old(alarms) then old(alarms)[k] else Fresh(cfg), now, stamp)]
    {
      if k in tab {
        SetOne(k, now, stamp);
      } else {
        SetNew(k, cfg, now, stamp);
      }
    }

    method SetNew(k: Key, cfg: Config, now: int, stamp: int)
      requires Linked() && k !in tab && now > 0
      modifies this`tab, this`uves, this`alarms, wheel`buckets
      ensures k in tab && tab == old(tab)[k := tab[k]] && fresh(tab[k])
      ensures Linked() && alarms == old(alarms)[k := Raised(Fresh(cfg), now, stamp)]
    {
      IndexedWith(wheel.buckets, alarms, k, Fresh(cfg));
      ghost var before := alarms;
      var created := new AlarmStateMachine(k, cfg);
      created.SetAlarms(wheel, now, stamp, alarms[k := Fresh(cfg)]);
      assert before[k := Fresh(cfg)][k := created.View()] == before[k := created.View()];
      Link(k, created, created.View());
    }

    method Link(k: Key, created: AlarmStateMachine, ghost m: Machine)
      requires created.key == k && created.View() == m && Shows(tab, alarms) && uves == UvesOf(alarms.Keys)
      requires Indexes(wheel.buckets, alarms[k := m])
      modifies this`tab, this`uves, this`alarms
      ensures Linked() && tab == old(tab)[k := created] && alarms == old(alarms)[k := m]
    {
      ShowsMore(tab, alarms, k, created, m);
      tab, uves, alarms := tab[k := created], uves + {UveOf(k)}, alarms[k := m];
    }

    method SetOne(k: Key, now: int, stamp: int)
      requires Linked() && k in tab && WellFormed(alarms[k]) && now > 0
      modifies wheel`buckets, Objects(tab), this`alarms
      ensures Linked() && alarms == old(alarms)[k := Raised(old(alarms)[k], now, stamp)]
    {
      tab[k].SetAlarms(wheel, now, stamp, alarms);
      alarms := alarms[k := Raised(alarms[k], now, stamp)];
      assert alarms.Keys == old(alarms.Keys);
    }

    /** The rule no longer fires, or the UVE is gone. */
    method LowerAlarm(k: Key, now: int)
      requires Valid() && now > 0
      modifies this, wheel`buckets, Objects(tab)
      ensures Valid()
      ensures PartOf(tab, old(tab))
      ensures View() == Step(old(View()), Lower(k, now))
    {
      StepSettles(View(), Lower(k, now));
      if k in tab {
        LowerOne(k, now);
      }
    }

    method LowerOne(k: Key, now: int)
      requires Linked() && k in alarms && Settled(alarms[k]) && now > 0
      modifies this`tab, this`uves, this`alarms, wheel`buckets, Objects(tab)
      ensures Linked() && PartOf(tab, old(tab))
      ensures alarms == if LoweredAway(old(alarms)[k]) then old(alarms) - {k}
                        else old(alarms)[k := Lowered(old(alarms)[k], now)]
    {
      var deleteAlarm := ClearOne(k, now);
      if deleteAlarm {
        Drop(k, Lowered(alarms[k], now));
      } else {
        Keep(k, Lowered(alarms[k], now));
      }
    }

    ghost method Keep(k: Key, m: Machine)
      requires Shows(tab, alarms[k := m]) && uves == UvesOf(alarms[k := m].Keys) && Indexes(wheel.buckets, alarms[k := m])
      modifies this`alarms
      ensures Linked() && alarms == old(alarms)[k := m]
    {
      alarms := alarms[k := m];
    }

    method ClearOne(k: Key, now: int) returns (deleteAlarm: bool)
      requires Linked() && k in alarms && Settled(alarms[k]) && now > 0
      modifies wheel`buckets, Objects(tab)
      ensures deleteAlarm == LoweredAway(alarms[k])
      ensures Shows(tab, alarms[k := Lowered(alarms[k], now)])
      ensures uves == UvesOf(alarms[k := Lowered(alarms[k], now)].Keys)
      ensures Indexes(wheel.buckets, if deleteAlarm then alarms - {k} else alarms[k := Lowered(alarms[k], now)])
    {
      deleteAlarm := tab[k].ClearAlarms(wheel, now, alarms);
      assert alarms[k := Lowered(alarms[k], now)].Keys == alarms.Keys;
    }

    method Drop(k: Key, ghost m: Machine)
      requires k in alarms && Shows(tab, alarms[k := m]) && uves == UvesOf(alarms[k := m].Keys)
      requires Indexes(wheel.buckets, alarms - {k})
      modifies this`tab, this`uves, this`alarms
      ensures Linked() && tab == old(tab) - {k} && alarms == old(alarms) - {k}
    {
      Delete(k);
      alarms := alarms - {k};
    }

    /** stop_uve_partition for one UVE: all its timers go, then all its alarms. */
    method StopUve(u: UveKey, now: int)
      requires Valid()
      modifies this, wheel`buckets
      ensures Valid()
      ensures PartOf(tab, old(tab))
      ensures View() == Step(old(View()), Stop(u.0, u.1, now))
    {
      var stopped := set k | k in tab && UveOf(k) == u;
      wheel.StopTimers(tab, stopped, alarms);
      Forget(u, stopped);
    }

    method Forget(u: UveKey, stopped: set<Key>)
      requires Shows(tab, alarms) && uves == UvesOf(alarms.Keys)
      requires stopped == (set k | k in tab && UveOf(k) == u) && Indexes(wheel.buckets, alarms - stopped)
      modifies this
      ensures Linked() && tab == old(tab) - stopped
      ensures alarms == map k | k in old(alarms) && (k.tab != u.0 || k.uv != u.1) :: old(alarms)[k]
    {
      WithoutUve(alarms, u, stopped);
      tab, uves := tab - stopped, uves - {u};
      alarms := alarms - stopped;
    }

    /** send_alarm_update, as far as the table goes; it fails on a UVE that has no inner dictionary. */
    method SendUpdate(u: UveKey) returns (ok: bool)
      modifies this`uves
      ensures ok == (u in old(uves))
      ensures uves == if exists k :: k in tab && UveOf(k) == u then old(uves) else old(uves) - {u}
    {
      if u !in uves {
        return false;
      }
      if !exists k :: k in tab && UveOf(k) == u {
        uves := uves - {u};
      }
      return true;
    }

    /** Drops a machine and publishes its UVE, which removes the inner dictionary with its last entry. */
    method Delete(k: Key)
      requires k in tab && uves == UvesOf(tab.Keys)
      modifies this`tab, this`uves
      ensures tab == old(tab) - {k} && uves == UvesOf(tab.Keys)
    {
      tab := tab - {k};
      var ok := SendUpdate(UveOf(k));
      assert ok;
    }

    /** run_alarm_timers; `crashed` is the KeyError that exits the process. */
    method RunAlarmTimers(now: int) returns (crashed: bool)
      requires Valid() && From(wheel.lastRun, now) <= now + 1
      modifies this, wheel, Objects(tab)
      ensures Valid()
      ensures PartOf(tab, old(tab))
      ensures View() == Step(old(View()), Tick(now))
      ensures crashed <==> Orphaned(old(alarms), old(From(wheel.lastRun, now)), now)
    {
      crashed := CatchUpAll(now, alarms, From(wheel.lastRun, now));
    }

    method CatchUpAll(now: int, ghost before: map<Key, Machine>, ghost lo: int) returns (crashed: bool)
      requires Valid() && before == alarms && lo == From(wheel.lastRun, now) && lo <= now + 1
      modifies this, wheel, Objects(tab)
      ensures Valid() && PartOf(tab, old(tab))
      ensures alarms == Survivors(before, lo, now) && wheel.lastRun == Some(now + 1)
      ensures crashed <==> Orphaned(before, lo, now)
    {
      var deletes, updates, error := wheel.RunTimers(now, tab, before);
      assert tab.Keys == before.Keys;
      crashed := DropAndPublish(deletes, updates, before, lo, now);
    }

    method DropAndPublish(deletes: seq<Key>, updates: seq<Key>, ghost before: map<Key, Machine>, ghost lo: int, ghost now: int)
      returns (crashed: bool)
      requires CaughtUpTo(tab, wheel.buckets, before, lo, now) && uves == UvesOf(tab.Keys)
      requires Reports(deletes, updates, before, lo, now)
      modifies this`tab, this`uves, this`alarms
      ensures Valid() && PartOf(tab, old(tab)) && alarms == Survivors(before, lo, now)
      ensures crashed <==> Orphaned(before, lo, now)
    {
      DropDoomed(deletes, before, lo, now);
      crashed := PublishUpdated(updates, before, lo, now);
    }

    method PublishUpdated(updates: seq<Key>, ghost before: map<Key, Machine>, ghost lo: int, ghost now: int)
      returns (crashed: bool)
      requires Valid() && Lists(updates, UpdatedIn(before, before.Keys, lo, now))
      requires tab.Keys == before.Keys - DoomedIn(before, before.Keys, lo, now)
      modifies this`uves
      ensures Valid() && (crashed <==> Orphaned(before, lo, now))
    {
      OrphanedIff(before, lo, now, tab.Keys);
      crashed := PublishAll(updates, UpdatedIn(before, before.Keys, lo, now));
    }

    method DropDoomed(deletes: seq<Key>, ghost before: map<Key, Machine>, ghost lo: int, ghost now: int)
      requires CaughtUpTo(tab, wheel.buckets, before, lo, now) && uves == UvesOf(tab.Keys)
      requires Lists(deletes, DoomedIn(before, before.Keys, lo, now))
      modifies this`tab, this`uves, this`alarms
      ensures alarms == Survivors(before, lo, now) && Valid() && PartOf(tab, old(tab))
      ensures tab.Keys == before.Keys - DoomedIn(before, before.Keys, lo, now)
    {
      SurvivorsAreLeft(tab, wheel.buckets, before, lo, now);
      KeepOthers(deletes, DoomedIn(before, before.Keys, lo, now), Survivors(before, lo, now));
    }

    method KeepOthers(deletes: seq<Key>, ghost doomed: set<Key>, ghost left: map<Key, Machine>)
      requires Lists(deletes, doomed) && doomed <= tab.Keys && uves == UvesOf(tab.Keys)
      requires Shows(tab - doomed, left) && AllSettled(left) && Indexes(wheel.buckets, left)
      modifies this`tab, this`uves, this`alarms
      ensures Valid() && alarms == left && tab == old(tab) - doomed
    {
      DeleteAll(deletes, doomed);
      alarms := left;
    }

    method DeleteAll(deletes: seq<Key>, ghost doomed: set<Key>)
      requires Lists(deletes, doomed) && doomed <= tab.Keys && uves == UvesOf(tab.Keys)
      modifies this`tab, this`uves
      ensures tab == old(tab) - doomed && uves == UvesOf(tab.Keys)
    {
      ghost var done: set<Key> := {};
      for i := 0 to |deletes|
        invariant forall k :: k in done <==> k in deletes[..i]
        invariant tab == old(tab) - done && uves == UvesOf(tab.Keys)
      {
        assert deletes[i] in doomed;
        Delete(deletes[i]);
        done := done + {deletes[i]};
      }
      assert deletes[..|deletes|] == deletes;
      assert done == doomed;
    }

    method PublishAll(updates: seq<Key>, ghost updated: set<Key>) returns (crashed: bool)
      requires Lists(updates, updated) && uves == UvesOf(tab.Keys)
      modifies this`uves
      ensures uves == old(uves)
      ensures crashed <==> exists k :: k in updated && UveOf(k) !in uves
    {
      for i := 0 to |updates|
        invariant forall j :: 0 <= j < i ==> UveOf(updates[j]) in uves
        invariant uves == old(uves)
      {
        var ok := SendUpdate(UveOf(updates[i]));
        if !ok {
          assert updates[i] in updated;
          return true;
        }
      }
      return false;
    }
  }

  lemma SurvivorsAreLeft(tab: Tab, b: Wheel, alarms: map<Key, Machine>, lo: int, now: int)
    requires CaughtUpTo(tab, b, alarms, lo, now)
    ensures Shows(tab - DoomedIn(alarms, alarms.Keys, lo, now), Survivors(alarms, lo, now))
    ensures AllSettled(Survivors(alarms, lo, now))
  {
    SurvivorsSettled(alarms, lo, now);
  }

  lemma OrphanedIff(alarms: map<Key, Machine>, lo: int, now: int, left: set<Key>)
    requires left == alarms.Keys - DoomedIn(alarms, alarms.Keys, lo, now)
    ensures Orphaned(alarms, lo, now) <==>
            exists k :: k in UpdatedIn(alarms, alarms.Keys, lo, now) && UveOf(k) !in UvesOf(left)
  {
    if Orphaned(alarms, lo, now) {
      var k :| k in alarms && Updated(alarms[k], lo, now) &&
               forall k' :: k' in alarms && UveOf(k') == UveOf(k) ==> Doomed(alarms[k'], lo, now);
      assert k in UpdatedIn(alarms, alarms.Keys, lo, now) && UveOf(k) !in UvesOf(left);
    }
    if k :| k in UpdatedIn(alarms, alarms.Keys, lo, now) && UveOf(k) !in UvesOf(left) {
      forall k' | k' in alarms && UveOf(k') == UveOf(k)
        ensures Doomed(alarms[k'], lo, now)
      {
        assert k' !in left;
      }
    }
  }

  /** A catch-up shorter than every delete timer never brings the controller down. */
  lemma ShortCatchUpIsSafe(alarms: map<Key, Machine>, lo: int, now: int)
    requires AllSettled(alarms)
    requires forall k :: k in alarms ==> alarms[k].cfg.freqSeconds == 0 || now - lo < alarms[k].cfg.freqSeconds
    ensures !Orphaned(alarms, lo, now)
  {
    forall k | k in alarms && Updated(alarms[k], lo, now)
      ensures !Doomed(alarms[k], lo, now)
    {
    }
  }

  /**
    A longer one does. An alarm that was raised and cleared soaks idle until second 5; when the timers
    ran at second 4 and next at second 6, it is updated and gone in the same catch-up.
   */
  lemma LongCatchUpOrphans()
    ensures var k, cfg := Key("t", "u", "n"), Config(0, 2, 0, 1, false);
            var tr := [Raise(k, cfg, 1, 0), Lower(k, 3), Tick(4)];
            ClockOk(tr) && Run(tr).lastRun == Some(5) && Orphaned(Run(tr).alarms, 5, 6)
  {
    var k, cfg := Key("t", "u", "n"), Config(0, 2, 0, 1, false);
    var e1, e2, e3 := Raise(k, cfg, 1, 0), Lower(k, 3), Tick(4);
    var m := Machine(cfg, SoakIdle, None, Some(5), None, [], 0);
    assert [] + [e1] == [e1] && [e1] + [e2] == [e1, e2] && [e1, e2] + [e3] == [e1, e2, e3];
    assert ClockOk([e1, e2, e3]);
    RunStep([e1, e2], e3);
    RunStep([e1], e2);
    RunStep([], e1);
    SoaksIdle(k, cfg, m);
    assert Updated(m, 5, 6) && Doomed(m, 5, 6);
    assert k in map[k := m];
  }

  lemma SoaksIdle(k: Key, cfg: Config, m: Machine)
    requires cfg == Config(0, 2, 0, 1, false) && m == Machine(cfg, SoakIdle, None, Some(5), None, [], 0)
    ensures Step(START, Raise(k, cfg, 1, 0)) == World(map[k := Fresh(cfg).(state := Active)], None)
    ensures Step(World(map[k := Fresh(cfg).(state := Active)], None), Lower(k, 3)) == World(map[k := m], None)
    ensures Step(World(map[k := m], None), Tick(4)) == World(map[k := m], Some(5))
  {
    assert LogStamp(Fresh(cfg), 0) == Fresh(cfg);
    assert Survivors(map[k := m], 4, 4) == map[k := m];
  }
}
