/**
  The queue of UVE notifications of contrail-opserver/alarmgen.py: notifications for the same UVE
  are merged while they wait, at most 200 UVEs are taken out at a time, and a batch that failed is
  put back.
 */
module NotifQueue {
  import opened Options
  import opened UveTable

  /** What one notification, or the queue, has about each UVE. */
  type Notifs = map<Uve, Types>

  const DRAIN_LIMIT: nat := 200

  /** Everything `a` asks for, `b` asks for too; None asks for every struct. */
  predicate Within(a: Types, b: Types) {
    b.None? || (a.Some? && a.value <= b.value)
  }

  function Join(a: Types, b: Types): (r: Types)
    ensures Within(a, r) && Within(b, r)
    ensures forall c: Types :: Within(a, c) && Within(b, c) ==> Within(r, c)
  {
    if a.None? || b.None? then None else Some(a.value + b.value)
  }

  function Merged(q: Notifs, n: Notifs): Notifs {
    map u | u in q.Keys + n.Keys ::
      if u !in n then q[u] else if u !in q then n[u] else Join(q[u], n[u])
  }

  /** A request that names structs, or is for all of them without naming any; no producer sends another. */
  predicate Specific(types: Types) {
    types.None? || types.value != {}
  }

  predicate AllSpecific(n: Notifs) {
    forall u :: u in n ==> Specific(n[u])
  }

  lemma MergedSpecific(q: Notifs, n: Notifs)
    requires AllSpecific(q) && AllSpecific(n)
    ensures AllSpecific(Merged(q, n))
  {
    var m := Merged(q, n);
    forall u | u in m
      ensures Specific(m[u])
    {
      if u in q && u in n && q[u].Some? && n[u].Some? {
        var t :| t in q[u].value;
        assert t in m[u].value;
      }
    }
  }

  // ----- The queue

  class UveQueue {
    var order: seq<Uve>   // the insertion order of the OrderedDict
    var pending: Notifs

    ghost predicate Valid()
      reads this
    {
      && (forall u :: u in order <==> u in pending)
      && (forall i, j :: 0 <= i < j < |order| ==> order[i] != order[j])
    }

    constructor ()
      ensures Valid() && pending == map[]
    {
      order, pending := [], map[];
    }

    /** handle_uve_notifq. */
    method Notify(uves: Notifs)
      requires Valid()
      modifies this
      ensures Valid() && pending == Merged(old(pending), uves)
    {
      var todo := uves.Keys;
      ghost var before, done: Notifs := pending, map[];
      assert Merged(before, done) == before;
      while todo != {}
        invariant Valid()
        invariant forall u :: u in uves <==> u in todo || u in done
        invariant forall u :: u in todo ==> u !in done
        invariant forall u :: u in done ==> u in uves && done[u] == uves[u]
        invariant pending == Merged(before, done)
      {
        var uv :| uv in todo;
        MergeOneMore(before, done, uv, uves[uv]);
        NotifyOne(uv, uves[uv]);
        todo, done := todo - {uv}, done[uv := uves[uv]];
      }
      assert done == uves;
    }

    method NotifyOne(uv: Uve, types: Types)
      requires Valid()
      modifies this
      ensures Valid() && pending == Merged(old(pending), map[uv := types])
    {
      if uv !in pending {
        order := order + [uv];
        pending := pending[uv := types];
      } else if types.None? {
        pending := pending[uv := None];
      } else if pending[uv].Some? {
        pending := pending[uv := Some(pending[uv].value + types.value)];
      }
      assert pending == Merged(old(pending), map[uv := types]);
    }

    /** popitem takes out the entry that was put in last. */
    method PopItem()
      requires Valid() && order != []
      modifies this
      ensures Valid() && order == old(order)[..|old(order)| - 1]
      ensures pending == old(pending) - {old(order)[|old(order)| - 1]}
    {
      var kp := order[|order| - 1];
      assert order == order[..|order| - 1] + [kp];
      order, pending := order[..|order| - 1], pending - {kp};
    }

    /** The loop of run_uve_processing that takes UVEs out, the newest first. */
    method Drain() returns (batch: Notifs)
      requires Valid()
      modifies this
      ensures Valid()
      ensures pending.Keys !! batch.Keys && pending + batch == old(pending)
      ensures |old(order)| <= DRAIN_LIMIT ==> pending == map[]
      ensures |old(order)| > DRAIN_LIMIT ==> |order| == |old(order)| - DRAIN_LIMIT
      ensures |order| <= |old(order)| && order == old(order)[..|order|]
    {
      batch := map[];
      var icount := 0;
      ghost var before := order;
      while |order| > 0 && icount < DRAIN_LIMIT
        invariant Valid() && icount <= DRAIN_LIMIT && |order| == |before| - icount && Heads(order, before)
        invariant pending.Keys !! batch.Keys && pending + batch == old(pending)
      {
        var kp := order[|order| - 1];
        TakeOne(pending, batch, kp);
        batch := batch[kp := pending[kp]];
        HeadsShrink(order, before);
        PopItem();
        icount := icount + 1;
      }
      if |order| == 0 {
        assert pending == map[];
      }
    }
  }

  ghost predicate Heads(order: seq<Uve>, before: seq<Uve>) {
    |order| <= |before| && order == before[..|order|]
  }

  lemma HeadsShrink(order: seq<Uve>, before: seq<Uve>)
    requires Heads(order, before) && order != []
    ensures Heads(order[..|order| - 1], before)
  {
  }

  lemma TakeOne(p: Notifs, b: Notifs, u: Uve)
    requires u in p && p.Keys !! b.Keys
    ensures (p - {u}).Keys !! b[u := p[u]].Keys
    ensures (p - {u}) + b[u := p[u]] == p + b
  {
  }

  lemma MergeOneMore(q: Notifs, done: Notifs, u: Uve, types: Types)
    requires u !in done
    ensures Merged(Merged(q, done), map[u := types]) == Merged(q, done[u := types])
  {
  }

  // ----- Runs: notifications, drains and outcomes in any order

  /** The queue, and the batch that is being processed, if any. */
  datatype System = System(queue: Notifs, working: Option<Notifs>)

  datatype Event = Notified(uves: Notifs) | Drained(batch: Notifs) | Finished(ok: bool)

  predicate Enabled(s: System, e: Event) {
    match e
    case Notified(_) => true
    case Drained(b) => s.working.None? && b.Keys <= s.queue.Keys && forall u :: u in b ==> b[u] == s.queue[u]
    case Finished(_) => s.working.Some?
  }

  function Step(s: System, e: Event): System
    requires Enabled(s, e)
  {
    match e
    case Notified(n) => s.(queue := Merged(s.queue, n))
    case Drained(b) => System(s.queue - b.Keys, Some(b))
    case Finished(ok) => System(if ok then s.queue else Merged(s.queue, s.working.value), None)
  }

  ghost predicate IsRun(tr: seq<Event>)
    decreases |tr|, 0
  {
    tr == [] || (IsRun(tr[..|tr| - 1]) && Enabled(After(tr[..|tr| - 1]), tr[|tr| - 1]))
  }

  ghost function After(tr: seq<Event>): System
    requires IsRun(tr)
    decreases |tr|, 1
  {
    if tr == [] then System(map[], None) else Step(After(tr[..|tr| - 1]), tr[|tr| - 1])
  }

  /** `types` of `u` was drained at `j` in an entry that asks for at least as much. */
  ghost predicate DrainedAt(tr: seq<Event>, j: nat, u: Uve, types: Types) {
    j < |tr| && tr[j].Drained? && u in tr[j].batch && Within(types, tr[j].batch[u])
  }

  /** The notification at `i` was part of a batch that was processed with success. */
  ghost predicate Covered(tr: seq<Event>, i: nat, u: Uve, types: Types) {
    exists j, k :: i < j < k < |tr| && DrainedAt(tr, j, u, types) && tr[k] == Finished(true) &&
                   forall l :: j < l < k ==> tr[l].Notified?
  }

  /** It is part of the batch that is being processed. */
  ghost predicate InWork(tr: seq<Event>, i: nat, u: Uve, types: Types) {
    exists j :: i < j < |tr| && DrainedAt(tr, j, u, types) && forall l :: j < l < |tr| ==> tr[l].Notified?
  }

  predicate Waiting(s: System, u: Uve, types: Types) {
    u in s.queue && Within(types, s.queue[u])
  }

  /** The batch in work is the one that was drained last. */
  lemma {:induction false} WorkIsLastDrain(tr: seq<Event>, j: nat)
    requires IsRun(tr) && j < |tr| && tr[j].Drained? && forall l :: j < l < |tr| ==> tr[l].Notified?
    ensures After(tr).working == Some(tr[j].batch)
    decreases |tr|
  {
    var n := |tr| - 1;
    if j < n {
      WorkIsLastDrain(tr[..n], j);
    }
  }

  ghost predicate Safe(tr: seq<Event>, i: nat, u: Uve, types: Types)
    requires IsRun(tr)
  {
    Waiting(After(tr), u, types) || InWork(tr, i, u, types) || Covered(tr, i, u, types)
  }

  lemma {:induction false} CoveredStays(tr: seq<Event>, e: Event, i: nat, u: Uve, types: Types)
    requires Covered(tr, i, u, types)
    ensures Covered(tr + [e], i, u, types)
  {
    var more := tr + [e];
    var j, k :| i < j < k < |tr| && DrainedAt(tr, j, u, types) && tr[k] == Finished(true) &&
                forall l :: j < l < k ==> tr[l].Notified?;
    assert DrainedAt(more, j, u, types) && more[k] == Finished(true);
    assert forall l :: j < l < k ==> more[l] == tr[l];
  }

  lemma {:induction false} WorkEnds(tr: seq<Event>, i: nat, u: Uve, types: Types, e: Event)
    requires IsRun(tr) && IsRun(tr + [e]) && InWork(tr, i, u, types) && After(tr + [e]) == Step(After(tr), e)
    ensures Safe(tr + [e], i, u, types)
  {
    var more, n := tr + [e], |tr|;
    var j :| i < j < |tr| && DrainedAt(tr, j, u, types) && forall l :: j < l < |tr| ==> tr[l].Notified?;
    WorkIsLastDrain(tr, j);
    assert DrainedAt(more, j, u, types);
    assert forall l :: j < l < n ==> more[l] == tr[l];
    match e
    case Notified(_) => assert InWork(more, i, u, types);
    case Drained(_) =>
    case Finished(ok) =>
      if ok {
        assert more[n] == Finished(true);
        assert Covered(more, i, u, types);
      } else {
        assert Waiting(After(more), u, types);
      }
  }

  lemma {:induction false} WaitEnds(tr: seq<Event>, i: nat, u: Uve, types: Types, e: Event)
    requires IsRun(tr) && IsRun(tr + [e]) && i < |tr| && Waiting(After(tr), u, types) && After(tr + [e]) == Step(After(tr), e)
    ensures Safe(tr + [e], i, u, types)
  {
    var more, n := tr + [e], |tr|;
    if e.Drained? && u in e.batch {
      assert more[n] == e;
      assert DrainedAt(more, n, u, types);
      assert InWork(more, i, u, types);
    } else {
      assert Waiting(After(more), u, types);
    }
  }

  /**
    Nothing is lost. Over every run, each notification is still waiting in the queue, or in the
    batch being processed, or was part of a batch that was processed with success.
   */
  lemma {:induction false} NothingLost(tr: seq<Event>, i: nat, u: Uve)
    requires IsRun(tr) && i < |tr| && tr[i].Notified? && u in tr[i].uves
    ensures Safe(tr, i, u, tr[i].uves[u])
    decreases |tr|
  {
    var n, types := |tr| - 1, tr[i].uves[u];
    var before, e := tr[..n], tr[n];
    assert tr == before + [e];
    if i == n {
      assert Waiting(After(tr), u, types);
    } else {
      NothingLost(before, i, u);
      if Covered(before, i, u, types) {
        CoveredStays(before, e, i, u, types);
      } else if InWork(before, i, u, types) {
        WorkEnds(before, i, u, types, e);
      } else {
        WaitEnds(before, i, u, types, e);
      }
    }
  }

  /**
    Since no request names an empty list of structs, none ever waits in the queue or is drained from
    it; so what is processed as a request for everything is one, and is never forgotten.
   */
  lemma {:induction false} OnlySpecificRequests(tr: seq<Event>)
    requires IsRun(tr) && forall i :: 0 <= i < |tr| && tr[i].Notified? ==> AllSpecific(tr[i].uves)
    ensures AllSpecific(After(tr).queue) && (After(tr).working.Some? ==> AllSpecific(After(tr).working.value))
    decreases |tr|
  {
    if tr != [] {
      var n := |tr| - 1;
      var before, e := After(tr[..n]), tr[n];
      OnlySpecificRequests(tr[..n]);
      match e
      case Notified(m) => MergedSpecific(before.queue, m);
      case Drained(_) =>
      case Finished(ok) =>
        if !ok {
          MergedSpecific(before.queue, before.working.value);
        }
    }
  }

  /** A request for everything: the queue or the batch in work has one, or one was processed with success since. */
  lemma FullNeverForgotten(tr: seq<Event>, i: nat, u: Uve)
    requires IsRun(tr) && forall j :: 0 <= j < |tr| && tr[j].Notified? ==> AllSpecific(tr[j].uves)
    requires i < |tr| && tr[i].Notified? && u in tr[i].uves && IsFull(tr[i].uves[u])
    ensures tr[i].uves[u] == None && Safe(tr, i, u, None)
    ensures forall u :: u in After(tr).queue && IsFull(After(tr).queue[u]) ==> After(tr).queue[u] == None
  {
    NothingLost(tr, i, u);
    OnlySpecificRequests(tr);
  }

  // ----- What exactly is waiting

  /** All that was asked about `u` since it was last drained, in order; a failed batch asks again. */
  ghost function Asked(tr: seq<Event>, u: Uve): seq<Types>
    requires IsRun(tr)
    decreases |tr|
  {
    if tr == [] then []
    else
      var n := |tr| - 1;
      var asked := Asked(tr[..n], u);
      match tr[n]
      case Notified(m) => if u in m then asked + [m[u]] else asked
      case Drained(b) => if u in b then [] else asked
      case Finished(ok) =>
        var w := After(tr[..n]).working.value;
        if !ok && u in w then asked + [w[u]] else asked
  }

  function JoinAll(ts: seq<Types>): Types
    requires ts != []
  {
    if |ts| == 1 then ts[0] else Join(JoinAll(ts[..|ts| - 1]), ts[|ts| - 1])
  }

  ghost predicate Asks(ts: seq<Types>, t: Typ) {
    exists x :: x in ts && x.Some? && t in x.value
  }

  /** The join is None if one of them is, and otherwise the union of them all. */
  lemma {:induction false} JoinAllMeans(ts: seq<Types>)
    requires ts != []
    ensures JoinAll(ts).None? <==> None in ts
    ensures JoinAll(ts).Some? ==> forall t :: t in JoinAll(ts).value <==> Asks(ts, t)
  {
    var n := |ts| - 1;
    if n > 0 {
      JoinAllMeans(ts[..n]);
      assert ts == ts[..n] + [ts[n]];
      if JoinAll(ts).Some? {
        forall t
          ensures t in JoinAll(ts).value <==> Asks(ts, t)
        {
          assert Asks(ts, t) <==> Asks(ts[..n], t) || (ts[n].Some? && t in ts[n].value);
        }
      }
    } else {
      assert ts == [ts[0]];
    }
  }

  /** So neither the order nor the number of the notifications matters. */
  lemma JoinAllIgnoresOrder(ts: seq<Types>, ts': seq<Types>)
    requires ts != [] && ts' != []
    requires forall x :: x in ts <==> x in ts'
    ensures JoinAll(ts) == JoinAll(ts')
  {
    JoinAllMeans(ts);
    JoinAllMeans(ts');
    assert forall t :: Asks(ts, t) <==> Asks(ts', t);
    if JoinAll(ts).Some? {
      assert JoinAll(ts).value == JoinAll(ts').value;
    }
  }

  /**
    Merging never forgets a request for everything, but for one that gives an empty list: it would be
    processed as a request for everything only while it is alone.
   */
  lemma FullRequestsSurvive(a: Types, b: Types)
    ensures (IsFull(a) || IsFull(b) ==> IsFull(Join(a, b))) <==>
            !(a == Some({}) && b.Some? && b.value != {}) && !(b == Some({}) && a.Some? && a.value != {})
  {
    if a.Some? && b.Some? {
      assert a.value == {} ==> a.value + b.value == b.value;
      assert b.value == {} ==> a.value + b.value == a.value;
    }
  }

  /** The queue holds, for each UVE, exactly the join of what was asked since it was last drained. */
  lemma {:induction false} QueueIsJoin(tr: seq<Event>, u: Uve)
    requires IsRun(tr)
    ensures u in After(tr).queue <==> Asked(tr, u) != []
    ensures u in After(tr).queue ==> After(tr).queue[u] == JoinAll(Asked(tr, u))
    decreases |tr|
  {
    if tr != [] {
      var n := |tr| - 1;
      QueueIsJoin(tr[..n], u);
      var asked := Asked(tr[..n], u);
      assert forall x: Types :: (asked + [x])[..|asked|] == asked;
    }
  }
}
