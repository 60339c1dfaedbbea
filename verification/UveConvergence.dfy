/**
  The UVE pipeline of contrail-opserver/alarmgen.py as one system: the contents that the server has,
  the notifications on their way, the queue, the batch in work, the table and the mirror in Redis.
  The server may change at any moment, also between the fetches of one batch.
 */
module UveConvergence {
  import opened Options
  import opened UveTable
  import opened UveMirror
  import Q = NotifQueue

  /** A batch in work: the table it started from, the part of it that is done, and what was fetched for that part. */
  datatype Work = Work(before: Table, batch: Batch, done: Batch, fetched: Fetches)

  /** A notification that a UVE, or some of its structs, changed. */
  datatype Notif = Notif(uve: Uve, types: Types)

  datatype State = State(
    server: Table,
    inflight: multiset<Notif>,
    queue: Batch,
    working: Option<Work>,
    table: Table,
    mirror: Table)

  datatype Event =
    | Change(u: Uve, content: Structs, types: Types)
    | Deliver(n: Notif)
    | Drain(batch: Batch)
    | FetchOne(u: Uve, fetch: Fetch)
    | Finish

  predicate Covers(types: Types, t: Typ) {
    types.None? || t in types.value
  }

  /** A fetch without failure brings what the server has of the structs asked for. */
  ghost predicate Brings(data: Structs, types: Types, content: Structs) {
    if IsFull(types) then data == content else forall t :: t in types.value ==> Lookup(data, t) == Lookup(content, t)
  }

  /**
    When an event can happen. A change is announced by a notification that names the structs that
    changed, or none for all of them; the producers never send an empty list of structs.
   */
  ghost predicate Enabled(s: State, e: Event) {
    match e
    case Change(u, content, types) =>
      && Q.Specific(types)
      && forall t :: Lookup(content, t) != Lookup(Content(s.server, u), t) ==> Covers(types, t)
    case Deliver(n) => n in s.inflight
    case Drain(b) => s.working.None? && b.Keys <= s.queue.Keys && forall u :: u in b ==> b[u] == s.queue[u]
    case FetchOne(u, f) =>
      && s.working.Some? && u in s.working.value.batch && u !in s.working.value.done
      && (f.failed || Brings(f.data, s.working.value.batch[u], Content(s.server, u)))
    case Finish => s.working.Some? && s.working.value.done == s.working.value.batch && DoneIsFetched(s.working.value)
  }

  predicate DoneIsFetched(w: Work) {
    w.done.Keys == w.fetched.Keys
  }

  function AfterFetch(w: Work, u: Uve, f: Fetch): Work
    requires u in w.batch
  {
    w.(done := w.done[u := w.batch[u]], fetched := w.fetched[u := f])
  }

  /** What handle_uve_notifq, handle_uve_notif and run_uve_agg do; a failed batch is queued again and not written. */
  function Step(s: State, e: Event): State
    requires Enabled(s, e)
  {
    match e
    case Change(u, content, types) =>
      s.(server := Stored(s.server, u, content), inflight := s.inflight + multiset{Notif(u, types)})
    case Deliver(n) =>
      s.(inflight := s.inflight - multiset{n}, queue := Q.Merged(s.queue, map[n.uve := n.types]))
    case Drain(b) =>
      s.(queue := s.queue - b.Keys, working := Some(Work(s.table, b, map[], map[])))
    case FetchOne(u, f) =>
      var w := s.working.value;
      s.(table := Stored(s.table, u, Refreshed(Content(s.table, u), w.batch[u], f.data)), working := Some(AfterFetch(w, u, f)))
    case Finish =>
      var w := s.working.value;
      if Failed(w.batch, w.fetched) then s.(queue := Q.Merged(s.queue, w.batch), working := None)
      else s.(mirror := Patch(s.mirror, OutputOf(w.before, w.batch, w.fetched)), working := None)
  }

  // ----- What is not up to date is on its way

  ghost predicate Differs(s: State, u: Uve, t: Typ) {
    Lookup(Content(s.table, u), t) != Lookup(Content(s.server, u), t)
  }

  ghost predicate InFlight(s: State, u: Uve, t: Typ) {
    exists n :: n in s.inflight && n.uve == u && Covers(n.types, t)
  }

  predicate Pending(s: State, u: Uve, t: Typ) {
    u in s.queue && Covers(s.queue[u], t)
  }

  /** The batch in work has the struct, and is still to fetch it or will be queued again. */
  ghost predicate InWork(s: State, u: Uve, t: Typ) {
    && s.working.Some? && DoneIsFetched(s.working.value)
    && var w := s.working.value;
       u in w.batch && Covers(w.batch[u], t) && (u !in w.done || Failed(w.done, w.fetched))
  }

  ghost predicate OnItsWay(s: State, u: Uve, t: Typ) {
    InFlight(s, u, t) || Pending(s, u, t) || InWork(s, u, t)
  }

  /** The table is what the fetches of the batch made of the one it started from. */
  ghost predicate WorkOk(s: State) {
    s.working.Some? ==>
      var w := s.working.value;
      && DoneIsFetched(w) && w.done.Keys <= w.batch.Keys && (forall u :: u in w.done ==> w.done[u] == w.batch[u])
      && NoEmpty(w.before) && Q.AllSpecific(w.batch) && s.table == TableAfter(w.before, w.done, w.fetched)
  }

  ghost predicate Shape(s: State) {
    && NoEmpty(s.server) && NoEmpty(s.table) && Q.AllSpecific(s.queue) && WorkOk(s)
    && (forall n :: n in s.inflight ==> Q.Specific(n.types))
  }

  ghost predicate NothingForgotten(s: State) {
    forall u, t :: Differs(s, u, t) ==> OnItsWay(s, u, t)
  }

  ghost predicate Inv(s: State) {
    Shape(s) && NothingForgotten(s)
  }

  // ----- One step keeps the shape

  /** One more fetch, seen from the start of the batch. */
  lemma FetchOneMore(t: Table, w: Work, u: Uve, f: Fetch)
    requires DoneIsFetched(w) && u in w.batch && u !in w.done && NoEmpty(w.before) && t == TableAfter(w.before, w.done, w.fetched)
    ensures var w' := AfterFetch(w, u, f);
            DoneIsFetched(w') &&
            Stored(t, u, Refreshed(Content(t, u), w.batch[u], f.data)) == TableAfter(w.before, w'.done, w'.fetched)
  {
    var w' := AfterFetch(w, u, f);
    var a := Stored(t, u, Refreshed(Content(t, u), w.batch[u], f.data));
    var b := TableAfter(w.before, w'.done, w'.fetched);
    StoredContent(t, u, Refreshed(Content(t, u), w.batch[u], f.data), u);
    forall v
      ensures Content(a, v) == Content(b, v)
    {
      ContentAfterFetch(t, w, u, f, v);
    }
    SameContents(a, b);
  }

  lemma ContentAfterFetch(t: Table, w: Work, u: Uve, f: Fetch, v: Uve)
    requires DoneIsFetched(w) && u in w.batch && u !in w.done && NoEmpty(w.before) && t == TableAfter(w.before, w.done, w.fetched)
    ensures var w' := AfterFetch(w, u, f);
            Content(Stored(t, u, Refreshed(Content(t, u), w.batch[u], f.data)), v)
            == Content(TableAfter(w.before, w'.done, w'.fetched), v)
  {
    var w' := AfterFetch(w, u, f);
    StoredContent(t, u, Refreshed(Content(t, u), w.batch[u], f.data), v);
    TableContent(w.before, w.done, w.fetched, v);
    TableContent(w.before, w'.done, w'.fetched, v);
  }

  lemma StartOfBatch(t: Table)
    requires NoEmpty(t)
    ensures TableAfter(t, map[], map[]) == t
  {
    forall v
      ensures Content(TableAfter(t, map[], map[]), v) == Content(t, v)
    {
      TableContent(t, map[], map[], v);
    }
    SameContents(TableAfter(t, map[], map[]), t);
  }

  lemma StepKeepsShape(s: State, e: Event)
    requires Shape(s) && Enabled(s, e)
    ensures Shape(Step(s, e))
  {
    match e
    case Change(u, content, types) => StoredContent(s.server, u, content, u);
    case Deliver(n) => Q.MergedSpecific(s.queue, map[n.uve := n.types]);
    case Drain(b) => StartOfBatch(s.table);
    case FetchOne(u, f) => FetchKeepsShape(s, u, f);
    case Finish => FinishKeepsShape(s);
  }

  lemma FinishKeepsShape(s: State)
    requires Shape(s) && Enabled(s, Finish)
    ensures Shape(Step(s, Finish))
  {
    Q.MergedSpecific(s.queue, s.working.value.batch);
  }

  lemma FetchKeepsShape(s: State, u: Uve, f: Fetch)
    requires Shape(s) && Enabled(s, FetchOne(u, f))
    ensures Shape(Step(s, FetchOne(u, f)))
  {
    var w := s.working.value;
    StoredContent(s.table, u, Refreshed(Content(s.table, u), w.batch[u], f.data), u);
    FetchOneMore(s.table, w, u, f);
  }

  // ----- One step forgets nothing

  lemma ChangeForgetsNothing(s: State, e: Event, u: Uve, t: Typ)
    requires Inv(s) && e.Change? && Enabled(s, e) && Differs(Step(s, e), u, t)
    ensures OnItsWay(Step(s, e), u, t)
  {
    var s' := Step(s, e);
    StoredContent(s.server, e.u, e.content, u);
    if Differs(s, u, t) {
      if InFlight(s, u, t) {
        var n :| n in s.inflight && n.uve == u && Covers(n.types, t);
        assert n in s'.inflight;
      }
    } else {
      assert Notif(e.u, e.types) in s'.inflight;
    }
  }

  lemma DeliverForgetsNothing(s: State, n: Notif, u: Uve, t: Typ)
    requires n in s.inflight && OnItsWay(s, u, t)
    ensures OnItsWay(Step(s, Deliver(n)), u, t)
  {
    var s' := Step(s, Deliver(n));
    if InFlight(s, u, t) {
      var m :| m in s.inflight && m.uve == u && Covers(m.types, t);
      if m == n {
        assert Pending(s', u, t);
      } else {
        assert m in s'.inflight;
      }
    } else if Pending(s, u, t) {
      assert Pending(s', u, t);
    } else {
      assert InWork(s', u, t);
    }
  }

  lemma DrainForgetsNothing(s: State, e: Event, u: Uve, t: Typ)
    requires e.Drain? && Enabled(s, e) && OnItsWay(s, u, t)
    ensures OnItsWay(Step(s, e), u, t)
  {
    var s' := Step(s, e);
    if InFlight(s, u, t) {
      assert InFlight(s', u, t);
    } else if u in e.batch {
      assert InWork(s', u, t);
    }
  }

  /** What a fetch does to one struct. */
  lemma RefreshedLookup(s: Structs, types: Types, data: Structs, t: Typ)
    ensures Lookup(Refreshed(s, types, data), t) == if IsFull(types) || t in types.value then Lookup(data, t) else Lookup(s, t)
  {
  }

  lemma FetchForgetsNothing(s: State, e: Event, u: Uve, t: Typ)
    requires Inv(s) && e.FetchOne? && Enabled(s, e) && Differs(Step(s, e), u, t)
    ensures OnItsWay(Step(s, e), u, t)
  {
    var types := s.working.value.batch[e.u];
    FailedStays(s.working.value, e.u, e.fetch);
    FetchedLookup(s, e, u, t);
    if u == e.u && Covers(types, t) {
      assert InWork(Step(s, e), u, t);
    } else {
      assert Differs(s, u, t);
      FetchLeavesOthers(s, e, u, t);
    }
  }

  /** After a fetch, a struct that was asked for differs only if the fetch failed, any other only if it did before. */
  lemma FetchedLookup(s: State, e: Event, u: Uve, t: Typ)
    requires Shape(s) && e.FetchOne? && Enabled(s, e) && Differs(Step(s, e), u, t)
    ensures if u == e.u && Covers(s.working.value.batch[u], t) then e.fetch.failed else Differs(s, u, t)
  {
    var types := s.working.value.batch[e.u];
    StoredContent(s.table, e.u, Refreshed(Content(s.table, e.u), types, e.fetch.data), u);
    RefreshedLookup(Content(s.table, e.u), types, e.fetch.data, t);
  }

  lemma FetchLeavesOthers(s: State, e: Event, u: Uve, t: Typ)
    requires Shape(s) && e.FetchOne? && Enabled(s, e) && OnItsWay(s, u, t)
    requires u != e.u || !Covers(s.working.value.batch[u], t)
    ensures OnItsWay(Step(s, e), u, t)
  {
    var s' := Step(s, e);
    FailedStays(s.working.value, e.u, e.fetch);
    if InFlight(s, u, t) {
      assert InFlight(s', u, t);
    } else if InWork(s, u, t) {
      assert InWork(s', u, t);
    }
  }

  lemma FailedStays(w: Work, u: Uve, f: Fetch)
    requires DoneIsFetched(w) && u in w.batch && u !in w.done
    ensures var w' := AfterFetch(w, u, f);
            DoneIsFetched(w') && (Failed(w'.done, w'.fetched) <==> Failed(w.done, w.fetched) || f.failed)
  {
    var w' := AfterFetch(w, u, f);
    assert w'.fetched[u] == f && u in w'.done;
    assert forall v :: v in w.done ==> v in w'.done && w'.fetched[v] == w.fetched[v];
  }

  lemma FinishForgetsNothing(s: State, u: Uve, t: Typ)
    requires Enabled(s, Finish) && OnItsWay(s, u, t)
    ensures OnItsWay(Step(s, Finish), u, t)
  {
    var s', w := Step(s, Finish), s.working.value;
    if InFlight(s, u, t) {
      assert InFlight(s', u, t);
    } else if Failed(w.batch, w.fetched) {
      RequeueCovers(s.queue, w.batch, u, t);
    }
  }

  lemma RequeueCovers(q: Batch, b: Batch, u: Uve, t: Typ)
    requires (u in q && Covers(q[u], t)) || (u in b && Covers(b[u], t))
    ensures u in Q.Merged(q, b) && Covers(Q.Merged(q, b)[u], t)
  {
  }

  lemma StepForgetsNothing(s: State, e: Event)
    requires Inv(s) && Enabled(s, e)
    ensures Inv(Step(s, e))
  {
    StepKeepsShape(s, e);
    var s' := Step(s, e);
    forall u, t | Differs(s', u, t)
      ensures OnItsWay(s', u, t)
    {
      match e
      case Change(_, _, _) => ChangeForgetsNothing(s, e, u, t);
      case Deliver(n) => DeliverForgetsNothing(s, n, u, t);
      case Drain(_) => DrainForgetsNothing(s, e, u, t);
      case FetchOne(_, _) => FetchForgetsNothing(s, e, u, t);
      case Finish => FinishForgetsNothing(s, u, t);
    }
  }

  // ----- The mirror

  /** The mirror is the table, or the table before the batch in work. */
  ghost predicate Mirrors(s: State) {
    s.mirror == if s.working.Some? then s.working.value.before else s.table
  }

  predicate NoFailure(s: State) {
    s.working.Some? ==> DoneIsFetched(s.working.value) && !Failed(s.working.value.done, s.working.value.fetched)
  }

  predicate Fails(e: Event) {
    e.FetchOne? && e.fetch.failed
  }

  lemma StepKeepsMirror(s: State, e: Event)
    requires Shape(s) && Enabled(s, e) && Mirrors(s) && NoFailure(s) && !Fails(e)
    ensures Mirrors(Step(s, e)) && NoFailure(Step(s, e))
  {
    match e
    case Change(_, _, _) =>
    case Deliver(_) =>
    case Drain(_) =>
    case FetchOne(u, f) => FailedStays(s.working.value, u, f);
    case Finish =>
      var w := s.working.value;
      OutputMirrors(w.before, w.batch, w.fetched);
  }

  /** A batch as a whole is a step of the mirror model, whatever the server did in the meantime. */
  lemma BatchIsProcessed(s: State)
    requires Shape(s) && Enabled(s, Finish)
    ensures var w, s' := s.working.value, Step(s, Finish);
            Pair(s'.table, s'.mirror) == Process(Pair(w.before, s.mirror), w.batch, w.fetched)
  {
  }

  // ----- Runs

  /** A partition that was just acquired: nothing is known yet, and all that the server has is announced. */
  ghost predicate IsStart(s: State) {
    && NoEmpty(s.server) && s.queue == map[] && s.working == None && s.table == map[] && s.mirror == map[]
    && (forall n :: n in s.inflight ==> Q.Specific(n.types))
    && (forall u :: u in s.server ==> Notif(u, None) in s.inflight)
  }

  ghost predicate IsRun(s: State, events: seq<Event>)
    decreases |events|
  {
    events == [] || (Enabled(s, events[0]) && IsRun(Step(s, events[0]), events[1..]))
  }

  ghost function Run(s: State, events: seq<Event>): State
    requires IsRun(s, events)
    decreases |events|
  {
    if events == [] then s else Run(Step(s, events[0]), events[1..])
  }

  lemma {:induction false} InvOverRuns(s: State, events: seq<Event>)
    requires Inv(s) && IsRun(s, events)
    ensures Inv(Run(s, events))
    decreases |events|
  {
    if events != [] {
      StepForgetsNothing(s, events[0]);
      InvOverRuns(Step(s, events[0]), events[1..]);
    }
  }

  lemma {:induction false} MirrorsOverRuns(s: State, events: seq<Event>)
    requires Inv(s) && Mirrors(s) && NoFailure(s) && IsRun(s, events) && forall e :: e in events ==> !Fails(e)
    ensures Mirrors(Run(s, events))
    decreases |events|
  {
    if events != [] {
      assert events[0] in events;
      StepForgetsNothing(s, events[0]);
      StepKeepsMirror(s, events[0]);
      MirrorsOverRuns(Step(s, events[0]), events[1..]);
    }
  }

  lemma StartIsCovered(s: State)
    requires IsStart(s)
    ensures Inv(s) && Mirrors(s)
  {
    forall u, t | Differs(s, u, t)
      ensures OnItsWay(s, u, t)
    {
      assert Notif(u, None) in s.inflight;
    }
  }

  /** Over every run, with or without failures, whatever the table does not have right is on its way. */
  lemma NothingForgottenOverRuns(s: State, events: seq<Event>, u: Uve, t: Typ)
    requires IsStart(s) && IsRun(s, events) && Differs(Run(s, events), u, t)
    ensures OnItsWay(Run(s, events), u, t)
  {
    StartIsCovered(s);
    InvOverRuns(s, events);
  }

  predicate Quiet(s: State) {
    s.inflight == multiset{} && s.queue == map[] && s.working == None
  }

  /**
    Convergence. Once no notification is on its way, none pending and no batch in work, the table
    is what the server has; and so is the mirror, if no fetch failed on the way.
   */
  lemma QuietMeansConverged(s: State, events: seq<Event>)
    requires IsStart(s) && IsRun(s, events) && Quiet(Run(s, events))
    ensures Run(s, events).table == Run(s, events).server
    ensures (forall e :: e in events ==> !Fails(e)) ==> Run(s, events).mirror == Run(s, events).table
  {
    StartIsCovered(s);
    InvOverRuns(s, events);
    var r := Run(s, events);
    forall u
      ensures Content(r.table, u) == Content(r.server, u)
    {
      forall t
        ensures Lookup(Content(r.table, u), t) == Lookup(Content(r.server, u), t)
      {
        assert !OnItsWay(r, u, t);
        assert !Differs(r, u, t);
      }
      UveTable.SameLookups(Content(r.table, u), Content(r.server, u));
    }
    SameContents(r.table, r.server);
    if forall e :: e in events ==> !Fails(e) {
      MirrorsOverRuns(s, events);
    }
  }

  // ----- With a failed fetch the mirror need not follow

  /** The events of one batch with one UVE. */
  function Round(u: Uve, fetch: Fetch): seq<Event> {
    [Drain(map[u := None]), FetchOne(u, fetch), Finish]
  }

  function Settled(u: Uve, c: Structs, queue: Batch, table: Table): State {
    State(map[u := c], multiset{}, queue, None, table, map[])
  }

  lemma {:induction false} RunOn(s: State, e: Event, rest: seq<Event>)
    requires Enabled(s, e)
    ensures IsRun(s, [e] + rest) <==> IsRun(Step(s, e), rest)
    ensures IsRun(s, [e] + rest) ==> Run(s, [e] + rest) == Run(Step(s, e), rest)
  {
    assert ([e] + rest)[1..] == rest;
  }

  lemma {:induction false} RunRound(s: State, u: Uve, fetch: Fetch, rest: seq<Event>)
    requires Enabled(s, Drain(map[u := None]))
    requires var s1 := Step(s, Drain(map[u := None])); Enabled(s1, FetchOne(u, fetch)) && Enabled(Step(s1, FetchOne(u, fetch)), Finish)
    ensures var s' := Step(Step(Step(s, Drain(map[u := None])), FetchOne(u, fetch)), Finish);
            && (IsRun(s, Round(u, fetch) + rest) <==> IsRun(s', rest))
            && (IsRun(s', rest) ==> Run(s, Round(u, fetch) + rest) == Run(s', rest))
  {
    var s1 := Step(s, Drain(map[u := None]));
    var s2 := Step(s1, FetchOne(u, fetch));
    RunOn(s2, Finish, rest);
    RunOn(s1, FetchOne(u, fetch), [Finish] + rest);
    RunOn(s, Drain(map[u := None]), [FetchOne(u, fetch)] + ([Finish] + rest));
    assert Round(u, fetch) + rest == [Drain(map[u := None])] + ([FetchOne(u, fetch)] + ([Finish] + rest));
  }

  /** The failed batch: the table takes in the contents, nothing is sent, and the UVE is queued again. */
  lemma FailedRound(u: Uve, c: Structs)
    requires c != map[]
    ensures var s := Settled(u, c, map[u := None], map[]);
            && Enabled(s, Drain(map[u := None]))
            && var s1 := Step(s, Drain(map[u := None]));
               && Enabled(s1, FetchOne(u, Fetch(true, c)))
               && var s2 := Step(s1, FetchOne(u, Fetch(true, c)));
                  Enabled(s2, Finish) && Step(s2, Finish) == Settled(u, c, map[u := None], map[u := c])
  {
    var s2 := Step(Step(Settled(u, c, map[u := None], map[]), Drain(map[u := None])), FetchOne(u, Fetch(true, c)));
    var w := s2.working.value;
    assert w.done == w.batch == map[u := None] && Failed(w.batch, w.fetched);
    assert Q.Merged(map[], w.batch) == w.batch;
  }

  /** The retry: the table has the contents, so nothing is sent. */
  lemma RetryRound(u: Uve, c: Structs)
    requires c != map[]
    ensures var s := Settled(u, c, map[u := None], map[u := c]);
            && Enabled(s, Drain(map[u := None]))
            && var s1 := Step(s, Drain(map[u := None]));
               && Enabled(s1, FetchOne(u, Fetch(false, c)))
               && var s2 := Step(s1, FetchOne(u, Fetch(false, c)));
                  Enabled(s2, Finish) && Step(s2, Finish) == Settled(u, c, map[], map[u := c])
  {
    var s2 := Step(Step(Settled(u, c, map[u := None], map[u := c]), Drain(map[u := None])), FetchOne(u, Fetch(false, c)));
    var w := s2.working.value;
    assert w.done == w.batch == map[u := None] && !Failed(w.batch, w.fetched);
    assert OutputOf(w.before, w.batch, w.fetched) == map[];
    assert Patch(map[], map[]) == map[];
  }

  /**
    A new UVE whose first fetch fails, although it brings the contents: when all is quiet again the
    table is right and the mirror is still empty.
   */
  lemma {:induction false} QuietButNotMirrored(u: Uve, c: Structs) returns (s: State, events: seq<Event>)
    requires c != map[]
    ensures IsStart(s) && IsRun(s, events) && Quiet(Run(s, events))
    ensures Run(s, events).table == Run(s, events).server == map[u := c] && Run(s, events).mirror == map[]
  {
    var n := Notif(u, None);
    s := State(map[u := c], multiset{n}, map[], None, map[], map[]);
    events := [Deliver(n)] + (Round(u, Fetch(true, c)) + (Round(u, Fetch(false, c)) + []));
    assert Step(s, Deliver(n)) == Settled(u, c, map[u := None], map[]);
    FailedRound(u, c);
    RetryRound(u, c);
    RunRound(Settled(u, c, map[u := None], map[u := c]), u, Fetch(false, c), []);
    RunRound(Settled(u, c, map[u := None], map[]), u, Fetch(true, c), Round(u, Fetch(false, c)) + []);
    RunOn(s, Deliver(n), Round(u, Fetch(true, c)) + (Round(u, Fetch(false, c)) + []));
  }
}
