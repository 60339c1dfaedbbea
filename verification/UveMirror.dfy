/**
  The mirror of the UVE table in Redis, as values: what a batch of notifications makes of the table,
  the output it emits, and what that output makes of the mirror. From contrail-opserver/alarmgen.py.
 */
module UveMirror {
  import opened Options
  import opened UveTable

  /** UVE contents by UVE; a UVE without structs is not in the table. */
  type Table = map<Uve, Structs>

  predicate NoEmpty(t: Table) {
    forall u :: u in t ==> t[u] != map[]
  }

  function Content(t: Table, u: Uve): Structs {
    if u in t then t[u] else map[]
  }

  lemma SameContents(a: Table, b: Table)
    requires NoEmpty(a) && NoEmpty(b)
    requires forall u :: Content(a, u) == Content(b, u)
    ensures a == b
  {
    assert forall u :: u in a <==> Content(a, u) != map[];
    assert forall u :: u in b <==> Content(b, u) != map[];
    assert forall u :: u in a && u in b ==> Content(a, u) == a[u] && Content(b, u) == b[u];
  }

  /** The table with new contents for one UVE. */
  function Stored(t: Table, u: Uve, content: Structs): Table {
    if content == map[] then t - {u} else t[u := content]
  }

  lemma StoredContent(t: Table, u: Uve, content: Structs, w: Uve)
    requires NoEmpty(t)
    ensures NoEmpty(Stored(t, u, content))
    ensures Content(Stored(t, u, content), w) == if w == u then content else Content(t, w)
  {
  }

  // ----- What a batch of notifications does

  type Batch = map<Uve, Types>

  /** The server's answer for one UVE. */
  datatype Fetch = Fetch(failed: bool, data: Structs)

  type Fetches = map<Uve, Fetch>

  /** For each UVE that changed its diff, or None when nothing is left of it. */
  type Output = map<Uve, Option<Diff>>

  function After(t: Table, b: Batch, f: Fetches, u: Uve): Structs
    requires b.Keys <= f.Keys
  {
    if u in b then Refreshed(Content(t, u), b[u], f[u].data) else Content(t, u)
  }

  function TableAfter(t: Table, b: Batch, f: Fetches): Table
    requires b.Keys <= f.Keys
  {
    map u | u in t.Keys + b.Keys && After(t, b, f, u) != map[] :: After(t, b, f, u)
  }

  /** What one UVE adds to the output. */
  function EntryOf(before: Structs, after: Structs): Option<Option<Diff>> {
    if after == map[] then Some(None)
    else if after == before then None
    else Some(Some(DiffOf(before, after)))
  }

  function OutputOf(t: Table, b: Batch, f: Fetches): Output
    requires b.Keys <= f.Keys
  {
    map u | u in b && EntryOf(Content(t, u), After(t, b, f, u)).Some? ::
      EntryOf(Content(t, u), After(t, b, f, u)).value
  }

  predicate Failed(b: Batch, f: Fetches)
    requires b.Keys <= f.Keys
  {
    exists u :: u in b && f[u].failed
  }

  // ----- What an output does to a mirror

  function PatchedAt(v: Table, o: Output, u: Uve): Structs {
    if u !in o then Content(v, u)
    else if o[u].None? then map[]
    else Patched(Content(v, u), o[u].value)
  }

  function Patch(v: Table, o: Output): Table {
    map u | u in v.Keys + o.Keys && PatchedAt(v, o, u) != map[] :: PatchedAt(v, o, u)
  }

  lemma PatchContent(v: Table, o: Output, u: Uve)
    ensures Content(Patch(v, o), u) == PatchedAt(v, o, u)
  {
    if u !in v && u !in o {
      assert PatchedAt(v, o, u) == map[];
    }
  }

  lemma TableContent(t: Table, b: Batch, f: Fetches, u: Uve)
    requires b.Keys <= f.Keys
    ensures Content(TableAfter(t, b, f), u) == After(t, b, f, u)
  {
  }

  /** The output of a batch, applied to a mirror of the table, makes a mirror of the new table. */
  lemma OutputMirrors(t: Table, b: Batch, f: Fetches)
    requires NoEmpty(t) && b.Keys <= f.Keys
    ensures Patch(t, OutputOf(t, b, f)) == TableAfter(t, b, f)
  {
    forall u
      ensures Content(Patch(t, OutputOf(t, b, f)), u) == Content(TableAfter(t, b, f), u)
    {
      PatchContent(t, OutputOf(t, b, f), u);
      DiffPatches(Content(t, u), After(t, b, f, u));
    }
    SameContents(Patch(t, OutputOf(t, b, f)), TableAfter(t, b, f));
  }

  /** A batch on an empty table always emits something, so the writer gets to clear what is stale. */
  lemma FreshTableEmits(b: Batch, f: Fetches)
    requires b != map[] && b.Keys <= f.Keys
    ensures OutputOf(map[], b, f) != map[]
  {
    var u :| u in b;
    assert u in OutputOf(map[], b, f);
  }

  // ----- One step of the whole pipeline

  /** The table and the mirror's values. */
  datatype Pair = Pair(table: Table, values: Table)

  /** handle_uve_notif and then run_uve_agg; the writer is not called when a fetch failed. */
  function Process(p: Pair, b: Batch, f: Fetches): Pair
    requires b.Keys <= f.Keys
  {
    Pair(TableAfter(p.table, b, f),
         if Failed(b, f) then p.values else Patch(p.values, OutputOf(p.table, b, f)))
  }

  predicate InStep(p: Pair) {
    NoEmpty(p.table) && p.values == p.table
  }

  /**
    The mirror is kept exactly by the batches without a failed fetch, and by those that find the
    table up to date.
   */
  lemma MirrorKept(p: Pair, b: Batch, f: Fetches)
    requires InStep(p) && b.Keys <= f.Keys
    ensures InStep(Process(p, b, f)) <==>
            !Failed(b, f) || forall u :: u in b ==> Refreshed(Content(p.table, u), b[u], f[u].data) == Content(p.table, u)
  {
    OutputMirrors(p.table, b, f);
    UpToDate(p.table, b, f);
  }

  /** A batch leaves the table as it is exactly if it finds every UVE up to date. */
  lemma UpToDate(t: Table, b: Batch, f: Fetches)
    requires NoEmpty(t) && b.Keys <= f.Keys
    ensures TableAfter(t, b, f) == t <==> forall u :: u in b ==> Refreshed(Content(t, u), b[u], f[u].data) == Content(t, u)
  {
    var after := TableAfter(t, b, f);
    forall u
      ensures Content(after, u) == After(t, b, f, u)
    {
      TableContent(t, b, f, u);
    }
    if forall u :: u in b ==> Refreshed(Content(t, u), b[u], f[u].data) == Content(t, u) {
      SameContents(after, t);
    }
  }

  /** A run of the pipeline over a list of batches, each with what the server answered. */
  function RunBatches(p: Pair, bs: seq<(Batch, Fetches)>): Pair
    requires forall i :: 0 <= i < |bs| ==> bs[i].0.Keys <= bs[i].1.Keys
    decreases |bs|
  {
    if bs == [] then p else RunBatches(Process(p, bs[0].0, bs[0].1), bs[1..])
  }

  lemma {:induction false} MirrorOverRuns(p: Pair, bs: seq<(Batch, Fetches)>)
    requires InStep(p)
    requires forall i :: 0 <= i < |bs| ==> bs[i].0.Keys <= bs[i].1.Keys && !Failed(bs[i].0, bs[i].1)
    ensures InStep(RunBatches(p, bs))
    decreases |bs|
  {
    if bs != [] {
      MirrorKept(p, bs[0].0, bs[0].1);
      MirrorOverRuns(Process(p, bs[0].0, bs[0].1), bs[1..]);
    }
  }

  /**
    The requeue after a failed fetch does not repair the mirror: when the batch is processed again,
    with the same data and no failure, a UVE that has contents is right in the mirror only if the
    failed batch had found it up to date.
   */
  lemma RetryRepairsNothing(p: Pair, b: Batch, failing: Fetches, f: Fetches)
    requires InStep(p) && b.Keys <= failing.Keys && b.Keys <= f.Keys
    requires Failed(b, failing) && !Failed(b, f)
    requires forall u :: u in b ==> f[u].data == failing[u].data
    ensures var retried := Process(Process(p, b, failing), b, f);
            && retried.table == TableAfter(p.table, b, failing)
            && (InStep(retried) <==>
                forall u :: u in b && u in retried.table ==> Content(p.table, u) == retried.table[u])
  {
    var t1 := TableAfter(p.table, b, failing);
    var retried := Process(Process(p, b, failing), b, f);
    RetryFindsNothing(p.table, b, failing, f);
    forall u
      ensures Content(retried.values, u) == if u in b && u !in t1 then map[] else Content(p.table, u)
    {
      PatchContent(p.values, OutputOf(t1, b, f), u);
    }
    MirrorOfUntouched(p.table, retried.values, t1, b, f);
  }

  lemma MirrorOfUntouched(t: Table, values: Table, t1: Table, b: Batch, f: Fetches)
    requires NoEmpty(t1) && NoEmpty(values) && b.Keys <= f.Keys
    requires forall u :: Content(values, u) == if u in b && u !in t1 then map[] else Content(t, u)
    requires forall u :: u !in b ==> Content(t1, u) == Content(t, u)
    ensures values == t1 <==> forall u :: u in b && u in t1 ==> Content(t, u) == t1[u]
  {
    if forall u :: u in b && u in t1 ==> Content(t, u) == t1[u] {
      SameContents(values, t1);
    }
  }

  /** The table took in what the failed batch brought, so processing it again finds no difference. */
  lemma RetryFindsNothing(t: Table, b: Batch, failing: Fetches, f: Fetches)
    requires NoEmpty(t) && b.Keys <= failing.Keys && b.Keys <= f.Keys
    requires forall u :: u in b ==> f[u].data == failing[u].data
    ensures var t1 := TableAfter(t, b, failing);
            && TableAfter(t1, b, f) == t1
            && (forall u :: After(t1, b, f, u) == Content(t1, u))
            && (forall u :: u !in b ==> Content(t1, u) == Content(t, u))
  {
    var t1 := TableAfter(t, b, failing);
    forall u
      ensures After(t1, b, f, u) == Content(t1, u)
      ensures Content(TableAfter(t1, b, f), u) == Content(t1, u)
    {
      TableContent(t, b, failing, u);
      TableContent(t1, b, f, u);
      if u in b {
        RefreshTwice(Content(t, u), b[u], f[u].data);
      }
    }
    forall u | u !in b
      ensures Content(t1, u) == Content(t, u)
    {
      TableContent(t, b, failing, u);
    }
    SameContents(TableAfter(t1, b, f), t1);
  }

  /** One lost update, concretely: the new content of a struct never reaches the mirror. */
  lemma FailedFetchLosesAnUpdate()
    ensures var was, now: Table := map["u" := map["s" := "1"]], map["u" := map["s" := "2"]];
            var b: Batch := map["u" := None];
            var failing, f := map["u" := Fetch(true, now["u"])], map["u" := Fetch(false, now["u"])];
            var retried := Process(Process(Pair(was, was), b, failing), b, f);
            InStep(Pair(was, was)) && !Failed(b, f) && retried.table == now && !InStep(retried)
  {
    var was, now: Table := map["u" := map["s" := "1"]], map["u" := map["s" := "2"]];
    var b: Batch := map["u" := None];
    var failing, f := map["u" := Fetch(true, now["u"])], map["u" := Fetch(false, now["u"])];
    assert was["u"] != now["u"] by {
      assert was["u"]["s"] != now["u"]["s"];
    }
    assert "s" in now["u"];
    assert "u" in b && failing["u"].failed;
    assert TableAfter(was, b, failing) == now;
    RetryRepairsNothing(Pair(was, was), b, failing, f);
  }
}
