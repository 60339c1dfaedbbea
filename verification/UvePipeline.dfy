/**
  handle_uve_notif, run_uve_agg, send_agg_uve and clear_agg_uve of contrail-opserver/alarmgen.py in
  their imperative form, proved to compute `UveMirror.TableAfter`, `UveMirror.OutputOf` and
  `UveMirror.Patch`.
 */
module UvePipeline {
  import opened Options
  import opened UveTable
  import opened UveMirror

  // ----- The writer

  /** One row for the writer: the whole UVE goes (no type), a struct goes (no value), or a struct is written. */
  datatype Row = Row(key: Uve, typ: Option<Typ>, val: Option<Val>)

  /** What one row does to the hashes. */
  function ApplyRow(v: Table, r: Row): Table {
    if r.typ.None? then v - {r.key}
    else if r.val.Some? then v[r.key := Content(v, r.key)[r.typ.value := r.val.value]]
    else
      var left := Content(v, r.key) - {r.typ.value};
      if left == map[] then v - {r.key} else v[r.key := left]
  }

  function ApplyRows(v: Table, rows: seq<Row>): Table {
    if rows == [] then v else ApplyRow(ApplyRows(v, rows[..|rows| - 1]), rows[|rows| - 1])
  }

  lemma ApplyOneMore(v: Table, rows: seq<Row>, r: Row)
    ensures ApplyRows(v, rows + [r]) == ApplyRow(ApplyRows(v, rows), r)
  {
    assert (rows + [r])[..|rows|] == rows;
  }

  lemma RowLeavesNoEmpty(v: Table, r: Row)
    requires NoEmpty(v)
    ensures NoEmpty(ApplyRow(v, r))
  {
    if r.typ.Some? && r.val.Some? {
      assert r.typ.value in Content(v, r.key)[r.typ.value := r.val.value];
    }
  }

  lemma {:induction false} RowsLeaveNoEmpty(v: Table, rows: seq<Row>)
    requires NoEmpty(v)
    ensures NoEmpty(ApplyRows(v, rows))
  {
    if rows != [] {
      RowsLeaveNoEmpty(v, rows[..|rows| - 1]);
      RowLeavesNoEmpty(ApplyRows(v, rows[..|rows| - 1]), rows[|rows| - 1]);
    }
  }

  /** The part of Redis that belongs to one partition of this instance. */
  class AggRedis {
    var values: Table        // AGPARTVALUES
    var keys: set<Uve>       // AGPARTKEYS
    var acq: Option<int>     // the AGPARTS entry

    /** The index is exactly the UVEs that have a hash. */
    ghost predicate Sound()
      reads this
    {
      keys == values.Keys && NoEmpty(values)
    }

    /** What a write at `acqTime` starts from: contents left by another acquisition are dropped. */
    ghost function Base(acqTime: int): Table
      reads this
    {
      if acq == None || acq == Some(acqTime) then values else map[]
    }

    constructor ()
      ensures Sound() && values == map[] && acq == None
    {
      values, keys, acq := map[], {}, None;
    }

    /** clear_agg_uve: the hashes that the index lists go, and then the index. */
    method Clear(acqTime: Option<int>)
      requires Sound()
      modifies this
      ensures Sound() && values == map[] && acq == acqTime
    {
      acq := None;
      var todo := keys;
      while todo != {}
        modifies this`values
        invariant todo <= keys && values == old(values) - (keys - todo)
      {
        var elem :| elem in todo;
        values := values - {elem};
        todo := todo - {elem};
      }
      assert values == map[];
      keys := {};
      if acqTime.Some? {
        acq := acqTime;
      }
    }

    /** send_agg_uve. */
    method Send(acqTime: int, rows: seq<Row>)
      requires Sound()
      modifies this
      ensures Sound() && acq == Some(acqTime)
      ensures values == ApplyRows(old(Base(acqTime)), rows)
      ensures old(acq.Some? && acq != Some(acqTime)) ==> values == ApplyRows(map[], rows)
      ensures old(acq == None || acq == Some(acqTime)) ==> values == ApplyRows(old(values), rows)
    {
      if acq.None? {
        acq := Some(acqTime);
      } else if acq.value != acqTime {
        Clear(Some(acqTime));
      }
      var checkKeys := Write(rows);
      var todo := checkKeys;
      while todo != {}
        modifies this`keys
        invariant values.Keys <= keys && forall k :: k in keys && k !in values ==> k in todo
      {
        var kk :| kk in todo;
        if kk !in values {
          keys := keys - {kk};
        }
        todo := todo - {kk};
      }
      assert keys == values.Keys;
    }

    /** The first pipeline of send_agg_uve, row by row. */
    method Write(rows: seq<Row>) returns (checkKeys: set<Uve>)
      requires Sound()
      modifies this`values, this`keys
      ensures NoEmpty(values) && values == ApplyRows(old(values), rows)
      ensures values.Keys <= keys && forall k :: k in keys && k !in values ==> k in checkKeys
    {
      checkKeys := {};
      ghost var before := values;
      assert rows[..0] == [];
      for i := 0 to |rows|
        invariant NoEmpty(values) && values == ApplyRows(before, rows[..i])
        invariant values.Keys <= keys && forall k :: k in keys && k !in values ==> k in checkKeys
      {
        var row := rows[i];
        assert rows[..i + 1] == rows[..i] + [row];
        ApplyOneMore(before, rows[..i], row);
        checkKeys := WriteRow(row, checkKeys);
      }
      assert rows[..|rows|] == rows;
    }

    method WriteRow(row: Row, checkKeys: set<Uve>) returns (check: set<Uve>)
      requires NoEmpty(values) && values.Keys <= keys && forall k :: k in keys && k !in values ==> k in checkKeys
      modifies this`values, this`keys
      ensures NoEmpty(values) && values == ApplyRow(old(values), row)
      ensures values.Keys <= keys && forall k :: k in keys && k !in values ==> k in check
    {
      RowLeavesNoEmpty(values, row);
      check := checkKeys;
      if row.typ.None? {
        keys := keys - {row.key};
        values := values - {row.key};
      } else if row.val.None? {
        var left := Content(values, row.key) - {row.typ.value};
        values := if left == map[] then values - {row.key} else values[row.key := left];
        check := check + {row.key};
      } else {
        keys := keys + {row.key};
        values := values[row.key := Content(values, row.key)[row.typ.value := row.val.value]];
      }
    }

    /** The buffered row goes out with the others once there are `maxRows` of them. */
    method Push(rows: seq<Row>, row: Row, acqTime: int, maxRows: nat) returns (left: seq<Row>)
      requires Sound()
      modifies this
      ensures Sound()
      ensures ApplyRows(Base(acqTime), left) == ApplyRow(old(ApplyRows(Base(acqTime), rows)), row)
      ensures left != [] || acq == Some(acqTime)
    {
      ApplyOneMore(Base(acqTime), rows, row);
      left := rows + [row];
      if |left| >= maxRows {
        Send(acqTime, left);
        left := [];
      }
    }

    /** run_uve_agg, for any limit on the rows of one write. */
    method RunUveAgg(outp: Output, acqTime: int, maxRows: nat)
      requires Sound()
      requires forall u :: u in outp && outp[u].Some? ==> outp[u].value != map[]
      modifies this
      ensures Sound()
      ensures outp == map[] ==> values == old(values) && acq == old(acq)
      ensures outp != map[] ==> values == Patch(old(Base(acqTime)), outp) && acq == Some(acqTime)
    {
      ghost var base := Base(acqTime);
      var rows: seq<Row> := [];
      var todo := outp.Keys;
      ghost var done: set<Uve> := {};
      PatchNothing(base, outp);
      while todo != {}
        invariant todo !! done && todo + done == outp.Keys
        invariant Sound() && ApplyRows(Base(acqTime), rows) == Patch(base, Restrict(outp, done))
        invariant done != {} ==> rows != [] || acq == Some(acqTime)
        invariant done == {} ==> rows == [] && values == old(values) && acq == old(acq)
      {
        var ku :| ku in todo;
        PatchOneMore(base, outp, done, ku);
        if outp[ku].None? {
          rows := Push(rows, Row(ku, None, None), acqTime, maxRows);
        } else {
          rows := PushDiff(rows, ku, outp[ku].value, acqTime, maxRows);
        }
        todo, done := todo - {ku}, done + {ku};
      }
      assert Restrict(outp, done) == outp;
      if rows != [] {
        Send(acqTime, rows);
      }
    }

    method PushDiff(rows: seq<Row>, ku: Uve, vu: Diff, acqTime: int, maxRows: nat) returns (left: seq<Row>)
      requires Sound() && vu != map[]
      modifies this
      ensures Sound()
      ensures ApplyRows(Base(acqTime), left) == PatchUve(old(ApplyRows(Base(acqTime), rows)), ku, vu)
      ensures left != [] || acq == Some(acqTime)
    {
      ghost var base := ApplyRows(Base(acqTime), rows);
      RowsLeaveNoEmpty(Base(acqTime), rows);
      left := rows;
      var todo := vu.Keys;
      ghost var done: set<Typ> := {};
      PatchUveNothing(base, ku, vu);
      while todo != {}
        invariant todo !! done && todo + done == vu.Keys
        invariant Sound() && ApplyRows(Base(acqTime), left) == PatchUve(base, ku, RestrictDiff(vu, done))
        invariant done != {} ==> left != [] || acq == Some(acqTime)
      {
        var kt :| kt in todo;
        PatchUveOneMore(base, ku, vu, done, kt);
        left := Push(left, Row(ku, Some(kt), vu[kt]), acqTime, maxRows);
        todo, done := todo - {kt}, done + {kt};
      }
      assert RestrictDiff(vu, done) == vu;
    }
  }

  // ----- How rows add up to a patch

  ghost function Restrict(o: Output, done: set<Uve>): Output {
    map u | u in o && u in done :: o[u]
  }

  ghost function RestrictDiff(d: Diff, done: set<Typ>): Diff {
    map t | t in d && t in done :: d[t]
  }

  /** The table with one UVE patched. */
  ghost function PatchUve(v: Table, u: Uve, d: Diff): Table {
    if Patched(Content(v, u), d) == map[] then v - {u} else v[u := Patched(Content(v, u), d)]
  }

  lemma PatchNothing(v: Table, o: Output)
    requires NoEmpty(v)
    ensures Patch(v, Restrict(o, {})) == v
  {
  }

  lemma PatchUveNothing(v: Table, u: Uve, d: Diff)
    requires NoEmpty(v)
    ensures PatchUve(v, u, RestrictDiff(d, {})) == v
  {
    assert Patched(Content(v, u), RestrictDiff(d, {})) == Content(v, u);
  }

  lemma PatchOneMore(v: Table, o: Output, done: set<Uve>, u: Uve)
    requires NoEmpty(v) && u in o && u !in done
    ensures var p := Patch(v, Restrict(o, done));
            Patch(v, Restrict(o, done + {u})) == if o[u].None? then p - {u} else PatchUve(p, u, o[u].value)
  {
    var o1, o2 := Restrict(o, done), Restrict(o, done + {u});
    var p, q := Patch(v, o1), Patch(v, o2);
    var r := if o[u].None? then p - {u} else PatchUve(p, u, o[u].value);
    forall w
      ensures Content(q, w) == Content(r, w)
    {
      PatchOneMoreAt(v, o, done, u, w);
    }
    SameContents(q, r);
  }

  lemma PatchOneMoreAt(v: Table, o: Output, done: set<Uve>, u: Uve, w: Uve)
    requires NoEmpty(v) && u in o && u !in done
    ensures var p := Patch(v, Restrict(o, done));
            var r := if o[u].None? then p - {u} else PatchUve(p, u, o[u].value);
            Content(Patch(v, Restrict(o, done + {u})), w) == Content(r, w)
  {
    var o1, o2 := Restrict(o, done), Restrict(o, done + {u});
    PatchContent(v, o1, w);
    PatchContent(v, o2, w);
    var p := Patch(v, o1);
    var r := if o[u].None? then p - {u} else PatchUve(p, u, o[u].value);
    assert w != u ==> Content(r, w) == Content(p, w);
  }

  lemma PatchUveOneMore(v: Table, u: Uve, d: Diff, done: set<Typ>, t: Typ)
    requires t in d && t !in done
    ensures PatchUve(v, u, RestrictDiff(d, done + {t}))
         == ApplyRow(PatchUve(v, u, RestrictDiff(d, done)), Row(u, Some(t), d[t]))
  {
    var s := Content(v, u);
    var a, b := Patched(s, RestrictDiff(d, done)), Patched(s, RestrictDiff(d, done + {t}));
    PatchedOneMore(s, d, done, t);
    var v1 := PatchUve(v, u, RestrictDiff(d, done));
    assert Content(v1, u) == a;
    assert v1 - {u} == v - {u} && v1[u := b] == v[u := b];
  }

  lemma PatchedOneMore(s: Structs, d: Diff, done: set<Typ>, t: Typ)
    requires t in d && t !in done
    ensures var a, b := Patched(s, RestrictDiff(d, done)), Patched(s, RestrictDiff(d, done + {t}));
            b == (if d[t].Some? then a[t := d[t].value] else a - {t}) && (d[t].Some? ==> t in b)
  {
  }

  // ----- The handler of notifications

  /** ptab_info of one partition, keyed by the whole UVE key. */
  class NotifHandler {
    var infos: map<Uve, AGKeyInfo>
    ghost var table: Table  // the contents of `infos`

    ghost var repr: set<AGKeyInfo>

    ghost predicate Valid()
      reads this, repr
    {
      && infos.Keys == table.Keys && NoEmpty(table)
      && (forall u :: u in infos ==> infos[u] in repr && infos[u].uve == u && infos[u].current == table[u])
    }

    constructor ()
      ensures Valid() && table == map[]
    {
      infos, table, repr := map[], map[], {};
    }

    /** handle_uve_notif for one UVE: `entry` is what it adds to the output, if anything. */
    method HandleOne(uv: Uve, types: Types, fetch: Fetch) returns (entry: Option<Option<Diff>>)
      requires Valid()
      modifies this, repr
      ensures Valid() && fresh(repr - old(repr))
      ensures var before := Content(old(table), uv);
              var after := Refreshed(before, types, fetch.data);
              table == Stored(old(table), uv, after) && entry == EntryOf(before, after)
    {
      var info: AGKeyInfo;
      if uv in infos {
        info := infos[uv];
      } else {
        info := new AGKeyInfo(uv);
      }
      ghost var before := info.current;
      var output, touched := Refresh(info, types, fetch.data);
      DiffEmpty(before, info.current);
      Store(uv, info);
      entry := if info.current == map[] then Some(None) else if touched then Some(Some(output)) else None;
    }

    /** The contents of `uv` are in `info`; a UVE without contents leaves the table. */
    method Store(uv: Uve, info: AGKeyInfo)
      requires infos.Keys == table.Keys && NoEmpty(table) && info.uve == uv
      requires forall u :: u in infos && u != uv ==>
                             infos[u] in repr && infos[u].uve == u && infos[u].current == table[u]
      modifies this
      ensures Valid()
      ensures repr == old(repr) + {info}
      ensures table == Stored(old(table), uv, info.current)
    {
      StoredContent(table, uv, info.current, uv);
      infos := if info.current == map[] then infos - {uv} else infos[uv := info];
      table, repr := Stored(table, uv, info.current), repr + {info};
    }

    /** handle_uve_notif; no output is returned once a fetch failed, but the table has moved on. */
    method HandleNotif(b: Batch, f: Fetches) returns (output: Option<Output>)
      requires Valid() && b.Keys <= f.Keys
      modifies this, repr
      ensures Valid() && fresh(repr - old(repr))
      ensures table == TableAfter(old(table), b, f)
      ensures output == if Failed(b, f) then None else Some(OutputOf(old(table), b, f))
    {
      var success, out: Output := true, map[];
      ghost var before, done: set<Uve> := table, {};
      HandledNone(before, b, f);
      var todo := b.Keys;
      while todo != {}
        invariant Valid() && fresh(repr - old(repr))
        invariant forall u :: u in b <==> u in todo || u in done
        invariant forall u :: u in todo ==> u !in done
        invariant Handled(before, b, f, done, table, out, success)
      {
        var uv :| uv in todo;
        out, success := HandleNext(b, f, uv, out, success, before, done);
        todo, done := todo - {uv}, done + {uv};
      }
      HandledAll(before, b, f, done, table, out, success);
      output := if success then Some(out) else None;
    }

    method HandleNext(b: Batch, f: Fetches, uv: Uve, out: Output, success: bool, ghost before: Table, ghost done: set<Uve>)
      returns (out': Output, success': bool)
      requires Valid() && b.Keys <= f.Keys && NoEmpty(before) && uv in b && uv !in done
      requires Handled(before, b, f, done, table, out, success)
      modifies this, repr
      ensures Valid() && fresh(repr - old(repr))
      ensures Handled(before, b, f, done + {uv}, table, out', success')
    {
      HandledOneMore(before, b, f, done, uv, table, out, success);
      success' := success && !f[uv].failed;
      var entry := HandleOne(uv, b[uv], f[uv]);
      out' := if entry.Some? then out[uv := entry.value] else out;
    }
  }

  ghost function Part(b: Batch, done: set<Uve>): Batch {
    map u | u in b && u in done :: b[u]
  }

  /** The table and the output once the UVEs of `done` have been handled. */
  ghost predicate Handled(t: Table, b: Batch, f: Fetches, done: set<Uve>, table: Table, out: Output, success: bool)
    requires b.Keys <= f.Keys
  {
    var p := Part(b, done);
    && table == TableAfter(t, p, f)
    && out == OutputOf(t, p, f)
    && (success <==> !Failed(p, f))
  }

  lemma HandledNone(t: Table, b: Batch, f: Fetches)
    requires NoEmpty(t) && b.Keys <= f.Keys
    ensures Handled(t, b, f, {}, t, map[], true)
  {
  }

  lemma HandledAll(t: Table, b: Batch, f: Fetches, done: set<Uve>, table: Table, out: Output, success: bool)
    requires b.Keys <= f.Keys && Handled(t, b, f, done, table, out, success)
    requires forall u :: u in b ==> u in done
    ensures table == TableAfter(t, b, f) && out == OutputOf(t, b, f) && (success <==> !Failed(b, f))
  {
    assert Part(b, done) == b;
  }

  lemma HandledOneMore(t: Table, b: Batch, f: Fetches, done: set<Uve>, u: Uve, table: Table, out: Output, success: bool)
    requires NoEmpty(t) && b.Keys <= f.Keys && u in b && u !in done
    requires Handled(t, b, f, done, table, out, success)
    ensures var after := Refreshed(Content(table, u), b[u], f[u].data);
            var entry := EntryOf(Content(table, u), after);
            Handled(t, b, f, done + {u}, Stored(table, u, after),
                    if entry.Some? then out[u := entry.value] else out, success && !f[u].failed)
  {
    var p, q := Part(b, done), Part(b, done + {u});
    TableContent(t, p, f, u);
    PartOneMore(t, b, f, done, u);
    TableOneMore(t, p, q, f, u);
    OutputOneMore(t, p, q, f, u);
    FailedOneMore(p, q, f, u);
  }

  lemma PartOneMore(t: Table, b: Batch, f: Fetches, done: set<Uve>, u: Uve)
    requires b.Keys <= f.Keys && u in b && u !in done
    ensures var p, q := Part(b, done), Part(b, done + {u});
            && q.Keys == p.Keys + {u} && u !in p
            && forall w :: After(t, q, f, w) == if w == u then Refreshed(Content(t, u), b[u], f[u].data) else After(t, p, f, w)
  {
  }

  lemma FailedOneMore(p: Batch, q: Batch, f: Fetches, u: Uve)
    requires q.Keys <= f.Keys && q.Keys == p.Keys + {u}
    ensures Failed(q, f) <==> Failed(p, f) || f[u].failed
  {
  }

  lemma OutputOneMore(t: Table, p: Batch, q: Batch, f: Fetches, u: Uve)
    requires q.Keys <= f.Keys && q.Keys == p.Keys + {u} && u !in p
    requires forall w :: w != u ==> After(t, q, f, w) == After(t, p, f, w)
    ensures var entry := EntryOf(Content(t, u), After(t, q, f, u));
            OutputOf(t, q, f) == if entry.Some? then OutputOf(t, p, f)[u := entry.value] else OutputOf(t, p, f)
  {
    var e := w => EntryOf(Content(t, w), After(t, p, f, w));
    var e' := w => EntryOf(Content(t, w), After(t, q, f, w));
    assert OutputOf(t, p, f) == Entries(p.Keys, e);
    assert OutputOf(t, q, f) == Entries(q.Keys, e');
    EntriesOneMore(p.Keys, q.Keys, e, e', u);
  }

  ghost function Entries(uves: set<Uve>, e: Uve -> Option<Option<Diff>>): Output {
    map w | w in uves && e(w).Some? :: e(w).value
  }

  lemma EntriesOneMore(uves: set<Uve>, more: set<Uve>, e: Uve -> Option<Option<Diff>>, e': Uve -> Option<Option<Diff>>, u: Uve)
    requires more == uves + {u} && u !in uves && forall w :: w != u ==> e'(w) == e(w)
    ensures Entries(more, e') == if e'(u).Some? then Entries(uves, e)[u := e'(u).value] else Entries(uves, e)
  {
  }

  lemma TableOneMore(t: Table, p: Batch, q: Batch, f: Fetches, u: Uve)
    requires NoEmpty(t) && q.Keys <= f.Keys && q.Keys == p.Keys + {u} && u !in p
    requires forall w :: w != u ==> After(t, q, f, w) == After(t, p, f, w)
    ensures var after := After(t, q, f, u);
            TableAfter(t, q, f) == Stored(TableAfter(t, p, f), u, after)
  {
    var a, b := TableAfter(t, q, f), TableAfter(t, p, f);
    var after := After(t, q, f, u);
    var r := Stored(b, u, after);
    StoredContent(b, u, after, u);
    forall w
      ensures Content(a, w) == Content(r, w)
    {
      TableContent(t, q, f, w);
      TableContent(t, p, f, w);
      StoredContent(b, u, after, w);
    }
    SameContents(a, r);
  }

  lemma DiffEmpty(a: Structs, b: Structs)
    ensures DiffOf(a, b) == map[] <==> a == b
  {
    if DiffOf(a, b) == map[] {
      assert forall t :: t in a.Keys + b.Keys ==> t !in DiffOf(a, b);
      SameLookups(a, b);
    }
  }

  // ----- The two together

  lemma OutputIsProper(t: Table, b: Batch, f: Fetches)
    requires b.Keys <= f.Keys
    ensures forall u :: u in OutputOf(t, b, f) && OutputOf(t, b, f)[u].Some? ==> OutputOf(t, b, f)[u].value != map[]
  {
    forall u | u in OutputOf(t, b, f) && OutputOf(t, b, f)[u].Some?
      ensures OutputOf(t, b, f)[u].value != map[]
    {
      DiffEmpty(Content(t, u), After(t, b, f, u));
    }
  }

  /**
    One round of the pipeline, whatever the limit on rows. The table and the mirror make the step
    that `UveMirror.Process` describes. If the partition was acquired anew, so that the table was
    empty and Redis may hold what another acquisition left, the mirror is right after the round.
   */
  method ProcessBatch(handler: NotifHandler, redis: AggRedis, b: Batch, f: Fetches, acqTime: int, maxRows: nat)
    requires handler.Valid() && redis.Sound() && b.Keys <= f.Keys
    modifies handler, handler.repr, redis
    ensures handler.Valid() && redis.Sound()
    ensures old(redis.acq == None || redis.acq == Some(acqTime)) ==>
              Pair(handler.table, redis.values) == Process(old(Pair(handler.table, redis.values)), b, f)
    ensures old(handler.table) == map[] && b != map[] && !Failed(b, f) &&
            old(redis.values == map[] || (redis.acq.Some? && redis.acq != Some(acqTime))) ==>
              InStep(Pair(handler.table, redis.values)) && redis.keys == handler.table.Keys
  {
    ghost var before, base := handler.table, redis.Base(acqTime);
    var output := handler.HandleNotif(b, f);
    if output.Some? {
      OutputIsProper(before, b, f);
      redis.RunUveAgg(output.value, acqTime, maxRows);
      EmptyPatch(base);
      if before == map[] && b != map[] {
        FreshRound(b, f);
      }
    }
  }

  /** The first round of a partition writes the whole table. */
  lemma FreshRound(b: Batch, f: Fetches)
    requires b != map[] && b.Keys <= f.Keys
    ensures OutputOf(map[], b, f) != map[] && Patch(map[], OutputOf(map[], b, f)) == TableAfter(map[], b, f)
  {
    FreshTableEmits(b, f);
    OutputMirrors(map[], b, f);
  }

  lemma EmptyPatch(v: Table)
    requires NoEmpty(v)
    ensures Patch(v, map[]) == v
  {
    PatchNothing(v, map[]);
    assert Restrict(map[], {}) == map[];
  }
}
