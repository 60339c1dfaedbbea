/**
  The in-memory table of UVE contents (AGKeyInfo and the part of handle_uve_notif that maintains
  the table and emits what changed), from contrail-opserver/alarmgen.py.
 */
module UveTable {
  import opened Options

  type Uve = string
  type Typ = string
  /** The content of one struct, as its JSON text. */
  type Val = string
  type Structs = map<Typ, Val>

  /** What changed in one UVE: a struct has a new content, or is gone. */
  type Diff = map<Typ, Option<Val>>

  function Lookup(s: Structs, t: Typ): Option<Val> {
    if t in s then Some(s[t]) else None
  }

  /** Exactly the structs on which `b` differs from `a`, with what `b` has for them. */
  function DiffOf(a: Structs, b: Structs): Diff {
    map t | t in a.Keys + b.Keys && Lookup(a, t) != Lookup(b, t) :: Lookup(b, t)
  }

  function Patched(s: Structs, d: Diff): Structs {
    map t | t in s.Keys + d.Keys && (if t in d then d[t] else Lookup(s, t)).Some? ::
      (if t in d then d[t] else Lookup(s, t)).value
  }

  /** A diff is what turns the old contents into the new. */
  lemma DiffPatches(a: Structs, b: Structs)
    ensures Patched(a, DiffOf(a, b)) == b
  {
    var d := DiffOf(a, b);
    forall t
      ensures Lookup(Patched(a, d), t) == Lookup(b, t)
    {
    }
    SameLookups(Patched(a, d), b);
  }

  lemma SameLookups(a: Structs, b: Structs)
    requires forall t :: Lookup(a, t) == Lookup(b, t)
    ensures a == b
  {
    assert forall t :: t in a <==> Lookup(a, t).Some?;
    assert forall t :: t in b <==> Lookup(b, t).Some?;
    assert forall t :: t in a && t in b ==> Lookup(a, t).value == a[t] && Lookup(b, t).value == b[t];
  }

  /** Which structs a notification asks to re-read; None and the empty set ask for all of them. */
  type Types = Option<set<Typ>>

  predicate IsFull(types: Types) {
    types.None? || types.value == {}
  }

  /** The contents after re-reading `types` from the server's `data`. */
  function Refreshed(s: Structs, types: Types, data: Structs): Structs {
    if IsFull(types) then data else RefreshedSome(s, types.value, data)
  }

  /** The same for a set of structs that may be empty. */
  function RefreshedSome(s: Structs, types: set<Typ>, data: Structs): Structs {
    map t | t in s.Keys + data.Keys && t in (if t in types then data else s) ::
      (if t in types then data else s)[t]
  }

  /**
    Incremental refines full: if the stored contents differ from the server's only in the structs
    that are re-read, the incremental update leaves the same contents, and emits the same diff, as
    the full one.
   */
  lemma IncrementalRefinesFull(s: Structs, types: set<Typ>, data: Structs)
    requires forall t :: t !in types ==> Lookup(s, t) == Lookup(data, t)
    ensures Refreshed(s, Some(types), data) == Refreshed(s, None, data) == data
    ensures DiffOf(s, Refreshed(s, Some(types), data)) == DiffOf(s, Refreshed(s, None, data))
  {
    var r := Refreshed(s, Some(types), data);
    forall t
      ensures Lookup(r, t) == Lookup(data, t)
    {
    }
    SameLookups(r, data);
  }

  lemma RefreshTwice(s: Structs, types: Types, data: Structs)
    ensures Refreshed(Refreshed(s, types, data), types, data) == Refreshed(s, types, data)
  {
  }

  class AGKeyInfo {
    var current: Structs
    var added: set<Typ>
    var removed: set<Typ>
    var changed: set<Typ>
    ghost const uve: Uve

    constructor (ghost uve: Uve)
      ensures current == map[] && this.uve == uve
    {
      this.uve := uve;
      current, added, removed, changed := map[], {}, {}, {};
    }

    /** The three sets say how `current` came out of `past`. */
    ghost predicate Tells(past: Structs)
      reads this
    {
      && added == current.Keys - past.Keys
      && removed == past.Keys - current.Keys
      && changed == set t | t in past && t in current && past[t] != current[t]
    }

    method UpdateSingle(typ: Typ, val: Option<Val>)
      modifies this
      ensures current == if val.Some? then old(current)[typ := val.value] else old(current) - {typ}
      ensures Tells(old(current))
    {
      removed, added, changed := {}, {}, {};
      if typ in current {
        if val.None? {
          removed := removed + {typ};
          current := current - {typ};
        } else if val.value != current[typ] {
          changed := changed + {typ};
          current := current[typ := val.value];
        }
      } else if val.Some? {
        added := added + {typ};
        current := current[typ := val.value];
      }
    }

    method Update(newDict: Structs)
      modifies this
      ensures current == newDict
      ensures Tells(old(current))
    {
      var intersect := newDict.Keys * current.Keys;
      added := newDict.Keys - intersect;
      removed := current.Keys - intersect;
      changed := {};
      var todo := intersect;
      while todo != {}
        modifies this`changed
        invariant todo <= intersect
        invariant changed == set t | t in intersect - todo && newDict[t] != current[t]
      {
        var o :| o in todo;
        if newDict[o] != current[o] {
          changed := changed + {o};
        }
        todo := todo - {o};
      }
      current := newDict;
    }
  }

  ghost function Removals(types: set<Typ>): Diff {
    map t | t in types :: None
  }

  ghost function Writes(types: set<Typ>, values: Structs): Diff
    requires types <= values.Keys
  {
    map t | t in types :: Some(values[t])
  }

  lemma PlusAssociates(a: Diff, b: Diff, c: Diff, d: Diff)
    ensures a + b + c + d == a + (b + c + d)
  {
  }

  /** The diff that the three sets stand for. */
  lemma EmitsDiff(past: Structs, now: Structs, removed: set<Typ>, changed: set<Typ>, added: set<Typ>)
    requires added == now.Keys - past.Keys && removed == past.Keys - now.Keys
    requires changed == set t | t in past && t in now && past[t] != now[t]
    ensures DiffOf(past, now)
         == Removals(removed) + Writes(changed, now) + Writes(added, now)
    ensures DiffOf(past, now) != map[] <==> removed != {} || changed != {} || added != {}
  {
    forall t
      ensures t in DiffOf(past, now) <==> t in removed || t in changed || t in added
      ensures t in DiffOf(past, now) ==> DiffOf(past, now)[t] == if t in added || t in changed then Some(now[t]) else None
    {
      InDiff(past, now, t);
    }
    SumOf(DiffOf(past, now), removed, changed, added, now);
  }

  lemma SumOf(d: Diff, removed: set<Typ>, changed: set<Typ>, added: set<Typ>, now: Structs)
    requires changed <= now.Keys && added <= now.Keys
    requires forall t :: t in d <==> t in removed || t in changed || t in added
    requires forall t :: t in d ==> d[t] == if t in added || t in changed then Some(now[t]) else None
    ensures d == Removals(removed) + Writes(changed, now) + Writes(added, now)
    ensures d != map[] <==> removed != {} || changed != {} || added != {}
  {
    assert d.Keys == removed + changed + added;
    assert d == map[] <==> d.Keys == {};
  }

  lemma InDiff(a: Structs, b: Structs, t: Typ)
    ensures t in DiffOf(a, b) <==> Lookup(a, t) != Lookup(b, t)
    ensures t in DiffOf(a, b) ==> DiffOf(a, b)[t] == Lookup(b, t)
  {
  }

  // ----- One notified UVE

  method EmitRemoved(removed: set<Typ>, output: Diff) returns (r: Diff)
    ensures r == output + Removals(removed)
  {
    r := output;
    var todo := removed;
    while todo != {}
      invariant todo <= removed
      invariant r == output + Removals(removed - todo)
    {
      var t :| t in todo;
      r := r[t := None];
      todo := todo - {t};
    }
  }

  method EmitValues(types: set<Typ>, values: Structs, output: Diff) returns (r: Diff)
    requires types <= values.Keys
    ensures r == output + Writes(types, values)
  {
    r := output;
    var todo := types;
    while todo != {}
      invariant todo <= types
      invariant r == output + Writes(types - todo, values)
    {
      var t :| t in todo;
      r := r[t := Some(values[t])];
      todo := todo - {t};
    }
  }

  /** The output of a UVE is extended by what removed(), changed() and added() say. */
  method Emit(info: AGKeyInfo, output: Diff, ghost past: Structs) returns (r: Diff, touched: bool)
    requires info.Tells(past)
    ensures r == output + DiffOf(past, info.current)
    ensures touched <==> DiffOf(past, info.current) != map[]
  {
    touched := info.removed != {} || info.changed != {} || info.added != {};
    r := EmitRemoved(info.removed, output);
    r := EmitValues(info.changed, info.current, r);
    r := EmitValues(info.added, info.current, r);
    EmitsDiff(past, info.current, info.removed, info.changed, info.added);
    PlusAssociates(output, Removals(info.removed), Writes(info.changed, info.current), Writes(info.added, info.current));
  }

  /** The structs of `types` re-read one by one, each with its own diff. */
  method RefreshEach(info: AGKeyInfo, types: set<Typ>, data: Structs) returns (output: Diff, touched: bool)
    requires types != {}
    modifies info
    ensures info.current == Refreshed(old(info.current), Some(types), data)
    ensures output == DiffOf(old(info.current), info.current)
    ensures touched <==> output != map[]
  {
    output, touched := map[], false;
    ghost var s := info.current;
    var todo := types;
    ghost var done: set<Typ> := {};
    assert Some(done).value == {};
    while todo != {}
      invariant todo !! done && todo + done == types
      invariant info.current == RefreshedSome(s, done, data)
      invariant output == DiffOf(s, info.current)
      invariant touched <==> output != map[]
    {
      var t :| t in todo;
      ghost var past := info.current;
      info.UpdateSingle(t, Lookup(data, t));
      var r, more := Emit(info, output, past);
      RefreshOneMore(s, done, t, data);
      output, touched := r, touched || more;
      todo, done := todo - {t}, done + {t};
    }
    assert done == types;
  }

  lemma RefreshOneMore(s: Structs, done: set<Typ>, t: Typ, data: Structs)
    requires t !in done
    ensures var past, now := RefreshedSome(s, done, data), RefreshedSome(s, done + {t}, data);
            && now == (if t in data then past[t := data[t]] else past - {t})
            && DiffOf(s, past) + DiffOf(past, now) == DiffOf(s, now)
            && (DiffOf(s, now) != map[] <==> DiffOf(s, past) != map[] || DiffOf(past, now) != map[])
  {
    RefreshOne(s, done, t, data);
    DiffsAddUp(s, RefreshedSome(s, done, data), RefreshedSome(s, done + {t}, data), t);
  }

  lemma RefreshOne(s: Structs, done: set<Typ>, t: Typ, data: Structs)
    requires t !in done
    ensures var past, now := RefreshedSome(s, done, data), RefreshedSome(s, done + {t}, data);
            && now == (if t in data then past[t := data[t]] else past - {t})
            && Lookup(past, t) == Lookup(s, t)
            && (forall u :: u != t ==> Lookup(past, u) == Lookup(now, u))
  {
  }

  lemma DiffsAddUp(s: Structs, past: Structs, now: Structs, t: Typ)
    requires Lookup(past, t) == Lookup(s, t)
    requires forall u :: u != t ==> Lookup(past, u) == Lookup(now, u)
    ensures DiffOf(s, past) + DiffOf(past, now) == DiffOf(s, now)
    ensures DiffOf(s, now) != map[] <==> DiffOf(s, past) != map[] || DiffOf(past, now) != map[]
  {
    var a, b, c := DiffOf(s, past), DiffOf(past, now), DiffOf(s, now);
    forall u
      ensures u in c <==> u in a || u in b
      ensures u in c ==> c[u] == (a + b)[u]
    {
      DiffsAddUpAt(s, past, now, t, u);
    }
    SumIs(a, b, c);
  }

  lemma DiffsAddUpAt(s: Structs, past: Structs, now: Structs, t: Typ, u: Typ)
    requires if u == t then Lookup(past, t) == Lookup(s, t) else Lookup(past, u) == Lookup(now, u)
    ensures var a, b, c := DiffOf(s, past), DiffOf(past, now), DiffOf(s, now);
            (u in c <==> u in a || u in b) && (u in c ==> c[u] == (a + b)[u])
  {
    InDiff(s, past, u);
    InDiff(past, now, u);
    InDiff(s, now, u);
  }

  lemma SumIs(a: Diff, b: Diff, c: Diff)
    requires forall u :: (u in c <==> u in a || u in b) && (u in c ==> c[u] == (a + b)[u])
    ensures a + b == c && (c != map[] <==> a != map[] || b != map[])
  {
    assert c == map[] <==> c.Keys == {};
    assert a == map[] <==> a.Keys == {};
    assert b == map[] <==> b.Keys == {};
    assert c.Keys == a.Keys + b.Keys;
  }

  method Refresh(info: AGKeyInfo, types: Types, data: Structs) returns (output: Diff, touched: bool)
    modifies info
    ensures info.current == Refreshed(old(info.current), types, data)
    ensures output == DiffOf(old(info.current), info.current)
    ensures touched <==> output != map[]
  {
    if types.None? || types.value == {} {
      ghost var past := info.current;
      info.Update(data);
      output, touched := Emit(info, map[], past);
    } else {
      output, touched := RefreshEach(info, types.value, data);
    }
  }
}
