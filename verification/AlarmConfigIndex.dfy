/**
  The index of alarms by UVE key of contrail-opserver/alarmgen_config_handler.py, kept up to date
  with the alarm configuration: `_alarm_config_db` next to `_config_db`.
 */
module AlarmConfigIndex {
  import opened Options

  /** An alarm's configuration: the UVE keys it lists, and the rest of it. */
  datatype Config = Config(uveKeys: set<string>, rules: string)

  /** What the index has for an alarm: a plugin, or an alarm with its configuration. */
  datatype Entry = Inbuilt(plugin: string) | User(config: Config)

  type Table = map<string, Entry>
  type Index = map<string, Table>

  datatype Operation = CREATE | UPDATE | DELETE

  // ----- Translation of the configured keys

  function Colon(s: string): (r: nat)
    ensures r <= |s|
  {
    if s == [] || s[0] == ':' then 0 else 1 + Colon(s[1..])
  }

  /** The key under which the index files a configured key: its table name is replaced if UVE_MAP has it. */
  function Translate(uveMap: map<string, string>, key: string): string {
    var c := Colon(key);
    var table := key[..c];
    (if table in uveMap then uveMap[table] else table) + key[c..]
  }

  function TranslateAll(uveMap: map<string, string>, keys: set<string>): set<string> {
    set k | k in keys :: Translate(uveMap, k)
  }

  // ----- The index as a function of key and name

  function Lookup(db: Index, k: string, name: string): Option<Entry> {
    if k in db && name in db[k] then Some(db[k][name]) else None
  }

  /** No inner table is empty. */
  predicate NoEmpty(db: Index) {
    forall k :: k in db ==> db[k] != map[]
  }

  /** An index without empty tables is determined by its lookups. */
  lemma SameLookups(a: Index, b: Index)
    requires NoEmpty(a) && NoEmpty(b)
    requires forall k, n :: Lookup(a, k, n) == Lookup(b, k, n)
    ensures a == b
  {
    forall k
      ensures k in a <==> k in b
    {
      if k in a {
        var n :| n in a[k];
        assert Lookup(a, k, n).Some?;
      }
      if k in b {
        var n :| n in b[k];
        assert Lookup(b, k, n).Some?;
      }
    }
    forall k | k in a
      ensures a[k] == b[k]
    {
      assert forall n :: n in a[k] <==> Lookup(a, k, n).Some?;
      assert forall n :: n in b[k] <==> Lookup(b, k, n).Some?;
      assert forall n :: n in a[k] ==> a[k][n] == Lookup(a, k, n).value == Lookup(b, k, n).value == b[k][n];
    }
  }

  /** The index with one entry set, or removed. */
  function Stored(db: Index, k: string, name: string, entry: Option<Entry>): Index {
    var table := if k in db then db[k] else map[];
    var t := if entry.Some? then table[name := entry.value] else table - {name};
    if t == map[] then db - {k} else db[k := t]
  }

  lemma StoredLookup(db: Index, k: string, name: string, entry: Option<Entry>)
    requires NoEmpty(db)
    ensures NoEmpty(Stored(db, k, name, entry))
    ensures forall k', n :: Lookup(Stored(db, k, name, entry), k', n) ==
                            if k' == k && n == name then entry else Lookup(db, k', n)
  {
    var table := if k in db then db[k] else map[];
    if entry.Some? {
      assert name in table[name := entry.value];
    } else {
      assert forall n :: n != name && n in table ==> n in table - {name};
    }
  }

  /** `after` is `before` with the entry of `name` set to `entry` under the keys of `ks`. */
  ghost predicate SetUnder(before: Index, after: Index, ks: set<string>, name: string, entry: Option<Entry>) {
    NoEmpty(after) &&
    forall k, n :: Lookup(after, k, n) == if n == name && k in ks then entry else Lookup(before, k, n)
  }

  class ConfigHandler {
    var configs: map<string, Config>    // _config_db['alarm']
    var index: Index                    // _alarm_config_db
    const uveMap: map<string, string>

    constructor (uveMap: map<string, string>, inbuilt: Index)
      ensures this.uveMap == uveMap && configs == map[] && index == inbuilt
    {
      this.uveMap := uveMap;
      configs, index := map[], inbuilt;
    }

    /** _update_alarm_config_table for an alarm of the configuration. */
    method UpdateAlarmConfigTable(name: string, config: Option<Config>, uveKeys: set<string>, op: Operation)
      returns (changes: map<string, Operation>)
      requires NoEmpty(index) && (op == DELETE <==> config.None?)
      modifies this`index
      ensures SetUnder(old(index), index, TranslateAll(uveMap, uveKeys), name, if config.Some? then Some(User(config.value)) else None)
      ensures changes.Keys == TranslateAll(uveMap, uveKeys) && forall k :: k in changes ==> changes[k] == op
    {
      changes := map[];
      ghost var entry := if config.Some? then Some(User(config.value)) else None;
      var todo := uveKeys;
      ghost var done: set<string> := {};
      while todo != {}
        invariant forall k :: k in uveKeys <==> k in todo || k in done
        invariant SetUnder(old(index), index, TranslateAll(uveMap, done), name, entry)
        invariant changes.Keys == TranslateAll(uveMap, done) && forall k :: k in changes ==> changes[k] == op
      {
        var key :| key in todo;
        var uveKey := Translate(uveMap, key);
        SetOneMore(old(index), index, TranslateAll(uveMap, done), uveKey, name, entry);
        assert TranslateAll(uveMap, done + {key}) == TranslateAll(uveMap, done) + {uveKey};
        StoreOne(uveKey, name, config);
        changes := changes[uveKey := op];
        todo, done := todo - {key}, done + {key};
      }
      assert done == uveKeys;
    }

    method StoreOne(uveKey: string, name: string, config: Option<Config>)
      modifies this`index
      ensures index == Stored(old(index), uveKey, name, if config.Some? then Some(User(config.value)) else None)
    {
      if uveKey !in index {
        index := index[uveKey := map[]];
      }
      var alarmTable := index[uveKey];
      if config.Some? {
        alarmTable := alarmTable[name := User(config.value)];
        assert name in alarmTable;
        index := index[uveKey := alarmTable];
      } else {
        alarmTable := alarmTable - {name};
        index := index[uveKey := alarmTable];
        if alarmTable == map[] {
          index := index - {uveKey};
        }
      }
    }

    ghost function View(): State
      reads this
    {
      State(configs, index)
    }

    /** _handle_config_update for an alarm; the result is what the change callback is given. */
    method HandleConfigUpdate(op: ConfigOp) returns (changes: map<string, Operation>)
      requires NoEmpty(index)
      modifies this
      ensures Steps(uveMap, old(View()), op, View())
      ensures forall k, n :: Lookup(index, k, n) != Lookup(old(index), k, n) ==> k in changes
      ensures op.Update? && !op.hasRules ==> configs == old(configs) && index == old(index) && changes == map[]
      ensures op.Update? && op.hasRules ==> configs == old(configs)[op.name := op.config]
      ensures op.Update? && op.hasRules && op.name !in old(configs) ==>
                changes.Keys == TranslateAll(uveMap, op.config.uveKeys) && forall k :: k in changes ==> changes[k] == CREATE
      ensures op.Delete? ==> forall k :: k in changes ==> changes[k] == DELETE
    {
      changes := map[];
      match op
      case Update(name, config, hasRules) =>
        if !hasRules {
          return;
        }
        if name !in configs {
          changes := UpdateAlarmConfigTable(name, Some(config), config.uveKeys, CREATE);
        } else {
          changes := Reconcile(name, configs[name].uveKeys, config);
        }
        configs := configs[name := config];
      case Delete(name) =>
        if name in configs {
          changes := UpdateAlarmConfigTable(name, None, configs[name].uveKeys, DELETE);
          configs := configs - {name};
        }
    }

    /** The three passes over an alarm that was already configured: new keys, dropped keys, kept keys. */
    method Reconcile(name: string, oldKeys: set<string>, config: Config) returns (changes: map<string, Operation>)
      requires NoEmpty(index)
      modifies this`index
      ensures NoEmpty(index) && forall k, n ::
                Lookup(index, k, n) == if n == name then Reconciled(uveMap, oldKeys, config, k, Lookup(old(index), k, n))
                                       else Lookup(old(index), k, n)
      ensures changes.Keys == TranslateAll(uveMap, config.uveKeys - oldKeys) + TranslateAll(uveMap, oldKeys - config.uveKeys)
                              + TranslateAll(uveMap, config.uveKeys * oldKeys)
      ensures forall k :: k in changes ==>
                changes[k] == if k in TranslateAll(uveMap, config.uveKeys * oldKeys) then UPDATE
                              else if k in TranslateAll(uveMap, oldKeys - config.uveKeys) then DELETE else CREATE
    {
      var added := UpdateAlarmConfigTable(name, Some(config), config.uveKeys - oldKeys, CREATE);
      var dropped := UpdateAlarmConfigTable(name, None, oldKeys - config.uveKeys, DELETE);
      var kept := UpdateAlarmConfigTable(name, Some(config), config.uveKeys * oldKeys, UPDATE);
      changes := added + dropped + kept;
    }
  }

  // ----- What an operation does

  datatype State = State(configs: map<string, Config>, index: Index)

  datatype ConfigOp = Update(name: string, config: Config, hasRules: bool) | Delete(name: string)

  /** What the three passes leave under `k` for an alarm that had `before` there. */
  function Reconciled(uveMap: map<string, string>, oldKeys: set<string>, config: Config, k: string, before: Option<Entry>)
    : Option<Entry>
  {
    if k in TranslateAll(uveMap, config.uveKeys * oldKeys) then Some(User(config))
    else if k in TranslateAll(uveMap, oldKeys - config.uveKeys) then None
    else if k in TranslateAll(uveMap, config.uveKeys - oldKeys) then Some(User(config))
    else before
  }

  ghost predicate Steps(uveMap: map<string, string>, s: State, op: ConfigOp, s': State) {
    && NoEmpty(s'.index)
    && match op
       case Update(name, config, hasRules) =>
         if !hasRules then s' == s
         else
           && s'.configs == s.configs[name := config]
           && (forall k, n :: Lookup(s'.index, k, n) ==
                 if n != name then Lookup(s.index, k, n)
                 else if name in s.configs then Reconciled(uveMap, s.configs[name].uveKeys, config, k, Lookup(s.index, k, n))
                 else if k in TranslateAll(uveMap, config.uveKeys) then Some(User(config))
                 else Lookup(s.index, k, n))
       case Delete(name) =>
         && s'.configs == s.configs - {name}
         && (forall k, n :: Lookup(s'.index, k, n) ==
               if n == name && name in s.configs && k in TranslateAll(uveMap, s.configs[name].uveKeys) then None
               else Lookup(s.index, k, n))
  }

  // ----- Agreement

  /** What the index must have, given the configurations in force and the inbuilt alarms. */
  function Expected(uveMap: map<string, string>, inbuilt: Index, configs: map<string, Config>, k: string, n: string)
    : Option<Entry>
  {
    if n !in configs then Lookup(inbuilt, k, n)
    else if k in TranslateAll(uveMap, configs[n].uveKeys) then Some(User(configs[n]))
    else None
  }

  ghost predicate Agrees(uveMap: map<string, string>, inbuilt: Index, s: State) {
    && NoEmpty(s.index)
    && (forall k, n :: Lookup(s.index, k, n) == Expected(uveMap, inbuilt, s.configs, k, n))
    && (forall n :: n in s.configs ==> IsUserName(inbuilt, n))
  }

  /** No inbuilt alarm has this name. */
  ghost predicate IsUserName(inbuilt: Index, name: string) {
    forall k :: Lookup(inbuilt, k, name) == None
  }

  function OpName(op: ConfigOp): string {
    op.name
  }

  /**
    An update does no harm: a key that it newly lists is not filed, by translation, where a key that
    it drops was, unless a key that it keeps is filed there too.
   */
  ghost predicate Harmless(uveMap: map<string, string>, s: State, op: ConfigOp) {
    op.Update? && op.hasRules && op.name in s.configs ==>
      var was, now := s.configs[op.name].uveKeys, op.config.uveKeys;
      forall k :: k in TranslateAll(uveMap, now - was) && k in TranslateAll(uveMap, was - now) ==>
                  k in TranslateAll(uveMap, now * was)
  }

  lemma TranslateSplits(uveMap: map<string, string>, a: set<string>, b: set<string>)
    ensures TranslateAll(uveMap, a) == TranslateAll(uveMap, a - b) + TranslateAll(uveMap, a * b)
  {
    forall k | k in TranslateAll(uveMap, a)
      ensures k in TranslateAll(uveMap, a - b) + TranslateAll(uveMap, a * b)
    {
      var key :| key in a && Translate(uveMap, key) == k;
      assert key in a - b || key in a * b;
    }
  }

  /** Agreement is kept by an operation exactly if it does no harm. */
  lemma AgreementKeptIff(uveMap: map<string, string>, inbuilt: Index, s: State, op: ConfigOp, s': State)
    requires Agrees(uveMap, inbuilt, s) && IsUserName(inbuilt, OpName(op)) && Steps(uveMap, s, op, s')
    ensures Agrees(uveMap, inbuilt, s') <==> Harmless(uveMap, s, op)
  {
    if op.Update? && op.hasRules && op.name in s.configs {
      ReconciledAgrees(uveMap, inbuilt, s, op, s');
    } else {
      forall k, n
        ensures Lookup(s'.index, k, n) == Expected(uveMap, inbuilt, s'.configs, k, n)
      {
        AgreesAt(uveMap, inbuilt, s, op, s', k, n);
      }
    }
  }

  lemma AgreesAt(uveMap: map<string, string>, inbuilt: Index, s: State, op: ConfigOp, s': State, k: string, n: string)
    requires Agrees(uveMap, inbuilt, s) && IsUserName(inbuilt, OpName(op)) && Steps(uveMap, s, op, s')
    requires !(op.Update? && op.hasRules && op.name in s.configs)
    ensures Lookup(s'.index, k, n) == Expected(uveMap, inbuilt, s'.configs, k, n)
  {
    assert Lookup(s.index, k, n) == Expected(uveMap, inbuilt, s.configs, k, n);
  }

  lemma ReconciledAgrees(uveMap: map<string, string>, inbuilt: Index, s: State, op: ConfigOp, s': State)
    requires Agrees(uveMap, inbuilt, s) && Steps(uveMap, s, op, s')
    requires op.Update? && op.hasRules && op.name in s.configs
    ensures Agrees(uveMap, inbuilt, s') <==> Harmless(uveMap, s, op)
  {
    var was, now, name := s.configs[op.name].uveKeys, op.config.uveKeys, op.name;
    TranslateSplits(uveMap, now, was);
    TranslateSplits(uveMap, was, now);
    assert was * now == now * was;
    forall k, n | n != name
      ensures Lookup(s'.index, k, n) == Expected(uveMap, inbuilt, s'.configs, k, n)
    {
      assert Lookup(s.index, k, n) == Expected(uveMap, inbuilt, s.configs, k, n);
    }
    forall k
      ensures Lookup(s'.index, k, name) == Expected(uveMap, inbuilt, s'.configs, k, name) <==>
              !(k in TranslateAll(uveMap, now - was) && k in TranslateAll(uveMap, was - now)
                && k !in TranslateAll(uveMap, now * was))
    {
      assert Lookup(s.index, k, name) == Expected(uveMap, inbuilt, s.configs, k, name);
    }
  }

  /** If no two of the keys translate to the same one, no update does harm. */
  lemma DistinctKeysAreHarmless(uveMap: map<string, string>, s: State, op: ConfigOp)
    requires op.Update? && op.name in s.configs
    requires forall a, b ::
               a in s.configs[op.name].uveKeys + op.config.uveKeys && b in s.configs[op.name].uveKeys + op.config.uveKeys ==>
                 (Translate(uveMap, a) == Translate(uveMap, b) ==> a == b)
    ensures Harmless(uveMap, s, op)
  {
  }

  /**
    Over every run of updates and deletions that do no harm, the index has exactly the alarms whose
    latest configuration lists the key, each with that configuration, next to the inbuilt alarms;
    and none of its tables is empty.
   */
  lemma {:induction false} AgreementOverRuns(uveMap: map<string, string>, inbuilt: Index, states: seq<State>, ops: seq<ConfigOp>)
    requires |states| == |ops| + 1 && NoEmpty(inbuilt) && states[0] == State(map[], inbuilt)
    requires forall i :: 0 <= i < |ops| ==>
                           && Steps(uveMap, states[i], ops[i], states[i + 1])
                           && IsUserName(inbuilt, OpName(ops[i])) && Harmless(uveMap, states[i], ops[i])
    ensures Agrees(uveMap, inbuilt, states[|ops|])
    decreases |ops|
  {
    if ops != [] {
      var n := |ops| - 1;
      AgreementOverRuns(uveMap, inbuilt, states[..n + 1], ops[..n]);
      AgreementKeptIff(uveMap, inbuilt, states[n], ops[n], states[n + 1]);
    }
  }

  /** Harm done: an alarm moved from one key to another of the same translation leaves the index. */
  lemma MovedKeyIsLost(uveMap: map<string, string>, s: State, s': State, name: string, config: Config, was: string, now: string)
    requires was != now && Translate(uveMap, was) == Translate(uveMap, now)
    requires name in s.configs && s.configs[name].uveKeys == {was} && config.uveKeys == {now}
    requires Steps(uveMap, s, Update(name, config, true), s')
    ensures s'.configs[name] == config && Lookup(s'.index, Translate(uveMap, now), name) == None
  {
    assert config.uveKeys * s.configs[name].uveKeys == {};
    assert was in s.configs[name].uveKeys - config.uveKeys;
  }

  lemma {:induction false} ColonAt(table: string, name: string)
    requires ':' !in table
    ensures Colon(table + ":" + name) == |table|
  {
    var s := table + ":" + name;
    if table != [] {
      assert s[1..] == table[1..] + ":" + name;
      ColonAt(table[1..], name);
    }
  }

  /** A key of a table and a name: the table is translated, and the name stays. */
  lemma TranslateNamed(uveMap: map<string, string>, table: string, name: string)
    requires ':' !in table
    ensures Translate(uveMap, table + ":" + name) == (if table in uveMap then uveMap[table] else table) + ":" + name
  {
    var key := table + ":" + name;
    ColonAt(table, name);
    assert key[..|table|] == table && key[|table|..] == ":" + name;
    var t := if table in uveMap then uveMap[table] else table;
    assert t + (":" + name) == t + ":" + name;
  }

  /** A key that is only a table. */
  lemma TranslateTable(uveMap: map<string, string>, table: string)
    requires ':' !in table
    ensures Translate(uveMap, table) == if table in uveMap then uveMap[table] else table
  {
    ColonAbsent(table);
    assert table[..|table|] == table && table[|table|..] == [];
  }

  lemma ColonAbsent(s: string)
    requires ':' !in s
    ensures Colon(s) == |s|
  {
  }

  /** UVE_MAP itself makes two such keys: a table and its translation. */
  lemma TableAndItsTranslation(uveMap: map<string, string>, table: string)
    requires table in uveMap && uveMap[table] !in uveMap && ':' !in table && ':' !in uveMap[table]
    ensures Translate(uveMap, table) == Translate(uveMap, uveMap[table]) == uveMap[table]
  {
    ColonAbsent(table);
    ColonAbsent(uveMap[table]);
    var name := uveMap[table];
    assert table[..|table|] == table && table[|table|..] == [];
    assert name[..|name|] == name && name[|name|..] == [];
  }

  lemma SetOneMore(before: Index, now: Index, ks: set<string>, k: string, name: string, entry: Option<Entry>)
    requires SetUnder(before, now, ks, name, entry)
    ensures SetUnder(before, Stored(now, k, name, entry), ks + {k}, name, entry)
  {
    StoredLookup(now, k, name, entry);
  }
}
