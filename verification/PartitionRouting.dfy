/**
  The choice of the Kafka partition of a UVE: contrail-collector/viz_collector.h and
  contrail-collector/OpServerProxy.cc.
 */
module PartitionRouting {
  // ----- PartitionRange

  datatype PartType = CNODES | PNODES | VMS | IFS | OTHER

  /** The first partition of a type, and how many it has. */
  function PartitionRange(ptype: PartType, partitions: nat): (r: (nat, nat))
    ensures partitions > 0 ==> r.1 > 0 && r.0 + r.1 <= partitions
  {
    if partitions < 15 then (0, partitions)
    else
      var pnodeparts := partitions / 15 + 1;
      var varparts := (partitions - 1 - pnodeparts) / 3;
      match ptype
      case CNODES => (0, 1)
      case PNODES => (1, pnodeparts)
      case VMS => (1 + pnodeparts, varparts)
      case IFS => (1 + pnodeparts + varparts, varparts)
      case OTHER => (1 + pnodeparts + 2 * varparts, partitions - (1 + pnodeparts + 2 * varparts))
  }

  predicate InRange(p: nat, ptype: PartType, partitions: nat) {
    var (first, count) := PartitionRange(ptype, partitions);
    first <= p < first + count
  }

  /** From 15 partitions on, each partition belongs to exactly one type. */
  lemma RangesPartition(p: nat, partitions: nat)
    requires partitions >= 15
    ensures p < partitions <==> exists t :: InRange(p, t, partitions)
    ensures forall t, u :: InRange(p, t, partitions) && InRange(p, u, partitions) ==> t == u
  {
    assert InRange(p, CNODES, partitions) <==> p < 1;
    if p < partitions {
      assert InRange(p, CNODES, partitions) || InRange(p, PNODES, partitions) || InRange(p, VMS, partitions) ||
             InRange(p, IFS, partitions) || InRange(p, OTHER, partitions);
    }
  }

  /**
    The ranges follow each other in this order: one partition for the control nodes, one and a
    fifteenth of all for the physical nodes, the same number for machines and interfaces, and at
    most two more than that for the others.
   */
  lemma RangesInOrder(partitions: nat)
    requires partitions >= 15
    ensures var (c, p, v, i, o) := (PartitionRange(CNODES, partitions), PartitionRange(PNODES, partitions),
                                    PartitionRange(VMS, partitions), PartitionRange(IFS, partitions), PartitionRange(OTHER, partitions));
            && c == (0, 1) && p.0 == 1 && 15 * (p.1 - 1) <= partitions < 15 * p.1
            && v.0 == p.0 + p.1 && i.0 == v.0 + v.1 && o.0 == i.0 + i.1 && o.0 + o.1 == partitions
            && v.1 == i.1 && v.1 <= o.1 <= v.1 + 2
  {
  }

  // ----- djb_hash

  const M := 0x1_0000_0000

  /** A byte added as a signed char. */
  function Signed(c: char): int {
    if c as int % 256 < 128 then c as int % 256 else c as int % 256 - 256
  }

  /** The hash over unbounded integers: a polynomial in 33. */
  function Polynomial(s: string): int {
    if s == [] then 5381 else 33 * Polynomial(s[..|s| - 1]) + Signed(s[|s| - 1])
  }

  function Hash(s: string): (h: nat)
    ensures h < M
  {
    Polynomial(s) % M
  }

  /** Reducing at each operation comes to reducing once. */
  lemma HashStep(a: int, b: int)
    ensures ((a % M) * 32 % M + a % M + b) % M == (33 * a + b) % M
  {
    var h := a % M;
    var q := a / M;
    assert a == h + q * M;
    var k := h * 32 / M;
    assert h * 32 % M == h * 32 + (-k) * M;
    ModShift(33 * h + b, -k);
    ModShift(33 * h + b, 33 * q);
  }

  lemma {:induction false} ModShift(x: int, k: int)
    ensures (x + k * M) % M == x % M
    decreases if k < 0 then -k else k
  {
    if k > 0 {
      ModShift(x, k - 1);
      assert x + k * M == x + (k - 1) * M + M;
    } else if k < 0 {
      ModShift(x, k + 1);
      assert x + k * M == x + (k + 1) * M - M;
    }
  }

  /** djb_hash, on 32 bits. */
  method DjbHash(s: string) returns (hash: nat)
    ensures hash == Hash(s)
  {
    hash := 5381;
    for i := 0 to |s|
      invariant hash == Polynomial(s[..i]) % M
    {
      assert s[..i + 1][..i] == s[..i];
      HashStep(Polynomial(s[..i]), Signed(s[i]));
      hash := (hash * 32 % M + hash + Signed(s[i])) % M;
    }
    assert s[..|s|] == s;
  }

  /** Known values of the hash: it starts at 5381, and a byte above 127 counts as negative. */
  lemma KnownHashes()
    ensures Hash("") == 5381 && Hash("a") == 177670 && Hash("ab") == 5863208 && Hash([0xff as char]) == 177572
  {
    assert Polynomial("") == 5381;
    assert "a"[..0] == "" && Polynomial("a") == 33 * 5381 + 97;
    assert "ab"[..1] == "a" && Polynomial("ab") == 33 * 177670 + 98;
    assert [0xff as char][..0] == "" && Polynomial([0xff as char]) == 33 * 5381 - 1;
  }

  // ----- The partition of a key

  function TypeOf(types: map<string, PartType>, table: string): PartType {
    if table in types then types[table] else OTHER
  }

  function Partition(types: map<string, PartType>, partitions: nat, table: string, barekey: string): (p: nat)
    requires partitions > 0
    ensures p < partitions && InRange(p, TypeOf(types, table), partitions)
  {
    var (first, count) := PartitionRange(TypeOf(types, table), partitions);
    first + Hash(table + ":" + barekey) % count
  }

  /** Of the partitions of its type, a key has the one that its hash selects. */
  lemma PartitionOfHash(types: map<string, PartType>, partitions: nat, table: string, barekey: string, p: nat)
    requires partitions > 0 && InRange(p, TypeOf(types, table), partitions)
    ensures p == Partition(types, partitions, table, barekey) <==>
            var (first, count) := PartitionRange(TypeOf(types, table), partitions);
            exists q :: Hash(table + ":" + barekey) == q * count + (p - first)
  {
    var (first, count) := PartitionRange(TypeOf(types, table), partitions);
    RemainderIff(Hash(table + ":" + barekey), count, p - first);
  }

  lemma RemainderIff(h: nat, count: nat, r: nat)
    requires r < count
    ensures h % count == r <==> exists q :: h == q * count + r
  {
    assert h == (h / count) * count + h % count;
    if q :| h == q * count + r {
      Remainder(h, count, q, r);
    }
  }

  lemma Remainder(h: nat, count: nat, q: int, r: nat)
    requires count > 0 && h == q * count + r && r < count
    ensures h % count == r
  {
    var d := q - h / count;
    assert d * count == h % count - r by {
      assert h == (h / count) * count + h % count;
    }
    if d >= 1 {
      AtLeastOnce(d, count);
    } else if d <= -1 {
      AtLeastOnce(-d, count);
    }
  }

  lemma AtLeastOnce(d: int, count: int)
    requires d >= 1 && count >= 0
    ensures d * count >= count
  {
  }

  // ----- DeleteUVEs

  /** boost::split at every ':'. */
  function Split(s: string): (v: seq<string>)
    ensures |v| > 0
  {
    if s == [] then [""]
    else
      var v := Split(s[1..]);
      if s[0] == ':' then [""] + v else [[s[0]] + v[0]] + v[1..]
  }

  function Join(v: seq<string>): string
    requires v != []
  {
    if |v| == 1 then v[0] else v[0] + ":" + Join(v[1..])
  }

  lemma {:induction false} JoinAppend(v: seq<string>, x: string)
    requires v != []
    ensures Join(v + [x]) == Join(v) + ":" + x
  {
    if |v| == 1 {
      assert (v + [x])[1..] == [x];
    } else {
      assert (v + [x])[1..] == v[1..] + [x];
      JoinAppend(v[1..], x);
    }
  }

  /** Splitting loses nothing. */
  lemma {:induction false} JoinSplit(s: string)
    ensures Join(Split(s)) == s
  {
    if s != [] {
      JoinSplit(s[1..]);
      var v := Split(s[1..]);
      if s[0] == ':' {
        assert ([""] + v)[1..] == v;
      } else {
        assert ([[s[0]] + v[0]] + v[1..])[1..] == v[1..];
      }
      assert s == [s[0]] + s[1..];
    }
  }

  lemma {:induction false} SplitAtFirst(table: string, barekey: string)
    requires ':' !in table
    ensures Split(table + ":" + barekey) == [table] + Split(barekey)
  {
    var s := table + ":" + barekey;
    if table == [] {
      assert s[1..] == barekey;
    } else {
      assert s[1..] == table[1..] + ":" + barekey;
      SplitAtFirst(table[1..], barekey);
      assert [table[0]] + table[1..] == table;
      assert ([table[1..]] + Split(barekey))[1..] == Split(barekey);
    }
  }

  /** The table and bare key that DeleteUVEs takes from a stored key. */
  method SplitStoredKey(uve: string) returns (table: string, barekey: string)
    requires |Split(uve)| > 1
    ensures table == Split(uve)[0] && barekey == Join(Split(uve)[1..])
  {
    var v := Split(uve);
    table, barekey := v[0], v[1];
    ghost var rest := v[1..];
    assert rest[..1] == [v[1]];
    for idx := 2 to |v|
      invariant barekey == Join(rest[..idx - 1])
    {
      assert rest[..idx] == rest[..idx - 1] + [v[idx]];
      JoinAppend(rest[..idx - 1], v[idx]);
      barekey := barekey + ":";
      barekey := barekey + v[idx];
    }
    assert rest[..|v| - 1] == rest;
  }

  lemma {:induction false} PieceHasNoColon(s: string)
    ensures ':' !in Split(s)[0]
  {
    if s != [] {
      PieceHasNoColon(s[1..]);
    }
  }

  /** The split finds the table and the bare key that made up the stored key exactly if the table has no ':'. */
  lemma RejoinIff(table: string, barekey: string)
    ensures |Split(table + ":" + barekey)| > 1
    ensures var v := Split(table + ":" + barekey);
            v[0] == table && Join(v[1..]) == barekey <==> ':' !in table
  {
    var key := table + ":" + barekey;
    ColonSplits(table, barekey);
    PieceHasNoColon(key);
    if ':' !in table {
      SplitAtFirst(table, barekey);
      assert Split(key)[1..] == Split(barekey);
      JoinSplit(barekey);
    }
  }

  lemma {:induction false} ColonSplits(a: string, b: string)
    ensures |Split(a + ":" + b)| > 1
  {
    var s := a + ":" + b;
    if a != [] {
      assert s[1..] == a[1..] + ":" + b;
      ColonSplits(a[1..], b);
    }
  }

  /** The marker for a deleted UVE goes to the partition on which the UVE was published. */
  lemma DeleteFindsPartition(types: map<string, PartType>, partitions: nat, table: string, barekey: string)
    requires partitions > 0 && ':' !in table
    ensures |Split(table + ":" + barekey)| > 1
    ensures var v := Split(table + ":" + barekey);
            Partition(types, partitions, v[0], Join(v[1..])) == Partition(types, partitions, table, barekey)
  {
    RejoinIff(table, barekey);
  }
}
