/**
  The index of IP networks by VPN, from contrail-collector/structured_syslog_config.cc: a vector of
  address ranges for each VPN, kept sorted by where the range begins, and the lookup of the site
  that an address belongs to.
 */
module NetworkIndex {
  import opened Options

  /** IPNetwork: an address range and the location it belongs to. */
  datatype Net = Net(lo: nat, hi: nat, id: string)

  const UINT32_MAX: nat := 0xffff_ffff

  function Range(n: Net): int {
    n.hi - n.lo
  }

  // ----- Masks, on 32-bit numbers

  function And(a: nat, b: nat): nat {
    if a == 0 || b == 0 then 0 else 2 * And(a / 2, b / 2) + (a % 2) * (b % 2)
  }

  function Or(a: nat, b: nat): nat {
    if a == 0 then b else if b == 0 then a else 2 * Or(a / 2, b / 2) + if a % 2 + b % 2 == 0 then 0 else 1
  }

  function Not(a: nat): nat
    requires a <= UINT32_MAX
  {
    UINT32_MAX - a
  }

  /** The range that AddNetwork makes of an address and a mask. */
  function NetOf(network: nat, mask: nat, location: string): Net
    requires mask <= UINT32_MAX
  {
    var lo := And(network, mask);
    Net(lo, Or(lo, Not(mask)), location)
  }

  function Pow2(k: nat): (r: nat)
    ensures r > 0
  {
    if k == 0 then 1 else 2 * Pow2(k - 1)
  }

  /** The mask of a prefix that leaves `k` bits to the hosts. */
  function PrefixMask(w: nat, k: nat): nat
    requires k <= w
  {
    PowGrows(k, w);
    Pow2(w) - Pow2(k)
  }

  lemma {:induction false} PowGrows(k: nat, w: nat)
    requires k <= w
    ensures Pow2(k) <= Pow2(w)
  {
    if k < w {
      PowGrows(k, w - 1);
    }
  }

  lemma {:induction false} OrGrows(a: nat, b: nat)
    ensures Or(a, b) >= a
  {
    if a != 0 && b != 0 {
      OrGrows(a / 2, b / 2);
    }
  }

  /** Masking with a prefix rounds down to a multiple of its block size. */
  lemma {:induction false} AndPrefix(a: nat, w: nat, k: nat)
    requires k <= w && a < Pow2(w)
    ensures And(a, PrefixMask(w, k)) == a - a % Pow2(k)
    decreases w
  {
    if k == 0 {
      AndAll(a, w);
    } else {
      AndPrefix(a / 2, w - 1, k - 1);
      AndDouble(a, PrefixMask(w - 1, k - 1));
      HalfMod(a, Pow2(k - 1));
    }
  }

  lemma {:induction false} AndDouble(a: nat, m: nat)
    ensures And(a, 2 * m) == 2 * And(a / 2, m)
  {
    if a > 0 && m > 0 {
      assert 2 * m / 2 == m && 2 * m % 2 == 0;
    }
  }

  lemma {:induction false} AndAll(a: nat, w: nat)
    requires a < Pow2(w)
    ensures And(a, PrefixMask(w, 0)) == a
  {
    if a > 0 {
      var m := PrefixMask(w, 0);
      assert m / 2 == PrefixMask(w - 1, 0) && m % 2 == 1;
      AndAll(a / 2, w - 1);
    }
  }

  lemma HalfMod(a: nat, b: nat)
    requires b > 0
    ensures a % (2 * b) == 2 * ((a / 2) % b) + a % 2
  {
    var q, r := (a / 2) / b, (a / 2) % b;
    assert a == 2 * (q * b + r) + a % 2;
    assert a == q * (2 * b) + (2 * r + a % 2);
    ModUnique(a, 2 * b, q, 2 * r + a % 2);
  }

  lemma ModUnique(a: nat, b: nat, q: nat, r: nat)
    requires b > 0 && a == q * b + r && r < b
    ensures a % b == r && a / b == q
  {
    var d := q - a / b;
    assert d * b == a % b - r by {
      assert a == (a / b) * b + a % b;
    }
    if d > 0 {
      AtLeastOnce(d, b);
    } else if d < 0 {
      AtLeastOnce(-d, b);
    }
  }

  lemma AtLeastOnce(d: int, b: int)
    requires d >= 1 && b >= 0
    ensures d * b >= b
  {
  }

  /** Filling the host bits of a multiple of the block size reaches the end of the block. */
  lemma {:induction false} OrHosts(lo: nat, k: nat)
    requires lo % Pow2(k) == 0
    ensures Or(lo, Pow2(k) - 1) == lo + Pow2(k) - 1
    decreases k
  {
    if k > 0 && lo != 0 {
      HalfMod(lo, Pow2(k - 1));
      OrHosts(lo / 2, k - 1);
    }
  }

  // ----- The sorted vector

  ghost predicate Sorted(v: seq<Net>) {
    forall i, j :: 0 <= i < j < |v| ==> v[i].lo <= v[j].lo
  }

  /** std::upper_bound: how many ranges begin at or before `x`. */
  function Upper(v: seq<Net>, x: nat): (r: nat)
    ensures r <= |v|
    ensures forall i :: 0 <= i < r ==> v[i].lo <= x
    ensures r < |v| ==> v[r].lo > x
  {
    if v == [] || v[0].lo > x then 0 else 1 + Upper(v[1..], x)
  }

  function Insert(v: seq<Net>, n: Net): seq<Net> {
    v[..Upper(v, n.lo)] + [n] + v[Upper(v, n.lo)..]
  }

  /** The vector that adding the networks of `h` in order leaves. */
  function Index(h: seq<Net>): seq<Net> {
    if h == [] then [] else Insert(Index(h[..|h| - 1]), h[|h| - 1])
  }

  function Without(v: seq<Net>, location: string): seq<Net> {
    if v == [] then []
    else if v[0].id == location then Without(v[1..], location)
    else [v[0]] + Without(v[1..], location)
  }

  /** An insertion splits the vector into what begins no later and what begins later. */
  lemma {:induction false} InsertSplits(v: seq<Net>, n: Net) returns (s: seq<Net>, t: seq<Net>)
    requires Sorted(v)
    ensures v == s + t && Insert(v, n) == s + [n] + t
    ensures forall x :: x in s ==> x.lo <= n.lo
    ensures forall x :: x in t ==> x.lo > n.lo
  {
    var u := Upper(v, n.lo);
    s, t := v[..u], v[u..];
    assert v == s + t;
    LaterBegin(v, u, n.lo);
  }

  lemma {:induction false} InsertSorted(v: seq<Net>, n: Net)
    requires Sorted(v)
    ensures Sorted(Insert(v, n))
  {
    var s, t := InsertSplits(v, n);
    forall i, j | 0 <= i < j < |s + [n] + t|
      ensures (s + [n] + t)[i].lo <= (s + [n] + t)[j].lo
    {
      SortedWithin(s, t, i, j, n);
    }
  }

  lemma SortedWithin(s: seq<Net>, t: seq<Net>, i: nat, j: nat, n: Net)
    requires Sorted(s + t) && i < j <= |s| + |t|
    requires forall x :: x in s ==> x.lo <= n.lo
    requires forall x :: x in t ==> x.lo > n.lo
    ensures (s + [n] + t)[i].lo <= (s + [n] + t)[j].lo
  {
    if j < |s| {
      assert (s + t)[i].lo <= (s + t)[j].lo;
    } else if i < |s| {
      assert s[i] in s;
      assert j > |s| ==> t[j - |s| - 1] in t;
    } else {
      assert t[j - |s| - 1] in t;
      if i > |s| {
        assert (s + t)[i - 1].lo <= (s + t)[j - 1].lo;
      }
    }
  }

  lemma {:induction false} IndexSorted(h: seq<Net>)
    ensures Sorted(Index(h))
  {
    if h != [] {
      IndexSorted(h[..|h| - 1]);
      InsertSorted(Index(h[..|h| - 1]), h[|h| - 1]);
    }
  }

  // ----- The lookup, and what it means

  /** The network counts for a lookup of `a` from `src`. */
  predicate Eligible(n: Net, a: nat, src: string) {
    n.lo <= a <= n.hi && n.id != src && Range(n) < UINT32_MAX
  }

  /** `n` replaces the best network so far if its range is not larger. */
  function Better(best: Option<Net>, n: Net, a: nat, src: string): Option<Net> {
    if Eligible(n, a, src) && (best.None? || Range(n) <= Range(best.value)) then Some(n) else best
  }

  /** Of the eligible networks of `s`, the last one with the smallest range. */
  function BestFrom(best: Option<Net>, s: seq<Net>, a: nat, src: string): Option<Net>
    decreases |s|
  {
    if s == [] then best else BestFrom(Better(best, s[0], a, src), s[1..], a, src)
  }

  function Best(s: seq<Net>, a: nat, src: string): Option<Net> {
    BestFrom(None, s, a, src)
  }

  ghost predicate IsBest(s: seq<Net>, w: nat, a: nat, src: string) {
    && w < |s| && Eligible(s[w], a, src)
    && (forall j :: 0 <= j < |s| && Eligible(s[j], a, src) ==> Range(s[w]) <= Range(s[j]))
    && (forall j :: w < j < |s| && Eligible(s[j], a, src) ==> Range(s[w]) < Range(s[j]))
  }

  lemma {:induction false} BestAppend(best: Option<Net>, s: seq<Net>, n: Net, a: nat, src: string)
    ensures BestFrom(best, s + [n], a, src) == Better(BestFrom(best, s, a, src), n, a, src)
    decreases |s|
  {
    if s == [] {
      assert [n][1..] == [];
    } else {
      assert (s + [n])[1..] == s[1..] + [n];
      BestAppend(Better(best, s[0], a, src), s[1..], n, a, src);
    }
  }

  /** `Best` is what its name says, and is None exactly if no network is eligible. */
  lemma {:induction false} BestMeans(s: seq<Net>, a: nat, src: string) returns (w: nat)
    ensures Best(s, a, src).None? ==> forall j :: 0 <= j < |s| ==> !Eligible(s[j], a, src)
    ensures Best(s, a, src).Some? ==> IsBest(s, w, a, src) && Best(s, a, src).value == s[w]
  {
    w := 0;
    if s != [] {
      var n := |s| - 1;
      assert s == s[..n] + [s[n]];
      BestAppend(None, s[..n], s[n], a, src);
      var before := Best(s[..n], a, src);
      w := BestMeans(s[..n], a, src);
      if Eligible(s[n], a, src) && (before.None? || Range(s[n]) <= Range(before.value)) {
        w := n;
      }
    }
  }

  // ----- The vector agrees with the history

  /** A range as a mask with a prefix makes it: aligned to its own size. */
  predicate IsBlock(n: Net) {
    n.lo <= n.hi && n.lo % (Range(n) + 1) == 0
  }

  const BITS: nat := 32

  lemma {:induction false} PowAdds(a: nat, b: nat)
    ensures Pow2(a + b) == Pow2(a) * Pow2(b)
  {
    if a > 0 {
      PowAdds(a - 1, b);
    }
  }

  lemma {:induction false} WordSize()
    ensures Pow2(BITS) == UINT32_MAX + 1
  {
    HalfWord();
    PowAdds(16, 16);
  }

  lemma {:induction false} HalfWord()
    ensures Pow2(16) == 0x1_0000
  {
    assert Pow2(4) == 16;
    PowAdds(4, 4);
    PowAdds(8, 8);
  }

  /** A prefix of 32 - k bits makes a block of 2^k addresses, so the longer prefix has the smaller range. */
  lemma {:induction false} PrefixNet(network: nat, mask: nat, k: nat, location: string)
    requires network <= UINT32_MAX && mask <= UINT32_MAX
    requires k <= BITS && mask == PrefixMask(BITS, k)
    ensures var n := NetOf(network, mask, location);
            && n.lo == network - network % Pow2(k) && n.hi == n.lo + Pow2(k) - 1 && n.id == location
            && IsBlock(n)
  {
    MaskedLow(network, mask, k);
    OrHosts(And(network, mask), k);
  }

  lemma {:induction false} MaskedLow(network: nat, mask: nat, k: nat)
    requires network <= UINT32_MAX && k <= BITS && mask == PrefixMask(BITS, k)
    ensures mask <= UINT32_MAX && Not(mask) == Pow2(k) - 1
    ensures And(network, mask) == network - network % Pow2(k) && And(network, mask) % Pow2(k) == 0
  {
    WordSize();
    AndPrefix(network, BITS, k);
    Multiple(network, Pow2(k));
  }

  lemma Multiple(a: nat, b: nat)
    requires b > 0
    ensures (a - a % b) % b == 0
  {
    ModUnique(a - a % b, b, a / b, 0);
  }

  /** Two blocks of the same size with a common address are the same block. */
  lemma SameBlock(n: Net, x: Net, a: nat)
    requires IsBlock(n) && IsBlock(x) && Range(n) == Range(x)
    requires n.lo <= a <= n.hi && x.lo <= a <= x.hi
    ensures n.lo == x.lo
  {
    var b := Range(n) + 1;
    BlockOf(a, n.lo, b);
    BlockOf(a, x.lo, b);
  }

  lemma BlockOf(a: nat, lo: nat, b: nat)
    requires b > 0 && lo % b == 0 && lo <= a < lo + b
    ensures lo == (a / b) * b
  {
    ModUnique(a, b, lo / b, a - lo);
  }

  /** In a history, a smaller range wins, then the range that begins later, then the later addition. */
  function Preferred(best: Option<Net>, n: Net, a: nat, src: string): Option<Net> {
    if Eligible(n, a, src) &&
       (best.None? || Range(n) < Range(best.value) || (Range(n) == Range(best.value) && n.lo >= best.value.lo))
    then Some(n) else best
  }

  function BestInHistory(h: seq<Net>, a: nat, src: string): Option<Net> {
    if h == [] then None
    else Preferred(BestInHistory(h[..|h| - 1], a, src), h[|h| - 1], a, src)
  }

  /** In the vector, a network that sits before those that begin later counts as if it came last in the history. */
  lemma {:induction false} BestMoves(best: Option<Net>, n: Net, t: seq<Net>, a: nat, src: string)
    requires best.Some? ==> best.value.lo <= n.lo
    requires forall x :: x in t ==> x.lo > n.lo
    ensures BestFrom(Better(best, n, a, src), t, a, src) == Preferred(BestFrom(best, t, a, src), n, a, src)
    decreases |t|
  {
    if t != [] {
      var before, x := t[..|t| - 1], t[|t| - 1];
      assert t == before + [x] && x in t;
      BestMoves(best, n, before, a, src);
      BestAppend(best, before, x, a, src);
      BestAppend(Better(best, n, a, src), before, x, a, src);
    }
  }

  lemma {:induction false} BestIsMember(s: seq<Net>, a: nat, src: string)
    ensures Best(s, a, src).Some? ==> Best(s, a, src).value in s
  {
    var w := BestMeans(s, a, src);
  }

  lemma {:induction false} BestJoins(best: Option<Net>, s: seq<Net>, t: seq<Net>, a: nat, src: string)
    ensures BestFrom(best, s + t, a, src) == BestFrom(BestFrom(best, s, a, src), t, a, src)
    decreases |s|
  {
    if s == [] {
      assert s + t == t;
    } else {
      assert (s + t)[1..] == s[1..] + t;
      BestJoins(Better(best, s[0], a, src), s[1..], t, a, src);
    }
  }

  lemma {:induction false} InsertIsLast(v: seq<Net>, n: Net, a: nat, src: string)
    requires Sorted(v)
    ensures Best(Insert(v, n), a, src) == Preferred(Best(v, a, src), n, a, src)
  {
    var s, t := InsertSplits(v, n);
    BestJoins(None, s, t, a, src);
    BestJoins(None, s + [n], t, a, src);
    BestAppend(None, s, n, a, src);
    BestIsMember(s, a, src);
    BestMoves(Best(s, a, src), n, t, a, src);
  }

  /** For all masks: the lookup in the vector finds what `BestInHistory` says about the history. */
  lemma {:induction false} IndexAgrees(h: seq<Net>, a: nat, src: string)
    ensures Best(Index(h), a, src) == BestInHistory(h, a, src)
  {
    if h != [] {
      var before, n := h[..|h| - 1], h[|h| - 1];
      IndexAgrees(before, a, src);
      IndexSorted(before);
      InsertIsLast(Index(before), n, a, src);
    }
  }

  ghost predicate Blocks(h: seq<Net>) {
    forall i :: 0 <= i < |h| ==> IsBlock(h[i])
  }

  /**
    With prefixes as masks it is the most recent addition among the longest prefixes that hold the
    address: equal ranges with a common address begin at the same place.
   */
  lemma {:induction false} LongestPrefix(h: seq<Net>, a: nat, src: string)
    requires Blocks(h)
    ensures Best(Index(h), a, src) == Best(h, a, src)
    ensures Best(h, a, src).Some? ==> Best(h, a, src).value in h && Eligible(Best(h, a, src).value, a, src)
  {
    BestIsMember(h, a, src);
    var _ := BestMeans(h, a, src);
    if h != [] {
      var before, n := h[..|h| - 1], h[|h| - 1];
      assert h == before + [n];
      LongestPrefix(before, a, src);
      IndexAgrees(before, a, src);
      IndexAgrees(h, a, src);
      BestAppend(None, before, n, a, src);
      var best := Best(before, a, src);
      if best.Some? && Eligible(n, a, src) && Range(n) == Range(best.value) {
        assert IsBlock(n) && IsBlock(best.value);
        SameBlock(n, best.value, a);
      }
    }
  }

  ghost predicate IsBestInHistory(h: seq<Net>, w: nat, a: nat, src: string) {
    && w < |h| && Eligible(h[w], a, src)
    && (forall j :: 0 <= j < |h| && Eligible(h[j], a, src) ==>
          Range(h[w]) < Range(h[j]) || (Range(h[w]) == Range(h[j]) && h[j].lo <= h[w].lo))
    && (forall j :: w < j < |h| && Eligible(h[j], a, src) && Range(h[j]) == Range(h[w]) ==> h[j].lo < h[w].lo)
  }

  ghost predicate NoneEligible(h: seq<Net>, a: nat, src: string) {
    forall j :: 0 <= j < |h| ==> !Eligible(h[j], a, src)
  }

  /** The network is preferred to the best one so far. */
  predicate Beats(n: Net, best: Net) {
    Range(n) < Range(best) || (Range(n) == Range(best) && n.lo >= best.lo)
  }

  lemma StillBest(h: seq<Net>, n: Net, w: nat, a: nat, src: string)
    requires IsBestInHistory(h, w, a, src) && !(Eligible(n, a, src) && Beats(n, h[w]))
    ensures IsBestInHistory(h + [n], w, a, src)
  {
  }

  lemma NowBest(h: seq<Net>, n: Net, w: nat, a: nat, src: string)
    requires Eligible(n, a, src) && (NoneEligible(h, a, src) || (IsBestInHistory(h, w, a, src) && Beats(n, h[w])))
    ensures IsBestInHistory(h + [n], |h|, a, src)
  {
  }

  lemma {:induction false} BestInHistoryMeans(h: seq<Net>, a: nat, src: string) returns (w: nat)
    ensures BestInHistory(h, a, src).None? ==> NoneEligible(h, a, src)
    ensures BestInHistory(h, a, src).Some? ==>
              IsBestInHistory(h, w, a, src) && BestInHistory(h, a, src).value == h[w]
  {
    w := 0;
    if h != [] {
      var before, n := h[..|h| - 1], h[|h| - 1];
      var best := BestInHistory(before, a, src);
      w := BestInHistoryMeans(before, a, src);
      assert h == before + [n];
      if Eligible(n, a, src) && (best.None? || Beats(n, best.value)) {
        NowBest(before, n, w, a, src);
        w := |before|;
      } else if best.Some? {
        StillBest(before, n, w, a, src);
      }
    }
  }

  /**
    For all masks, the lookup gives the most recent of the smallest ranges exactly if none of the
    others of that size begins later.
   */
  lemma {:induction false} MostRecentIff(h: seq<Net>, a: nat, src: string, b: nat)
    requires IsBest(h, b, a, src)
    ensures Best(Index(h), a, src) == Some(h[b]) <==>
            forall j :: 0 <= j < |h| && Eligible(h[j], a, src) && Range(h[j]) == Range(h[b]) ==> h[j].lo <= h[b].lo
  {
    IndexAgrees(h, a, src);
    var w := BestInHistoryMeans(h, a, src);
    assert Range(h[w]) == Range(h[b]) && h[b].lo <= h[w].lo;
  }

  /** With other masks it need not be: here the range that was added first is found, not the last one. */
  lemma OtherMasksDisagree()
    ensures var mask := 0xffff_fffd;
            var h := [NetOf(1, mask, "first"), NetOf(0, mask, "last")];
            && Best(h, 2, "") == Some(h[1])
            && Best(Index(h), 2, "") == Some(h[0])
  {
    var mask := 0xffff_fffd;
    assert And(1, mask) == 1 && And(0, mask) == 0 && Or(1, 2) == 3 && Or(0, 2) == 2;
    LaterBeginWins(NetOf(1, mask, "first"), NetOf(0, mask, "last"), 2, "");
  }

  /** Of two networks with equal ranges, the vector gives the one that begins later, whenever it was added. */
  lemma LaterBeginWins(first: Net, last: Net, a: nat, src: string)
    requires Eligible(first, a, src) && Eligible(last, a, src)
    requires Range(first) == Range(last) && last.lo < first.lo
    ensures Best([first, last], a, src) == Some(last)
    ensures Best(Index([first, last]), a, src) == Some(first)
  {
    var h := [first, last];
    assert h[..1] == [first] && [first][..0] == [];
    IndexAgrees(h, a, src);
    assert BestInHistory([first], a, src) == Some(first);
    BestAppend(None, [first], last, a, src);
    BestAppend(None, [], first, a, src);
    assert [] + [first] == [first] && [first] + [last] == h;
  }

  // ----- Removing a location

  lemma {:induction false} WithoutJoins(s: seq<Net>, t: seq<Net>, location: string)
    ensures Without(s + t, location) == Without(s, location) + Without(t, location)
  {
    if s == [] {
      assert s + t == t;
    } else {
      assert (s + t)[1..] == s[1..] + t;
      WithoutJoins(s[1..], t, location);
    }
  }

  lemma {:induction false} WithoutKeeps(v: seq<Net>, location: string)
    ensures forall x :: x in Without(v, location) <==> x in v && x.id != location
  {
    if v != [] {
      WithoutKeeps(v[1..], location);
      assert v == [v[0]] + v[1..];
    }
  }

  lemma {:induction false} UpperAt(v: seq<Net>, r: nat, x: nat)
    requires r <= |v|
    requires forall i :: 0 <= i < r ==> v[i].lo <= x
    requires r < |v| ==> v[r].lo > x
    ensures Upper(v, x) == r
  {
    if r > 0 {
      UpperAt(v[1..], r - 1, x);
    }
  }

  lemma {:induction false} WithoutInsert(v: seq<Net>, n: Net, location: string)
    requires Sorted(v)
    ensures Without(Insert(v, n), location)
         == if n.id == location then Without(v, location) else Insert(Without(v, location), n)
  {
    var s, t := InsertSplits(v, n);
    WithoutJoins(s, t, location);
    WithoutBetween(s, t, n, location);
    if n.id != location {
      WithoutKeeps(s, location);
      WithoutKeeps(t, location);
      InsertBetween(Without(s, location), Without(t, location), n);
    }
  }

  lemma WithoutBetween(s: seq<Net>, t: seq<Net>, n: Net, location: string)
    ensures Without(s + [n] + t, location)
         == if n.id == location then Without(s, location) + Without(t, location)
            else Without(s, location) + [n] + Without(t, location)
  {
    WithoutJoins(s + [n], t, location);
    WithoutJoins(s, [n], location);
    WithoutOne(n, location);
    assert Without(s, location) + [] == Without(s, location);
  }

  lemma WithoutOne(n: Net, location: string)
    ensures Without([n], location) == if n.id == location then [] else [n]
  {
  }

  lemma InsertBetween(s: seq<Net>, t: seq<Net>, n: Net)
    requires forall x :: x in s ==> x.lo <= n.lo
    requires forall x :: x in t ==> x.lo > n.lo
    ensures Insert(s + t, n) == s + [n] + t
  {
    if t != [] {
      assert (s + t)[|s|] == t[0] && t[0] in t;
    }
    UpperAt(s + t, |s|, n.lo);
    assert (s + t)[..|s|] == s && (s + t)[|s|..] == t;
  }

  /** Removing a location from the vector leaves the vector of the history without it. */
  lemma {:induction false} IndexWithout(h: seq<Net>, location: string)
    ensures Without(Index(h), location) == Index(Without(h, location))
  {
    if h != [] {
      var before, n := h[..|h| - 1], h[|h| - 1];
      assert h == before + [n];
      IndexWithout(before, location);
      IndexSorted(before);
      WithoutInsert(Index(before), n, location);
      WithoutJoins(before, [n], location);
      WithoutOne(n, location);
      var kept := Without(before, location);
      if n.id != location {
        assert (kept + [n])[..|kept|] == kept;
      } else {
        assert kept + [] == kept;
      }
    }
  }

  // ----- The map of vectors

  type Networks = map<string, seq<Net>>

  function VectorOf(m: Networks, key: string): seq<Net> {
    if key in m then m[key] else []
  }

  /** What FindNetwork returns for a network found, or none. */
  function Location(best: Option<Net>): string {
    if best.Some? then best.value.id else ""
  }

  class NetworkMap {
    var networks: Networks

    ghost predicate Valid()
      reads this
    {
      forall key :: key in networks ==> Sorted(networks[key])
    }

    constructor ()
      ensures Valid() && networks == map[]
    {
      networks := map[];
    }

    method AddNetwork(key: string, network: nat, mask: nat, location: string)
      requires Valid() && mask <= UINT32_MAX
      modifies this
      ensures Valid()
      ensures networks == old(networks)[key := Insert(VectorOf(old(networks), key), NetOf(network, mask, location))]
    {
      OrGrows(And(network, mask), Not(mask));
      var net := NetOf(network, mask, location);
      InsertSorted(VectorOf(networks, key), net);
      if key in networks {
        var v := networks[key];
        var u := UpperBound(v, net.lo);
        networks := networks[key := v[..u] + [net] + v[u..]];
      } else {
        assert Insert([], net) == [net];
        networks := networks[key := [net]];
      }
    }

    method RefreshNetworksMap(location: string)
      requires Valid()
      modifies this
      ensures Valid()
      ensures networks == map key | key in old(networks) :: Without(old(networks)[key], location)
    {
      var todo := networks.Keys;
      ghost var before := networks;
      while todo != {}
        invariant networks.Keys == before.Keys && todo <= before.Keys
        invariant forall key :: key in networks ==>
                    networks[key] == if key in todo then before[key] else Without(before[key], location)
      {
        var key :| key in todo;
        var v := EraseLocation(networks[key], location);
        networks := networks[key := v];
        todo := todo - {key};
      }
      forall key | key in before
        ensures Sorted(Without(before[key], location))
      {
        WithoutSorted(before[key], location);
      }
    }

    method FindNetwork(a: nat, key: string, src: string) returns (r: string)
      requires Valid()
      ensures r == Location(Best(VectorOf(networks, key), a, src))
    {
      if key !in networks {
        return "";
      }
      var v := networks[key];
      var idx := UpperBound(v, a);
      LaterDoNotHold(v, idx, a, src);
      var found, minRange := Net(0, 0, ""), UINT32_MAX as int;
      var i := idx;
      while i > 0
        invariant 0 <= i <= idx && minRange <= UINT32_MAX
        invariant var best := Best(v[i..idx], a, src);
                  if best.Some? then found == best.value && minRange == Range(found)
                  else found.id == "" && minRange == UINT32_MAX
      {
        i := i - 1;
        assert v[i..idx] == [v[i]] + v[i + 1..idx];
        BestPrepend(v[i], v[i + 1..idx], a, src);
        if v[i].lo <= a <= v[i].hi && Range(v[i]) < minRange && v[i].id != src {
          found, minRange := v[i], Range(v[i]);
        }
      }
      assert v[0..idx] == v[..idx];
      r := found.id;
    }
  }

  /** std::upper_bound, by halving the candidates. */
  method UpperBound(v: seq<Net>, x: nat) returns (u: nat)
    requires Sorted(v)
    ensures u == Upper(v, x)
  {
    u := 0;
    var hi := |v|;
    while u < hi
      invariant u <= hi <= |v|
      invariant forall i :: 0 <= i < u ==> v[i].lo <= x
      invariant forall i :: hi <= i < |v| ==> v[i].lo > x
    {
      var mid := (u + hi) / 2;
      if v[mid].lo <= x {
        u := mid + 1;
      } else {
        hi := mid;
      }
    }
    UpperAt(v, u, x);
  }

  /** `places` are the places of the location before `from`, from the front. */
  ghost predicate ArePlaces(places: seq<nat>, v: seq<Net>, from: nat, location: string) {
    && from <= |v|
    && (forall j :: 0 <= j < |places| ==> places[j] < from && v[places[j]].id == location)
    && (forall j, k :: 0 <= j < k < |places| ==> places[j] < places[k])
    && (forall p :: 0 <= p < from && v[p].id == location ==> p in places)
  }

  method PlacesOf(v: seq<Net>, location: string) returns (places: seq<nat>)
    ensures ArePlaces(places, v, |v|, location)
  {
    places := [];
    for i := 0 to |v|
      invariant ArePlaces(places, v, i, location)
    {
      if v[i].id == location {
        places := places + [i];
      }
    }
  }

  lemma LastPlace(places: seq<nat>, v: seq<Net>, from: nat, location: string)
    requires ArePlaces(places, v, from, location) && places != []
    ensures var j := |places| - 1;
            && ArePlaces(places[..j], v, places[j], location)
            && forall q :: places[j] < q < from ==> v[q].id != location
  {
    var j := |places| - 1;
    assert places == places[..j] + [places[j]];
  }

  /** The two loops of RefreshNetworksMap over one vector: note the places, then erase from the back. */
  method EraseLocation(v: seq<Net>, location: string) returns (r: seq<Net>)
    ensures r == Without(v, location)
  {
    var places := PlacesOf(v, location);
    r := v;
    ghost var from: nat := |v|;
    EraseStart(v, places, location);
    var j: nat := |places|;
    while j > 0
      invariant Erasing(r, v, places, j, from, location)
    {
      j := j - 1;
      EraseLast(r, v, places, j, from, location);
      from := places[j];
      r := r[..places[j]] + r[places[j] + 1..];
    }
    assert places[..0] == [];
    EraseDone(r, v, from, location);
  }

  /** The places from `from` on are erased, and the first `j` are still to be erased. */
  ghost predicate Erasing(r: seq<Net>, v: seq<Net>, places: seq<nat>, j: nat, from: nat, location: string) {
    j <= |places| && ArePlaces(places[..j], v, from, location) && Erased(r, v, from, location)
  }

  lemma EraseStart(v: seq<Net>, places: seq<nat>, location: string)
    requires ArePlaces(places, v, |v|, location)
    ensures Erasing(v, v, places, |places|, |v|, location)
  {
    assert places[..|places|] == places && v[..|v|] == v;
    WithoutNone(v[|v|..], location);
  }

  lemma EraseLast(r: seq<Net>, v: seq<Net>, places: seq<nat>, j: nat, from: nat, location: string)
    requires j < |places| && Erasing(r, v, places, j + 1, from, location)
    ensures var p := places[j];
            p < |r| && Erasing(r[..p] + r[p + 1..], v, places, j, p, location)
  {
    var left := places[..j + 1];
    assert left[..j] == places[..j];
    LastPlace(left, v, from, location);
    ErasedOne(v, places[j], from, location, r);
  }

  /** The location is gone from the places at and behind `from`. */
  ghost predicate Erased(r: seq<Net>, v: seq<Net>, from: nat, location: string) {
    from <= |v| && r == v[..from] + Without(v[from..], location)
  }

  lemma {:induction false} EraseDone(r: seq<Net>, v: seq<Net>, from: nat, location: string)
    requires Erased(r, v, from, location) && ArePlaces([], v, from, location)
    ensures r == Without(v, location)
  {
    WithoutAbsent(v[..from], location);
    WithoutJoins(v[..from], v[from..], location);
    assert v == v[..from] + v[from..];
  }

  lemma WithoutNone(v: seq<Net>, location: string)
    requires v == []
    ensures Without(v, location) == []
  {
  }

  lemma {:induction false} WithoutAbsent(v: seq<Net>, location: string)
    requires forall i :: 0 <= i < |v| ==> v[i].id != location
    ensures Without(v, location) == v
  {
    if v != [] {
      WithoutAbsent(v[1..], location);
    }
  }

  lemma {:induction false} ErasedOne(v: seq<Net>, p: nat, from: nat, location: string, r: seq<Net>)
    requires Erased(r, v, from, location) && p < from && v[p].id == location
    requires forall q :: p < q < from ==> v[q].id != location
    ensures p < |r| && Erased(r[..p] + r[p + 1..], v, p, location)
  {
    assert v[p + 1..] == v[p + 1..from] + v[from..];
    WithoutJoins(v[p + 1..from], v[from..], location);
    WithoutAbsent(v[p + 1..from], location);
    assert v[p..][1..] == v[p + 1..];
    assert r[..p] == v[..p] && r[p + 1..] == v[p + 1..from] + Without(v[from..], location);
  }

  lemma {:induction false} WithoutSorted(v: seq<Net>, location: string)
    requires Sorted(v)
    ensures Sorted(Without(v, location))
  {
    if v != [] {
      WithoutSorted(v[1..], location);
      WithoutKeeps(v[1..], location);
      assert forall x :: x in v[1..] ==> v[0].lo <= x.lo;
    }
  }

  lemma {:induction false} BestIgnores(best: Option<Net>, t: seq<Net>, a: nat, src: string)
    requires forall i :: 0 <= i < |t| ==> !Eligible(t[i], a, src)
    ensures BestFrom(best, t, a, src) == best
    decreases |t|
  {
    if t != [] {
      BestIgnores(best, t[1..], a, src);
    }
  }

  lemma {:induction false} LaterDoNotHold(v: seq<Net>, idx: nat, a: nat, src: string)
    requires Sorted(v) && idx == Upper(v, a)
    ensures Best(v, a, src) == Best(v[..idx], a, src)
  {
    LaterBegin(v, idx, a);
    BestOfFirst(v[..idx], v[idx..], a, src);
    SplitsAt(v, idx);
  }

  lemma SplitsAt(v: seq<Net>, idx: nat)
    requires idx <= |v|
    ensures v[..idx] + v[idx..] == v
  {
  }

  lemma {:induction false} BestOfFirst(s: seq<Net>, t: seq<Net>, a: nat, src: string)
    requires forall i :: 0 <= i < |t| ==> t[i].lo > a
    ensures Best(s + t, a, src) == Best(s, a, src)
  {
    BestJoins(None, s, t, a, src);
    BestIgnores(Best(s, a, src), t, a, src);
  }

  lemma {:induction false} LaterBegin(v: seq<Net>, idx: nat, a: nat)
    requires Sorted(v) && idx == Upper(v, a)
    ensures forall i :: 0 <= i < |v[idx..]| ==> v[idx..][i].lo > a
  {
    forall i | 0 <= i < |v[idx..]|
      ensures v[idx..][i].lo > a
    {
      assert v[idx].lo <= v[idx + i].lo;
    }
  }

  /** Looking backwards, an earlier network wins only with a strictly smaller range. */
  lemma {:induction false} BestPrepend(x: Net, s: seq<Net>, a: nat, src: string)
    ensures var best := Best(s, a, src);
            Best([x] + s, a, src) ==
            if Eligible(x, a, src) && (best.None? || Range(x) < Range(best.value)) then Some(x) else best
    decreases |s|
  {
    if s == [] {
      assert [x] + s == [x];
      BestAppend(None, [], x, a, src);
    } else {
      var before, n := s[..|s| - 1], s[|s| - 1];
      assert s == before + [n] && [x] + s == [x] + before + [n];
      BestPrepend(x, before, a, src);
      BestAppend(None, before, n, a, src);
      BestAppend(None, [x] + before, n, a, src);
    }
  }

  // ----- Runs of additions and refreshes

  datatype Event = Add(key: string, net: Net) | Refresh(location: string)

  /** The networks of `key` that are in force, in the order they were added. */
  function History(tr: seq<Event>, key: string): seq<Net> {
    if tr == [] then []
    else
      var before := History(tr[..|tr| - 1], key);
      match tr[|tr| - 1]
      case Add(key', net) => if key' == key then before + [net] else before
      case Refresh(location) => Without(before, location)
  }

  function After(tr: seq<Event>): Networks {
    if tr == [] then map[]
    else
      var before := After(tr[..|tr| - 1]);
      match tr[|tr| - 1]
      case Add(key, net) => before[key := Insert(VectorOf(before, key), net)]
      case Refresh(location) => map key | key in before :: Without(before[key], location)
  }

  lemma {:induction false} VectorIsIndex(tr: seq<Event>, key: string)
    ensures VectorOf(After(tr), key) == Index(History(tr, key))
  {
    if tr != [] {
      var past, e := tr[..|tr| - 1], tr[|tr| - 1];
      VectorIsIndex(past, key);
      match e
      case Add(key', net) =>
        var h := History(past, key);
        assert (h + [net])[..|h|] == h;
      case Refresh(location) =>
        IndexWithout(History(past, key), location);
    }
  }

  /**
    After any run of additions and refreshes, the lookup agrees with the linear search of the
    history, and finds nothing exactly if no network in force is eligible.
   */
  lemma {:induction false} FindAgreesWithHistory(tr: seq<Event>, key: string, a: nat, src: string)
    ensures Sorted(VectorOf(After(tr), key))
    ensures Best(VectorOf(After(tr), key), a, src) == BestInHistory(History(tr, key), a, src)
    ensures Blocks(History(tr, key)) ==> Best(VectorOf(After(tr), key), a, src) == Best(History(tr, key), a, src)
    ensures (forall n :: n in History(tr, key) ==> n.id != "") ==>
              (Location(Best(VectorOf(After(tr), key), a, src)) == "" <==>
               forall n :: n in History(tr, key) ==> !Eligible(n, a, src))
  {
    var h := History(tr, key);
    VectorIsIndex(tr, key);
    IndexSorted(h);
    IndexAgrees(h, a, src);
    if Blocks(h) {
      LongestPrefix(h, a, src);
    }
    var w := BestInHistoryMeans(h, a, src);
    assert forall n :: n in h ==> exists j :: 0 <= j < |h| && h[j] == n;
  }

  /**
    What a lookup returns, in terms of the addresses: the location of a network in force that holds the
    address, is not that of the asking site, and does not span all addresses; and something whenever
    there is such a network with a location.
   */
  lemma {:induction false} FoundIsRight(tr: seq<Event>, key: string, a: nat, src: string)
    ensures var r, h := Location(Best(VectorOf(After(tr), key), a, src)), History(tr, key);
            && (r != "" ==> r != src && exists n :: n in h && n.id == r && n.lo <= a <= n.hi && n.hi - n.lo < 0xffff_ffff)
            && ((forall n :: n in h ==> n.id != "") && (exists n :: n in h && n.lo <= a <= n.hi && n.id != src && n.hi - n.lo < 0xffff_ffff)
                ==> r != "")
  {
    FindAgreesWithHistory(tr, key, a, src);
    var h := History(tr, key);
    var w := BestInHistoryMeans(h, a, src);
    if BestInHistory(h, a, src).Some? {
      assert h[w] in h;
    }
    assert forall n :: n in h && n.lo <= a <= n.hi && n.id != src && n.hi - n.lo < 0xffff_ffff ==> Eligible(n, a, src);
  }
}
