/**
  Evaluation of an alarm's rules against a UVE, contrail-opserver/alarmgen.py: an OR of ANDs of
  comparisons, each over every pair of values that its two operands reach.
 */
module RuleEvaluation {
  import opened Options
  import opened UveAttributes

  /** A result, or a Python exception. */
  datatype Outcome<T> = Ok(value: T) | Raised

  datatype Op = Eq | Ne | Lt | Le | Gt | Ge | In | NotIn | Range | SizeEq | SizeNe | Unknown

  /** Python's == on JSON values, and its ordering: the sign of the comparison, or none if it raises TypeError. */
  datatype Python = Python(eq: (Json, Json) -> bool, order: (Json, Json) -> Option<int>)

  // ----- _compare_operand_vals

  function Loads(v: Json): Json {
    if v.Str? && v.text.parsed.Some? then v.text.parsed.value else v
  }

  function Ordered(py: Python, a: Json, b: Json, test: int -> bool): Outcome<bool> {
    var o := py.order(a, b);
    if o.None? then Raised else Ok(test(o.value))
  }

  function Compare(py: Python, v1: Json, v2: Json, op: Op): Outcome<bool> {
    var a, b := Loads(v1), Loads(v2);
    match op
    case Eq => Ok(py.eq(a, b))
    case Ne => Ok(!py.eq(a, b))
    case Lt =>
      if a == Null && b == Null then Ok(false)
      else if a == Null then Ok(true)
      else if b == Null then Ok(false)
      else Ordered(py, a, b, s => s < 0)
    case Le =>
      if a == Null then Ok(true)
      else if b == Null then Ok(false)
      else Ordered(py, a, b, s => s <= 0)
    case Gt =>
      if a == Null && b == Null then Ok(false)
      else if b == Null then Ok(true)
      else if a == Null then Ok(false)
      else Ordered(py, a, b, s => s > 0)
    case Ge =>
      if b == Null then Ok(true)
      else if a == Null then Ok(false)
      else Ordered(py, a, b, s => s >= 0)
    case In => Ok(b.List? && exists x :: x in b.items && py.eq(a, x))
    case NotIn => Ok(!(b.List? && exists x :: x in b.items && py.eq(a, x)))
    case Range =>
      if !b.List? || b.items == [] then Raised
      else
        var low := Ordered(py, b.items[0], a, s => s <= 0);
        if low == Ok(true) then (if |b.items| < 2 then Raised else Ordered(py, a, b.items[1], s => s <= 0)) else low
    case SizeEq => Ok(a.List? && py.eq(Num(|a.items| as real), b))
    case SizeNe => Ok(!(a.List? && py.eq(Num(|a.items| as real), b)))
    case Unknown => Ok(false)
  }

  /** On these two values Python's == and its ordering fit together, and None equals only None. */
  predicate Coherent(py: Python, a: Json, b: Json) {
    && (py.eq(a, b) <==> py.eq(b, a))
    && (if a == Null || b == Null then py.eq(a, b) <==> a == b
        else
          && py.order(a, b).Some? && py.order(b, a).Some?
          && (py.order(a, b).value < 0 <==> py.order(b, a).value > 0)
          && (py.order(a, b).value == 0 <==> py.eq(a, b)) && (py.order(b, a).value == 0 <==> py.eq(a, b)))
  }

  /**
    The six comparisons of two values fit together, with None as the least value: exactly one of
    <, ==, > holds, the others are its negations and mirror images, and nothing raises.
   */
  lemma NullIsLeast(py: Python, v1: Json, v2: Json)
    requires Coherent(py, Loads(v1), Loads(v2))
    ensures forall op | op in {Eq, Ne, Lt, Le, Gt, Ge} :: Compare(py, v1, v2, op).Ok?
    ensures var less, same, more := Compare(py, v1, v2, Lt).value, Compare(py, v1, v2, Eq).value, Compare(py, v1, v2, Gt).value;
            && (less || same || more) && !(less && same) && !(less && more) && !(same && more)
            && Compare(py, v1, v2, Ne) == Ok(!same) && Compare(py, v1, v2, Le) == Ok(!more) && Compare(py, v1, v2, Ge) == Ok(!less)
            && Compare(py, v2, v1, Gt) == Ok(less) && Compare(py, v2, v1, Lt) == Ok(more) && Compare(py, v2, v1, Eq) == Ok(same)
    ensures Loads(v1) == Null && Loads(v2) != Null ==> Compare(py, v1, v2, Lt) == Ok(true)
  {
    var a, b := Loads(v1), Loads(v2);
    if a != Null && b != Null {
      var s, t := py.order(a, b).value, py.order(b, a).value;
      assert s < 0 || s == 0 || s > 0;
      assert t < 0 || t == 0 || t > 0;
    }
  }

  /** On these three values Python's ordering is transitive. */
  predicate Transitive(py: Python, a: Json, b: Json, c: Json) {
    a != Null && b != Null && c != Null ==>
      && py.order(a, b).Some? && py.order(b, c).Some? && py.order(a, c).Some?
      && (py.order(a, b).value <= 0 && py.order(b, c).value <= 0 ==> py.order(a, c).value <= 0)
  }

  /** And so are the comparisons, with None among the values or not. */
  lemma ComparisonsAreTransitive(py: Python, v1: Json, v2: Json, v3: Json)
    requires Coherent(py, Loads(v1), Loads(v2)) && Coherent(py, Loads(v2), Loads(v3)) && Coherent(py, Loads(v1), Loads(v3))
    requires Transitive(py, Loads(v1), Loads(v2), Loads(v3))
    requires Compare(py, v1, v2, Le) == Ok(true) && Compare(py, v2, v3, Le) == Ok(true)
    ensures Compare(py, v1, v3, Le) == Ok(true)
  {
  }

  /** `v` is not read as JSON again, and is not None. */
  predicate Plain(v: Json) {
    v != Null && Loads(v) == v
  }

  /** Between two bounds, `range` is two comparisons by <=. */
  lemma RangeIsTwoComparisons(py: Python, v: Json, lo: Json, hi: Json, rest: seq<Json>)
    requires Plain(lo) && Plain(hi) && Loads(v) != Null && Coherent(py, lo, Loads(v)) && Coherent(py, Loads(v), hi)
    ensures Compare(py, v, List([lo, hi] + rest), Range)
            == Ok(Compare(py, lo, v, Le) == Ok(true) && Compare(py, v, hi, Le) == Ok(true))
  {
    assert ([lo, hi] + rest)[0] == lo && ([lo, hi] + rest)[1] == hi;
  }

  /** But it does not take None for the least value: like any comparison that Python refuses, that raises. */
  lemma RangeOfNullRaises(py: Python, lo: Json, rest: seq<Json>)
    requires py.order(lo, Null) == None
    ensures Compare(py, Null, List([lo] + rest), Range) == Raised
  {
    assert ([lo] + rest)[0] == lo;
  }

  /** `in` and `not in` a list: some item, or none, is equal, for items that are not read as JSON again. */
  lemma MembershipMeans(py: Python, v: Json, items: seq<Json>)
    requires forall i :: 0 <= i < |items| ==> Loads(items[i]) == items[i]
    ensures var found := exists i :: 0 <= i < |items| && Compare(py, v, items[i], Eq) == Ok(true);
            Compare(py, v, List(items), In) == Ok(found) && Compare(py, v, List(items), NotIn) == Ok(!found)
  {
    forall i | 0 <= i < |items|
      ensures Compare(py, v, items[i], Eq) == Ok(true) <==> py.eq(Loads(v), items[i])
    {
    }
    if x :| x in items && py.eq(Loads(v), x) {
      var i :| 0 <= i < |items| && items[i] == x;
      assert Compare(py, v, items[i], Eq) == Ok(true);
    }
    if i :| 0 <= i < |items| && Compare(py, v, items[i], Eq) == Ok(true) {
      assert items[i] in items;
    }
  }

  /** A string that is JSON is compared by the value it stands for, on either side; any other string as it is. */
  lemma StringsAreRead(py: Python, chars: string, parsed: Json, w: Json, op: Op)
    requires Loads(parsed) == parsed
    ensures var s := Str(Text(chars, Some(parsed)));
            Compare(py, s, w, op) == Compare(py, parsed, w, op) && Compare(py, w, s, op) == Compare(py, w, parsed, op)
    ensures var s := Str(Text(chars, None));
            Compare(py, s, s, Eq) == Ok(py.eq(s, s))
  {
  }

  /** Nothing is in a value that is no list. */
  lemma NotAList(py: Python, v: Json, w: Json)
    requires !Loads(w).List?
    ensures Compare(py, v, w, In) == Ok(false) && Compare(py, v, w, NotIn) == Ok(true)
  {
  }

  /** The size of a list is compared as a number; a value that is no list has no size. */
  lemma SizeMeans(py: Python, v: Json, w: Json)
    ensures Loads(v).List? ==>
              var size := Num(|Loads(v).items| as real);
              Compare(py, v, w, SizeEq) == Compare(py, size, w, Eq) && Compare(py, v, w, SizeNe) == Compare(py, size, w, Ne)
    ensures !Loads(v).List? ==> Compare(py, v, w, SizeEq) == Ok(false) && Compare(py, v, w, SizeNe) == Ok(true)
    ensures Compare(py, v, w, Unknown) == Ok(false)
  {
  }

  // ----- An expression

  datatype Right = JsonValue(text: Text) | Attribute(attrs: seq<Text>)
  datatype Expr = Expr(operand1: seq<Text>, op: Op, operand2: Right, variables: seq<seq<Text>>)

  /** The second operand's value: given in the rule, or read from the UVE. */
  datatype Operand2 = Given(value: Json) | Read(operand: Operand)

  /** AlarmMatch, with its values before they are printed as JSON. */
  datatype Match = Match(value1: Json, value2: Option<Json>, variables: seq<Json>)

  predicate NotFound(o: Operand) {
    o.Leaf? && !o.found
  }

  predicate ReadList(r: Operand2) {
    r.Read? && r.operand.Many?
  }

  /** The operands are compared pair by pair: both lists in step, or one list with the other's value, or two values. */
  function PairCount(o1: Operand, r: Operand2): nat {
    if o1.Many? && ReadList(r) then (if |o1.items| == |r.operand.items| then |o1.items| else 0)
    else if o1.Many? then |o1.items|
    else if ReadList(r) then |r.operand.items|
    else 1
  }

  function First(o1: Operand, r: Operand2, i: nat): Operand
    requires i < PairCount(o1, r)
  {
    if o1.Many? then o1.items[i] else o1
  }

  function Second(o1: Operand, r: Operand2, i: nat): Operand2
    requires i < PairCount(o1, r)
  {
    if ReadList(r) then Read(r.operand.items[i]) else r
  }

  /** Whether a pair compares; taking ['value'] of something that is not a single value raises. */
  function Test(py: Python, op: Op, left: Operand, right: Operand2): Outcome<bool> {
    if !left.Leaf? || (right.Read? && !right.operand.Leaf?) then Raised
    else Compare(py, left.value, if right.Given? then right.value else right.operand.value, op)
  }

  function CommonPrefix(a: seq<Text>, b: seq<Text>): nat {
    if a != [] && b != [] && a[0].chars == b[0].chars then 1 + CommonPrefix(a[1..], b[1..]) else 0
  }

  /** _get_json_variables: each variable is read from the route of the operand it shares more of its path with. */
  function Variables(e: Expr, vars: seq<seq<Text>>, left: Operand, right: Operand2): seq<Json>
    requires left.Leaf? && (right.Read? ==> right.operand.Leaf?)
  {
    if vars == [] then []
    else
      var fromLeft := right.Given? || e.operand2.JsonValue? ||
                      CommonPrefix(e.operand1, vars[0]) > CommonPrefix(e.operand2.attrs, vars[0]);
      [Walk(vars[0], if fromLeft then left.path else right.operand.path, None)] + Variables(e, vars[1..], left, right)
  }

  function MatchOf(e: Expr, left: Operand, right: Operand2): Match
    requires left.Leaf? && (right.Read? ==> right.operand.Leaf?)
  {
    Match(left.value, if right.Given? then None else Some(right.operand.value), Variables(e, e.variables, left, right))
  }

  /** The matches among the first `n` pairs. */
  function Matches(py: Python, e: Expr, o1: Operand, r: Operand2, n: nat): Outcome<seq<Match>>
    requires n <= PairCount(o1, r)
  {
    if n == 0 then Ok([])
    else
      var before := Matches(py, e, o1, r, n - 1);
      var left, right := First(o1, r, n - 1), Second(o1, r, n - 1);
      var test := Test(py, e.op, left, right);
      if before.Raised? || test.Raised? then Raised
      else if test.value then Ok(before.value + [MatchOf(e, left, right)])
      else before
  }

  /** The operands of an expression: none if one is not in the UVE, which fails the expression. */
  function Operands(uve: Json, e: Expr): Outcome<Option<(Operand, Operand2)>> {
    var o1 := Get(uve, e.operand1, []);
    if NotFound(o1) then Ok(None)
    else match e.operand2
      case JsonValue(text) => if text.parsed.None? then Raised else Ok(Some((o1, Given(text.parsed.value))))
      case Attribute(attrs) =>
        var o2 := Get(uve, attrs, []);
        if NotFound(o2) then Ok(None)
        else if o1.Many? && o2.Nothing? then Raised
        else Ok(Some((o1, Read(o2))))
  }

  /** The matches of an expression; it fails if there are none. */
  function EvalExpr(py: Python, uve: Json, e: Expr): Outcome<seq<Match>> {
    var os := Operands(uve, e);
    if os.Raised? then Raised
    else if os.value.None? then Ok([])
    else Matches(py, e, os.value.value.0, os.value.value.1, PairCount(os.value.value.0, os.value.value.1))
  }

  // ----- The meaning of an expression

  ghost predicate PairIs(py: Python, e: Expr, o1: Operand, r: Operand2, i: nat, outcome: Outcome<bool>) {
    i < PairCount(o1, r) && Test(py, e.op, First(o1, r, i), Second(o1, r, i)) == outcome
  }

  /** The operands cannot be had, or some pair of their values cannot be compared. */
  ghost predicate Errs(py: Python, uve: Json, e: Expr) {
    var os := Operands(uve, e);
    os.Raised? || (os.value.Some? && exists i: nat :: PairIs(py, e, os.value.value.0, os.value.value.1, i, Raised))
  }

  /** Both operands are found, every pair of their values can be compared, and some pair compares. */
  ghost predicate Satisfied(py: Python, uve: Json, e: Expr) {
    var os := Operands(uve, e);
    !Errs(py, uve, e) && os.value.Some? && exists i: nat :: PairIs(py, e, os.value.value.0, os.value.value.1, i, Ok(true))
  }

  /** `hits` are the positions below `n`, in order, at which `p` holds. */
  ghost predicate Positions(hits: seq<nat>, n: nat, p: nat -> bool) {
    && (forall a, b :: 0 <= a < b < |hits| ==> hits[a] < hits[b])
    && (forall i: nat :: i in hits <==> i < n && p(i))
  }

  lemma OneMorePosition(hits: seq<nat>, n: nat, p: nat -> bool)
    requires Positions(hits, n, p)
    ensures Positions(if p(n) then hits + [n] else hits, n + 1, p)
  {
    if p(n) {
      forall a, b | 0 <= a < b < |hits + [n]|
        ensures (hits + [n])[a] < (hits + [n])[b]
      {
        assert hits[a] in hits;
      }
    }
  }

  /** `list` has one item for each position below `n` at which `p` holds, in order, related to it by `at`. */
  ghost predicate Lists<T>(hits: seq<nat>, n: nat, p: nat -> bool, list: seq<T>, at: (nat, T) -> bool) {
    Positions(hits, n, p) && |list| == |hits| && forall k :: 0 <= k < |hits| ==> at(hits[k], list[k])
  }

  lemma OneMoreListed<T>(hits: seq<nat>, n: nat, p: nat -> bool, list: seq<T>, at: (nat, T) -> bool, item: T)
    requires Lists(hits, n, p, list, at) && p(n) && at(n, item)
    ensures Lists(hits + [n], n + 1, p, list + [item], at)
  {
    OneMorePosition(hits, n, p);
  }

  lemma NoneListed<T>(hits: seq<nat>, n: nat, p: nat -> bool, list: seq<T>, at: (nat, T) -> bool)
    requires Lists(hits, n, p, list, at) && !p(n)
    ensures Lists(hits, n + 1, p, list, at)
  {
    OneMorePosition(hits, n, p);
  }

  ghost function Compares(py: Python, e: Expr, o1: Operand, r: Operand2): nat -> bool {
    (i: nat) => PairIs(py, e, o1, r, i, Ok(true))
  }

  ghost function MatchesPair(py: Python, e: Expr, o1: Operand, r: Operand2): (nat, Match) -> bool {
    (i: nat, m: Match) => PairIs(py, e, o1, r, i, Ok(true)) && m == MatchOf(e, First(o1, r, i), Second(o1, r, i))
  }

  ghost predicate RaisesBelow(py: Python, e: Expr, o1: Operand, r: Operand2, n: nat) {
    exists i: nat :: i < n && PairIs(py, e, o1, r, i, Raised)
  }

  lemma {:induction false} MatchesRaise(py: Python, e: Expr, o1: Operand, r: Operand2, n: nat)
    requires n <= PairCount(o1, r)
    ensures Matches(py, e, o1, r, n).Raised? <==> RaisesBelow(py, e, o1, r, n)
  {
    if n > 0 {
      MatchesRaise(py, e, o1, r, n - 1);
      assert PairIs(py, e, o1, r, n - 1, Test(py, e.op, First(o1, r, n - 1), Second(o1, r, n - 1)));
    }
  }

  /** The matches are those of exactly the pairs that compare, in order. */
  lemma {:induction false} MatchesExact(py: Python, e: Expr, o1: Operand, r: Operand2, n: nat) returns (hits: seq<nat>)
    requires n <= PairCount(o1, r) && Matches(py, e, o1, r, n).Ok?
    ensures Lists(hits, n, Compares(py, e, o1, r), Matches(py, e, o1, r, n).value, MatchesPair(py, e, o1, r))
  {
    if n == 0 {
      hits := [];
      NothingListed(Compares(py, e, o1, r), MatchesPair(py, e, o1, r));
    } else {
      hits := MatchesExact(py, e, o1, r, n - 1);
      hits := MatchesStep(py, e, o1, r, n - 1, hits);
    }
  }

  lemma NothingListed<T>(p: nat -> bool, at: (nat, T) -> bool)
    ensures Lists([], 0, p, [], at)
  {
  }

  lemma {:induction false} MatchesStep(py: Python, e: Expr, o1: Operand, r: Operand2, n: nat, hits: seq<nat>) returns (more: seq<nat>)
    requires n < PairCount(o1, r) && Matches(py, e, o1, r, n + 1).Ok? && Matches(py, e, o1, r, n).Ok?
    requires Lists(hits, n, Compares(py, e, o1, r), Matches(py, e, o1, r, n).value, MatchesPair(py, e, o1, r))
    ensures Lists(more, n + 1, Compares(py, e, o1, r), Matches(py, e, o1, r, n + 1).value, MatchesPair(py, e, o1, r))
  {
    var list := Matches(py, e, o1, r, n).value;
    if PairIs(py, e, o1, r, n, Ok(true)) {
      OneMoreListed(hits, n, Compares(py, e, o1, r), list, MatchesPair(py, e, o1, r),
                    MatchOf(e, First(o1, r, n), Second(o1, r, n)));
      more := hits + [n];
    } else {
      NoneListed(hits, n, Compares(py, e, o1, r), list, MatchesPair(py, e, o1, r));
      more := hits;
    }
  }

  lemma ExprExact(py: Python, uve: Json, e: Expr)
    ensures EvalExpr(py, uve, e).Raised? <==> Errs(py, uve, e)
    ensures EvalExpr(py, uve, e).Ok? && EvalExpr(py, uve, e).value != [] <==> Satisfied(py, uve, e)
  {
    var os := Operands(uve, e);
    if os.Ok? && os.value.Some? {
      var o1, r := os.value.value.0, os.value.value.1;
      var n := PairCount(o1, r);
      MatchesRaise(py, e, o1, r, n);
      if EvalExpr(py, uve, e).Ok? {
        var hits := MatchesExact(py, e, o1, r, n);
        if hits != [] {
          assert hits[0] in hits;
          assert PairIs(py, e, o1, r, hits[0], Ok(true));
        }
        if i: nat :| PairIs(py, e, o1, r, i, Ok(true)) {
          assert Compares(py, e, o1, r)(i);
          assert i in hits;
        }
      }
    }
  }

  // ----- Expressions by what their operands reach

  /** The second operand is the single value `v`. */
  predicate SecondIs(uve: Json, e: Expr, v: Json) {
    match e.operand2
    case JsonValue(text) => text.parsed == Some(v)
    case Attribute(attrs) => Get(uve, attrs, []).Leaf? && Get(uve, attrs, []).found && Get(uve, attrs, []).value == v
  }

  /** The operand is a list of single values. */
  predicate IsList(o: Operand) {
    o.Many? && forall i :: 0 <= i < |o.items| ==> o.items[i].Leaf?
  }

  predicate IsSingle(o: Operand) {
    o.Leaf? && o.found
  }

  /** The operands as the evaluation has them. */
  function SecondOf(uve: Json, e: Expr): Operand2 {
    match e.operand2
    case JsonValue(text) => Given(if text.parsed.Some? then text.parsed.value else Null)
    case Attribute(attrs) => Read(Get(uve, attrs, []))
  }

  /** `c` says what each of the `n` comparisons of the expression comes to. */
  ghost predicate ComparesAs(py: Python, uve: Json, e: Expr, n: nat, c: nat -> Outcome<bool>) {
    var o1, r := Get(uve, e.operand1, []), SecondOf(uve, e);
    && Operands(uve, e) == Ok(Some((o1, r))) && PairCount(o1, r) == n
    && forall i: nat :: i < n ==> Test(py, e.op, First(o1, r, i), Second(o1, r, i)) == c(i)
  }

  /** Some comparison must hold, and none may raise. */
  ghost predicate HoldsAs(py: Python, uve: Json, e: Expr, n: nat, c: nat -> Outcome<bool>) {
    && (Errs(py, uve, e) <==> exists i: nat :: i < n && c(i) == Raised)
    && (Satisfied(py, uve, e) <==> (forall i: nat :: i < n ==> c(i).Ok?) && exists i: nat :: i < n && c(i) == Ok(true))
  }

  lemma ComparisonsDecide(py: Python, uve: Json, e: Expr, n: nat, c: nat -> Outcome<bool>)
    requires ComparesAs(py, uve, e, n, c)
    ensures HoldsAs(py, uve, e, n, c)
  {
    var o1, r := Get(uve, e.operand1, []), SecondOf(uve, e);
    forall i: nat, outcome
      ensures PairIs(py, e, o1, r, i, outcome) <==> i < n && c(i) == outcome
    {
    }
    if i: nat :| i < n && c(i) == Raised {
      assert PairIs(py, e, o1, r, i, Raised);
    }
    if i: nat :| i < n && c(i) == Ok(true) {
      assert PairIs(py, e, o1, r, i, Ok(true));
    }
  }

  /** Two values: the expression is one comparison. */
  lemma SingleValues(py: Python, uve: Json, e: Expr, v2: Json)
    requires IsSingle(Get(uve, e.operand1, [])) && SecondIs(uve, e, v2)
    ensures HoldsAs(py, uve, e, 1, (i: nat) => Compare(py, Get(uve, e.operand1, []).value, v2, e.op))
  {
    ComparisonsDecide(py, uve, e, 1, (i: nat) => Compare(py, Get(uve, e.operand1, []).value, v2, e.op));
  }

  function ValueOf(items: seq<Operand>, i: nat): Json {
    if i < |items| && items[i].Leaf? then items[i].value else Null
  }

  /** A list and a value: each item is compared with the value. */
  lemma ListWithValue(py: Python, uve: Json, e: Expr, v2: Json)
    requires IsList(Get(uve, e.operand1, [])) && SecondIs(uve, e, v2)
    ensures var items := Get(uve, e.operand1, []).items;
            HoldsAs(py, uve, e, |items|, (i: nat) => Compare(py, ValueOf(items, i), v2, e.op))
  {
    var items := Get(uve, e.operand1, []).items;
    ComparisonsDecide(py, uve, e, |items|, (i: nat) => Compare(py, ValueOf(items, i), v2, e.op));
  }

  /** A value and a list: the value is compared with each item. */
  lemma ValueWithList(py: Python, uve: Json, e: Expr)
    requires IsSingle(Get(uve, e.operand1, [])) && e.operand2.Attribute? && IsList(Get(uve, e.operand2.attrs, []))
    ensures var v1, items := Get(uve, e.operand1, []).value, Get(uve, e.operand2.attrs, []).items;
            HoldsAs(py, uve, e, |items|, (i: nat) => Compare(py, v1, ValueOf(items, i), e.op))
  {
    var v1, items := Get(uve, e.operand1, []).value, Get(uve, e.operand2.attrs, []).items;
    ComparisonsDecide(py, uve, e, |items|, (i: nat) => Compare(py, v1, ValueOf(items, i), e.op));
  }

  /** Two lists: of the same length they are compared in step, and otherwise the expression fails. */
  lemma ListsInStep(py: Python, uve: Json, e: Expr)
    requires IsList(Get(uve, e.operand1, [])) && e.operand2.Attribute? && IsList(Get(uve, e.operand2.attrs, []))
    ensures var xs, ys := Get(uve, e.operand1, []).items, Get(uve, e.operand2.attrs, []).items;
            HoldsAs(py, uve, e, if |xs| == |ys| then |xs| else 0, (i: nat) => Compare(py, ValueOf(xs, i), ValueOf(ys, i), e.op))
  {
    var xs, ys := Get(uve, e.operand1, []).items, Get(uve, e.operand2.attrs, []).items;
    ComparisonsDecide(py, uve, e, if |xs| == |ys| then |xs| else 0, (i: nat) => Compare(py, ValueOf(xs, i), ValueOf(ys, i), e.op));
  }

  predicate FirstMissing(uve: Json, e: Expr) {
    Get(uve, e.operand1, []).Leaf? && !Get(uve, e.operand1, []).found
  }

  predicate SecondMissing(uve: Json, e: Expr) {
    e.operand2.Attribute? && Get(uve, e.operand2.attrs, []).Leaf? && !Get(uve, e.operand2.attrs, []).found
  }

  /** An expression with an operand that the UVE does not have fails; one whose given value is no JSON raises. */
  lemma MissingOperand(py: Python, uve: Json, e: Expr)
    ensures FirstMissing(uve, e) || SecondMissing(uve, e) ==> EvalExpr(py, uve, e) == Ok([])
    ensures !FirstMissing(uve, e) && e.operand2.JsonValue? && e.operand2.text.parsed.None? ==> EvalExpr(py, uve, e) == Raised
  {
  }

  // ----- The variables of a match

  lemma {:induction false} VariableAt(e: Expr, vars: seq<seq<Text>>, left: Operand, right: Operand2, i: nat)
    requires left.Leaf? && (right.Read? ==> right.operand.Leaf?) && i < |vars|
    ensures |Variables(e, vars, left, right)| == |vars|
    ensures var fromLeft := right.Given? || e.operand2.JsonValue? ||
                            CommonPrefix(e.operand1, vars[i]) > CommonPrefix(e.operand2.attrs, vars[i]);
            Variables(e, vars, left, right)[i] == Walk(vars[i], if fromLeft then left.path else right.operand.path, None)
  {
    if i > 0 {
      VariableAt(e, vars[1..], left, right, i - 1);
    } else if |vars| > 1 {
      VariableAt(e, vars[1..], left, right, 0);
    }
  }

  lemma {:induction false} CommonPrefixBounds(a: seq<Text>, b: seq<Text>)
    ensures CommonPrefix(a, b) <= |a| && CommonPrefix(a, b) <= |b| && CommonPrefix(a, a) == |a|
    ensures CommonPrefix(a, b) == |b| <==> |b| <= |a| && forall i :: 0 <= i < |b| ==> a[i].chars == b[i].chars
  {
    if a != [] {
      CommonPrefixBounds(a[1..], if b == [] then [] else b[1..]);
      if b != [] && a[0].chars == b[0].chars {
        assert forall i :: 0 < i < |b| && |b| <= |a| ==> a[i] == a[1..][i - 1] && b[i] == b[1..][i - 1];
        assert forall i :: 0 <= i < |b| - 1 && |b| <= |a| ==> a[i + 1] == a[1..][i] && b[i + 1] == b[1..][i];
      }
    }
  }

  /** A variable that is the path of the first operand has its value, unless the second operand's path goes on from there. */
  lemma VariableOfFirst(uve: Json, e: Expr, left: Operand, right: Operand2, i: nat)
    requires uve.Obj? && Unmarked(uve) && e.operand1 != [] && Proper(e.operand1) && Reaches(Get(uve, e.operand1, []), left)
    requires (right.Read? ==> right.operand.Leaf?) && i < |e.variables| && e.variables[i] == e.operand1
    requires right.Given? || e.operand2.JsonValue? || CommonPrefix(e.operand2.attrs, e.operand1) < |e.operand1|
    ensures var m := MatchOf(e, left, right); i < |m.variables| && m.variables[i] == m.value1 == left.value
  {
    VariableAt(e, e.variables, left, right, i);
    CommonPrefixBounds(e.operand1, e.operand1);
    RouteLeadsToValue(uve, e.operand1, left);
  }

  /** A variable that is the path of the second operand has its value. */
  lemma VariableOfSecond(uve: Json, e: Expr, left: Operand, right: Operand2, i: nat)
    requires uve.Obj? && Unmarked(uve) && left.Leaf? && e.operand2.Attribute? && right.Read?
    requires e.operand2.attrs != [] && Proper(e.operand2.attrs) && Reaches(Get(uve, e.operand2.attrs, []), right.operand)
    requires i < |e.variables| && e.variables[i] == e.operand2.attrs
    ensures var m := MatchOf(e, left, right);
            i < |m.variables| && m.value2 == Some(right.operand.value) && m.variables[i] == right.operand.value
  {
    VariableAt(e, e.variables, left, right, i);
    CommonPrefixBounds(e.operand2.attrs, e.operand2.attrs);
    CommonPrefixBounds(e.operand1, e.operand2.attrs);
    RouteLeadsToValue(uve, e.operand2.attrs, right.operand);
  }

  // ----- And-lists and the or-list, over any evaluation of their expressions

  type AndList = seq<Expr>
  type Evaluator = Expr -> Outcome<seq<Match>>

  function EvalAnd(eval: Evaluator, exps: AndList, n: nat): Outcome<Option<seq<seq<Match>>>>
    requires n <= |exps|
  {
    if n == 0 then Ok(Some([]))
    else
      var before := EvalAnd(eval, exps, n - 1);
      if before.Raised? || before.value.None? then before
      else
        var m := eval(exps[n - 1]);
        if m.Raised? then Raised else if m.value == [] then Ok(None) else Ok(Some(before.value.value + [m.value]))
  }

  function EvalOr(eval: Evaluator, rules: seq<AndList>, n: nat): Outcome<seq<seq<seq<Match>>>>
    requires n <= |rules|
  {
    if n == 0 then Ok([])
    else
      var before := EvalOr(eval, rules, n - 1);
      if before.Raised? then Raised
      else
        var l := EvalAnd(eval, rules[n - 1], |rules[n - 1]|);
        if l.Raised? then Raised else if l.value.None? then before else Ok(before.value + [l.value.value])
  }

  predicate Holds(eval: Evaluator, e: Expr) {
    eval(e).Ok? && eval(e).value != []
  }

  predicate AllHold(eval: Evaluator, exps: AndList, n: nat) {
    n <= |exps| && forall k :: 0 <= k < n ==> Holds(eval, exps[k])
  }

  /** Expression `j` raises, and is reached because those before it hold. */
  predicate Trips(eval: Evaluator, exps: AndList, j: nat) {
    j < |exps| && eval(exps[j]).Raised? && AllHold(eval, exps, j)
  }

  ghost predicate TripsBelow(eval: Evaluator, exps: AndList, n: nat) {
    exists j: nat :: j < n && Trips(eval, exps, j)
  }

  predicate RecordsAll(eval: Evaluator, exps: AndList, matches: seq<seq<Match>>) {
    |matches| <= |exps| && forall j :: 0 <= j < |matches| ==> eval(exps[j]) == Ok(matches[j])
  }

  lemma {:induction false} AndExact(eval: Evaluator, exps: AndList, n: nat)
    requires n <= |exps|
    ensures EvalAnd(eval, exps, n).Raised? <==> TripsBelow(eval, exps, n)
    ensures EvalAnd(eval, exps, n).Ok? && EvalAnd(eval, exps, n).value.Some? <==> AllHold(eval, exps, n)
    ensures AllHold(eval, exps, n) ==>
              |EvalAnd(eval, exps, n).value.value| == n && RecordsAll(eval, exps, EvalAnd(eval, exps, n).value.value)
  {
    if n > 0 {
      AndExact(eval, exps, n - 1);
      assert AllHold(eval, exps, n) <==> AllHold(eval, exps, n - 1) && Holds(eval, exps[n - 1]);
      assert TripsBelow(eval, exps, n) <==> TripsBelow(eval, exps, n - 1) || Trips(eval, exps, n - 1);
    }
  }

  ghost predicate ListRaises(eval: Evaluator, rules: seq<AndList>, i: nat) {
    i < |rules| && TripsBelow(eval, rules[i], |rules[i]|)
  }

  ghost predicate RaisesIn(eval: Evaluator, rules: seq<AndList>, n: nat) {
    exists i: nat :: i < n && ListRaises(eval, rules, i)
  }

  ghost function ListHolds(eval: Evaluator, rules: seq<AndList>): nat -> bool {
    (i: nat) => i < |rules| && AllHold(eval, rules[i], |rules[i]|)
  }

  ghost function RecordsList(eval: Evaluator, rules: seq<AndList>): (nat, seq<seq<Match>>) -> bool {
    (i: nat, matches: seq<seq<Match>>) => i < |rules| && |matches| == |rules[i]| && RecordsAll(eval, rules[i], matches)
  }

  /** `lists` holds, in order, the matches of exactly those of the first `n` and-lists that hold throughout. */
  ghost predicate Records(eval: Evaluator, rules: seq<AndList>, n: nat, lists: seq<seq<seq<Match>>>, hits: seq<nat>) {
    Lists(hits, n, ListHolds(eval, rules), lists, RecordsList(eval, rules))
  }

  /** Every and-list is tried; one that reaches an expression that raises is the only failure. */
  lemma {:induction false} OrRaises(eval: Evaluator, rules: seq<AndList>, n: nat)
    requires n <= |rules|
    ensures EvalOr(eval, rules, n).Raised? <==> RaisesIn(eval, rules, n)
  {
    if n > 0 {
      OrRaises(eval, rules, n - 1);
      AndExact(eval, rules[n - 1], |rules[n - 1]|);
      assert RaisesIn(eval, rules, n) <==> RaisesIn(eval, rules, n - 1) || ListRaises(eval, rules, n - 1);
    }
  }

  lemma {:induction false} OrExact(eval: Evaluator, rules: seq<AndList>, n: nat) returns (hits: seq<nat>)
    requires n <= |rules| && EvalOr(eval, rules, n).Ok?
    ensures Records(eval, rules, n, EvalOr(eval, rules, n).value, hits)
  {
    hits := [];
    if n > 0 {
      hits := OrExact(eval, rules, n - 1);
      var exps, lists := rules[n - 1], EvalOr(eval, rules, n - 1).value;
      AndExact(eval, exps, |exps|);
      var one := EvalAnd(eval, exps, |exps|).value;
      if one.Some? {
        OneMoreListed(hits, n - 1, ListHolds(eval, rules), lists, RecordsList(eval, rules), one.value);
        hits := hits + [n - 1];
      } else {
        NoneListed(hits, n - 1, ListHolds(eval, rules), lists, RecordsList(eval, rules));
      }
    }
  }

  // ----- The whole evaluation

  function Expressions(py: Python, uve: Json): Evaluator {
    e => EvalExpr(py, uve, e)
  }

  /** _evaluate_uve_for_alarms; `applies` is the test of the parent of an alarm configured under a project. */
  function Evaluate(py: Python, uve: Json, rules: seq<AndList>, applies: bool): Outcome<Option<seq<seq<seq<Match>>>>> {
    if !applies then Ok(None)
    else
      var l := EvalOr(Expressions(py, uve), rules, |rules|);
      if l.Raised? then Raised else if l.value == [] then Ok(None) else Ok(Some(l.value))
  }

  ghost predicate AllSatisfied(py: Python, uve: Json, exps: AndList, n: nat)
    requires n <= |exps|
  {
    forall k :: 0 <= k < n ==> Satisfied(py, uve, exps[k])
  }

  ghost predicate SomeListSatisfied(py: Python, uve: Json, rules: seq<AndList>) {
    exists i: nat :: i < |rules| && AllSatisfied(py, uve, rules[i], |rules[i]|)
  }

  /** Some and-list reaches an expression that errs: those before it are satisfied. */
  ghost predicate SomeListErrs(py: Python, uve: Json, rules: seq<AndList>) {
    exists i: nat, j: nat :: i < |rules| && j < |rules[i]| && AllSatisfied(py, uve, rules[i], j) && Errs(py, uve, rules[i][j])
  }

  lemma HoldsIffSatisfied(py: Python, uve: Json, exps: AndList, n: nat)
    requires n <= |exps|
    ensures AllHold(Expressions(py, uve), exps, n) <==> AllSatisfied(py, uve, exps, n)
    ensures Trips(Expressions(py, uve), exps, n) <==> n < |exps| && AllSatisfied(py, uve, exps, n) && Errs(py, uve, exps[n])
  {
    forall k | 0 <= k < |exps|
      ensures Holds(Expressions(py, uve), exps[k]) <==> Satisfied(py, uve, exps[k])
      ensures Expressions(py, uve)(exps[k]).Raised? <==> Errs(py, uve, exps[k])
    {
      ExprExact(py, uve, exps[k]);
    }
  }

  lemma RaisesIffErrs(py: Python, uve: Json, rules: seq<AndList>)
    ensures RaisesIn(Expressions(py, uve), rules, |rules|) <==> SomeListErrs(py, uve, rules)
  {
    var eval := Expressions(py, uve);
    if RaisesIn(eval, rules, |rules|) {
      var i: nat :| i < |rules| && ListRaises(eval, rules, i);
      var j: nat :| j < |rules[i]| && Trips(eval, rules[i], j);
      HoldsIffSatisfied(py, uve, rules[i], j);
    }
    if SomeListErrs(py, uve, rules) {
      var i: nat, j: nat :| i < |rules| && j < |rules[i]| && AllSatisfied(py, uve, rules[i], j) && Errs(py, uve, rules[i][j]);
      HoldsIffSatisfied(py, uve, rules[i], j);
      assert TripsBelow(eval, rules[i], |rules[i]|);
      assert ListRaises(eval, rules, i);
    }
  }

  /**
    The evaluation raises exactly if some and-list reaches an expression that errs. Otherwise it has
    a result exactly if some and-list has every expression satisfied, and the result is the matches
    of exactly those and-lists, in order.
   */
  lemma EvaluationExact(py: Python, uve: Json, rules: seq<AndList>, applies: bool)
    ensures Evaluate(py, uve, rules, applies).Raised? <==> applies && SomeListErrs(py, uve, rules)
    ensures var r := Evaluate(py, uve, rules, applies);
            && (r.Ok? ==> (r.value.Some? <==> applies && SomeListSatisfied(py, uve, rules)))
            && (r.Ok? && r.value.Some? ==>
                  exists hits: seq<nat> :: Records(Expressions(py, uve), rules, |rules|, r.value.value, hits))
  {
    var eval := Expressions(py, uve);
    OrRaises(eval, rules, |rules|);
    RaisesIffErrs(py, uve, rules);
    if EvalOr(eval, rules, |rules|).Ok? {
      var hits := OrExact(eval, rules, |rules|);
      if hits != [] {
        assert hits[0] in hits;
        HoldsIffSatisfied(py, uve, rules[hits[0]], |rules[hits[0]]|);
      }
      if i: nat :| i < |rules| && AllSatisfied(py, uve, rules[i], |rules[i]|) {
        HoldsIffSatisfied(py, uve, rules[i], |rules[i]|);
        assert ListHolds(eval, rules)(i);
        assert i in hits;
      }
    }
  }

  // ----- The loops

  method MatchPairs(py: Python, e: Expr, o1: Operand, r: Operand2) returns (m: Outcome<seq<Match>>)
    ensures m == Matches(py, e, o1, r, PairCount(o1, r))
  {
    var matchList := [];
    for i := 0 to PairCount(o1, r)
      invariant Matches(py, e, o1, r, i) == Ok(matchList)
    {
      var left, right := First(o1, r, i), Second(o1, r, i);
      var test := Test(py, e.op, left, right);
      if test.Raised? {
        RaisedStays(py, e, o1, r, i + 1, PairCount(o1, r));
        return Raised;
      }
      if test.value {
        matchList := matchList + [MatchOf(e, left, right)];
      }
    }
    m := Ok(matchList);
  }

  lemma {:induction false} RaisedStays(py: Python, e: Expr, o1: Operand, r: Operand2, n: nat, m: nat)
    requires n <= m <= PairCount(o1, r) && Matches(py, e, o1, r, n).Raised?
    ensures Matches(py, e, o1, r, m).Raised?
  {
    if n < m {
      RaisedStays(py, e, o1, r, n, m - 1);
    }
  }

  method EvaluateExpr(py: Python, uve: Json, e: Expr) returns (m: Outcome<seq<Match>>)
    ensures m == Expressions(py, uve)(e)
  {
    var os := Operands(uve, e);
    if os.Raised? {
      return Raised;
    }
    if os.value.None? {
      return Ok([]);
    }
    m := MatchPairs(py, e, os.value.value.0, os.value.value.1);
  }

  method EvaluateAndList(py: Python, uve: Json, exps: AndList) returns (r: Outcome<Option<seq<seq<Match>>>>)
    ensures r == EvalAnd(Expressions(py, uve), exps, |exps|)
  {
    var andList := [];
    for j := 0 to |exps|
      invariant EvalAnd(Expressions(py, uve), exps, j) == Ok(Some(andList))
    {
      var m := EvaluateExpr(py, uve, exps[j]);
      OneMoreExpr(Expressions(py, uve), exps, j, andList, m);
      if m.Raised? {
        return Raised;
      }
      if m.value == [] {
        return Ok(None);
      }
      andList := andList + [m.value];
    }
    r := Ok(Some(andList));
  }

  lemma {:induction false} OneMoreExpr(eval: Evaluator, exps: AndList, j: nat, andList: seq<seq<Match>>, m: Outcome<seq<Match>>)
    requires j < |exps| && EvalAnd(eval, exps, j) == Ok(Some(andList)) && m == eval(exps[j])
    ensures if m.Raised? then EvalAnd(eval, exps, |exps|) == Raised
            else if m.value == [] then EvalAnd(eval, exps, |exps|) == Ok(None)
            else EvalAnd(eval, exps, j + 1) == Ok(Some(andList + [m.value]))
  {
    if m.Raised? || m.value == [] {
      FailedStays(eval, exps, j + 1, |exps|);
    }
  }

  lemma {:induction false} FailedStays(eval: Evaluator, exps: AndList, n: nat, m: nat)
    requires n <= m <= |exps| && (EvalAnd(eval, exps, n).Raised? || EvalAnd(eval, exps, n).value.None?)
    ensures EvalAnd(eval, exps, m) == EvalAnd(eval, exps, n)
  {
    if n < m {
      FailedStays(eval, exps, n, m - 1);
    }
  }

  lemma {:induction false} OrRaisedStays(eval: Evaluator, rules: seq<AndList>, n: nat, m: nat)
    requires n <= m <= |rules| && EvalOr(eval, rules, n).Raised?
    ensures EvalOr(eval, rules, m).Raised?
  {
    if n < m {
      OrRaisedStays(eval, rules, n, m - 1);
    }
  }

  method EvaluateUveForAlarms(py: Python, uve: Json, rules: seq<AndList>, applies: bool)
    returns (r: Outcome<Option<seq<seq<seq<Match>>>>>)
    ensures r == Evaluate(py, uve, rules, applies)
  {
    if !applies {
      return Ok(None);
    }
    var orList := [];
    for i := 0 to |rules|
      invariant EvalOr(Expressions(py, uve), rules, i) == Ok(orList)
    {
      var l := EvaluateAndList(py, uve, rules[i]);
      if l.Raised? {
        OrRaisedStays(Expressions(py, uve), rules, i + 1, |rules|);
        return Raised;
      }
      if l.value.Some? {
        orList := orList + [l.value.value];
      }
    }
    r := Ok(if orList == [] then None else Some(orList));
  }

  /**
    process_alarms for an enabled alarm without a plugin: the alarm is reported if its rules match,
    with the matches, and also if their evaluation raises, without any.
   */
  method ProcessAlarms(py: Python, uve: Json, rules: seq<AndList>, applies: bool)
    returns (reported: bool, matches: Option<seq<seq<seq<Match>>>>)
    ensures reported <==> applies && (SomeListErrs(py, uve, rules) || SomeListSatisfied(py, uve, rules))
    ensures matches.Some? <==> applies && !SomeListErrs(py, uve, rules) && SomeListSatisfied(py, uve, rules)
    ensures matches.Some? ==> exists hits: seq<nat> :: Records(Expressions(py, uve), rules, |rules|, matches.value, hits)
  {
    EvaluationExact(py, uve, rules, applies);
    var r := EvaluateUveForAlarms(py, uve, rules, applies);
    matches := if r.Ok? then r.value else None;
    reported := r.Raised? || matches.Some?;
  }

  /** A rule that raises, so that its alarm is reported: its path goes on past a number. */
  lemma PathPastNumberRaises(py: Python, n: real, a: Text, b: Text, given: Text, op: Op)
    requires !IsWildcard(a) && !IsValue(a) && !IsKey(a) && given.parsed.Some?
    ensures var uve, e := Obj([Field(a, Num(n))]), Expr([a, b], op, JsonValue(given), []);
            Evaluate(py, uve, [[e]], true) == Raised
  {
    var uve, e := Obj([Field(a, Num(n))]), Expr([a, b], op, JsonValue(given), []);
    assert Find(uve.fields, a) == Num(n);
    assert [a, b][1..] == [b];
    assert Get(Num(n), [b], [] + [Node(a, Num(n))]) == Nothing;
    assert Get(uve, [a, b], []) == Nothing;
    assert PairIs(py, e, Nothing, Given(given.parsed.value), 0, Raised);
    assert Errs(py, uve, e);
    assert [[e]][0] == [e] && AllSatisfied(py, uve, [e], 0);
    assert SomeListErrs(py, uve, [[e]]);
    EvaluationExact(py, uve, [[e]], true);
  }
}
