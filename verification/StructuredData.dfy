/**
  Structured data of a syslog message (a subset of section 6.3 of RFC 5424): the parser of the
  key="value" pairs, the extraction of their text from the message body, and the decoration of a
  message with more pairs, from contrail-collector/structured_syslog_server.cc.
 */
module StructuredData {
  import opened Options

  /** SyslogParser::Holder. */
  datatype Holder = Int(i: int) | Str(s: string)

  type Fields = map<string, Holder>
  type Pair = (string, string)

  /** The fields that are numbers, and how their text is read. */
  datatype IntFields = IntFields(names: seq<string>, atol: string -> int)

  /** std::string::find; a start beyond the end finds nothing. */
  function Find(s: string, c: char, from: nat): (r: Option<nat>)
    ensures r.Some? ==> from <= r.value < |s| && s[r.value] == c
    ensures r.Some? ==> forall i :: from <= i < r.value ==> s[i] != c
    ensures r.None? ==> forall i :: from <= i < |s| ==> s[i] != c
    decreases |s| - from
  {
    if from >= |s| then None
    else if s[from] == c then Some(from)
    else Find(s, c, from + 1)
  }

  function Hold(key: string, val: string, ints: IntFields): Holder {
    if key in ints.names then Int(ints.atol(val)) else Str(val)
  }

  /** std::map::insert: the first value of a key stays. */
  function Inserted(v: Fields, p: Pair, ints: IntFields): Fields {
    if p.0 in v then v else v[p.0 := Hold(p.0, p.1, ints)]
  }

  function AllInserted(v: Fields, ps: seq<Pair>, ints: IntFields): Fields
    decreases |ps|
  {
    if ps == [] then v else AllInserted(Inserted(v, ps[0], ints), ps[1..], ints)
  }

  /** What is found at a position: no more pairs, a pair without its closing quote, or a pair and where to go on. */
  datatype Read = End | Bad | Got(pair: Pair, next: nat)

  function ReadAt(s: string, start: nat): (r: Read)
    ensures r.Got? ==> start + 4 <= r.next <= |s| + 1
  {
    var eq := Find(s, '=', start);
    if eq.None? then End
    else
      var q := Find(s, '"', eq.value + 2);
      if q.None? then Bad
      else Got((s[start..eq.value], s[eq.value + 2..q.value]), q.value + 2)
  }

  /** What there is to read at each position of a text of length `n`. */
  type Reader = nat -> Read

  ghost predicate Advances(read: Reader, n: nat) {
    forall start: nat :: read(start).Got? ==> start < read(start).next <= n + 1
  }

  ghost predicate Reads(read: Reader, s: string) {
    Advances(read, |s|) && forall start: nat {:trigger ReadAt(s, start)} :: read(start) == ReadAt(s, start)
  }

  function ReaderOf(s: string): (read: Reader)
    ensures Reads(read, s)
  {
    (start: nat) => ReadAt(s, start)
  }

  /** The pairs read from `start` on. */
  ghost function PairsFrom(read: Reader, n: nat, start: nat): seq<Pair>
    requires Advances(read, n)
    decreases n + 1 - start
  {
    match read(start)
    case Got(p, next) => [p] + PairsFrom(read, n, next)
    case _ => []
  }

  /** The text is well formed from `start` to its end. */
  ghost predicate ReadsToEnd(read: Reader, n: nat, start: nat)
    requires Advances(read, n)
    decreases n + 1 - start
  {
    match read(start)
    case Got(_, next) => ReadsToEnd(read, n, next)
    case Bad => false
    case End => true
  }

  /** The part ends with the closing quote of its last pair. */
  ghost predicate EndsClean(read: Reader, n: nat, start: nat)
    requires Advances(read, n)
    decreases n + 1 - start
  {
    match read(start)
    case Got(_, next) => next == n + 1 || EndsClean(read, n, next)
    case _ => false
  }

  // ----- Printing

  function PrintPair(p: Pair): string {
    p.0 + "=\"" + p.1 + "\""
  }

  /** The pairs, with a space between. */
  function Print(ps: seq<Pair>): string {
    if ps == [] then ""
    else if |ps| == 1 then PrintPair(ps[0])
    else PrintPair(ps[0]) + " " + Print(ps[1..])
  }

  /** The pairs as decorations: a space before each. */
  function Decorations(ps: seq<Pair>): string {
    if ps == [] then "" else " " + PrintPair(ps[0]) + Decorations(ps[1..])
  }

  /** A pair that survives printing: no '=' in the key and no quote in the value. */
  predicate Printable(p: Pair) {
    '=' !in p.0 && '"' !in p.1
  }

  // ----- The methods

  /** The message to forward, which the parser decorates on the way. */
  class Forwarded {
    var text: string

    constructor (text: string)
      ensures this.text == text
    {
      this.text := text;
    }

    /** DecorateMsg. */
    method Decorate(key: string, val: string, prevPos: nat) returns (pos: nat)
      modifies this
      ensures (text, pos) == Decorated(old(text), (key, val), prevPos)
    {
      var found := Find(text, ']', prevPos);
      if found.None? {
        return 0;
      }
      pos := found.value;
      text := text[..pos] + " " + key + "=\"" + val + "\"" + text[pos..];
      assert text == old(text)[..pos] + (" " + PrintPair((key, val))) + old(text)[pos..];
    }
  }

  function Decorated(text: string, p: Pair, prevPos: nat): (string, nat) {
    var found := Find(text, ']', prevPos);
    if found.None? then (text, 0)
    else (text[..found.value] + (" " + PrintPair(p)) + text[found.value..], found.value)
  }

  /** The message after a list of decorations, each found from where the one before it went. */
  function DecoratedAll(text: string, ps: seq<Pair>, prevPos: nat): string
    decreases |ps|
  {
    if ps == [] then text
    else
      var (t, pos) := Decorated(text, ps[0], prevPos);
      DecoratedAll(t, ps[1..], pos)
  }

  /** ParseStructuredPart: the fields are extended, and the message decorated if there is one. */
  method ParseStructuredPart(v: Fields, part: string, ints: IntFields, msg: Forwarded?) returns (r: Fields, ok: bool)
    modifies msg
    ensures ok == ReadsToEnd(ReaderOf(part), |part|, 0)
    ensures r == AllInserted(v, PairsFrom(ReaderOf(part), |part|, 0), ints)
    ensures msg != null ==> msg.text == DecoratedAll(old(msg.text), PairsFrom(ReaderOf(part), |part|, 0), 0)
  {
    r, ok := ParsePairs(v, part, ints, msg, ReaderOf(part));
  }

  method ParsePairs(v: Fields, part: string, ints: IntFields, msg: Forwarded?, ghost read: Reader)
    returns (r: Fields, ok: bool)
    requires Reads(read, part)
    modifies msg
    ensures ok == ReadsToEnd(read, |part|, 0)
    ensures r == AllInserted(v, PairsFrom(read, |part|, 0), ints)
    ensures msg != null ==> msg.text == DecoratedAll(old(msg.text), PairsFrom(read, |part|, 0), 0)
  {
    r, ok := v, false;
    var start: nat, prevPos: nat := 0, 0;
    ghost var n, goal := |part|, PairsFrom(read, |part|, 0);
    ghost var text := if msg != null then msg.text else "";
    while true
      invariant ReadsToEnd(read, n, 0) == ReadsToEnd(read, n, start)
      invariant AllInserted(v, goal, ints) == AllInserted(r, PairsFrom(read, n, start), ints)
      invariant msg != null ==>
                  DecoratedAll(text, goal, 0) == DecoratedAll(msg.text, PairsFrom(read, n, start), prevPos)
      decreases n + 1 - start
    {
      var found := ReadPair(part, start, read);
      match found
      case End => return r, true;
      case Bad => return r, false;
      case Got(p, next) =>
        FirstOfAll(r, p, PairsFrom(read, n, next), ints);
        if p.0 !in r {
          r := r[p.0 := if p.0 in ints.names then Int(ints.atol(p.1)) else Str(p.1)];
        }
        if msg != null {
          FirstDecoration(msg.text, p, PairsFrom(read, n, next), prevPos);
          prevPos := msg.Decorate(p.0, p.1, prevPos);
        }
        start := next;
    }
  }

  method ReadPair(part: string, start: nat, ghost read: Reader) returns (r: Read)
    requires Reads(read, part)
    ensures r == read(start)
  {
    assert read(start) == ReadAt(part, start);
    var end := Find(part, '=', start);
    if end.None? {
      return End;
    }
    var key := part[start..end.value];
    var from := end.value + 2;
    var close := Find(part, '"', from);
    if close.None? {
      return Bad;
    }
    var val := part[from..close.value];
    r := Got((key, val), close.value + 2);
  }

  lemma FirstOfAll(v: Fields, p: Pair, ps: seq<Pair>, ints: IntFields)
    ensures AllInserted(v, [p] + ps, ints) == AllInserted(Inserted(v, p, ints), ps, ints)
  {
    assert ([p] + ps)[1..] == ps;
  }

  lemma FirstDecoration(text: string, p: Pair, ps: seq<Pair>, prevPos: nat)
    ensures DecoratedAll(text, [p] + ps, prevPos)
         == DecoratedAll(Decorated(text, p, prevPos).0, ps, Decorated(text, p, prevPos).1)
  {
    assert ([p] + ps)[1..] == ps;
  }

  // ----- Reading back what was printed

  lemma {:induction false} FindAt(s: string, c: char, from: nat, r: nat)
    requires from <= r < |s| && s[r] == c
    requires forall i :: from <= i < r ==> s[i] != c
    ensures Find(s, c, from) == Some(r)
    decreases r - from
  {
    if from < r {
      FindAt(s, c, from + 1, r);
    }
  }

  /** A printed pair is read back wherever it stands. */
  lemma ReadPrinted(read: Reader, s: string, before: string, p: Pair, after: string)
    requires Reads(read, s) && Printable(p) && s == before + PrintPair(p) + after
    ensures read(|before|) == Got(p, |before| + |PrintPair(p)| + 1)
  {
    var eq, q := |before| + |p.0|, |before| + |p.0| + 2 + |p.1|;
    assert s == before + p.0 + "=\"" + p.1 + "\"" + after;
    assert s[eq] == '=' && s[q] == '"';
    assert s[|before|..eq] == p.0 && s[eq + 2..q] == p.1;
    PairFound(s, |before|, eq, q, p);
    assert read(|before|) == ReadAt(s, |before|);
  }

  lemma PairFound(s: string, start: nat, eq: nat, q: nat, p: Pair)
    requires start <= eq && eq + 2 <= q < |s| && s[eq] == '=' && s[q] == '"'
    requires s[start..eq] == p.0 && s[eq + 2..q] == p.1 && Printable(p)
    ensures ReadAt(s, start) == Got(p, q + 2)
  {
    assert forall i :: start <= i < eq ==> s[i] == p.0[i - start];
    FindAt(s, '=', start, eq);
    assert forall i :: eq + 2 <= i < q ==> s[i] == p.1[i - eq - 2];
    FindAt(s, '"', eq + 2, q);
  }

  lemma Regroup(before: string, p: string, rest: string)
    ensures before + (p + " " + rest) == (before + p) + (" " + rest)
    ensures before + (p + " " + rest) == (before + p + " ") + rest
  {
  }

  /** What follows the first pair of a printed list. */
  function AfterFirst(ps: seq<Pair>): string
    requires ps != []
  {
    if |ps| == 1 then "" else " " + Print(ps[1..])
  }

  lemma PrintSplits(before: string, ps: seq<Pair>)
    requires ps != []
    ensures before + Print(ps) == before + PrintPair(ps[0]) + AfterFirst(ps)
    ensures |ps| > 1 ==> before + Print(ps) == (before + PrintPair(ps[0]) + " ") + Print(ps[1..])
  {
    if |ps| > 1 {
      Regroup(before, PrintPair(ps[0]), Print(ps[1..]));
    }
  }

  ghost predicate AllPrintable(ps: seq<Pair>) {
    forall i :: 0 <= i < |ps| ==> Printable(ps[i])
  }

  lemma PastTheEnd(read: Reader, s: string, start: nat)
    requires Reads(read, s) && start >= |s|
    ensures read(start) == End
  {
    assert ReadAt(s, start) == End;
  }

  /** The round trip: the pairs that were printed are read, all of them and in order, to a clean end. */
  lemma {:induction false} PrintedPairs(read: Reader, s: string, before: string, ps: seq<Pair>)
    requires Reads(read, s) && s == before + Print(ps) && AllPrintable(ps)
    ensures PairsFrom(read, |s|, |before|) == ps && ReadsToEnd(read, |s|, |before|)
    ensures ps != [] ==> EndsClean(read, |s|, |before|)
    decreases |ps|
  {
    if ps == [] {
      PastTheEnd(read, s, |before|);
    } else {
      PrintSplits(before, ps);
      var head := before + PrintPair(ps[0]);
      ReadPrinted(read, s, before, ps[0], AfterFirst(ps));
      assert ps == [ps[0]] + ps[1..];
      OneRead(read, |s|, |before|);
      if |ps| == 1 {
        PastTheEnd(read, s, |head| + 1);
      } else {
        PrintedPairs(read, s, head + " ", ps[1..]);
        assert |head + " "| == |head| + 1;
      }
    }
  }

  lemma {:induction false} OneRead(read: Reader, n: nat, start: nat)
    requires Advances(read, n) && read(start).Got?
    ensures var next := read(start).next;
            && PairsFrom(read, n, start) == [read(start).pair] + PairsFrom(read, n, next)
            && (ReadsToEnd(read, n, start) <==> ReadsToEnd(read, n, next))
            && (EndsClean(read, n, start) <==> next == n + 1 || EndsClean(read, n, next))
  {
  }

  /** Printing pairs and parsing the text gives back the pairs. */
  lemma ParsePrinted(read: Reader, ps: seq<Pair>)
    requires Reads(read, Print(ps)) && AllPrintable(ps)
    ensures PairsFrom(read, |Print(ps)|, 0) == ps && ReadsToEnd(read, |Print(ps)|, 0)
  {
    PrintedPairs(read, Print(ps), "", ps);
  }

  /** First wins: a key has the value of the first pair with it, if it was not there before. */
  lemma {:induction false} FirstWins(v: Fields, ps: seq<Pair>, ints: IntFields, i: nat)
    requires i < |ps|
    requires forall j :: 0 <= j < i ==> ps[j].0 != ps[i].0
    ensures var r := AllInserted(v, ps, ints);
            var (key, val) := ps[i];
            key in r && r[key] == if key in v then v[key] else if key in ints.names then Int(ints.atol(val)) else Str(val)
    decreases |ps|
  {
    var v1 := Inserted(v, ps[0], ints);
    if i == 0 {
      KeysStay(v1, ps[1..], ints, ps[0].0);
    } else {
      FirstWins(v1, ps[1..], ints, i - 1);
    }
  }

  predicate HasKey(ps: seq<Pair>, key: string) {
    exists i :: 0 <= i < |ps| && ps[i].0 == key
  }

  /** And the fields have no other keys than those that were there and those of the pairs. */
  lemma {:induction false} NoOtherKeys(v: Fields, ps: seq<Pair>, ints: IntFields, key: string)
    ensures key in AllInserted(v, ps, ints) <==> key in v || HasKey(ps, key)
    decreases |ps|
  {
    if ps != [] {
      NoOtherKeys(Inserted(v, ps[0], ints), ps[1..], ints, key);
      assert HasKey(ps, key) <==> ps[0].0 == key || HasKey(ps[1..], key) by {
        assert forall i :: 0 < i < |ps| ==> ps[i] == ps[1..][i - 1];
      }
    }
  }

  lemma {:induction false} KeysStay(v: Fields, ps: seq<Pair>, ints: IntFields, key: string)
    requires key in v
    ensures key in AllInserted(v, ps, ints) && AllInserted(v, ps, ints)[key] == v[key]
    decreases |ps|
  {
    if ps != [] {
      KeysStay(Inserted(v, ps[0], ints), ps[1..], ints, key);
    }
  }

  /** A text without '=' has no pairs, and is well formed. */
  lemma NoPairs(read: Reader, s: string)
    requires Reads(read, s) && '=' !in s
    ensures PairsFrom(read, |s|, 0) == [] && ReadsToEnd(read, |s|, 0)
  {
    assert read(0) == ReadAt(s, 0);
  }

  /** A text whose last value has no closing quote is refused, with the pairs before it read. */
  lemma {:induction false} UnclosedIsRefused(longer: Reader, s: string, ps: seq<Pair>, key: string, val: string)
    requires AllPrintable(ps) && ps != [] && '=' !in key && '"' !in val
    requires s == Print(ps) + (" " + key + "=\"" + val) && Reads(longer, s)
    ensures PairsFrom(longer, |s|, 0) == ps && !ReadsToEnd(longer, |s|, 0)
  {
    ReadBehind(longer, ReaderOf(Print(ps)), Print(ps), " " + key + "=\"" + val, ps);
    UnclosedAt(s, Print(ps), key, val);
    assert longer(|Print(ps)| + 1) == ReadAt(s, |Print(ps)| + 1) == Bad;
  }

  /** Behind printed pairs a text is read on from the place behind the space. */
  lemma {:induction false} ReadBehind(longer: Reader, read: Reader, t: string, tail: string, ps: seq<Pair>)
    requires Reads(read, t) && Reads(longer, t + tail) && t == Print(ps) && AllPrintable(ps) && ps != []
    ensures PairsFrom(longer, |t + tail|, 0) == ps + PairsFrom(longer, |t + tail|, |t| + 1)
    ensures ReadsToEnd(longer, |t + tail|, 0) == ReadsToEnd(longer, |t + tail|, |t| + 1)
  {
    assert t == "" + Print(ps);
    PrintedPairs(read, t, "", ps);
    PastTheEnd(read, t, |t| + 1);
    LongerReads(longer, read, t, tail);
    ReadOn(longer, |t + tail|, read, |t|, 0);
  }

  lemma UnclosedAt(s: string, before: string, key: string, val: string)
    requires '=' !in key && '"' !in val && s == before + (" " + key + "=\"" + val)
    ensures ReadAt(s, |before| + 1) == Bad
  {
    var eq := |before| + 1 + |key|;
    assert s[eq] == '=';
    assert forall i :: |before| + 1 <= i < eq ==> s[i] == key[i - |before| - 1];
    assert forall i :: eq + 2 <= i < |s| ==> s[i] == val[i - eq - 2];
    FindAt(s, '=', |before| + 1, eq);
  }

  // ----- Decorating

  lemma {:induction false} FindStays(s: string, t: string, c: char, from: nat)
    requires Find(s, c, from).Some?
    ensures Find(s + t, c, from) == Find(s, c, from)
  {
    var r := Find(s, c, from).value;
    assert forall i :: 0 <= i < |s| ==> (s + t)[i] == s[i];
    FindAt(s + t, c, from, r);
  }

  lemma ReadStays(s: string, t: string, start: nat)
    requires ReadAt(s, start).Got?
    ensures ReadAt(s + t, start) == ReadAt(s, start)
  {
    FindStays(s, t, '=', start);
    var eq := Find(s, '=', start).value;
    FindStays(s, t, '"', eq + 2);
    var q := Find(s, '"', eq + 2).value;
    assert (s + t)[start..eq] == s[start..eq] && (s + t)[eq + 2..q] == s[eq + 2..q];
  }

  /** Two readers of which the second sees a longer text that begins with the first one's. */
  ghost predicate Extends(longer: Reader, read: Reader) {
    forall start: nat :: read(start).Got? ==> longer(start) == read(start)
  }

  lemma LongerReads(longer: Reader, read: Reader, s: string, t: string)
    requires Reads(read, s) && Reads(longer, s + t)
    ensures Extends(longer, read)
  {
    forall start: nat | read(start).Got?
      ensures longer(start) == read(start)
    {
      assert read(start) == ReadAt(s, start);
      ReadStays(s, t, start);
      assert longer(start) == ReadAt(s + t, start);
    }
  }

  lemma {:induction false} PrintIsDecorations(p: Pair, ps: seq<Pair>)
    ensures " " + Print([p] + ps) == Decorations([p] + ps)
    decreases |ps|
  {
    var all := [p] + ps;
    assert all[1..] == ps;
    if ps == [] {
      assert Decorations(all) == " " + PrintPair(p) + "";
    } else {
      assert ps == [ps[0]] + ps[1..];
      PrintIsDecorations(ps[0], ps[1..]);
      assert " " + Print(all) == " " + PrintPair(p) + (" " + Print(ps));
    }
  }

  /** A text that ends clean is read up to its end, and what follows is read on from there. */
  lemma {:induction false} ReadOn(longer: Reader, n': nat, read: Reader, n: nat, start: nat)
    requires n <= n' && Advances(read, n) && Advances(longer, n') && Extends(longer, read)
    requires EndsClean(read, n, start) && read(n + 1) == End
    ensures PairsFrom(longer, n', start) == PairsFrom(read, n, start) + PairsFrom(longer, n', n + 1)
    ensures ReadsToEnd(longer, n', start) == ReadsToEnd(longer, n', n + 1)
    decreases n + 1 - start
  {
    var Got(p, next) := read(start);
    if next < n + 1 {
      ReadOn(longer, n', read, n, next);
      var a, b := PairsFrom(read, n, next), PairsFrom(longer, n', n + 1);
      assert [p] + (a + b) == [p] + a + b;
    }
  }

  lemma FreshPairs(read: Reader, s: string, ps: seq<Pair>)
    requires Reads(read, s + Decorations(ps)) && AllPrintable(ps)
    ensures PairsFrom(read, |s + Decorations(ps)|, |s| + 1) == ps
    ensures ReadsToEnd(read, |s + Decorations(ps)|, |s| + 1)
  {
    if ps == [] {
      PastTheEnd(read, s + Decorations(ps), |s| + 1);
    } else {
      assert ps == [ps[0]] + ps[1..];
      PrintIsDecorations(ps[0], ps[1..]);
      assert s + Decorations(ps) == s + " " + Print(ps);
      PrintedPairs(read, s + Decorations(ps), s + " ", ps);
    }
  }

  /** Behind a part that ends clean, decorations are read as further pairs. */
  lemma DecoratedPairs(longer: Reader, read: Reader, s: string, ps: seq<Pair>)
    requires Reads(read, s) && Reads(longer, s + Decorations(ps))
    requires EndsClean(read, |s|, 0) && AllPrintable(ps)
    ensures PairsFrom(longer, |s + Decorations(ps)|, 0) == PairsFrom(read, |s|, 0) + ps
    ensures ReadsToEnd(longer, |s + Decorations(ps)|, 0)
  {
    LongerReads(longer, read, s, Decorations(ps));
    PastTheEnd(read, s, |s| + 1);
    ReadOn(longer, |s + Decorations(ps)|, read, |s|, 0);
    FreshPairs(longer, s, ps);
  }

  /** A well formed text that does not end clean is read up to a place where it has no pair. */
  lemma {:induction false} ReadUpTo(longer: Reader, n': nat, read: Reader, n: nat, start: nat) returns (e: nat)
    requires n <= n' && Advances(read, n) && Advances(longer, n') && Extends(longer, read)
    requires start <= n && ReadsToEnd(read, n, start) && !EndsClean(read, n, start)
    ensures e <= n && read(e) == End
    ensures PairsFrom(longer, n', start) == PairsFrom(read, n, start) + PairsFrom(longer, n', e)
    decreases n + 1 - start
  {
    e := start;
    if read(start).Got? {
      var Got(p, next) := read(start);
      e := ReadUpTo(longer, n', read, n, next);
      var a, b := PairsFrom(read, n, next), PairsFrom(longer, n', e);
      assert [p] + (a + b) == [p] + a + b;
    } else {
      assert [] + PairsFrom(longer, n', e) == PairsFrom(longer, n', e);
    }
  }

  /** There the key of a decoration comes out with what is left of the text, and a space, in front of it. */
  lemma SpoiltKey(longer: Reader, s: string, e: nat, p: Pair, after: string)
    requires e <= |s| && ReadAt(s, e) == End && Printable(p)
    requires Reads(longer, s + (" " + PrintPair(p) + after))
    ensures longer(e).Got? && longer(e).pair == (s[e..] + " " + p.0, p.1)
  {
    var t := s + (" " + PrintPair(p) + after);
    var eq, q := |s| + 1 + |p.0|, |s| + 1 + |p.0| + 2 + |p.1|;
    var key := s[e..] + " " + p.0;
    PrintedAt(s, e, p, after);
    assert '=' !in s[e..];
    PairFound(t, e, eq, q, (key, p.1));
    assert longer(e) == ReadAt(t, e);
  }

  lemma PrintedAt(s: string, e: nat, p: Pair, after: string)
    requires e <= |s|
    ensures var t := s + (" " + PrintPair(p) + after);
            var eq, q := |s| + 1 + |p.0|, |s| + 1 + |p.0| + 2 + |p.1|;
            q < |t| && t[eq] == '=' && t[q] == '"' && t[e..eq] == s[e..] + " " + p.0 && t[eq + 2..q] == p.1
  {
    assert s + (" " + PrintPair(p) + after) == s + " " + p.0 + "=\"" + p.1 + "\"" + after;
  }

  /** Ending clean is exactly what a well formed part needs for its decorations to be read as they are. */
  lemma DecoratedPairsIff(longer: Reader, read: Reader, s: string, ps: seq<Pair>)
    requires Reads(read, s) && Reads(longer, s + Decorations(ps))
    requires ReadsToEnd(read, |s|, 0) && AllPrintable(ps) && ps != []
    ensures PairsFrom(longer, |s + Decorations(ps)|, 0) == PairsFrom(read, |s|, 0) + ps <==> EndsClean(read, |s|, 0)
  {
    var n' := |s + Decorations(ps)|;
    if EndsClean(read, |s|, 0) {
      DecoratedPairs(longer, read, s, ps);
    } else {
      LongerReads(longer, read, s, Decorations(ps));
      var e := ReadUpTo(longer, n', read, |s|, 0);
      assert read(e) == ReadAt(s, e);
      SpoiltKey(longer, s, e, ps[0], Decorations(ps[1..]));
      var a, b := PairsFrom(read, |s|, 0), PairsFrom(longer, n', e);
      assert (a + b)[|a|] == b[0] && (a + ps)[|a|] == ps[0];
      assert |b[0].0| > |ps[0].0|;
    }
  }

  /** In an empty part they are not: the first key keeps the space in front of it. */
  lemma DecoratedEmptyPart(read: Reader, p: Pair, ps: seq<Pair>)
    requires Reads(read, Decorations([p] + ps)) && AllPrintable([p] + ps)
    ensures PairsFrom(read, |Decorations([p] + ps)|, 0) == [(" " + p.0, p.1)] + ps
  {
    PrintIsDecorations(p, ps);
    var q := (" " + p.0, p.1);
    assert Printable(p) by {
      assert ([p] + ps)[0] == p;
    }
    forall i | 0 <= i < |ps|
      ensures Printable(ps[i])
    {
      assert ([p] + ps)[i + 1] == ps[i];
    }
    assert AllPrintable([q] + ps);
    assert ([p] + ps)[1..] == ps && ([q] + ps)[1..] == ps;
    assert " " + PrintPair(p) == PrintPair(q);
    assert " " + Print([p] + ps) == Print([q] + ps);
    ParsePrinted(read, [q] + ps);
  }

  // ----- Decorating a whole message

  function FindLast(s: string, c: char): (r: Option<nat>)
    ensures r.Some? ==> r.value < |s| && s[r.value] == c
    ensures r.Some? ==> forall i :: r.value < i < |s| ==> s[i] != c
    ensures r.None? ==> c !in s
  {
    if s == [] then None
    else if s[|s| - 1] == c then Some(|s| - 1)
    else FindLast(s[..|s| - 1], c)
  }

  /** The text of the pairs in a message body: from the first space behind the '[' to the last ']'. */
  function StructuredPart(body: string): Option<string> {
    var open := Find(body, '[', 0);
    if open.None? || Find(body, ']', open.value + 1).None? || Find(body, ' ', 0).None? then None
    else
      var space, last := Find(body, ' ', open.value), FindLast(body, ']');
      if space.None? || last.None? then None
      else if last.value < space.value + 1 then Some(body[space.value + 1..])
      else Some(body[space.value + 1..last.value])
  }

  /** A body with one bracket pair, as the devices send it. */
  ghost predicate IsBody(body: string, front: string, hardware: string, part: string, tail: string) {
    && body == front + "[" + hardware + " " + part + "]" + tail
    && '[' !in front && ' ' !in hardware
    && ']' !in front && ']' !in hardware && ']' !in part && ']' !in tail
  }

  lemma {:induction false} PartOfBody(body: string, front: string, hardware: string, part: string, tail: string)
    requires IsBody(body, front, hardware, part, tail)
    ensures StructuredPart(body) == Some(part)
  {
    var open, space := |front|, |front| + 1 + |hardware|;
    var close := space + 1 + |part|;
    BodyAt(body, front, hardware, part, tail);
    FindAt(body, '[', 0, open);
    FindAt(body, ' ', open, space);
    FindAt(body, ']', open + 1, close);
    assert Find(body, ' ', 0).Some?;
    FindLastAt(body, ']', close);
  }

  /** Where the characters of a body are. */
  lemma BodyAt(body: string, front: string, hardware: string, part: string, tail: string)
    requires IsBody(body, front, hardware, part, tail)
    ensures var open, space := |front|, |front| + 1 + |hardware|;
            var close := space + 1 + |part|;
            && close < |body| && body[open] == '[' && body[space] == ' ' && body[close] == ']'
            && (forall i :: 0 <= i < open ==> body[i] != '[')
            && (forall i :: open < i < space ==> body[i] != ' ')
            && (forall i :: 0 <= i < |body| && i != close ==> body[i] != ']')
            && body[space + 1..close] == part
  {
    var open, space := |front|, |front| + 1 + |hardware|;
    var close := space + 1 + |part|;
    assert forall i :: 0 <= i < open ==> body[i] == front[i];
    assert forall i :: open < i < space ==> body[i] == hardware[i - open - 1];
    assert forall i :: space < i < close ==> body[i] == part[i - space - 1];
    assert forall i :: close < i < |body| ==> body[i] == tail[i - close - 1];
  }

  lemma {:induction false} FindLastAt(s: string, c: char, r: nat)
    requires r < |s| && s[r] == c && forall i :: r < i < |s| ==> s[i] != c
    ensures FindLast(s, c) == Some(r)
  {
    var found := FindLast(s, c);
    if found.Some? {
      assert !(found.value < r) && !(found.value > r);
    }
  }

  ghost predicate Unbracketed(ps: seq<Pair>) {
    forall i :: 0 <= i < |ps| ==> ']' !in PrintPair(ps[i])
  }

  /** Decorations go in before the bracket, in order. */
  lemma {:induction false} DecorationsGoBeforeBracket(text: string, front: string, tail: string, ps: seq<Pair>, prevPos: nat)
    requires text == front + "]" + tail && ']' !in front && prevPos <= |front| && Unbracketed(ps)
    ensures DecoratedAll(text, ps, prevPos) == front + Decorations(ps) + "]" + tail
    decreases |ps|
  {
    if ps == [] {
      assert front + Decorations(ps) == front;
    } else {
      var longer := front + (" " + PrintPair(ps[0]));
      OneDecoration(text, front, tail, ps[0], prevPos);
      assert ']' !in longer;
      DecorationsGoBeforeBracket(longer + "]" + tail, longer, tail, ps[1..], |front|);
      Assoc(front, " " + PrintPair(ps[0]), Decorations(ps[1..]));
    }
  }

  lemma OneDecoration(text: string, front: string, tail: string, p: Pair, prevPos: nat)
    requires text == front + "]" + tail && ']' !in front && prevPos <= |front|
    ensures Decorated(text, p, prevPos) == (front + (" " + PrintPair(p)) + "]" + tail, |front|)
  {
    BracketFound(text, front, tail, prevPos);
    SplitAtBracket(text, front, tail, " " + PrintPair(p));
  }

  lemma SplitAtBracket(text: string, front: string, tail: string, deco: string)
    requires text == front + "]" + tail
    ensures text[..|front|] + deco + text[|front|..] == front + deco + "]" + tail
  {
    assert text[..|front|] == front && text[|front|..] == "]" + tail;
  }

  lemma Assoc(a: string, b: string, c: string)
    ensures a + b + c == a + (b + c)
  {
  }

  lemma BracketFound(text: string, front: string, tail: string, prevPos: nat)
    requires text == front + "]" + tail && ']' !in front && prevPos <= |front|
    ensures Find(text, ']', prevPos) == Some(|front|)
  {
    assert forall i :: 0 <= i < |front| ==> text[i] == front[i];
    FindAt(text, ']', prevPos, |front|);
  }

  lemma {:induction false} NoBracket(ps: seq<Pair>)
    requires Unbracketed(ps)
    ensures ']' !in Decorations(ps)
  {
    if ps != [] {
      NoBracket(ps[1..]);
    }
  }

  /**
    Decorating a message and reading its structured part again gives the pairs it had, and then the
    decorations in order; fields are the first value of each key.
   */
  lemma DecoratedMessage(body: string, front: string, hardware: string, part: string, tail: string,
                         ps: seq<Pair>, read: Reader, longer: Reader)
    requires IsBody(body, front, hardware, part, tail)
    requires AllPrintable(ps) && Unbracketed(ps)
    requires Reads(read, part) && EndsClean(read, |part|, 0)
    requires Reads(longer, part + Decorations(ps))
    ensures StructuredPart(DecoratedAll(body, ps, 0)) == Some(part + Decorations(ps))
    ensures PairsFrom(longer, |part + Decorations(ps)|, 0) == PairsFrom(read, |part|, 0) + ps
  {
    var lead := front + "[" + hardware + " ";
    assert body == (lead + part) + "]" + tail;
    DecorationsGoBeforeBracket(body, lead + part, tail, ps, 0);
    var d := Decorations(ps);
    NoBracket(ps);
    assert (lead + part) + d + "]" + tail == lead + (part + d) + "]" + tail;
    PartOfBody(lead + (part + d) + "]" + tail, front, hardware, part + d, tail);
    DecoratedPairs(longer, read, part, ps);
  }
}
