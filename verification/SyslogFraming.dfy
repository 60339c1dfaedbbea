/**
  The TCP re-framer of contrail-collector/structured_syslog_server.cc: it cuts a byte stream of
  octet-counted syslog frames (section 3.4.1 of RFC 6587) into slices for the parser, and carries
  what is incomplete over to the next read.

  Bytes are characters. The grammar behind `parse_syslog` is a parameter of the model.
 */
module SyslogFraming {
  import opened Options

  type Bytes = seq<char>

  /** The most that the session buffer may hold is one less. */
  const BUFFER_LIMIT: nat := 5120
  const LONG_MAX: nat := 0x7fff_ffff_ffff_ffff

  predicate IsDigit(c: char) {
    '0' <= c <= '9'
  }

  predicate AllDigits(s: Bytes) {
    forall i :: 0 <= i < |s| ==> IsDigit(s[i])
  }

  function DigitsValue(s: Bytes): nat
    requires AllDigits(s)
  {
    if s == [] then 0 else 10 * DigitsValue(s[..|s| - 1]) + (s[|s| - 1] - '0') as nat
  }

  /** strtol of a run of digits: it saturates. */
  function Strtol(s: Bytes): nat
    requires AllDigits(s)
  {
    var v := DigitsValue(s);
    if v > LONG_MAX then LONG_MAX else v
  }

  /** What parse_syslog makes of a slice; the length field is there if the slice began with one. */
  datatype Parsed = Failed | Parsed(msglen: Option<nat>)

  // ----- What one read does, as a function

  /** One past the first space at or after `e - 1`, or the end of the bytes. */
  function WordEnd(p: Bytes, e: nat): (r: nat)
    requires 1 <= e <= |p|
    ensures e <= r <= |p|
    ensures r < |p| ==> p[r - 1] == ' '
    decreases |p| - e
  {
    if p[e - 1] == ' ' || e == |p| then e else WordEnd(p, e + 1)
  }

  /** The length announced by the word that ends before `e`; 0 if it is not a number. */
  function Announced(p: Bytes, start: nat, e: nat): nat
    requires start < e <= |p|
  {
    if AllDigits(p[start..e - 1]) then Strtol(p[start..e - 1]) else 0
  }

  /** Without a length, the message begins at the last '<' and ends at the first ']'. */
  function Bracketed(p: Bytes, start: nat, end: nat, lenEnd: nat): (r: (nat, nat))
    requires start < end <= lenEnd <= |p|
    ensures start <= r.0 < r.1 <= |p|
    decreases |p| - lenEnd
  {
    if p[lenEnd - 1] == ']' || lenEnd == |p| then (start, lenEnd)
    else Bracketed(p, if p[end - 1] == '<' then end - 1 else start, end + 1, lenEnd + 1)
  }

  /** Where the message that begins at `start` is taken to begin and to end; the end may lie beyond the bytes. */
  function Cut(p: Bytes, start: nat): (r: (nat, nat))
    requires start < |p|
    ensures start <= r.0 < |p| && r.0 < r.1
  {
    var e := WordEnd(p, start + 1);
    if e == |p| then (start, e)
    else
      var mlen := Announced(p, start, e);
      if mlen != 0 then (start, e + mlen) else Bracketed(p, start, start + 1, e)
  }

  /** The message does not end within the bytes, or only seems to. */
  predicate Incomplete(p: Bytes, end: nat)
    requires 1 <= end
  {
    end > |p| || (end == |p| && p[end - 1] != ']')
  }

  /** Where the next message begins. */
  function Next(p: Bytes, start: nat, end: nat, parsed: Parsed): (r: nat)
    requires start < end <= |p|
    ensures r > start
  {
    match parsed
    case Failed => end
    case Parsed(None) => end + 1
    case Parsed(Some(m)) => if m == |p| then end + 1 else start + |Decimal(m)| + 1 + m
  }

  /** One round of the loop: keep what is left for the next read, or hand a slice to the parser. */
  datatype Step = Keep(rest: Bytes, ok: bool) | Emit(slice: Bytes, next: nat, ok: bool)

  function StepAt(p: Bytes, start: nat, parse: Bytes -> Parsed): (r: Step)
    requires start < |p|
    ensures r.Emit? ==> r.next > start
  {
    var (s, e) := Cut(p, start);
    if Incomplete(p, e) then
      if |p| - s < BUFFER_LIMIT then Keep(p[s..], true) else Keep([], false)
    else
      var parsed := parse(p[s..e]);
      Emit(p[s..e], Next(p, s, e, parsed), parsed.Parsed?)
  }

  type Stepper = (Bytes, nat) -> Step

  /** Each round that hands out a slice goes forward. */
  ghost predicate Advances(step: Stepper) {
    forall p: Bytes, start: nat :: step(p, start).Emit? ==> step(p, start).next > start
  }

  /** The slices handed to the parser, what stays in the session buffer, and the returned status. */
  datatype Outcome = Outcome(slices: seq<Bytes>, rest: Bytes, ok: bool)

  ghost function Scan(p: Bytes, start: nat, step: Stepper): Outcome
    requires start < |p| && Advances(step)
    decreases |p| - start
  {
    match step(p, start)
    case Keep(rest, ok) => Outcome([], rest, ok)
    case Emit(slice, next, ok) =>
      if next >= |p| then Outcome([slice], [], ok)
      else
        var more := Scan(p, next, step);
        more.(slices := [slice] + more.slices)
  }

  /** The rounds of the loop with a given parser. */
  ghost predicate Implements(step: Stepper, parse: Bytes -> Parsed) {
    && Advances(step)
    && forall p: Bytes, start: nat {:trigger StepAt(p, start, parse)} ::
         start < |p| ==> step(p, start) == StepAt(p, start, parse)
  }

  function Rounds(parse: Bytes -> Parsed): (step: Stepper)
    ensures Implements(step, parse)
  {
    (p: Bytes, start: nat) => if start < |p| then StepAt(p, start, parse) else Keep([], true)
  }

  // ----- Decimal numbers

  function Decimal(n: nat): (r: Bytes)
    ensures r != [] && AllDigits(r)
  {
    if n < 10 then [Digit(n)] else Decimal(n / 10) + [Digit(n % 10)]
  }

  function Digit(n: nat): (c: char)
    requires n < 10
    ensures IsDigit(c) && (c - '0') as nat == n
  {
    '0' + n as char
  }

  lemma {:induction false} DecimalValue(n: nat)
    ensures DigitsValue(Decimal(n)) == n
  {
    if n >= 10 {
      DecimalValue(n / 10);
      assert Decimal(n)[..|Decimal(n)| - 1] == Decimal(n / 10);
    }
  }

  // ----- The read itself

  class TcpSession {
    var buffer: Bytes  // sess_buf

    constructor ()
      ensures buffer == []
    {
      buffer := [];
    }

    /**
      ProcessStructuredSyslog on one read over TCP. A read of NULs only makes the original look for
      a byte before the read.
     */
    method Process(data: Bytes, parse: Bytes -> Parsed) returns (ok: bool, slices: seq<Bytes>)
      requires HasByte(data)
      modifies this
      ensures StripNul(data) != []
      ensures Outcome(slices, buffer, ok) == Scan(old(buffer) + StripNul(data), 0, Rounds(parse))
    {
      var len := |data|;
      while data[len - 1] == '\0'
        invariant 1 <= len <= |data| && HasByte(data[..len])
        invariant forall i :: len <= i < |data| ==> data[i] == '\0'
        decreases len
      {
        ghost var i :| 0 <= i < |data[..len]| && data[..len][i] != '\0';
        len := len - 1;
        assert data[..len][i] != '\0';
      }
      StripNulUnique(data, len);
      var full := buffer + data[..len];
      buffer := [];
      slices, buffer, ok := Frames(full, parse, Rounds(parse));
    }

    method Frames(p: Bytes, parse: Bytes -> Parsed, ghost step: Stepper)
      returns (slices: seq<Bytes>, rest: Bytes, ok: bool)
      requires p != [] && Implements(step, parse)
      ensures Outcome(slices, rest, ok) == Scan(p, 0, step)
    {
      slices, rest := [], [];
      var start := 0;
      ghost var goal := Scan(p, 0, step);
      while true
        invariant start < |p| && rest == []
        invariant goal.slices == slices + Scan(p, start, step).slices
        invariant goal.rest == Scan(p, start, step).rest && goal.ok == Scan(p, start, step).ok
        decreases |p| - start
      {
        var round := Round(p, start, parse, step);
        match round
        case Keep(left, status) =>
          return slices, left, status;
        case Emit(slice, next, status) =>
          slices, ok := slices + [slice], status;
          if next >= |p| {
            return;
          }
          start := next;
      }
    }

    method Round(p: Bytes, start: nat, parse: Bytes -> Parsed, ghost step: Stepper) returns (r: Step)
      requires start < |p| && Implements(step, parse)
      ensures r == step(p, start)
    {
      var s, e := CutMessage(p, start);
      if e > |p| || (e == |p| && p[e - 1] != ']') {
        if |p| - s < BUFFER_LIMIT {
          r := Keep(p[s..], true);
        } else {
          r := Keep([], false);
        }
      } else {
        var parsed := parse(p[s..e]);
        var next := AfterMessage(p, s, e, parsed);
        r := Emit(p[s..e], next, parsed.Parsed?);
      }
      assert r == StepAt(p, start, parse);
    }

    method CutMessage(p: Bytes, from: nat) returns (start: nat, end: nat)
      requires from < |p|
      ensures (start, end) == Cut(p, from)
    {
      start := from;
      var lenEnd := from + 1;
      while p[lenEnd - 1] != ' ' && lenEnd < |p|
        invariant from < lenEnd <= |p|
        invariant WordEnd(p, from + 1) == WordEnd(p, lenEnd)
        decreases |p| - lenEnd
      {
        lenEnd := lenEnd + 1;
      }
      if lenEnd != |p| {
        var mlen := ReadLength(p, from, lenEnd);
        if mlen != 0 {
          lenEnd := lenEnd + mlen;
        } else {
          start, lenEnd := FindBrackets(p, from, lenEnd);
        }
      }
      end := lenEnd;
    }

    /** The scan for a message without a length. */
    method FindBrackets(p: Bytes, from: nat, wordEnd: nat) returns (start: nat, lenEnd: nat)
      requires from < wordEnd <= |p|
      ensures (start, lenEnd) == Bracketed(p, from, from + 1, wordEnd)
    {
      start, lenEnd := from, wordEnd;
      var end := from + 1;
      while p[lenEnd - 1] != ']' && lenEnd < |p|
        invariant from <= start < end <= lenEnd <= |p|
        invariant Bracketed(p, from, from + 1, wordEnd) == Bracketed(p, start, end, lenEnd)
        decreases |p| - lenEnd
      {
        if p[end - 1] == '<' {
          start := end - 1;
        }
        end, lenEnd := end + 1, lenEnd + 1;
      }
    }

    method ReadLength(p: Bytes, from: nat, lenEnd: nat) returns (mlen: nat)
      requires from < lenEnd <= |p|
      ensures mlen == Announced(p, from, lenEnd)
    {
      var isLength, i := true, from;
      while isLength && i < lenEnd - 1
        invariant from <= i <= lenEnd - 1
        invariant isLength ==> AllDigits(p[from..i])
        invariant !isLength ==> !AllDigits(p[from..lenEnd - 1])
      {
        assert p[from..i + 1] == p[from..i] + [p[i]];
        if !IsDigit(p[i]) {
          assert p[from..lenEnd - 1][i - from] == p[i];
          isLength := false;
        }
        i := i + 1;
      }
      mlen := 0;
      if isLength {
        mlen := Strtol(p[from..lenEnd - 1]);
      }
    }

    method AfterMessage(p: Bytes, s: nat, e: nat, parsed: Parsed) returns (next: nat)
      requires s < e <= |p|
      ensures next == Next(p, s, e, parsed)
    {
      if parsed.Parsed? {
        var shown := if parsed.msglen.Some? then parsed.msglen.value else 0;
        var messageLen := if parsed.msglen.Some? then parsed.msglen.value else |p|;
        next := s;
        if messageLen != |p| {
          next := next + |Decimal(shown)| + 1;
        }
        if messageLen == |p| {
          next := e + 1;
        } else {
          next := next + messageLen;
        }
      } else {
        next := e;
      }
    }
  }

  ghost predicate HasByte(data: Bytes) {
    exists i :: 0 <= i < |data| && data[i] != '\0'
  }

  /** A read loses its trailing NULs. */
  function StripNul(data: Bytes): (r: Bytes)
    ensures r <= data
    ensures r == [] || r[|r| - 1] != '\0'
    ensures forall i :: |r| <= i < |data| ==> data[i] == '\0'
  {
    if data == [] || data[|data| - 1] != '\0' then data else StripNul(data[..|data| - 1])
  }

  /** The three properties of StripNul determine it. */
  lemma StripNulUnique(data: Bytes, len: nat)
    requires len <= |data| && (len == 0 || data[len - 1] != '\0')
    requires forall i :: len <= i < |data| ==> data[i] == '\0'
    ensures StripNul(data) == data[..len]
  {
    var r := StripNul(data);
    assert r == data[..|r|];
    if |r| > len {
      assert r[|r| - 1] == data[|r| - 1];
    }
  }

  // ----- Octet-counted frames

  function Encode(m: Bytes): Bytes {
    Word(m) + m
  }

  /** The length prefix with its space. */
  function Word(m: Bytes): Bytes {
    Decimal(|m|) + [' ']
  }

  function FramesOf(ms: seq<Bytes>): (fs: seq<Bytes>)
    ensures |fs| == |ms| && forall i :: 0 <= i < |ms| ==> fs[i] == Encode(ms[i])
  {
    if ms == [] then [] else [Encode(ms[0])] + FramesOf(ms[1..])
  }

  function Concat(cs: seq<Bytes>): Bytes {
    if cs == [] then [] else cs[0] + Concat(cs[1..])
  }

  /** A message, or its frame, ends in the character that the loop takes for an end. */
  predicate Closed(m: Bytes) {
    m != [] && m[|m| - 1] == ']'
  }

  /** What a message may be: non-empty, and of a length that a long can hold. */
  predicate IsMessage(m: Bytes) {
    m != [] && |m| <= LONG_MAX
  }

  /** The frame survives being cut anywhere. */
  predicate Fits(f: Bytes) {
    |f| <= if Closed(f) then BUFFER_LIMIT else BUFFER_LIMIT - 1
  }

  /** On the frame of `m` the parser fails, or reports the length that the frame announces. */
  predicate Reports(parse: Bytes -> Parsed, m: Bytes) {
    parse(Encode(m)).Parsed? ==> parse(Encode(m)).msglen == Some(|m|)
  }

  ghost predicate Messages(ms: seq<Bytes>, parse: Bytes -> Parsed) {
    forall i :: 0 <= i < |ms| ==> IsMessage(ms[i]) && Reports(parse, ms[i])
  }

  ghost predicate AllFit(fs: seq<Bytes>) {
    forall i :: 0 <= i < |fs| ==> Fits(fs[i])
  }

  /** How many frames are delivered once `n` bytes of the stream are in: the complete ones, but a last one only if it is closed. */
  function Delivered(fs: seq<Bytes>, n: nat): (k: nat)
    ensures k <= |fs|
  {
    if fs == [] || n < |fs[0]| || (n == |fs[0]| && !Closed(fs[0])) then 0
    else 1 + Delivered(fs[1..], n - |fs[0]|)
  }

  lemma {:induction false} WordEndAt(p: Bytes, e: nat, r: nat)
    requires 1 <= e <= r <= |p|
    requires forall i :: e - 1 <= i < r - 1 ==> p[i] != ' '
    requires r == |p| || p[r - 1] == ' '
    ensures WordEnd(p, e) == r
    decreases r - e
  {
    if e < r {
      WordEndAt(p, e + 1, r);
    }
  }

  /** Where the cut falls in bytes that begin like the frame of `m`. */
  lemma {:induction false} CutFrame(p: Bytes, start: nat, m: Bytes)
    requires start < |p| && IsMessage(m)
    requires forall i :: start <= i < |p| && i < start + |Word(m)| ==> p[i] == Word(m)[i - start]
    ensures if |p| - start <= |Word(m)| then
              Cut(p, start) == (start, |p|) && p[|p| - 1] != ']'
            else
              Cut(p, start) == (start, start + |Encode(m)|)
  {
    if |p| - start <= |Word(m)| {
      WordEndAt(p, start + 1, |p|);
    } else {
      WordAt(p, start, m);
      DecimalValue(|m|);
    }
  }

  lemma {:induction false} WordAt(p: Bytes, start: nat, m: Bytes)
    requires |p| - start > |Word(m)|
    requires forall i :: start <= i < start + |Word(m)| ==> p[i] == Word(m)[i - start]
    ensures WordEnd(p, start + 1) == start + |Word(m)| && p[start..start + |Word(m)| - 1] == Decimal(|m|)
  {
    var w := Word(m);
    var r := start + |w|;
    assert p[r - 1] == w[|w| - 1] == ' ';
    WordEndAt(p, start + 1, r);
  }

  /** Bytes that begin with the frame `f`, or with a part of it. */
  ghost predicate Begins(p: Bytes, start: nat, f: Bytes, tail: Bytes) {
    start < |p| && p[start..] <= f + tail
  }

  /** The round taken at the frame: it is left for later, or delivered whole. */
  ghost predicate Frames(step: Stepper, p: Bytes, start: nat, f: Bytes)
    requires start < |p|
  {
    var r, n := step(p, start), |p| - start;
    if n < |f| || (n == |f| && !Closed(f)) then
      r == if n < BUFFER_LIMIT then Keep(p[start..], true) else Keep([], false)
    else
      r.Emit? && r.slice == f && r.next == start + |f|
  }

  lemma {:induction false} RoundAtFrame(step: Stepper, parse: Bytes -> Parsed, p: Bytes, start: nat, m: Bytes, tail: Bytes)
    requires Implements(step, parse) && IsMessage(m) && Reports(parse, m)
    requires Begins(p, start, Encode(m), tail)
    ensures Frames(step, p, start, Encode(m))
  {
    HeadOfFrame(p, start, m, tail);
    CutFrame(p, start, m);
    var n, f := |p| - start, Encode(m);
    if n < |f| || (n == |f| && !Closed(f)) {
      StepPart(p, start, parse);
    } else {
      StepWhole(p, start, m, parse);
    }
  }

  lemma HeadOfFrame(p: Bytes, start: nat, m: Bytes, tail: Bytes)
    requires Begins(p, start, Encode(m), tail) && IsMessage(m)
    ensures forall i :: start <= i < |p| && i < start + |Word(m)| ==> p[i] == Word(m)[i - start]
    ensures |p| - start >= |Encode(m)| ==>
              p[start..start + |Encode(m)|] == Encode(m) && p[start + |Encode(m)| - 1] == m[|m| - 1]
  {
    var x, f := p[start..], Encode(m);
    assert forall i :: 0 <= i < |x| ==> p[start + i] == x[i] == (f + tail)[i];
    if |x| >= |f| {
      assert p[start..start + |f|] == f;
    }
  }

  lemma StepPart(p: Bytes, start: nat, parse: Bytes -> Parsed)
    requires start < |p| && Cut(p, start).0 == start && Incomplete(p, Cut(p, start).1)
    ensures StepAt(p, start, parse) == if |p| - start < BUFFER_LIMIT then Keep(p[start..], true) else Keep([], false)
  {
  }

  lemma StepWhole(p: Bytes, start: nat, m: Bytes, parse: Bytes -> Parsed)
    requires start < |p| && start + |Encode(m)| <= |p| && Reports(parse, m)
    requires Cut(p, start) == (start, start + |Encode(m)|) && !Incomplete(p, start + |Encode(m)|)
    requires p[start..start + |Encode(m)|] == Encode(m)
    ensures StepAt(p, start, parse) == Emit(Encode(m), start + |Encode(m)|, parse(Encode(m)).Parsed?)
  {
  }

  // ----- Scans over frames

  type Scanner = (Bytes, nat) -> Outcome

  ghost function ScannerOf(step: Stepper): Scanner
    requires Advances(step)
  {
    (p: Bytes, start: nat) => if start < |p| then Scan(p, start, step) else Outcome([], [], true)
  }

  /** The scan from the frame on: it is kept for later, or thrown away, or delivered before all that follows. */
  ghost predicate ScansFrame(scan: Scanner, p: Bytes, start: nat, f: Bytes)
    requires start < |p|
  {
    var o, n := scan(p, start), |p| - start;
    if n < |f| || (n == |f| && !Closed(f)) then
      o == if n < BUFFER_LIMIT then Outcome([], p[start..], true) else Outcome([], [], false)
    else if n == |f| then
      o.slices == [f] && o.rest == []
    else
      var more := scan(p, start + |f|);
      o == Outcome([f] + more.slices, more.rest, more.ok)
  }

  /** Wherever the frame begins, it is scanned like that. */
  ghost predicate Scanning(scan: Scanner, f: Bytes) {
    forall p: Bytes, start: nat, tail: Bytes {:trigger Begins(p, start, f, tail)} ::
      Begins(p, start, f, tail) ==> ScansFrame(scan, p, start, f)
  }

  ghost predicate ScansAll(scan: Scanner, fs: seq<Bytes>) {
    forall i :: 0 <= i < |fs| ==> Scanning(scan, fs[i])
  }

  lemma {:induction false} FrameIsScanned(step: Stepper, p: Bytes, start: nat, f: Bytes)
    requires Advances(step) && start < |p| && Frames(step, p, start, f)
    ensures ScansFrame(ScannerOf(step), p, start, f)
  {
  }

  lemma {:induction false} FramesAreScanned(step: Stepper, parse: Bytes -> Parsed, ms: seq<Bytes>)
    requires Implements(step, parse) && Messages(ms, parse)
    ensures ScansAll(ScannerOf(step), FramesOf(ms))
  {
    forall i, p: Bytes, start: nat, tail: Bytes | 0 <= i < |ms| && Begins(p, start, Encode(ms[i]), tail)
      ensures ScansFrame(ScannerOf(step), p, start, Encode(ms[i]))
    {
      RoundAtFrame(step, parse, p, start, ms[i], tail);
      FrameIsScanned(step, p, start, Encode(ms[i]));
    }
  }

  lemma {:induction false} FirstFrame(fs: seq<Bytes>, k: nat)
    requires 1 <= k <= |fs|
    ensures fs[..k] == [fs[0]] + fs[1..][..k - 1] && fs[1..][k - 1..] == fs[k..]
    ensures Concat(fs[..k]) == fs[0] + Concat(fs[1..][..k - 1])
  {
    assert fs[..k][1..] == fs[1..][..k - 1];
  }

  /** Of the bytes of `x` the first `k` frames were delivered, and the rest kept. */
  ghost predicate Delivers(o: Outcome, x: Bytes, fs: seq<Bytes>, k: nat) {
    k <= |fs| && |Concat(fs[..k])| <= |x| && o.slices == fs[..k] && o.rest == x[|Concat(fs[..k])|..]
  }

  /** A scan of any prefix of a stream delivers what `Delivered` says and keeps the rest. */
  lemma {:induction false} ScanStream(p: Bytes, start: nat, x: Bytes, fs: seq<Bytes>, scan: Scanner)
    requires start < |p| && x == p[start..] <= Concat(fs) && ScansAll(scan, fs) && AllFit(fs)
    ensures Delivers(scan(p, start), x, fs, Delivered(fs, |x|))
    decreases fs
  {
    var f, tail, o := fs[0], fs[1..], scan(p, start);
    assert Begins(p, start, f, Concat(tail)) && Scanning(scan, f) && Fits(f);
    if |x| < |f| || (|x| == |f| && !Closed(f)) {
      assert fs[..0] == [] && x[0..] == x;
    } else if |x| == |f| {
      assert tail[..0] == [] && Delivered(tail, 0) == 0;
      OneMoreFrame(o, Outcome([], [], true), x, [], fs, tail, 0);
    } else {
      var y := x[|f|..];
      TailOfStream(p, start, x, f, Concat(tail));
      ScanStream(p, start + |f|, y, tail, scan);
      OneMoreFrame(o, scan(p, start + |f|), x, y, fs, tail, Delivered(tail, |y|));
    }
  }

  lemma TailOfStream(p: Bytes, start: nat, x: Bytes, f: Bytes, tail: Bytes)
    requires start < |p| && x == p[start..] <= f + tail && |f| <= |x|
    ensures x[|f|..] == p[start + |f|..] <= tail
  {
    assert (f + tail)[|f|..] == tail;
  }

  lemma {:induction false} OneMoreFrame(o: Outcome, more: Outcome, x: Bytes, y: Bytes, fs: seq<Bytes>, tail: seq<Bytes>, k: nat)
    requires fs != [] && tail == fs[1..] && |fs[0]| <= |x| && y == x[|fs[0]|..]
    requires o.slices == [fs[0]] + more.slices && o.rest == more.rest
    requires Delivers(more, y, tail, k)
    ensures Delivers(o, x, fs, k + 1)
  {
    FirstFrame(fs, k + 1);
    var n, done := |fs[0]|, Concat(tail[..k]);
    assert x[n..][|done|..] == x[n + |done|..];
  }

  // ----- Whole sessions

  /** The session buffer, and all the slices handed to the parser so far. */
  datatype Session = Session(buffer: Bytes, delivered: seq<Bytes>)

  ghost predicate Reads(chunks: seq<Bytes>) {
    forall i :: 0 <= i < |chunks| ==> StripNul(chunks[i]) != []
  }

  ghost function Run(chunks: seq<Bytes>, step: Stepper): Session
    requires Reads(chunks) && Advances(step)
  {
    if chunks == [] then Session([], [])
    else
      var n := |chunks| - 1;
      var before := Run(chunks[..n], step);
      var o := Scan(before.buffer + StripNul(chunks[n]), 0, step);
      Session(o.rest, before.delivered + o.slices)
  }

  ghost predicate NulFree(s: Bytes) {
    '\0' !in s
  }

  lemma {:induction false} ConcatJoins(a: seq<Bytes>, b: seq<Bytes>)
    ensures Concat(a + b) == Concat(a) + Concat(b)
  {
    if a == [] {
      assert a + b == b;
    } else {
      assert (a + b)[1..] == a[1..] + b;
      ConcatJoins(a[1..], b);
    }
  }

  lemma {:induction false} ConcatAppend(cs: seq<Bytes>, c: Bytes)
    ensures Concat(cs + [c]) == Concat(cs) + c
  {
    ConcatJoins(cs, [c]);
    assert Concat([c]) == c + Concat([c][1..]) == c;
  }

  lemma {:induction false} ConcatSplits(fs: seq<Bytes>, k: nat)
    requires k <= |fs|
    ensures Concat(fs) == Concat(fs[..k]) + Concat(fs[k..])
  {
    assert fs[..k] + fs[k..] == fs;
    ConcatJoins(fs[..k], fs[k..]);
  }

  /** The first frame is in, so that it counts as delivered. */
  predicate FirstIsIn(fs: seq<Bytes>, n: nat) {
    fs != [] && |fs[0]| <= n && (|fs[0]| < n || Closed(fs[0]))
  }

  lemma {:induction false} DeliveredFirst(fs: seq<Bytes>, n: nat)
    ensures FirstIsIn(fs, n) ==> Delivered(fs, n) == 1 + Delivered(fs[1..], n - |fs[0]|)
    ensures !FirstIsIn(fs, n) ==> Delivered(fs, n) == 0
  {
  }

  /** `k` frames are in with `n` bytes, and with `more` bytes also what the rest of the frames delivers. */
  ghost predicate Resumes(fs: seq<Bytes>, n: nat, more: nat, k: nat) {
    && k <= |fs| && |Concat(fs[..k])| <= n <= more
    && Delivered(fs, more) == k + Delivered(fs[k..], more - |Concat(fs[..k])|)
  }

  /** What is delivered after more bytes is what was delivered, and then what the rest delivers. */
  lemma {:induction false} DeliveredMore(fs: seq<Bytes>, n: nat, more: nat)
    requires n <= more
    ensures Resumes(fs, n, more, Delivered(fs, n))
    decreases fs
  {
    DeliveredFirst(fs, n);
    if FirstIsIn(fs, n) {
      DeliveredMore(fs[1..], n - |fs[0]|, more - |fs[0]|);
      ResumesOneMore(fs, n, more, Delivered(fs[1..], n - |fs[0]|));
    } else {
      assert fs[..0] == [] && fs[0..] == fs;
    }
  }

  lemma {:induction false} ResumesOneMore(fs: seq<Bytes>, n: nat, more: nat, k: nat)
    requires n <= more && FirstIsIn(fs, n) && Resumes(fs[1..], n - |fs[0]|, more - |fs[0]|, k)
    ensures Resumes(fs, n, more, k + 1)
  {
    DeliveredFirst(fs, more);
    FirstFrame(fs, k + 1);
  }

  lemma {:induction false} ChunkedStream(fs: seq<Bytes>, chunks: seq<Bytes>, step: Stepper)
    requires Advances(step) && ScansAll(ScannerOf(step), fs) && AllFit(fs)
    requires Concat(chunks) <= Concat(fs) && NulFree(Concat(fs))
    requires forall i :: 0 <= i < |chunks| ==> chunks[i] != []
    ensures Reads(chunks)
    ensures var k := Delivered(fs, |Concat(chunks)|);
            Delivers(Outcome(Run(chunks, step).delivered, Run(chunks, step).buffer, true), Concat(chunks), fs, k)
    decreases |chunks|
  {
    if chunks == [] {
      DeliveredMore(fs, 0, 0);
      assert fs[..0] == [];
    } else {
      var n := |chunks| - 1;
      var before, c := chunks[..n], chunks[n];
      assert chunks == before + [c];
      ConcatAppend(before, c);
      ChunkedStream(fs, before, step);
      NulFreeRead(Concat(before), c, Concat(fs));
      OneMoreRead(fs, Concat(before), c, Run(before, step), ScannerOf(step));
    }
  }

  lemma NulFreeRead(past: Bytes, c: Bytes, all: Bytes)
    requires past + c <= all && NulFree(all) && c != []
    ensures StripNul(c) == c
  {
    var n := |past| + |c| - 1;
    assert all[n] == (past + c)[n] == c[|c| - 1];
    assert all[n] in all;
  }

  /** One read more, after the bytes of `past`. */
  lemma {:induction false} OneMoreRead(fs: seq<Bytes>, past: Bytes, c: Bytes, s: Session, scan: Scanner)
    requires ScansAll(scan, fs) && AllFit(fs) && past + c <= Concat(fs) && c != []
    requires Delivers(Outcome(s.delivered, s.buffer, true), past, fs, Delivered(fs, |past|))
    ensures var o := scan(s.buffer + c, 0);
            Delivers(Outcome(s.delivered + o.slices, o.rest, true), past + c, fs, Delivered(fs, |past + c|))
  {
    var k, p := Delivered(fs, |past|), s.buffer + c;
    var done, left := Concat(fs[..k]), fs[k..];
    DeliveredMore(fs, |past|, |past + c|);
    ConcatSplits(fs, k);
    Undelivered(past, c, done, Concat(left));
    assert p == p[0..];
    ScanStream(p, 0, p, left, scan);
    MoreDelivered(s, scan(p, 0), past + c, p, fs, k, Delivered(left, |p|));
  }

  lemma Undelivered(past: Bytes, c: Bytes, done: Bytes, left: Bytes)
    requires past + c <= done + left && |done| <= |past|
    ensures var p := past[|done|..] + c;
            p == (past + c)[|done|..] && p <= left && |p| == |past + c| - |done|
  {
    assert (done + left)[|done|..] == left;
  }

  lemma {:induction false} MoreDelivered(s: Session, o: Outcome, x: Bytes, p: Bytes, fs: seq<Bytes>, k: nat, more: nat)
    requires k <= |fs| && s.delivered == fs[..k] && |Concat(fs[..k])| <= |x| && p == x[|Concat(fs[..k])|..]
    requires Delivers(o, p, fs[k..], more)
    ensures Delivers(Outcome(s.delivered + o.slices, o.rest, true), x, fs, k + more)
  {
    var a, b := fs[..k], fs[k..][..more];
    assert fs[..k + more] == a + b;
    ConcatJoins(a, b);
    assert x[|Concat(a)|..][|Concat(b)|..] == x[|Concat(a)| + |Concat(b)|..];
  }

  /**
    Chunking invariance. However a stream of frames is cut into reads, at every moment exactly the
    frames that are in have been handed to the parser, in order, and the session buffer holds
    exactly the bytes that have not.
   */
  lemma {:induction false} ChunkingInvariance(ms: seq<Bytes>, chunks: seq<Bytes>, parse: Bytes -> Parsed, step: Stepper)
    requires Implements(step, parse) && Messages(ms, parse) && AllFit(FramesOf(ms))
    requires Concat(chunks) <= Concat(FramesOf(ms)) && NulFree(Concat(FramesOf(ms)))
    requires forall i :: 0 <= i < |chunks| ==> chunks[i] != []
    ensures Reads(chunks)
    ensures var k, session := Delivered(FramesOf(ms), |Concat(chunks)|), Run(chunks, step);
            && session.delivered == FramesOf(ms)[..k]
            && Concat(FramesOf(ms)[..k]) + session.buffer == Concat(chunks)
  {
    var fs := FramesOf(ms);
    FramesAreScanned(step, parse, ms);
    ChunkedStream(fs, chunks, step);
    var k := Delivered(fs, |Concat(chunks)|);
    ConcatSplits(fs, k);
    Rejoined(Concat(chunks), Concat(fs[..k]), Concat(fs[k..]));
  }

  lemma Rejoined(all: Bytes, done: Bytes, left: Bytes)
    requires all <= done + left && |done| <= |all|
    ensures done + all[|done|..] == all
  {
    assert all[..|done|] == done;
  }

  /** The last message is one that the end of the bytes does not hold back. */
  predicate LastClosed(ms: seq<Bytes>) {
    ms == [] || Closed(ms[|ms| - 1])
  }

  /** Of a whole stream all frames are delivered, but the last one only if it is closed. */
  lemma {:induction false} AllDelivered(fs: seq<Bytes>)
    requires forall i :: 0 <= i < |fs| ==> fs[i] != []
    ensures Delivered(fs, |Concat(fs)|) == if LastClosed(fs) then |fs| else |fs| - 1
  {
    if fs != [] {
      AllDelivered(fs[1..]);
      assert |fs| > 1 ==> |Concat(fs[1..])| >= |fs[1..][0]| > 0;
    }
  }

  /**
    When all of the stream is in, all frames were delivered and nothing is left over, exactly if the
    last message ends in ']'. Otherwise its frame, and no other, is held back in the session buffer.
   */
  lemma {:induction false} WholeStreamDelivered(ms: seq<Bytes>, chunks: seq<Bytes>, parse: Bytes -> Parsed, step: Stepper)
    requires Implements(step, parse) && Messages(ms, parse) && AllFit(FramesOf(ms))
    requires Concat(chunks) == Concat(FramesOf(ms)) && NulFree(Concat(FramesOf(ms)))
    requires forall i :: 0 <= i < |chunks| ==> chunks[i] != []
    ensures Reads(chunks)
    ensures Run(chunks, step) == Session([], FramesOf(ms)) <==> LastClosed(ms)
    ensures !LastClosed(ms) ==> Run(chunks, step) == Session(Encode(ms[|ms| - 1]), FramesOf(ms)[..|ms| - 1])
  {
    ChunkingInvariance(ms, chunks, parse, step);
    AllDelivered(FramesOf(ms));
    if LastClosed(ms) {
      NothingLeft(FramesOf(ms), Run(chunks, step));
    } else {
      LastLeft(FramesOf(ms), Run(chunks, step));
    }
  }

  lemma {:induction false} NothingLeft(fs: seq<Bytes>, s: Session)
    requires s.delivered == fs[..|fs|] && Concat(fs[..|fs|]) + s.buffer == Concat(fs)
    ensures s == Session([], fs)
  {
    assert fs[..|fs|] == fs;
    assert |Concat(fs) + s.buffer| == |Concat(fs)| + |s.buffer|;
  }

  lemma {:induction false} LastLeft(fs: seq<Bytes>, s: Session)
    requires fs != [] && s.delivered == fs[..|fs| - 1] && Concat(fs[..|fs| - 1]) + s.buffer == Concat(fs)
    ensures s.buffer == fs[|fs| - 1]
  {
    var n := |fs| - 1;
    assert fs == fs[..n] + [fs[n]];
    ConcatAppend(fs[..n], fs[n]);
    SameRest(Concat(fs[..n]), s.buffer, fs[n]);
  }

  lemma SameRest(done: Bytes, a: Bytes, b: Bytes)
    requires done + a == done + b
    ensures a == b
  {
    assert a == (done + a)[|done|..] && b == (done + b)[|done|..];
  }

  // ----- Frames that do not fit

  lemma {:induction false} ScanOversized(p: Bytes, start: nat, fs: seq<Bytes>, cut: Bytes, i: nat, scan: Scanner)
    requires i < |fs| && ScansAll(scan, fs) && !Fits(fs[i])
    requires |fs[i]| >= BUFFER_LIMIT && cut == fs[i][..BUFFER_LIMIT]
    requires start < |p| && p[start..] == Concat(fs[..i]) + cut
    ensures scan(p, start) == Outcome(fs[..i], [], false)
    decreases i
  {
    var f := fs[0];
    assert Scanning(scan, f);
    if i == 0 {
      assert fs[..0] == [] && Concat([]) + cut == cut;
      assert Begins(p, start, f, []);
    } else {
      FirstFrame(fs, i);
      var tail := Concat(fs[1..][..i - 1]) + cut;
      assert p[start..] == f + tail;
      assert Begins(p, start, f, tail);
      assert p[start + |f|..] == p[start..][|f|..] == tail;
      ScanOversized(p, start + |f|, fs[1..], cut, i - 1, scan);
    }
  }

  /**
    The size limit is exact: if some frame does not fit, then a read that ends BUFFER_LIMIT bytes
    into the first such frame throws these bytes away.
   */
  lemma {:induction false} OversizedFrameIsDiscarded(ms: seq<Bytes>, i: nat, parse: Bytes -> Parsed, step: Stepper)
    requires Implements(step, parse)
    requires Messages(ms, parse) && i < |ms| && !Fits(Encode(ms[i]))
    ensures |Concat(FramesOf(ms)[..i])| + BUFFER_LIMIT <= |Concat(FramesOf(ms))|
    ensures var fs := FramesOf(ms);
            var read := Concat(fs)[..|Concat(fs[..i])| + BUFFER_LIMIT];
            Scan(read, 0, step) == Outcome(fs[..i], [], false)
  {
    var fs := FramesOf(ms);
    var before, cut := Concat(fs[..i]), fs[i][..BUFFER_LIMIT];
    CutAtLimit(fs, i);
    var read := before + cut;
    assert read[0..] == read;
    FramesAreScanned(step, parse, ms);
    ScanOversized(read, 0, fs, cut, i, ScannerOf(step));
  }

  lemma {:induction false} CutAtLimit(fs: seq<Bytes>, i: nat)
    requires i < |fs| && |fs[i]| >= BUFFER_LIMIT
    ensures |Concat(fs[..i])| + BUFFER_LIMIT <= |Concat(fs)|
    ensures Concat(fs)[..|Concat(fs[..i])| + BUFFER_LIMIT] == Concat(fs[..i]) + fs[i][..BUFFER_LIMIT]
  {
    ConcatSplits(fs, i);
    assert Concat(fs[i..]) == fs[i] + Concat(fs[i..][1..]);
  }

  // ----- Messages without a length

  /** A message that the scan for brackets finds: '<' only at its start, ']' only at its end, and a space in between. */
  predicate IsBare(m: Bytes) {
    && Closed(m) && m[0] == '<' && ' ' in m
    && (forall i :: 0 < i < |m| ==> m[i] != '<') && (forall i :: 0 <= i < |m| - 1 ==> m[i] != ']')
  }

  /** With one '<', the message begins there if the scan passes it before it has found the ']'. */
  lemma {:induction false} BracketedAt(p: Bytes, start: nat, end: nat, lenEnd: nat, stop: nat, mark: nat)
    requires start < end <= lenEnd <= stop <= |p| && p[stop - 1] == ']'
    requires forall i :: lenEnd - 1 <= i < stop - 1 ==> p[i] != ']'
    requires mark < |p| && p[mark] == '<' && forall i :: end - 1 <= i < stop && p[i] == '<' ==> i == mark
    ensures Bracketed(p, start, end, lenEnd) == (if end - 1 <= mark < end - 1 + (stop - lenEnd) then mark else start, stop)
    decreases stop - lenEnd
  {
    if lenEnd < stop {
      BracketedAt(p, if p[end - 1] == '<' then end - 1 else start, end + 1, lenEnd + 1, stop, mark);
    }
  }

  lemma {:induction false} FirstSpace(m: Bytes) returns (w: nat)
    requires ' ' in m
    ensures 1 <= w <= |m| && m[w - 1] == ' ' && forall i :: 0 <= i < w - 1 ==> m[i] != ' '
  {
    w := 1;
    while m[w - 1] != ' '
      invariant 1 <= w <= |m| && forall i :: 0 <= i < w - 1 ==> m[i] != ' '
      invariant exists i :: w - 1 <= i < |m| && m[i] == ' '
      decreases |m| - w
    {
      w := w + 1;
    }
  }

  /** The bytes at `start` are the message. */
  ghost predicate HasAt(p: Bytes, start: nat, m: Bytes) {
    start + |m| <= |p| && forall i :: 0 <= i < |m| ==> p[start + i] == m[i]
  }

  /** Where the message is, in the bytes from `start` on: the only '<', the first space and the first ']'. */
  ghost predicate MarkedAt(p: Bytes, start: nat, mark: nat, word: nat, stop: nat) {
    && start <= mark < word - 1 && word < stop <= |p|
    && p[mark] == '<' && p[word - 1] == ' ' && p[stop - 1] == ']'
    && (forall i :: start <= i < stop && p[i] == '<' ==> i == mark)
    && (forall i :: start <= i < word - 1 ==> p[i] != ' ')
    && (forall i :: start <= i < stop - 1 ==> p[i] != ']')
  }

  lemma {:induction false} CutMarked(p: Bytes, start: nat, mark: nat, word: nat, stop: nat)
    requires MarkedAt(p, start, mark, word, stop)
    ensures Cut(p, start) == (if mark - start < stop - word then mark else start, stop)
  {
    WordEndAt(p, start + 1, word);
    assert p[start..word - 1][mark - start] == '<';
    BracketedAt(p, start, start + 1, word, stop, mark);
  }

  lemma {:induction false} CutBare(p: Bytes, start: nat, m: Bytes)
    requires IsBare(m) && HasAt(p, start, m)
    ensures Cut(p, start) == (start, start + |m|)
  {
    var w := FirstSpace(m);
    JunkMarks(p, start, [], m, w);
    CutMarked(p, start, start, start + w, start + |m|);
  }

  lemma JunkMarks(p: Bytes, start: nat, junk: Bytes, m: Bytes, w: nat)
    requires IsBare(m) && HasAt(p, start, junk) && HasAt(p, start + |junk|, m)
    requires forall i :: 0 <= i < |junk| ==> junk[i] != ' ' && junk[i] != '<' && junk[i] != ']'
    requires 1 <= w <= |m| && m[w - 1] == ' ' && forall i :: 0 <= i < w - 1 ==> m[i] != ' '
    ensures MarkedAt(p, start, start + |junk|, start + |junk| + w, start + |junk| + |m|)
  {
    var mark := start + |junk|;
    assert p[mark] == p[mark + 0] == m[0];
    assert p[mark + w - 1] == p[mark + (w - 1)] == m[w - 1];
    assert p[mark + |m| - 1] == p[mark + (|m| - 1)] == m[|m| - 1];
    forall i | start <= i < mark + |m|
      ensures p[i] == '<' ==> i == mark
      ensures i < mark + w - 1 ==> p[i] != ' '
      ensures i < mark + |m| - 1 ==> p[i] != ']'
    {
      if i < mark {
        assert p[i] == p[start + (i - start)] == junk[i - start];
      } else {
        assert p[i] == p[mark + (i - mark)] == m[i - mark];
      }
    }
  }

  /**
    Bytes in front of a message without a length, such as a separator left over by an earlier read, are
    dropped exactly if there are fewer of them than the message has bytes behind its first space.
   */
  lemma {:induction false} JunkIsDroppedIff(p: Bytes, start: nat, junk: Bytes, m: Bytes, w: nat)
    requires IsBare(m) && HasAt(p, start, junk) && HasAt(p, start + |junk|, m)
    requires forall i :: 0 <= i < |junk| ==> junk[i] != ' ' && junk[i] != '<' && junk[i] != ']'
    requires 1 <= w <= |m| && m[w - 1] == ' ' && forall i :: 0 <= i < w - 1 ==> m[i] != ' '
    ensures Cut(p, start) == (if |junk| < |m| - w then start + |junk| else start, start + |junk| + |m|)
  {
    JunkMarks(p, start, junk, m, w);
    CutMarked(p, start, start + |junk|, start + |junk| + w, start + |junk| + |m|);
  }

  lemma {:induction false} BareRound(p: Bytes, start: nat, m: Bytes, parse: Bytes -> Parsed)
    requires IsBare(m) && HasAt(p, start, m) && parse(m) == Parsed(None)
    ensures StepAt(p, start, parse) == Emit(m, start + |m| + 1, true)
  {
    CutBare(p, start, m);
    assert p[start + |m| - 1] == m[|m| - 1];
    assert p[start..start + |m|] == m;
  }

  /** The messages, each followed by one separator. */
  function Lines(ms: seq<Bytes>, separator: char): Bytes {
    if ms == [] then [] else ms[0] + [separator] + Lines(ms[1..], separator)
  }

  lemma {:induction false} ScanLines(p: Bytes, start: nat, ms: seq<Bytes>, separator: char, parse: Bytes -> Parsed, step: Stepper)
    requires Implements(step, parse) && forall i :: 0 <= i < |ms| ==> IsBare(ms[i]) && parse(ms[i]) == Parsed(None)
    requires ms != [] && start < |p| && p[start..] == Lines(ms, separator)
    ensures Scan(p, start, step) == Outcome(ms, [], true)
    decreases |ms|
  {
    var m, rest := ms[0], Lines(ms[1..], separator);
    var next := start + |m| + 1;
    FirstLine(p, start, m, separator, rest);
    BareRound(p, start, m, parse);
    assert ms == [m] + ms[1..];
    if |ms| > 1 {
      assert rest != [];
      ScanLines(p, next, ms[1..], separator, parse, step);
    }
    ScanOn(p, start, m, next, step);
  }

  lemma {:induction false} ScanOn(p: Bytes, start: nat, m: Bytes, next: nat, step: Stepper)
    requires Advances(step) && start < |p| && step(p, start) == Emit(m, next, true)
    ensures Scan(p, start, step) == if next >= |p| then Outcome([m], [], true)
                                    else Scan(p, next, step).(slices := [m] + Scan(p, next, step).slices)
  {
  }

  lemma FirstLine(p: Bytes, start: nat, m: Bytes, separator: char, rest: Bytes)
    requires start < |p| && p[start..] == m + [separator] + rest
    ensures HasAt(p, start, m) && start + |m| + 1 <= |p| && p[start + |m| + 1..] == rest
  {
    var x := p[start..];
    assert forall i :: 0 <= i < |m| ==> p[start + i] == x[i] == m[i];
    assert p[start + |m| + 1..] == x[|m| + 1..];
  }

  /** Messages without a length that come in one read, with one separator behind each, are all delivered. */
  lemma {:induction false} LinesDelivered(ms: seq<Bytes>, separator: char, parse: Bytes -> Parsed, step: Stepper)
    requires Implements(step, parse) && forall i :: 0 <= i < |ms| ==> IsBare(ms[i]) && parse(ms[i]) == Parsed(None)
    requires ms != []
    ensures |Lines(ms, separator)| > 0 && Scan(Lines(ms, separator), 0, step) == Outcome(ms, [], true)
  {
    var p := Lines(ms, separator);
    assert p[0..] == p;
    ScanLines(p, 0, ms, separator, parse, step);
  }
}
