/**
 * The file scanner of parseFile as a state machine over the characters of
 * the file. Each character is digit-class (an ASCII digit, '.' or '-') or a
 * separator (anything else). Digit-class characters are appended to the
 * token accumulator; every separator converts the accumulated token and
 * emits one value, alternately into the x list and the y list, and empties
 * the accumulator. The state machine is parameterised by the bound of the
 * overflow guard: a digit-class character arriving while the token already
 * holds more than `guard` characters aborts the whole scan.
 */
module Scan {
  import opened Wrappers
  import opened Points
  import opened Decimal

  /** Size of the token accumulator `accum`. */
  const MAX_DIGITS: int := 256

  /** The guard as written, `aidx > MAX_DIGITS`: tokens of up to 257 characters pass. */
  const AS_WRITTEN_GUARD: int := MAX_DIGITS

  /**
   * The guard that keeps every write to accum in bounds, `aidx >= MAX_DIGITS - 1`,
   * i.e. `aidx > MAX_DIGITS - 2`: tokens of up to 255 characters, plus the NUL.
   */
  const CORRECTED_GUARD: int := MAX_DIGITS - 2

  predicate IsDigitClass(c: char)
  {
    IsDigit(c) || c == '.' || c == '-'
  }

  /**
   * The scanner's variables: the accumulated token (accum[..aidx]), the x/y
   * toggle, the last converted value d, the x and y lists and the pair count.
   */
  datatype ScanState = ScanState(token: seq<char>, xy: bool, d: real,
                                 xs: seq<real>, ys: seq<real>, tuples: nat)

  const Initial: ScanState := ScanState([], false, 0.0, [], [], 0)

  /**
   * Every character the scanner does not abort on is written at
   * accum[|token|]: a digit-class character is stored there, a separator
   * stores the terminating NUL there. The write is in bounds exactly when
   * this holds.
   */
  predicate NextWriteInBounds(st: ScanState)
  {
    |st.token| < MAX_DIGITS
  }

  /** The value a separator emits: the converted token, or the previous d when the conversion fails. */
  function Convert(token: seq<char>, previous: real): real
  {
    match ParseDecimal(token)
    case Some(v) => v
    case None => previous
  }

  /** One character of the scan loop; None is the abort (the source returns NULL). */
  function Step(st: ScanState, c: char, guard: int): Option<ScanState>
  {
    if IsDigitClass(c) then
      if |st.token| > guard then None else Some(st.(token := st.token + [c]))
    else
      var d := Convert(st.token, st.d);
      if st.xy then Some(st.(token := [], d := d, ys := st.ys + [d], tuples := st.tuples + 1, xy := false))
      else Some(st.(token := [], d := d, xs := st.xs + [d], xy := true))
  }

  /** The scan loop over the characters of s, from the initial state. */
  function Run(s: seq<char>, guard: int): Option<ScanState>
  {
    if s == [] then Some(Initial)
    else
      match Run(s[..|s| - 1], guard)
      case None => None
      case Some(st) => Step(st, s[|s| - 1], guard)
  }

  /** The first `tuples` x/y pairs as data points. */
  function PointsOf(st: ScanState): seq<DataPoint>
    requires st.tuples <= |st.xs| && st.tuples <= |st.ys|
  {
    seq(st.tuples, i requires 0 <= i < st.tuples => DataPoint(st.xs[i], st.ys[i]))
  }

  /**
   * parseFile: None when the file cannot be opened or the scan aborts,
   * otherwise the points built from the first `tuples` pairs.
   */
  function ParseFileSpec(file: Option<seq<char>>, guard: int): Option<seq<DataPoint>>
  {
    match file
    case None => None
    case Some(s) =>
      match Run(s, guard)
      case None => None
      case Some(st) => RunShape(s, guard); Some(PointsOf(st))
  }

  /**
   * The invariant of the scan loop: |y| = tuples, |x| is tuples or
   * tuples + 1, and xy is set exactly when x holds one value more than y.
   */
  lemma {:induction false} RunShape(s: seq<char>, guard: int)
    ensures Run(s, guard).Some? ==>
      var st := Run(s, guard).value;
      |st.ys| == st.tuples && |st.xs| == st.tuples + (if st.xy then 1 else 0)
  {
    if s != [] {
      RunShape(s[..|s| - 1], guard);
    }
  }

  /** Run unfolded by one character at the end. */
  lemma RunExtend(s: seq<char>, c: char, guard: int)
    requires Run(s, guard).Some?
    ensures Run(s + [c], guard) == Step(Run(s, guard).value, c, guard)
  {
    assert (s + [c])[..|s|] == s;
  }

  /** A digit-class character within the guard is appended to the token. */
  lemma RunDigit(s: seq<char>, c: char, guard: int, st: ScanState)
    requires Run(s, guard) == Some(st)
    requires IsDigitClass(c) && |st.token| <= guard
    ensures Run(s + [c], guard) == Some(st.(token := st.token + [c]))
  {
    RunExtend(s, c, guard);
  }

  /** A digit-class character arriving with the token past the guard aborts the scan. */
  lemma RunAbort(s: seq<char>, c: char, guard: int, st: ScanState)
    requires Run(s, guard) == Some(st)
    requires IsDigitClass(c) && |st.token| > guard
    ensures Run(s + [c], guard).None?
  {
    RunExtend(s, c, guard);
  }

  /** The output of a scan that ends in state st. */
  lemma ParseFileSpecOf(s: seq<char>, guard: int, st: ScanState)
    requires Run(s, guard) == Some(st)
    ensures st.tuples <= |st.xs| && st.tuples <= |st.ys|
    ensures ParseFileSpec(Some(s), guard) == Some(PointsOf(st))
  {
    RunShape(s, guard);
  }

  /**
   * A separator empties the token and emits its conversion (or the
   * previous d) into x or y, toggling xy.
   */
  lemma RunSeparator(s: seq<char>, c: char, guard: int, st: ScanState, d: real)
    requires Run(s, guard) == Some(st)
    requires !IsDigitClass(c) && d == Convert(st.token, st.d)
    ensures st.xy ==> Run(s + [c], guard) == Some(ScanState([], false, d, st.xs, st.ys + [d], st.tuples + 1))
    ensures !st.xy ==> Run(s + [c], guard) == Some(ScanState([], true, d, st.xs + [d], st.ys, st.tuples))
  {
    RunExtend(s, c, guard);
    StepSeparator(st, c, guard, d);
  }

  lemma StepSeparator(st: ScanState, c: char, guard: int, d: real)
    requires !IsDigitClass(c) && d == Convert(st.token, st.d)
    ensures st.xy ==> Step(st, c, guard) == Some(ScanState([], false, d, st.xs, st.ys + [d], st.tuples + 1))
    ensures !st.xy ==> Step(st, c, guard) == Some(ScanState([], true, d, st.xs + [d], st.ys, st.tuples))
  {
  }

  /** Under the guard `aidx > guard` the token never holds more than guard + 1 characters. */
  lemma {:induction false} TokenWithinGuard(s: seq<char>, guard: int)
    requires guard >= -1
    ensures Run(s, guard).Some? ==> |Run(s, guard).value.token| <= guard + 1
  {
    if s != [] {
      TokenWithinGuard(s[..|s| - 1], guard);
    }
  }

  // ---------------------------------------------------------------------
  // A reference description of what the scan computes, stated without the
  // x/y alternation and without the abort.
  // ---------------------------------------------------------------------

  /** The digit-class characters after the last separator: the pending token. */
  function Pending(s: seq<char>): seq<char>
  {
    if s == [] || !IsDigitClass(s[|s| - 1]) then [] else Pending(s[..|s| - 1]) + [s[|s| - 1]]
  }

  /** The number of separator characters in s. */
  function Separators(s: seq<char>): nat
  {
    if s == [] then 0 else Separators(s[..|s| - 1]) + (if IsDigitClass(s[|s| - 1]) then 0 else 1)
  }

  /** The last element of e, or dflt when e is empty. */
  function LastOr(e: seq<real>, dflt: real): real
  {
    if e == [] then dflt else e[|e| - 1]
  }

  /**
   * The values emitted for s, in order: one per separator, the conversion
   * of the token that the separator ends, or the previously emitted value
   * (initially 0.0) when that token is empty or does not convert.
   */
  function Emitted(s: seq<char>): seq<real>
  {
    if s == [] then []
    else
      var e := Emitted(s[..|s| - 1]);
      if IsDigitClass(s[|s| - 1]) then e
      else e + [Convert(Pending(s[..|s| - 1]), LastOr(e, 0.0))]
  }

  /** Some digit-class character arrives while the pending token is longer than guard. */
  predicate Overflows(s: seq<char>, guard: int)
  {
    exists i :: 0 <= i < |s| && IsDigitClass(s[i]) && |Pending(s[..i])| > guard
  }

  /** st holds the values of e alternately: e[0], e[2], … in xs and e[1], e[3], … in ys. */
  predicate Interleaves(st: ScanState, e: seq<real>)
  {
    && |st.xs| == (|e| + 1) / 2
    && |st.ys| == |e| / 2
    && st.tuples == |st.ys|
    && (st.xy <==> |e| % 2 == 1)
    && (forall i :: 0 <= i < |st.xs| ==> st.xs[i] == e[2 * i])
    && (forall i :: 0 <= i < |st.ys| ==> st.ys[i] == e[2 * i + 1])
  }

  predicate Agrees(st: ScanState, s: seq<char>)
  {
    && st.token == Pending(s)
    && st.d == LastOr(Emitted(s), 0.0)
    && Interleaves(st, Emitted(s))
  }

  /** Every separator emits exactly one value. */
  lemma {:induction false} EmittedCount(s: seq<char>)
    ensures |Emitted(s)| == Separators(s)
  {
    if s != [] {
      EmittedCount(s[..|s| - 1]);
    }
  }

  /** Overflows grows one character at a time. */
  lemma OverflowsStep(s: seq<char>, guard: int)
    requires s != []
    ensures Overflows(s, guard) <==>
      Overflows(s[..|s| - 1], guard)
      || (IsDigitClass(s[|s| - 1]) && |Pending(s[..|s| - 1])| > guard)
  {
    var init := s[..|s| - 1];
    if Overflows(s, guard) {
      var i :| 0 <= i < |s| && IsDigitClass(s[i]) && |Pending(s[..i])| > guard;
      if i < |init| {
        assert init[..i] == s[..i] && init[i] == s[i];
      }
    }
    if Overflows(init, guard) {
      var i :| 0 <= i < |init| && IsDigitClass(init[i]) && |Pending(init[..i])| > guard;
      assert init[..i] == s[..i] && init[i] == s[i];
    }
    if IsDigitClass(s[|s| - 1]) && |Pending(init)| > guard {
      assert s[..|s| - 1] == init;
    }
  }

  /** A separator appends its value to xs or ys, keeping the interleaving. */
  lemma InterleavesStep(st: ScanState, e: seq<real>, v: real)
    requires Interleaves(st, e)
    ensures st.xy ==>
      Interleaves(st.(ys := st.ys + [v], tuples := st.tuples + 1, xy := false), e + [v])
    ensures !st.xy ==> Interleaves(st.(xs := st.xs + [v], xy := true), e + [v])
  {
  }

  /**
   * The scan agrees with the reference: it aborts exactly when some token
   * grows past the guard, and otherwise its token is the pending token, d is
   * the last emitted value, and the x and y lists hold the emitted values
   * alternately, beginning with x.
   */
  lemma {:induction false} RunMatchesReference(s: seq<char>, guard: int)
    ensures Run(s, guard).None? <==> Overflows(s, guard)
    ensures Run(s, guard).Some? ==> Agrees(Run(s, guard).value, s)
  {
    if s != [] {
      var init, c := s[..|s| - 1], s[|s| - 1];
      RunMatchesReference(init, guard);
      OverflowsStep(s, guard);
      if Run(init, guard).Some? {
        var st := Run(init, guard).value;
        if !IsDigitClass(c) {
          InterleavesStep(st, Emitted(init), Convert(st.token, st.d));
        }
      }
    }
  }

  /**
   * The output of the scan: no points when it aborts; otherwise
   * floor(S / 2) points for S separators, point i being the (2i)-th and
   * (2i+1)-th emitted values, so a trailing lone x is dropped.
   */
  lemma ParseFileOutput(s: seq<char>, guard: int)
    ensures ParseFileSpec(Some(s), guard).None? <==> Overflows(s, guard)
    ensures |Emitted(s)| == Separators(s)
    ensures ParseFileSpec(Some(s), guard).Some? ==>
      var pts := ParseFileSpec(Some(s), guard).value;
      && |pts| == Separators(s) / 2
      && forall i :: 0 <= i < |pts| ==> pts[i] == DataPoint(Emitted(s)[2 * i], Emitted(s)[2 * i + 1])
  {
    RunMatchesReference(s, guard);
    EmittedCount(s);
  }

  /** Once the scan has aborted, no further input revives it. */
  lemma {:induction false} AbortIsFinal(s: seq<char>, t: seq<char>, guard: int)
    requires Run(s, guard).None?
    ensures Run(s + t, guard).None?
  {
    if t == [] {
      assert s + t == s;
    } else {
      var t' := t[..|t| - 1];
      AbortIsFinal(s, t', guard);
      assert (s + t)[..|s + t| - 1] == s + t';
    }
  }

  /** Digit-class characters after the last separator are never emitted. */
  lemma {:induction false} TrailingNotEmitted(s: seq<char>, t: seq<char>)
    requires forall i :: 0 <= i < |t| ==> IsDigitClass(t[i])
    ensures Emitted(s + t) == Emitted(s)
    ensures Separators(s + t) == Separators(s)
  {
    if t == [] {
      assert s + t == s;
    } else {
      var t' := t[..|t| - 1];
      TrailingNotEmitted(s, t');
      var u := s + t;
      assert u[..|u| - 1] == s + t';
      assert IsDigitClass(u[|u| - 1]);
      assert Emitted(u) == Emitted(s + t');
    }
  }

  /** In the scan itself, digit-class characters only grow the token. */
  lemma {:induction false} TrailingOnlyGrowsToken(s: seq<char>, t: seq<char>, guard: int)
    requires forall i :: 0 <= i < |t| ==> IsDigitClass(t[i])
    ensures Run(s + t, guard).Some? ==>
      Run(s, guard).Some? && Run(s + t, guard).value == Run(s, guard).value.(token := Run(s, guard).value.token + t)
  {
    if t == [] {
      assert s + t == s;
    } else {
      var t', c := t[..|t| - 1], t[|t| - 1];
      TrailingOnlyGrowsToken(s, t', guard);
      var u := s + t;
      assert u[..|u| - 1] == s + t';
      assert u[|u| - 1] == c && IsDigitClass(c);
      if Run(u, guard).Some? {
        var st := Run(s, guard).value;
        assert (st.token + t') + [c] == st.token + t;
      }
    }
  }

  /** So a file whose last token is not followed by a separator yields the points it would yield without that token. */
  lemma TrailingTokenDropped(s: seq<char>, t: seq<char>, guard: int)
    requires forall i :: 0 <= i < |t| ==> IsDigitClass(t[i])
    requires Run(s + t, guard).Some?
    ensures ParseFileSpec(Some(s + t), guard) == ParseFileSpec(Some(s), guard)
  {
    TrailingOnlyGrowsToken(s, t, guard);
  }

  /**
   * Separators are not collapsed: a separator right after a separator finds
   * the token empty, the conversion fails, and the previous value is
   * emitted again.
   */
  lemma SeparatorRunReemits(s: seq<char>, c1: char, c2: char)
    requires !IsDigitClass(c1) && !IsDigitClass(c2)
    ensures Emitted(s + [c1, c2]) == Emitted(s + [c1]) + [LastOr(Emitted(s + [c1]), 0.0)]
  {
    var s1 := s + [c1];
    var s2 := s1 + [c2];
    assert s + [c1, c2] == s2;
    assert s2[..|s2| - 1] == s1;
    assert s1[..|s1| - 1] == s;
    assert Pending(s1) == [];
    assert ParseDecimal([]) == None;
  }

  /** k copies of c. */
  function Repeat(c: char, k: nat): seq<char>
  {
    seq(k, _ => c)
  }

  /** A file starting with up to guard + 1 digit-class characters accumulates them without aborting. */
  lemma {:induction false} DigitRunAccepted(c: char, k: nat, guard: int)
    requires IsDigitClass(c) && k <= guard + 1
    ensures Run(Repeat(c, k), guard) == Some(Initial.(token := Repeat(c, k)))
  {
    if k > 0 {
      DigitRunAccepted(c, k - 1, guard);
      assert Repeat(c, k)[..k - 1] == Repeat(c, k - 1);
      assert Repeat(c, k - 1) + [c] == Repeat(c, k);
    }
  }

  /** In a file starting with digit-class characters, the (guard + 2)-th of them aborts the scan. */
  lemma DigitRunRejected(c: char, guard: int)
    requires IsDigitClass(c) && guard >= -1
    ensures Run(Repeat(c, guard + 2), guard).None?
  {
    DigitRunAccepted(c, guard + 1, guard);
    assert Repeat(c, guard + 2)[..guard + 1] == Repeat(c, guard + 1);
  }

  /**
   * As written, the guard lets a 257-character token through: its digits go
   * to accum[0] .. accum[256] and the NUL written by the following separator
   * to accum[257], while accum has MAX_DIGITS = 256 slots. Only the 258th
   * digit aborts.
   */
  lemma AsWrittenOverrun()
    ensures Run(Repeat('9', MAX_DIGITS + 1), AS_WRITTEN_GUARD)
         == Some(Initial.(token := Repeat('9', MAX_DIGITS + 1)))
    ensures Run(Repeat('9', MAX_DIGITS), AS_WRITTEN_GUARD).Some?
    ensures !NextWriteInBounds(Run(Repeat('9', MAX_DIGITS), AS_WRITTEN_GUARD).value)
    ensures !NextWriteInBounds(Run(Repeat('9', MAX_DIGITS + 1), AS_WRITTEN_GUARD).value)
    ensures Run(Repeat('9', MAX_DIGITS + 1) + [','], AS_WRITTEN_GUARD).Some?
    ensures Run(Repeat('9', MAX_DIGITS + 2), AS_WRITTEN_GUARD).None?
  {
    DigitRunAccepted('9', MAX_DIGITS, AS_WRITTEN_GUARD);
    DigitRunAccepted('9', MAX_DIGITS + 1, AS_WRITTEN_GUARD);
    var s := Repeat('9', MAX_DIGITS + 1) + [','];
    assert s[..|s| - 1] == Repeat('9', MAX_DIGITS + 1);
    DigitRunRejected('9', AS_WRITTEN_GUARD);
  }

  /**
   * A file that ends in a token of exactly MAX_DIGITS digit-class characters
   * never writes outside accum under the guard as written: the digits fill
   * accum[0] .. accum[255] and end of file stops the loop. The corrected
   * guard aborts on the 256th character, so such a file yields no points
   * there, while the program as written returns an (empty) point list.
   */
  lemma CorrectedGuardRejectsFullToken(c: char)
    requires IsDigitClass(c)
    ensures ParseFileSpec(Some(Repeat(c, MAX_DIGITS)), AS_WRITTEN_GUARD) == Some([])
    ensures ParseFileSpec(Some(Repeat(c, MAX_DIGITS)), CORRECTED_GUARD) == None
    ensures forall k :: 0 <= k < MAX_DIGITS ==>
      Run(Repeat(c, k), AS_WRITTEN_GUARD).Some? && NextWriteInBounds(Run(Repeat(c, k), AS_WRITTEN_GUARD).value)
  {
    forall k | 0 <= k < MAX_DIGITS
      ensures Run(Repeat(c, k), AS_WRITTEN_GUARD).Some? && NextWriteInBounds(Run(Repeat(c, k), AS_WRITTEN_GUARD).value)
    {
      DigitRunAccepted(c, k, AS_WRITTEN_GUARD);
    }
    DigitRunAccepted(c, MAX_DIGITS, AS_WRITTEN_GUARD);
    assert PointsOf(Initial.(token := Repeat(c, MAX_DIGITS))) == [];
    LongRunFails(c, MAX_DIGITS, [], CORRECTED_GUARD);
    assert Repeat(c, MAX_DIGITS) + [] == Repeat(c, MAX_DIGITS);
  }

  /**
   * With the corrected guard the token never exceeds MAX_DIGITS - 1
   * characters, so the next write, accum[|token|], a digit or the NUL, is
   * always inside the buffer; a token of 255 characters is still accepted
   * and the 256th digit aborts.
   */
  lemma CorrectedGuardInBounds(s: seq<char>)
    ensures Run(s, CORRECTED_GUARD).Some? ==> NextWriteInBounds(Run(s, CORRECTED_GUARD).value)
    ensures Run(Repeat('9', MAX_DIGITS - 1), CORRECTED_GUARD).Some?
    ensures Run(Repeat('9', MAX_DIGITS), CORRECTED_GUARD).None?
  {
    TokenWithinGuard(s, CORRECTED_GUARD);
    DigitRunAccepted('9', MAX_DIGITS - 1, CORRECTED_GUARD);
    DigitRunRejected('9', CORRECTED_GUARD);
  }

  /** A file holding an overlong token yields no points at all, whatever follows it. */
  lemma OverlongTokenFails(rest: seq<char>, guard: int)
    requires -1 <= guard <= AS_WRITTEN_GUARD
    ensures ParseFileSpec(Some(Repeat('1', 300) + rest), guard) == None
  {
    LongRunFails('1', 300, rest, guard);
  }

  /** A file starting with more than guard + 1 digit-class characters yields no points. */
  lemma LongRunFails(c: char, n: nat, rest: seq<char>, guard: int)
    requires IsDigitClass(c) && -1 <= guard && guard + 2 <= n
    ensures ParseFileSpec(Some(Repeat(c, n) + rest), guard) == None
  {
    var head, tail := Repeat(c, guard + 2), Repeat(c, n - (guard + 2)) + rest;
    DigitRunRejected(c, guard);
    AbortIsFinal(head, tail, guard);
    RepeatSplit(c, guard + 2, n - (guard + 2), rest);
    AbortedFileEmpty(head + tail, guard);
  }

  /** A scan that aborts yields no points. */
  lemma AbortedFileEmpty(s: seq<char>, guard: int)
    requires Run(s, guard).None?
    ensures ParseFileSpec(Some(s), guard) == None
  {
  }

  /** k + m copies of c are k copies followed by m copies. */
  lemma RepeatSplit(c: char, k: nat, m: nat, rest: seq<char>)
    ensures Repeat(c, k + m) + rest == Repeat(c, k) + (Repeat(c, m) + rest)
  {
    assert Repeat(c, k + m) == Repeat(c, k) + Repeat(c, m);
  }

  /**
   * A file such as "1,2,3" (digits a, b, c, separator sep) yields the single
   * point (a, b): c is never emitted, since no separator follows it.
   */
  lemma ExampleTrailingValue(a: char, b: char, c: char, sep: char, guard: int)
    requires IsDigit(a) && IsDigit(b) && IsDigit(c) && !IsDigitClass(sep)
    requires guard >= 0
    ensures ParseFileSpec(Some([a, sep, b, sep, c]), guard)
         == Some([DataPoint(DigitValue(a) as real, DigitValue(b) as real)])
  {
    var va, vb := DigitValue(a) as real, DigitValue(b) as real;
    var s4 := ScanState([], false, vb, [va], [vb], 1);
    TrailingValuePrefix(a, b, sep, guard);
    assert [] + [c] == [c];
    assert [a, sep, b, sep] + [c] == [a, sep, b, sep, c];
    RunDigit([a, sep, b, sep], c, guard, s4);
    assert PointsOf(s4.(token := [c])) == [DataPoint(va, vb)];
  }

  /** The scan of the example above up to its last separator. */
  lemma TrailingValuePrefix(a: char, b: char, sep: char, guard: int)
    requires IsDigit(a) && IsDigit(b) && !IsDigitClass(sep)
    requires guard >= 0
    ensures var va, vb := DigitValue(a) as real, DigitValue(b) as real;
      Run([a, sep, b, sep], guard) == Some(ScanState([], false, vb, [va], [vb], 1))
  {
    var va, vb := DigitValue(a) as real, DigitValue(b) as real;
    var s1 := ScanState([a], false, 0.0, [], [], 0);
    var s2 := ScanState([], true, va, [va], [], 0);
    var s3 := ScanState([b], true, va, [va], [], 0);
    ConvertSingleDigit(a, 0.0);
    ConvertSingleDigit(b, va);
    assert [] + [a] == [a] && [] + [b] == [b];
    assert [] + [va] == [va] && [] + [vb] == [vb];
    assert [a] + [sep] == [a, sep] && [a, sep] + [b] == [a, sep, b];
    assert [a, sep, b] + [sep] == [a, sep, b, sep];
    RunDigit([], a, guard, Initial);
    RunSeparator([a], sep, guard, s1, va);
    RunDigit([a, sep], b, guard, s2);
    RunSeparator([a, sep, b], sep, guard, s3, vb);
  }

  /** A single digit converts to its value, whatever d held before. */
  lemma ConvertSingleDigit(c: char, previous: real)
    requires IsDigit(c)
    ensures Convert([c], previous) == DigitValue(c) as real
  {
    ParseDigits([c]);
    assert [c][..0] == [];
  }

  /**
   * Separators are not collapsed: in a file such as "1, 2\n" (digits a, b,
   * separators sep1 sep2 sep3) the second separator re-emits a as the first
   * y, and b becomes a lone x that is dropped, giving the single point (a, a).
   */
  lemma ExampleSeparatorRun(a: char, b: char, sep1: char, sep2: char, sep3: char, guard: int)
    requires IsDigit(a) && IsDigit(b)
    requires !IsDigitClass(sep1) && !IsDigitClass(sep2) && !IsDigitClass(sep3)
    requires guard >= 0
    ensures ParseFileSpec(Some([a, sep1, sep2, b, sep3]), guard)
         == Some([DataPoint(DigitValue(a) as real, DigitValue(a) as real)])
  {
    var va, vb := DigitValue(a) as real, DigitValue(b) as real;
    var s3 := ScanState([], false, va, [va], [va], 1);
    var s4 := ScanState([b], false, va, [va], [va], 1);
    SeparatorRunPrefix(a, sep1, sep2, guard);
    ConvertSingleDigit(b, va);
    assert [] + [b] == [b] && [va] + [vb] == [va, vb];
    assert [a, sep1, sep2] + [b] == [a, sep1, sep2, b] && [a, sep1, sep2, b] + [sep3] == [a, sep1, sep2, b, sep3];
    RunDigit([a, sep1, sep2], b, guard, s3);
    RunSeparator([a, sep1, sep2, b], sep3, guard, s4, vb);
    assert PointsOf(ScanState([], true, vb, [va, vb], [va], 1)) == [DataPoint(va, va)];
  }

  /** The first three characters of the example above: the second separator re-emits a as y. */
  lemma SeparatorRunPrefix(a: char, sep1: char, sep2: char, guard: int)
    requires IsDigit(a) && !IsDigitClass(sep1) && !IsDigitClass(sep2)
    requires guard >= 0
    ensures var va := DigitValue(a) as real;
      Run([a, sep1, sep2], guard) == Some(ScanState([], false, va, [va], [va], 1))
  {
    var va := DigitValue(a) as real;
    var s1 := ScanState([a], false, 0.0, [], [], 0);
    var s2 := ScanState([], true, va, [va], [], 0);
    ConvertSingleDigit(a, 0.0);
    assert ParseDecimal([]) == None;
    assert [] + [a] == [a] && [] + [va] == [va];
    assert [a] + [sep1] == [a, sep1] && [a, sep1] + [sep2] == [a, sep1, sep2];
    RunDigit([], a, guard, Initial);
    RunSeparator([a], sep1, guard, s1, va);
    RunSeparator([a, sep1], sep2, guard, s2, va);
  }
}
