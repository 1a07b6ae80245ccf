/**
 * parseFile as the loop it is: the characters of the file are read one at a
 * time into the fixed-size accumulator `accum`, and every separator converts
 * the accumulated token and pushes it onto the x or the y list. The file is
 * an in-memory character sequence; `None` stands for a file that cannot be
 * opened. The overflow guard is the corrected one, so every write to
 * `accum` is proved in bounds.
 */
module FileScanner {
  import opened Wrappers
  import opened Points
  import opened Decimal
  import opened Scan

  /**
   * Scans `file` and returns the data points it holds and their number, or
   * null when the file cannot be opened or a token is too long for the
   * accumulator. The result is the one the scan state machine defines.
   */
  method ParseFile(file: Option<seq<char>>) returns (data: array?<DataPoint>, dataSize: int)
    ensures data == null <==> ParseFileSpec(file, CORRECTED_GUARD).None?
    ensures data != null ==> fresh(data) && data[..] == ParseFileSpec(file, CORRECTED_GUARD).value
    ensures data != null ==> dataSize == data.Length
    ensures data == null ==> dataSize == 0
  {
    if file.None? {
      return null, 0;
    }
    var scanned := ScanInput(file.value);
    if scanned.None? {
      return null, 0;
    }
    var x, y, tuples := scanned.value.xs, scanned.value.ys, scanned.value.tuples;
    ParseFileSpecOf(file.value, CORRECTED_GUARD, scanned.value);
    // Allocate the points and copy the first `tuples` x/y pairs into them.
    data := new DataPoint[tuples];
    for j := 0 to tuples
      invariant forall k :: 0 <= k < j ==> data[k] == DataPoint(x[k], y[k])
    {
      data[j] := DataPoint(x[j], y[j]);
    }
    dataSize := tuples;
  }

  /**
   * The character loop of parseFile, over the 256-slot accumulator `accum`:
   * a digit-class character is stored at accum[aidx] unless the token is
   * already too long, in which case the scan stops with None; a separator
   * stores the terminating NUL at accum[aidx], converts the token, pushes
   * the value onto x or y and toggles xy. The final state (or None) is
   * exactly the one the scan state machine defines.
   */
  method ScanInput(input: seq<char>) returns (r: Option<ScanState>)
    ensures r == Run(input, CORRECTED_GUARD)
  {
    var x: seq<real> := [];
    var y: seq<real> := [];
    var tuples: nat := 0;
    var xy := false;
    var accum := new char[MAX_DIGITS];
    var aidx := 0;
    var d := 0.0;
    var i := 0;
    while i < |input|
      invariant 0 <= i <= |input|
      invariant 0 <= aidx < MAX_DIGITS
      invariant Run(input[..i], CORRECTED_GUARD) == Some(ScanState(accum[..aidx], xy, d, x, y, tuples))
      invariant |y| == tuples && |x| == tuples + (if xy then 1 else 0)
    {
      var c := input[i];
      assert input[..i + 1] == input[..i] + [c];
      if IsDigitClass(c) {
        if aidx >= MAX_DIGITS - 1 {
          RunAbort(input[..i], c, CORRECTED_GUARD, ScanState(accum[..aidx], xy, d, x, y, tuples));
          AbortIsFinal(input[..i + 1], input[i + 1..], CORRECTED_GUARD);
          assert input[..i + 1] + input[i + 1..] == input;
          return None;
        }
        ghost var token := accum[..aidx];
        RunDigit(input[..i], c, CORRECTED_GUARD, ScanState(token, xy, d, x, y, tuples));
        accum[aidx] := c;
        assert accum[..aidx + 1] == token + [c];
        aidx := aidx + 1;
      } else {
        var token := accum[..aidx];
        ghost var st := ScanState(token, xy, d, x, y, tuples);
        accum[aidx] := 0 as char;
        aidx := 0;
        match ParseDecimal(token) {
          case Some(v) => d := v;
          case None =>
        }
        RunSeparator(input[..i], c, CORRECTED_GUARD, st, d);
        if xy {
          y := y + [d];
          tuples := tuples + 1;
        } else {
          x := x + [d];
        }
        xy := !xy;
        assert accum[..aidx] == [];
      }
      i := i + 1;
    }
    assert input[..i] == input;
    return Some(ScanState(accum[..aidx], xy, d, x, y, tuples));
  }
}
