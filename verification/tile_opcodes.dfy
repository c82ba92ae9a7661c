/**
 * Properties of the tile decompressor one opcode at a time: the two
 * back-reference distance formulas, the back-reference window, and what each
 * opcode family reads and emits.
 */
module TileOpcodes {
  import opened Results
  import opened Bytes
  import opened TileDecoder

  // ---------------------------------------------------------------------------
  // Back-reference distances

  /** scripts/split.py: the low two bits of the opcode above the operand byte, plus one (1..1024). */
  lemma {:induction false} HighLowDistance(b: byte, s: byte)
    ensures Distance(HighLow, b, s) == (b % 4) * 256 + s + 1
  {
    assert b * 256 == (b / 4) * 1024 + (b % 4) * 256;
    assert (b * 256) % 0x10000 == b * 256;
    assert (b * 256 + s) % 0x400 == (b % 4) * 256 + s;
  }

  /** unpacker.py: the distance only ever takes four values. */
  lemma {:induction false} SumShiftDistance(b: byte, s: byte)
    ensures Distance(SumShift, b, s) == ((b + s) % 4) * 256 + 1
    ensures Distance(SumShift, b, s) in {1, 257, 513, 769}
  {
    var t := b + s;
    assert t * 256 == (t / 256) * 0x10000 + (t % 256) * 256;
    assert (t * 256) % 0x10000 == (t % 256) * 256;
    assert (t % 256) * 256 == ((t % 256) / 4) * 1024 + ((t % 256) % 4) * 256;
    assert (t % 256) % 4 == t % 4;
  }

  /** The two formulas give the same distance exactly when the operand byte is zero. */
  lemma {:induction false} DistancesAgreeIff(b: byte, s: byte)
    ensures Distance(HighLow, b, s) == Distance(SumShift, b, s) <==> s == 0
  {
    HighLowDistance(b, s);
    SumShiftDistance(b, s);
    if s == 0 {
      assert (b + s) % 4 == b % 4;
    } else {
      var h := (b % 4) * 256 + s + 1;
      var u := ((b + s) % 4) * 256 + 1;
      assert u % 256 == 1;
      assert h % 256 == (s + 1) % 256;
    }
  }

  /** Opcode 0x80 with operand 0x01: distance 2 in scripts/split.py, 257 in unpacker.py. */
  lemma {:induction false} DistanceDivergenceExample()
    ensures Distance(HighLow, 0x80, 0x01) == 2
    ensures Distance(SumShift, 0x80, 0x01) == 257
  {
  }

  // ---------------------------------------------------------------------------
  // The back-reference window

  /**
   * A copy from `d` bytes back makes every new byte equal to the byte `d`
   * positions before it, also when the copy is longer than `d` and reads bytes
   * it wrote itself.
   */
  lemma {:induction false} CopyIsPeriodic(out: seq<byte>, d: nat, n: nat)
    requires 1 <= d <= |out|
    ensures RepeatsWindow(out, d, CopyFrom(out, |out| - d, n))
  {
    var r := CopyFrom(out, |out| - d, n);
    forall i | |out| <= i < |r|
      ensures r[i] == r[i - d]
    {
      CopyEcho(out, |out| - d, d, n, i);
    }
  }

  /** The copied byte at `i` equals the byte `d` positions before it. */
  lemma {:induction false} CopyEcho(out: seq<byte>, src: nat, d: nat, n: nat, i: nat)
    requires src < |out| && d == |out| - src && |out| <= i < |out| + n
    ensures CopyFrom(out, src, n)[i] == CopyFrom(out, src, n)[i - d]
  {
    var r := CopyFrom(out, src, n);
    var j := i - |out|;
    assert r[i] == Periodic(out, src, j);
    if j < d {
      assert r[..|out|] == out;
      assert r[i - d] == out[src + j];
    } else {
      assert r[i - d] == Periodic(out, src, j - d);
    }
  }

  /** Past `out`, every byte of `r` repeats the byte `d` positions before it. */
  predicate RepeatsWindow(out: seq<byte>, d: nat, r: seq<byte>)
    requires 1 <= d <= |out| <= |r|
  {
    forall i :: |out| <= i < |r| ==> r[i] == r[i - d]
  }

  // ---------------------------------------------------------------------------
  // One opcode at a time

  /** An opcode fails for truncation exactly when it needs a byte at or past the end of the block. */
  lemma {:induction false} StepTruncatedIff(f: Formula, arr: seq<byte>, st: State)
    requires st.idx < |arr| && st.written == |st.out|
    ensures (Step(f, arr, st).Err? && Step(f, arr, st).error.Truncated?) <==> st.idx + Advance(arr[st.idx]) > |arr|
  {
  }

  // The control byte's decoding table: its top bits select the family and
  // its low bits the count, as the source computes them.

  /** A control byte >= 0x80 is a back-reference of ((b >> 2) & 0x1F) + 2 bytes. */
  lemma {:induction false} BackRefDispatch(f: Formula, arr: seq<byte>, st: State)
    requires st.idx < |arr| && st.written == |st.out|
    requires arr[st.idx] >= 0x80
    ensures Step(f, arr, st) == BackRefOp(f, arr, st, (arr[st.idx] / 4) % 32 + 1)
  {
    assert Classify(arr[st.idx]) == BackRef((arr[st.idx] / 4) % 32 + 1);
  }

  /** Top bits 011: an alternating run over (b & 0x1F) + 2 fresh bytes. */
  lemma {:induction false} AlternatingDispatch(f: Formula, arr: seq<byte>, st: State)
    requires st.idx < |arr| && st.written == |st.out|
    requires arr[st.idx] / 32 == 3
    ensures Step(f, arr, st) == AlternatingOp(arr, st, arr[st.idx] % 32 + 1)
  {
    assert Classify(arr[st.idx]) == AlternatingRun(arr[st.idx] % 32 + 1);
  }

  /** Top bits 001: a byte run of (b & 0x1F) + 2 bytes. */
  lemma {:induction false} ByteRunDispatch(f: Formula, arr: seq<byte>, st: State)
    requires st.idx < |arr| && st.written == |st.out|
    requires arr[st.idx] / 32 == 1
    ensures Step(f, arr, st) == ByteRunOp(arr, st, arr[st.idx] % 32 + 1)
  {
    assert Classify(arr[st.idx]) == ByteRun(arr[st.idx] % 32 + 1);
  }

  /** Top bits 010: a pattern run of (b & 0x1F) + 2 pairs. */
  lemma {:induction false} PatternDispatch(f: Formula, arr: seq<byte>, st: State)
    requires st.idx < |arr| && st.written == |st.out|
    requires arr[st.idx] / 32 == 2
    ensures Step(f, arr, st) == PatternOp(arr, st, arr[st.idx] % 32 + 1)
  {
    assert Classify(arr[st.idx]) == PatternRun(arr[st.idx] % 32 + 1);
  }

  /** Top bits 000: a literal run of (b & 0x1F) + 1 bytes. */
  lemma {:induction false} LiteralDispatch(f: Formula, arr: seq<byte>, st: State)
    requires st.idx < |arr| && st.written == |st.out|
    requires arr[st.idx] / 32 == 0
    ensures Step(f, arr, st) == LiteralOp(arr, st, arr[st.idx] % 32)
  {
    assert Classify(arr[st.idx]) == Literal(arr[st.idx] % 32);
  }

  /**
   * Every byte a successful back-reference appends equals the byte `distance`
   * positions before it, also where the copy is longer than the distance and
   * reads bytes it wrote itself.
   */
  lemma {:induction false} BackRefCopies(f: Formula, arr: seq<byte>, st: State, cnt: nat)
    requires st.idx < |arr| && st.written == |st.out|
    requires BackRefOp(f, arr, st, cnt).Ok?
    ensures RepeatsWindow(st.out, Distance(f, arr[st.idx], arr[st.idx + 1]), BackRefOp(f, arr, st, cnt).value.out)
  {
    var d := Distance(f, arr[st.idx], arr[st.idx + 1]);
    assert BackRefOp(f, arr, st, cnt).value == CopyBack(st, d, cnt);
    CopyIsPeriodic(st.out, d, cnt + 1);
  }
}
