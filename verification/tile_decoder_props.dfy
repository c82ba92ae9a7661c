/**
 * Properties of the two tile decompressors as whole decoders: where the copy
 * in scripts/split.py and the copy in unpacker.py agree, where they diverge,
 * and a few decoded streams worked out byte by byte.
 */
module TileDecoderProps {
  import opened Results
  import opened Bytes
  import opened TileDecoder
  import opened TileOpcodes

  // ---------------------------------------------------------------------------
  // The two decoders

  /**
   * The opcode positions the decode loop visits from cursor `idx` never hold
   * a back-reference. Every other family advances by an amount fixed by its
   * control byte, so the walk needs no output.
   */
  ghost predicate BackRefFree(arr: seq<byte>, size: nat, idx: nat)
    decreases |arr| - idx
  {
    idx <= size && idx < |arr| ==>
      arr[idx] < 0x80 && BackRefFree(arr, size, idx + Advance(arr[idx]))
  }

  lemma {:induction false} RunsAgreeWithoutBackRefs(arr: seq<byte>, size: nat, st: State)
    requires st.idx <= |arr| && st.written == |st.out|
    requires BackRefFree(arr, size, st.idx)
    ensures Run(HighLow, arr, size, st) == Run(SumShift, arr, size, st)
    decreases |arr| - st.idx
  {
    if st.idx <= size && st.idx < |arr| {
      assert Step(HighLow, arr, st) == Step(SumShift, arr, st);
      match Step(HighLow, arr, st)
      case Err(_) =>
      case Ok(next) =>
        RunsAgreeWithoutBackRefs(arr, size, next);
    }
  }

  /**
   * On a block whose visited opcodes are never back-references,
   * `unpack_tiles` and `unpack` give the same result.
   */
  lemma {:induction false} DecodersAgreeWithoutBackRefs(rom: seq<byte>, addr: nat)
    requires |Block(rom, addr)| >= 2
    requires BackRefFree(Block(rom, addr), DeclaredSize(Block(rom, addr)), 2)
    ensures UnpackTiles(rom, addr) == Unpack(rom, addr)
  {
    var arr := Block(rom, addr);
    RunsAgreeWithoutBackRefs(arr, DeclaredSize(arr), State(2, 0, []));
  }

  /** A block whose bytes after the header are all below 0x80 visits no back-reference. */
  lemma {:induction false} LowBytesAreBackRefFree(arr: seq<byte>, size: nat, idx: nat)
    requires forall i :: 2 <= i < |arr| ==> arr[i] < 0x80
    requires idx >= 2
    ensures BackRefFree(arr, size, idx)
    decreases |arr| - idx
  {
    if idx <= size && idx < |arr| {
      LowBytesAreBackRefFree(arr, size, idx + Advance(arr[idx]));
    }
  }

  /** The literal run 0x04 1 2 3 4 5 at the head of the divergence example. */
  lemma {:induction false} DivergencePrefix(f: Formula)
    ensures Step(f, DivergenceBlock(), State(2, 0, [])) == Ok(State(8, 5, [1, 2, 3, 4, 5]))
  {
    var arr := DivergenceBlock();
    assert Classify(4) == Literal(4);
    assert arr[3 .. 8] == [1, 2, 3, 4, 5];
  }

  /** The bytes used by DecodersDivergeExample. */
  function DivergenceBlock(): (r: seq<byte>)
    ensures |r| == 10 && DeclaredSize(r) == 9
  {
    [0x00, 0x09, 0x04, 1, 2, 3, 4, 5, 0x80, 0x04]
  }

  /** Unfolds Decode for a block whose decode takes exactly two steps. */
  lemma {:induction false} TwoStepDecode(f: Formula, arr: seq<byte>, s1: State, s2: State)
    requires |arr| >= 3 && DeclaredSize(arr) < |arr|
    requires Step(f, arr, State(2, 0, [])) == Ok(s1)
    requires s1.idx <= DeclaredSize(arr) && s1.written == |s1.out|
    requires Step(f, arr, s1) == Ok(s2)
    requires s2.idx > DeclaredSize(arr)
    ensures Decode(f, arr) == Ok(s2.out)
  {
    var n := DeclaredSize(arr);
    assert Run(f, arr, n, s2) == Ok(s2.out);
    assert Run(f, arr, n, s1) == Run(f, arr, n, s2);
    assert Run(f, arr, n, State(2, 0, [])) == Run(f, arr, n, s1);
  }

  /**
   * The second step of the divergence example under scripts/split.py's
   * formula: 0x80 0x04 copies two bytes from distance 5.
   */
  lemma {:induction false} DivergenceBackRefHighLow()
    ensures Step(HighLow, DivergenceBlock(), State(8, 5, [1, 2, 3, 4, 5])) == Ok(State(10, 7, [1, 2, 3, 4, 5, 1, 2]))
  {
    var arr := DivergenceBlock();
    var out: seq<byte> := [1, 2, 3, 4, 5];
    assert Classify(0x80) == BackRef(1);
    assert Distance(HighLow, 0x80, 0x04) == 5;
    var copied := CopyFrom(out, 0, 2);
    assert copied[5] == out[0 + 0 % 5] && copied[6] == out[0 + 1 % 5];
    assert copied == [1, 2, 3, 4, 5, 1, 2];
    assert Step(HighLow, arr, State(8, 5, out)) == Ok(State(10, 7, copied));
  }

  /**
   * The second step of the divergence example under unpacker.py's formula:
   * 0x80 0x04 repeats the last byte twice (distance 1).
   */
  lemma {:induction false} DivergenceBackRefSumShift()
    ensures Step(SumShift, DivergenceBlock(), State(8, 5, [1, 2, 3, 4, 5])) == Ok(State(10, 7, [1, 2, 3, 4, 5, 5, 5]))
  {
    var arr := DivergenceBlock();
    var out: seq<byte> := [1, 2, 3, 4, 5];
    assert Classify(0x80) == BackRef(1);
    assert Distance(SumShift, 0x80, 0x04) == 1;
    var copied := CopyFrom(out, 4, 2);
    assert copied[5] == out[4 + 0 % 1] && copied[6] == out[4 + 1 % 1];
    assert copied == [1, 2, 3, 4, 5, 5, 5];
    assert Step(SumShift, arr, State(8, 5, out)) == Ok(State(10, 7, copied));
  }

  /**
   * Where the decoders diverge: after a literal run of 1 2 3 4 5, the
   * back-reference 0x80 0x04 copies from distance 5 in scripts/split.py but
   * from distance 1 in unpacker.py.
   */
  lemma {:induction false} DecodersDivergeExample()
    ensures Decode(HighLow, DivergenceBlock()) == Ok([1, 2, 3, 4, 5, 1, 2])
    ensures Decode(SumShift, DivergenceBlock()) == Ok([1, 2, 3, 4, 5, 5, 5])
  {
    var s1 := State(8, 5, [1, 2, 3, 4, 5]);
    DivergencePrefix(HighLow);
    DivergencePrefix(SumShift);
    DivergenceBackRefHighLow();
    DivergenceBackRefSumShift();
    TwoStepDecode(HighLow, DivergenceBlock(), s1, State(10, 7, [1, 2, 3, 4, 5, 1, 2]));
    TwoStepDecode(SumShift, DivergenceBlock(), s1, State(10, 7, [1, 2, 3, 4, 5, 5, 5]));
  }

  /** Unfolds Decode for a block whose decode takes exactly one step. */
  lemma {:induction false} OneStepDecode(f: Formula, arr: seq<byte>, s1: State)
    requires |arr| >= 3 && 2 <= DeclaredSize(arr) < |arr|
    requires Step(f, arr, State(2, 0, [])) == Ok(s1)
    requires s1.idx > DeclaredSize(arr)
    ensures Decode(f, arr) == Ok(s1.out)
  {
    var n := DeclaredSize(arr);
    assert Run(f, arr, n, s1) == Ok(s1.out);
    assert Run(f, arr, n, State(2, 0, [])) == Run(f, arr, n, s1);
  }

  /** A single byte run: 0x21 0xAA emits 0xAA three times, under either formula. */
  lemma {:induction false} ByteRunExample(f: Formula)
    ensures Decode(f, [0x00, 0x03, 0x21, 0xAA]) == Ok([0xAA, 0xAA, 0xAA])
  {
    var arr: seq<byte> := [0x00, 0x03, 0x21, 0xAA];
    assert DeclaredSize(arr) == 3;
    assert Classify(0x21) == ByteRun(2);
    var run := Fill(0xAA as byte, 3);
    assert run == [0xAA, 0xAA, 0xAA];
    assert Step(f, arr, State(2, 0, [])) == Ok(State(4, 3, run));
    OneStepDecode(f, arr, State(4, 3, run));
  }

  /** The one step of OperandsPastDeclaredSizeExample: 0x41 0xBB 0xCC emits the pair three times. */
  lemma {:induction false} PatternExampleStep(f: Formula)
    ensures Step(f, [0x00, 0x03, 0x41, 0xBB, 0xCC], State(2, 0, [])) == Ok(State(5, 6, [0xBB, 0xCC, 0xBB, 0xCC, 0xBB, 0xCC]))
  {
    var arr: seq<byte> := [0x00, 0x03, 0x41, 0xBB, 0xCC];
    var s0 := State(2, 0, []);
    PatternDispatch(f, arr, s0);
    var run := FillPair(0xBB as byte, 0xCC as byte, 3);
    assert run == [0xBB, 0xCC] + FillPair(0xBB as byte, 0xCC as byte, 2);
    assert FillPair(0xBB as byte, 0xCC as byte, 2) == [0xBB, 0xCC] + FillPair(0xBB as byte, 0xCC as byte, 1);
    assert FillPair(0xBB as byte, 0xCC as byte, 1) == [0xBB, 0xCC] + FillPair(0xBB as byte, 0xCC as byte, 0);
    assert run == [0xBB, 0xCC, 0xBB, 0xCC, 0xBB, 0xCC];
    assert PatternOp(arr, s0, 2) == Ok(State(5, 6, s0.out + run));
    assert s0.out + run == run;
  }

  /**
   * The size header bounds the cursor, not the block: in 0x41 0xBB 0xCC the
   * operands sit at offsets 3 and 4, past the declared size 3, and the
   * pattern is still read and emitted three times.
   */
  lemma {:induction false} OperandsPastDeclaredSizeExample(f: Formula)
    ensures Decode(f, [0x00, 0x03, 0x41, 0xBB, 0xCC]) == Ok([0xBB, 0xCC, 0xBB, 0xCC, 0xBB, 0xCC])
  {
    var arr: seq<byte> := [0x00, 0x03, 0x41, 0xBB, 0xCC];
    assert DeclaredSize(arr) == 3;
    PatternExampleStep(f);
    OneStepDecode(f, arr, State(5, 6, [0xBB, 0xCC, 0xBB, 0xCC, 0xBB, 0xCC]));
  }

  /**
   * The loop guard admits a cursor equal to the block length: after the
   * literal 0x00 0x11 the cursor is 4 == len(arr) <= size, and the next
   * read fails, so a block whose size header equals its length never decodes.
   */
  lemma {:induction false} CursorAtEndExample(f: Formula)
    ensures Decode(f, [0x00, 0x04, 0x00, 0x11]) == Err(Truncated(4))
  {
    var arr: seq<byte> := [0x00, 0x04, 0x00, 0x11];
    assert DeclaredSize(arr) == 4;
    assert Classify(0x00) == Literal(0);
    assert arr[3 .. 4] == [0x11];
    var s1 := State(4, 1, [0x11]);
    assert Step(f, arr, State(2, 0, [])) == Ok(s1);
    assert Step(f, arr, s1) == Err(Truncated(4));
    assert Run(f, arr, 4, s1) == Err(Truncated(4));
    assert Run(f, arr, 4, State(2, 0, [])) == Run(f, arr, 4, s1);
  }

  /** The size header round trip: a block that starts with n's two bytes declares n. */
  lemma {:induction false} DeclaredSizeRoundTrip(n: nat, rest: seq<byte>)
    requires n < 0x10000
    ensures DeclaredSize(ToBigEndian(n, 2) + rest) == n
  {
    var arr := ToBigEndian(n, 2) + rest;
    assert arr[..2] == ToBigEndian(n, 2);
    BigEndianRoundTrip(n, 2);
  }
}
