/**
 * The tile decompressor: `unpack_tiles` (scripts/split.py) and its older twin
 * `unpack` (unpacker.py). A compressed block starts with a two-byte big-endian
 * declared size; the opcode stream that follows mixes four run-length families
 * with a windowed back-reference. Both Python copies are one decoder here,
 * parameterised by the back-reference distance formula, which is the only place
 * where they differ.
 */
module TileDecoder {
  import opened Results
  import opened Bytes
  import opened Arithmetic

  /** The back-reference distance formula of each copy of the decoder. */
  datatype Formula =
    | HighLow   // scripts/split.py: the opcode is the high byte, the operand the low byte
    | SumShift  // unpacker.py: opcode and operand are added before the shift

  /**
   * An opcode family with the `cnt` the source derives from the control byte.
   * Every family's loop runs `cnt + 1` times.
   */
  datatype Opcode =
    | BackRef(cnt: nat)         // control byte >= 0x80
    | AlternatingRun(cnt: nat)  // top three bits 011
    | ByteRun(cnt: nat)         // top three bits 001
    | PatternRun(cnt: nat)      // top three bits 010
    | Literal(cnt: nat)         // top three bits 000

  /** Why a block could not be decoded. Positions are offsets into the block. */
  datatype DecodeError =
    | Truncated(at: nat)  // a byte was read at `at`, past the end of the block
    | BadDistance(at: nat, distance: nat, available: nat)  // back-reference before the start of the output

  /**
   * The decoder's loop state: the cursor `idx`, the counter `written` the source
   * keeps beside the output (`idx_res`), and the output itself.
   */
  datatype State = State(idx: nat, written: nat, out: seq<byte>)

  /**
   * The source's nested bit tests (bit 7, then bit 5, then bit 6) select the
   * family by the top three bits of the control byte.
   */
  function Classify(b: byte): (op: Opcode)
    ensures op.BackRef? <==> b >= 0x80
    ensures op.AlternatingRun? <==> b / 32 == 3
    ensures op.ByteRun? <==> b / 32 == 1
    ensures op.PatternRun? <==> b / 32 == 2
    ensures op.Literal? <==> b / 32 == 0
    ensures op.Literal? ==> op.cnt <= 31
    ensures !op.Literal? ==> 1 <= op.cnt <= 32
  {
    if b >= 0x80 then BackRef((b / 4) % 32 + 1)        // ((b >> 2) & 0x1F) + 1
    else if (b / 32) % 2 != 0 then                      // b & (1 << 5)
      if (b / 64) % 2 != 0 then AlternatingRun(b % 32 + 1)  // b & (1 << 6)
      else ByteRun(b % 32 + 1)
    else if (b / 64) % 2 != 0 then PatternRun(b % 32 + 1)
    else Literal(b % 32)
  }

  /** The back-reference distance, 16-bit masking included, as each copy computes it. */
  function Distance(f: Formula, b: byte, s: byte): (d: nat)
    ensures 1 <= d <= 1024
  {
    match f
    case HighLow => ((b * 256) % 0x10000 + s) % 0x400 + 1
    case SumShift => (((b + s) * 256) % 0x10000) % 0x400 + 1
  }

  /** Input bytes one opcode occupies, the control byte included. */
  function Advance(b: byte): nat
  {
    match Classify(b)
    case BackRef(_) => 2
    case AlternatingRun(cnt) => cnt + 3
    case ByteRun(_) => 2
    case PatternRun(_) => 3
    case Literal(cnt) => cnt + 2
  }

  /** Output bytes one opcode appends. */
  function Emits(b: byte): nat
  {
    match Classify(b)
    case BackRef(cnt) => cnt + 1
    case AlternatingRun(cnt) => 2 * (cnt + 1)
    case ByteRun(cnt) => cnt + 1
    case PatternRun(cnt) => 2 * (cnt + 1)
    case Literal(cnt) => cnt + 1
  }

  /** Subtracting one period leaves the remainder unchanged. */
  lemma {:induction false} ModMinusPeriod(j: nat, d: nat)
    requires 1 <= d <= j
    ensures j % d == (j - d) % d
  {
    var q := (j - d) / d;
    assert j - d == d * q + (j - d) % d;
    assert j == d * (q + 1) + (j - d) % d;
    ModUnique(j, d, q + 1, (j - d) % d);
  }

  /**
   * The periodic extension of the window `out[src..]`: position `j` past the
   * end of `out` repeats the window with period `|out| - src`.
   */
  function Periodic(out: seq<byte>, src: nat, j: nat): byte
    requires src < |out|
    decreases j
  {
    if j < |out| - src then out[src + j] else Periodic(out, src, j - (|out| - src))
  }

  /** Position `j` of the periodic extension is window byte `j % period`. */
  lemma {:induction false} PeriodicIndex(out: seq<byte>, src: nat, d: nat, j: nat)
    requires src < |out| && d == |out| - src
    ensures Periodic(out, src, j) == out[src + j % d]
    decreases j
  {
    if j < d {
      ModUnique(j, d, 0, j);
    } else {
      ModMinusPeriod(j, d);
      PeriodicIndex(out, src, d, j - d);
    }
  }

  /**
   * Periodic extension is unchanged by first appending the window's first
   * byte and starting the window one later: the byte-at-a-time copy and the
   * periodic extension describe the same output.
   */
  lemma {:induction false} PeriodicShift(out: seq<byte>, src: nat, j: nat)
    requires src < |out| && 1 <= j
    ensures Periodic(out + [out[src]], src + 1, j - 1) == Periodic(out, src, j)
    decreases j
  {
    var d := |out| - src;
    var out' := out + [out[src]];
    if j - 1 < d {
      assert Periodic(out', src + 1, j - 1) == out'[src + j];
      if j == d {
        assert Periodic(out, src, j) == Periodic(out, src, 0);
      }
    } else {
      PeriodicShift(out, src, j - d);
    }
  }

  /**
   * Appends `n` bytes read one at a time from position `src` onwards, each read
   * happening after the previous append, so the copy may read bytes it has just
   * written itself. The appended bytes are the periodic extension of the
   * window `out[src..]`.
   */
  function CopyFrom(out: seq<byte>, src: nat, n: nat): (r: seq<byte>)
    requires src < |out|
    ensures |r| == |out| + n
    ensures r[..|out|] == out
    ensures forall i :: |out| <= i < |r| ==> r[i] == Periodic(out, src, i - |out|)
    decreases n
  {
    if n == 0 then out
    else
      var out' := out + [out[src]];
      var r := CopyFrom(out', src + 1, n - 1);
      assert r[|out|] == Periodic(out, src, 0);
      assert forall i :: |out| < i < |r| ==> r[i] == Periodic(out, src, i - |out|) by {
        forall i | |out| < i < |r|
          ensures r[i] == Periodic(out, src, i - |out|)
        {
          PeriodicShift(out, src, i - |out|);
        }
      }
      r
  }

  /** From index `n` on, `r` is the fixed byte `z` before each byte of `xs` in turn. */
  predicate AlternatesFrom(r: seq<byte>, n: nat, z: byte, xs: seq<byte>)
    requires n <= |r| && |r| - n == |xs| + |xs|
  {
    forall i :: n <= i < |r| ==> r[i] == if (i - n) % 2 == 0 then z else xs[(i - n) / 2]
  }

  /** The alternating run's output: the fixed byte `z` before each fresh byte. */
  function Alternate(z: byte, xs: seq<byte>): (r: seq<byte>)
    ensures |r| == 2 * |xs|
    ensures AlternatesFrom(r, 0, z, xs)
  {
    if xs == [] then []
    else
      var rest := Alternate(z, xs[1..]);
      var r := [z, xs[0]] + rest;
      assert forall i :: 2 <= i < |r| ==> r[i] == rest[i - 2] && (i - 2) % 2 == i % 2 && (i - 2) / 2 + 1 == i / 2;
      r
  }

  /** Appending an alternation to `out` keeps `out` and alternates after it. */
  lemma {:induction false} AppendedAlternate(out: seq<byte>, z: byte, xs: seq<byte>)
    ensures var r := out + Alternate(z, xs);
      r[..|out|] == out && AlternatesFrom(r, |out|, z, xs)
  {
    var a := Alternate(z, xs);
    var r := out + a;
    assert r[..|out|] == out;
    forall i | |out| <= i < |r|
      ensures r[i] == if (i - |out|) % 2 == 0 then z else xs[(i - |out|) / 2]
    {
      assert r[i] == a[i - |out|];
    }
  }

  /** The pattern run's output: the pair `s1 s2`, `n` times. */
  function FillPair(s1: byte, s2: byte, n: nat): (r: seq<byte>)
    ensures |r| == 2 * n
    ensures forall i :: 0 <= i < |r| ==> r[i] == if i % 2 == 0 then s1 else s2
  {
    if n == 0 then []
    else
      var rest := FillPair(s1, s2, n - 1);
      var r := [s1, s2] + rest;
      assert forall i :: 2 <= i < |r| ==> r[i] == rest[i - 2] && (i - 2) % 2 == i % 2;
      r
  }

  /**
   * A back-reference at the cursor: the operand byte, then `cnt + 1` bytes
   * copied from `distance` bytes back. A distance reaching before the start
   * of the output is an error.
   */
  function BackRefOp(f: Formula, arr: seq<byte>, st: State, cnt: nat): (r: Result<State, DecodeError>)
    requires st.idx < |arr| && st.written == |st.out|
    ensures r.Ok? <==> st.idx + 1 < |arr| && Distance(f, arr[st.idx], arr[st.idx + 1]) <= |st.out|
    ensures r.Ok? ==> r.value == CopyBack(st, Distance(f, arr[st.idx], arr[st.idx + 1]), cnt)
    ensures r.Err? && r.error.Truncated? ==> r.error.at == |arr|
    ensures r.Err? && r.error.BadDistance? ==>
      r.error.at == st.idx && r.error.distance > r.error.available == |st.out|
  {
    var c := st.idx;
    if c + 1 == |arr| then Err(Truncated(|arr|))
    else
      var d := Distance(f, arr[c], arr[c + 1]);
      if d > st.written then Err(BadDistance(c, d, st.written))
      else Ok(CopyBack(st, d, cnt))
  }

  /** The state after a back-reference of distance `d` whose operand byte was read. */
  function CopyBack(st: State, d: nat, cnt: nat): (r: State)
    requires 1 <= d <= |st.out| == st.written
    ensures r.idx == st.idx + 2
    ensures r.written == |r.out| == |st.out| + cnt + 1
    ensures r.out[..|st.out|] == st.out
    ensures forall i :: |st.out| <= i < |r.out| ==> r.out[i] == Periodic(st.out, |st.out| - d, i - |st.out|)
  {
    State(st.idx + 2, st.written + (cnt + 1), CopyFrom(st.out, |st.out| - d, cnt + 1))
  }

  /** Python's `s[i]`: a negative index counts from the end, one out of range raises. */
  function PyIndex(s: seq<byte>, i: int): Option<byte>
  {
    if 0 <= i < |s| then Some(s[i])
    else if -|s| <= i < 0 then Some(s[|s| + i])
    else None
  }

  /**
   * The copy loop of a back-reference as the source writes it: `n` times,
   * read `res[idx_window]`, append it and step the window, with nothing to
   * stop the window index from being negative.
   */
  function PyCopyFrom(out: seq<byte>, w: int, n: nat): (r: Option<seq<byte>>)
    decreases n
  {
    if n == 0 then Some(out)
    else
      match PyIndex(out, w)
      case None => None
      case Some(x) => PyCopyFrom(out + [x], w + 1, n - 1)
  }

  /** A window that starts inside the output copies what `CopyFrom` copies. */
  lemma {:induction false} PyCopyAgrees(out: seq<byte>, src: nat, n: nat)
    requires src < |out|
    ensures PyCopyFrom(out, src, n) == Some(CopyFrom(out, src, n))
    decreases n
  {
    if n > 0 {
      PyCopyAgrees(out + [out[src]], src + 1, n - 1);
    }
  }

  /**
   * A window that starts no further back than the length of the output never
   * raises: Python wraps it around to the end of the output, which grows as
   * fast as the window moves.
   */
  lemma {:induction false} PyCopyWraps(out: seq<byte>, w: int, n: nat)
    requires -|out| <= w < |out|
    ensures PyCopyFrom(out, w, n).Some? && |PyCopyFrom(out, w, n).value| == |out| + n
    decreases n
  {
    if n > 0 {
      var x := PyIndex(out, w).value;
      PyCopyWraps(out + [x], w + 1, n - 1);
    }
  }

  /**
   * The back-reference as the source writes it: the distance is not checked,
   * a window before the start of the output reads from its end, and only a
   * read outside Python's index range fails, reported as `BadDistance`.
   */
  function BackRefAsWritten(f: Formula, arr: seq<byte>, st: State, cnt: nat): (r: Result<State, DecodeError>)
    requires st.idx < |arr| && st.written == |st.out|
  {
    var c := st.idx;
    if c + 1 == |arr| then Err(Truncated(|arr|))
    else
      var d := Distance(f, arr[c], arr[c + 1]);
      match PyCopyFrom(st.out, st.written - d, cnt + 1)
      case None => Err(BadDistance(c, d, st.written))
      case Some(out) => Ok(State(c + 2, st.written + (cnt + 1), out))
  }

  /** Where the distance stays within the output, the source's back-reference is `BackRefOp`. */
  lemma {:induction false} BackRefAgrees(f: Formula, arr: seq<byte>, st: State, cnt: nat)
    requires st.idx < |arr| && st.written == |st.out|
    requires st.idx + 1 < |arr| ==> Distance(f, arr[st.idx], arr[st.idx + 1]) <= |st.out|
    ensures BackRefAsWritten(f, arr, st, cnt) == BackRefOp(f, arr, st, cnt)
  {
    var c := st.idx;
    if c + 1 < |arr| {
      var d := Distance(f, arr[c], arr[c + 1]);
      PyCopyAgrees(st.out, |st.out| - d, cnt + 1);
    }
  }

  /**
   * A distance past the start of the output but within twice its length
   * decodes in the source, from bytes wrapped around from the end, where
   * `BackRefOp` reports `BadDistance`.
   */
  lemma {:induction false} BackRefWrapsAround(f: Formula, arr: seq<byte>, st: State, cnt: nat)
    requires st.idx + 1 < |arr| && st.written == |st.out|
    requires |st.out| < Distance(f, arr[st.idx], arr[st.idx + 1]) <= 2 * |st.out|
    ensures BackRefAsWritten(f, arr, st, cnt).Ok?
    ensures BackRefOp(f, arr, st, cnt).Err? && BackRefOp(f, arr, st, cnt).error.BadDistance?
  {
    var d := Distance(f, arr[st.idx], arr[st.idx + 1]);
    PyCopyWraps(st.out, st.written - d, cnt + 1);
  }

  /**
   * Control byte 0x80 with operand 4 after the output `[1, 2, 3]`: distance 5
   * and two bytes to copy, `res[-2]` and then `res[-1]`, both 2.
   */
  lemma {:induction false} BackRefWrapExample()
    ensures Classify(0x80) == BackRef(1) && Distance(HighLow, 0x80, 4) == 5
    ensures BackRefAsWritten(HighLow, [0x80, 4], State(0, 3, [1, 2, 3]), 1) == Ok(State(2, 5, [1, 2, 3, 2, 2]))
    ensures BackRefOp(HighLow, [0x80, 4], State(0, 3, [1, 2, 3]), 1) == Err(BadDistance(0, 5, 3))
  {
    assert PyIndex([1, 2, 3], -2) == Some(2);
    assert PyIndex([1, 2, 3, 2], -1) == Some(2);
    assert [1, 2, 3] + [2] == [1, 2, 3, 2];
    assert [1, 2, 3, 2] + [2] == [1, 2, 3, 2, 2];
    assert PyCopyFrom([1, 2, 3, 2, 2], 0, 0) == Some([1, 2, 3, 2, 2]);
    assert PyCopyFrom([1, 2, 3, 2], -1, 1) == Some([1, 2, 3, 2, 2]);
    assert PyCopyFrom([1, 2, 3], -2, 2) == Some([1, 2, 3, 2, 2]);
  }

  /** An alternating run at the cursor: a fixed byte, then `cnt + 1` fresh bytes, each preceded by it. */
  function AlternatingOp(arr: seq<byte>, st: State, cnt: nat): (r: Result<State, DecodeError>)
    requires st.idx < |arr| && st.written == |st.out|
    ensures r.Ok? <==> st.idx + cnt + 2 < |arr|
    ensures r.Ok? ==> r.value == Alternated(arr, st, cnt)
    ensures r.Err? ==> r.error == Truncated(|arr|)
  {
    if st.idx + cnt + 2 >= |arr| then Err(Truncated(|arr|))
    else Ok(Alternated(arr, st, cnt))
  }

  /** The state after an alternating run that fits in the block. */
  function Alternated(arr: seq<byte>, st: State, cnt: nat): (r: State)
    requires st.idx + cnt + 2 < |arr| && st.written == |st.out|
    ensures r.idx == st.idx + cnt + 3 && r.written == |r.out| == |st.out| + 2 * (cnt + 1)
    ensures r.out[..|st.out|] == st.out
    ensures AlternatesFrom(r.out, |st.out|, arr[st.idx + 1], arr[st.idx + 2 .. st.idx + cnt + 3])
  {
    var xs := arr[st.idx + 2 .. st.idx + cnt + 3];
    AppendedAlternate(st.out, arr[st.idx + 1], xs);
    State(st.idx + cnt + 3, st.written + 2 * (cnt + 1), st.out + Alternate(arr[st.idx + 1], xs))
  }

  /** A byte run at the cursor: one operand byte, repeated `cnt + 1` times. */
  function ByteRunOp(arr: seq<byte>, st: State, cnt: nat): (r: Result<State, DecodeError>)
    requires st.idx < |arr| && st.written == |st.out|
    ensures r.Ok? <==> st.idx + 1 < |arr|
    ensures r.Ok? ==> r.value.idx == st.idx + 2 <= |arr|
    ensures r.Ok? ==> r.value.written == |r.value.out| == |st.out| + cnt + 1
    ensures r.Ok? ==> r.value.out[..|st.out|] == st.out
    ensures r.Ok? ==> forall i :: |st.out| <= i < |r.value.out| ==> r.value.out[i] == arr[st.idx + 1]
    ensures r.Err? ==> r.error == Truncated(|arr|)
  {
    var c := st.idx;
    if c + 1 == |arr| then Err(Truncated(|arr|))
    else
      var run := Fill(arr[c + 1], cnt + 1);
      var out := st.out + run;
      assert forall i :: |st.out| <= i < |out| ==> out[i] == run[i - |st.out|];
      Ok(State(c + 2, st.written + (cnt + 1), out))
  }

  /** A pattern run at the cursor: two operand bytes, the pair repeated `cnt + 1` times. */
  function PatternOp(arr: seq<byte>, st: State, cnt: nat): (r: Result<State, DecodeError>)
    requires st.idx < |arr| && st.written == |st.out|
    ensures r.Ok? <==> st.idx + 2 < |arr|
    ensures r.Ok? ==> r.value.idx == st.idx + 3 <= |arr|
    ensures r.Ok? ==> r.value.written == |r.value.out| == |st.out| + 2 * (cnt + 1)
    ensures r.Ok? ==> r.value.out[..|st.out|] == st.out
    ensures r.Ok? ==> forall i :: |st.out| <= i < |r.value.out| ==>
      r.value.out[i] == if (i - |st.out|) % 2 == 0 then arr[st.idx + 1] else arr[st.idx + 2]
    ensures r.Err? ==> r.error == Truncated(|arr|)
  {
    var c := st.idx;
    if c + 2 >= |arr| then Err(Truncated(|arr|))
    else
      var run := FillPair(arr[c + 1], arr[c + 2], cnt + 1);
      var out := st.out + run;
      assert forall i :: |st.out| <= i < |out| ==> out[i] == run[i - |st.out|];
      Ok(State(c + 3, st.written + 2 * (cnt + 1), out))
  }

  /** A literal run at the cursor: the next `cnt + 1` bytes, copied as they are. */
  function LiteralOp(arr: seq<byte>, st: State, cnt: nat): (r: Result<State, DecodeError>)
    requires st.idx < |arr| && st.written == |st.out|
    ensures r.Ok? <==> st.idx + cnt + 1 < |arr|
    ensures r.Ok? ==> r.value.idx == st.idx + cnt + 2 <= |arr|
    ensures r.Ok? ==> r.value.written == |r.value.out| == |st.out| + cnt + 1
    ensures r.Ok? ==> r.value.out[..|st.out|] == st.out
    ensures r.Ok? ==> forall i :: |st.out| <= i < |r.value.out| ==> r.value.out[i] == arr[st.idx + 1 + (i - |st.out|)]
    ensures r.Err? ==> r.error == Truncated(|arr|)
  {
    var c := st.idx;
    if c + cnt + 1 >= |arr| then Err(Truncated(|arr|))
    else Ok(State(c + cnt + 2, st.written + (cnt + 1), st.out + arr[c + 1 .. c + cnt + 2]))
  }

  /**
   * One iteration of the decode loop: read the control byte at the cursor,
   * read its operands, append its output and move the cursor past it. Reading
   * a byte past the end of the block is an error, as Python's IndexError is.
   */
  function Step(f: Formula, arr: seq<byte>, st: State): (r: Result<State, DecodeError>)
    requires st.idx <= |arr|
    requires st.written == |st.out|
    ensures r.Ok? ==> st.idx < |arr| && r.value.idx == st.idx + Advance(arr[st.idx])
    ensures r.Ok? ==> st.idx + 2 <= r.value.idx <= |arr|
    ensures r.Ok? ==> r.value.written == |r.value.out|
    ensures r.Ok? ==> |r.value.out| == |st.out| + Emits(arr[st.idx])
    ensures r.Ok? ==> r.value.out[..|st.out|] == st.out
    ensures r.Err? && r.error.Truncated? ==> r.error.at == |arr|
    ensures r.Err? && r.error.BadDistance? ==>
      r.error.at == st.idx && r.error.distance > r.error.available == |st.out|
  {
    if st.idx == |arr| then Err(Truncated(|arr|))
    else
      match Classify(arr[st.idx])
      case BackRef(cnt) => BackRefOp(f, arr, st, cnt)
      case AlternatingRun(cnt) => AlternatingOp(arr, st, cnt)
      case ByteRun(cnt) => ByteRunOp(arr, st, cnt)
      case PatternRun(cnt) => PatternOp(arr, st, cnt)
      case Literal(cnt) => LiteralOp(arr, st, cnt)
  }

  /**
   * The decode loop: runs while the cursor is within the declared size and
   * `idx <= len(arr)`. With that guard a cursor equal to the block length
   * still enters the loop and fails reading the control byte, so a declared
   * size that reaches the end of the block always ends in an error.
   */
  function Run(f: Formula, arr: seq<byte>, size: nat, st: State): (r: Result<seq<byte>, DecodeError>)
    requires st.idx <= |arr|
    requires st.written == |st.out|
    ensures r.Ok? ==> |st.out| <= |r.value| && r.value[..|st.out|] == st.out
    ensures r.Err? && r.error.Truncated? ==> r.error.at == |arr|
    ensures size >= |arr| ==> r.Err?
    decreases |arr| - st.idx
  {
    if st.idx <= size && st.idx <= |arr| then
      match Step(f, arr, st)
      case Err(e) => Err(e)
      case Ok(next) => Run(f, arr, size, next)
    else Ok(st.out)
  }

  /** The declared size: the block's first two bytes, big-endian. */
  function DeclaredSize(arr: seq<byte>): (n: nat)
    requires |arr| >= 2
    ensures n == FromBigEndian(arr[..2])
  {
    TwoByteValue(arr[0], arr[1]);
    assert arr[..2] == [arr[0], arr[1]];
    arr[0] as int * 0x100 + arr[1] as int
  }

  /** Decodes one block: size header, then the loop from cursor 2 with empty output. */
  function Decode(f: Formula, arr: seq<byte>): (r: Result<seq<byte>, DecodeError>)
    ensures |arr| < 2 ==> r == Err(Truncated(|arr|))
    ensures |arr| >= 2 && DeclaredSize(arr) >= |arr| ==> r.Err?
    ensures r.Err? && r.error.Truncated? ==> r.error.at == |arr|
  {
    if |arr| < 2 then Err(Truncated(|arr|))
    else Run(f, arr, DeclaredSize(arr), State(2, 0, []))
  }

  /** The block at `addr`: Python's `data[addr:]`, empty past the end of the ROM. */
  function Block(rom: seq<byte>, addr: nat): seq<byte>
  {
    if addr <= |rom| then rom[addr..] else []
  }

  /** `unpack_tiles` in scripts/split.py, without writing the tile file. */
  function UnpackTiles(rom: seq<byte>, addr: nat): (r: Result<seq<byte>, DecodeError>)
    ensures addr <= |rom| ==> r == Decode(HighLow, rom[addr..])
    ensures addr + 2 > |rom| ==> r.Err? && r.error.Truncated?
  {
    Decode(HighLow, Block(rom, addr))
  }

  /** `unpack` in unpacker.py, without writing the tile file. */
  function Unpack(rom: seq<byte>, addr: nat): (r: Result<seq<byte>, DecodeError>)
    ensures addr <= |rom| ==> r == Decode(SumShift, rom[addr..])
    ensures addr + 2 > |rom| ==> r.Err? && r.error.Truncated?
  {
    Decode(SumShift, Block(rom, addr))
  }
}
