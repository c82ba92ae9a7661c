/**
 * `compare_files`: the built ROM against the original, byte by byte.
 */
module RomCompare {
  import opened Bytes
  import opened Numerals
  import opened Arithmetic

  /** The verdict: identical, of different sizes, or the first byte that differs. */
  datatype Comparison =
    | Identical
    | SizeMismatch(size1: nat, size2: nat)
    | Difference(offset: nat, byte1: byte, byte2: byte)
  {
    /** The boolean half of the script's result. */
    predicate Same()
    {
      Identical?
    }
  }

  /**
   * `compare_files`: sizes first, then equality, then a scan for the first
   * offset where the bytes differ. The scan cannot run off the end, so its
   * fall-through verdict is never reached.
   */
  method CompareFiles(data1: seq<byte>, data2: seq<byte>) returns (r: Comparison)
    ensures r.Same() <==> data1 == data2
    ensures |data1| != |data2| <==> r.SizeMismatch?
    ensures r.SizeMismatch? ==> r == SizeMismatch(|data1|, |data2|)
    ensures r.Difference? ==>
              && r.offset < |data1| == |data2|
              && data1[..r.offset] == data2[..r.offset]
              && r.byte1 == data1[r.offset] && r.byte2 == data2[r.offset]
              && r.byte1 != r.byte2
  {
    if |data1| != |data2| {
      return SizeMismatch(|data1|, |data2|);
    }
    if data1 == data2 {
      return Identical;
    }
    var i := 0;
    while i < |data1|
      invariant i <= |data1|
      invariant data1[..i] == data2[..i]
    {
      if data1[i] != data2[i] {
        return Difference(i, data1[i], data2[i]);
      }
      assert data1[..i + 1] == data1[..i] + [data1[i]];
      assert data2[..i + 1] == data2[..i] + [data2[i]];
      i := i + 1;
    }
    assert false;
    return Identical;
  }

  /** `n` in upper-case hex, zero-padded to at least `width` digits: `f"{n:0<width>X}"`. */
  function HexPadded(n: nat, width: nat): (s: string)
    ensures |s| == Max(width, |Hex(n)|) && AllDigitsIn(s, 16)
    ensures UpperDigits(s)
    ensures DigitsValue(s, 16) == n
  {
    var h := Hex(n);
    if |h| >= width then h else LeadingZeros(h, width - |h|)
  }

  /** `k` zeros in front of a digit string: the same value. */
  function LeadingZeros(h: string, k: nat): (s: string)
    requires AllDigitsIn(h, 16)
    ensures |s| == |h| + k && AllDigitsIn(s, 16)
    ensures DigitsValue(s, 16) == DigitsValue(h, 16)
    ensures UpperDigits(h) ==> UpperDigits(s)
    decreases k
  {
    if k == 0 then h
    else
      var t := LeadingZeros(h, k - 1);
      ZeroFirst(t);
      ['0'] + t
  }

  /** A leading zero does not change a digit string's value. */
  lemma {:induction false} ZeroFirst(t: string)
    requires AllDigitsIn(t, 16)
    ensures AllDigitsIn(['0'] + t, 16)
    ensures DigitsValue(['0'] + t, 16) == DigitsValue(t, 16)
    decreases |t|
  {
    var s := ['0'] + t;
    assert forall i :: 0 <= i < |s| ==> IsDigitIn(s[i], 16) by {
      assert forall i :: 1 <= i < |s| ==> s[i] == t[i - 1];
      assert IsDigitIn('0', 16);
    }
    if t != [] {
      var p := t[..|t| - 1];
      assert s[..|s| - 1] == ['0'] + p;
      ZeroFirst(p);
    } else {
      assert s[..0] == [];
    }
  }

  /** The message of the script's result, as it prints it. */
  function Message(r: Comparison): string
  {
    match r
    case Identical => "Files are identical"
    case SizeMismatch(a, b) => "Size mismatch: " + Decimal(a) + " vs " + Decimal(b) + " bytes"
    case Difference(i, x, y) =>
      "First difference at offset 0x" + Hex(i) + ": 0x" + HexPadded(x, 2) + " vs 0x" + HexPadded(y, 2)
  }

  /** The two bytes of a difference are written as exactly two hex digits each. */
  lemma {:induction false} ByteDigits(b: byte)
    ensures |HexPadded(b, 2)| == 2
  {
    if b >= 16 {
      DivideByBase(b, 16);
      assert Hex(b) == ToDigits(b / 16, 16) + [DigitChar(b % 16)];
    }
  }
}
