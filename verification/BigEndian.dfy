/** Big-endian byte strings as numbers, in fixed width and as hexadecimal text. */
module BigEndian {
  import opened Prelude
  import opened Text

  function Pow256(k: nat): nat { if k == 0 then 1 else 256 * Pow256(k - 1) }

  /** The unsigned value of a byte string. */
  function Value(b: Bytes): nat {
    if b == [] then 0 else Value(b[..|b| - 1]) * 256 + b[|b| - 1] as int
  }

  /** The k-byte string for a number, more significant bytes first; higher bytes are lost. */
  function ToBytes(n: nat, k: nat): (b: Bytes)
    ensures |b| == k
  {
    if k == 0 then [] else ToBytes(n / 256, k - 1) + [n % 256]
  }

  /** The most significant byte comes first, as on the wire. */
  lemma MostSignificantFirst(high: byte, low: byte)
    ensures Value([high, low]) == 256 * (high as int) + low as int
    ensures ToBytes(256 * (high as int) + low as int, 2) == [high, low]
    ensures ToHex([0x1f, 0x0a]) == "1f0a"
  {
    var one: Bytes := [high];
    var two: Bytes := [high, low];
    assert one[..0] == [] && Value(one) == high;
    assert two[..1] == one && Value(two) == Value(one) * 256 + low;
    ToBytesOfValue(two);
    var b: Bytes := [0x1f, 0x0a];
    assert b[..1] == [0x1f] && b[..1][..0] == [] && ToHex(b[..1]) == "1f";
  }

  lemma {:induction false} ValueBound(b: Bytes)
    ensures Value(b) < Pow256(|b|)
  {
    if b != [] { ValueBound(b[..|b| - 1]); }
  }

  lemma {:induction false} ToBytesHasValue(n: nat, k: nat)
    requires n < Pow256(k)
    ensures Value(ToBytes(n, k)) == n
  {
    if k > 0 {
      ToBytesHasValue(n / 256, k - 1);
      assert ToBytes(n, k)[..k - 1] == ToBytes(n / 256, k - 1);
    }
  }

  lemma {:induction false} ToBytesOfValue(b: Bytes)
    ensures ToBytes(Value(b), |b|) == b
  {
    if b != [] {
      ToBytesOfValue(b[..|b| - 1]);
    }
  }

  lemma {:induction false} LeadingZeroHasNoValue(b: Bytes)
    ensures Value([0] + b) == Value(b)
  {
    if b == [] {
      assert ([0] + b)[..0] == [];
    } else {
      assert ([0] + b)[..|b|] == [0] + b[..|b| - 1];
      LeadingZeroHasNoValue(b[..|b| - 1]);
    }
  }

  // ---- Hexadecimal -----------------------------------------------------------------------------

  /** Buffer.toString('hex'). */
  function ToHex(b: Bytes): (s: string)
    ensures |s| == 2 * |b| && forall i :: 0 <= i < |s| ==> IsHexDigit(s[i])
  {
    if b == [] then []
    else ToHex(b[..|b| - 1]) + [HexDigit(b[|b| - 1] / 16), HexDigit(b[|b| - 1] % 16)]
  }

  /** Buffer.from(s, 'hex') on an even number of hexadecimal digits. */
  function FromHex(s: string): (b: Bytes)
    requires |s| % 2 == 0 && forall i :: 0 <= i < |s| ==> IsHexDigit(s[i])
    ensures |b| == |s| / 2
  {
    if s == [] then []
    else FromHex(s[..|s| - 2]) + [HexDigitValue(s[|s| - 2]) * 16 + HexDigitValue(s[|s| - 1])]
  }

  /** String.prototype.padStart with zeros. */
  function PadStart(s: string, width: nat): (t: string)
    ensures |t| == if |s| < width then width else |s|
    decreases width - |s|
  {
    if |s| < width then PadStart("0" + s, width) else s
  }

  lemma {:induction false} ToHexHasValue(b: Bytes)
    ensures HexValue(ToHex(b)) == Value(b)
  {
    if b != [] {
      var s := ToHex(b);
      ToHexHasValue(b[..|b| - 1]);
      assert s[..|s| - 1][..|s| - 2] == ToHex(b[..|b| - 1]);
      assert HexValue(s[..|s| - 1]) == HexValue(ToHex(b[..|b| - 1])) * 16 + (b[|b| - 1] / 16) as int;
    }
  }

  lemma {:induction false} FromHexHasValue(s: string)
    requires |s| % 2 == 0 && forall i :: 0 <= i < |s| ==> IsHexDigit(s[i])
    ensures Value(FromHex(s)) == HexValue(s)
    decreases |s|
  {
    if s != [] {
      var front, middle := s[..|s| - 2], s[..|s| - 1];
      FromHexHasValue(front);
      assert middle[..|s| - 2] == front;
      assert HexValue(middle) == HexValue(front) * 16 + HexDigitValue(s[|s| - 2]);
      assert HexValue(s) == HexValue(middle) * 16 + HexDigitValue(s[|s| - 1]);
    }
  }

  lemma {:induction false} LeadingZeroHasNoHexValue(s: string)
    requires forall i :: 0 <= i < |s| ==> IsHexDigit(s[i])
    ensures HexValue("0" + s) == HexValue(s)
  {
    if s == [] {
      assert ("0" + s)[..0] == [];
    } else {
      assert ("0" + s)[..|s|] == "0" + s[..|s| - 1];
      LeadingZeroHasNoHexValue(s[..|s| - 1]);
    }
  }

  lemma {:induction false} PadStartKeepsValue(s: string, width: nat)
    requires forall i :: 0 <= i < |s| ==> IsHexDigit(s[i])
    ensures forall i :: 0 <= i < |PadStart(s, width)| ==> IsHexDigit(PadStart(s, width)[i])
    ensures HexValue(PadStart(s, width)) == HexValue(s)
    decreases width - |s|
  {
    if |s| < width {
      LeadingZeroHasNoHexValue(s);
      PadStartKeepsValue("0" + s, width);
    }
  }

  /** A number below 256^k prints as at most 2k hexadecimal digits. */
  lemma {:induction false} HexLength(n: nat, k: nat)
    requires n < Pow256(k) && k > 0
    ensures |Hex(n)| <= 2 * k
  {
    if n >= 256 {
      assert k > 1;
      HexLength(n / 256, k - 1);
      assert n / 16 / 16 == n / 256;
      assert |Hex(n)| == |Hex(n / 256)| + 2;
    }
  }

  /** Printed in hexadecimal, padded to 2k digits and read back as bytes: the k-byte string of n. */
  lemma PaddedHexIsToBytes(n: nat, k: nat)
    requires n < Pow256(k) && k > 0
    ensures var digits := PadStart(Hex(n), 2 * k);
      && |digits| == 2 * k && (forall i :: 0 <= i < |digits| ==> IsHexDigit(digits[i]))
      && FromHex(digits) == ToBytes(n, k)
  {
    hide Value, HexValue, FromHex, ToBytes, PadStart, Hex, IsHexDigit, HexDigitValue, Pow256;
    var digits := PadStart(Hex(n), 2 * k);
    HexLength(n, k);
    PadStartKeepsValue(Hex(n), 2 * k);
    HexHasValue(n);
    FromHexHasValue(digits);
    ToBytesOfValue(FromHex(digits));
  }
}
