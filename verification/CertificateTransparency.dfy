/**
 * Signed certificate timestamps and log keys (src/util/certificate-transparency.ts): the SCT and SCT
 * list encodings of section 3 of RFC 6962, read back by parsers written from it, and the derivation of
 * a P-256 private scalar. Signing and hashing are outside this model: signatures are just bytes.
 */
module CertificateTransparency {
  import opened Prelude
  import opened Text
  import opened BigEndian
  import opened Der

  // ---- Writing ---------------------------------------------------------------------------------

  datatype WriteError = OutOfRange(value: nat)

  /** Buffer.writeUInt16BE, which throws on values it cannot hold. */
  function WriteUint16(n: nat): Result<Bytes, WriteError> {
    if n < 0x10000 then Ok(ToBytes(n, 2)) else Err(OutOfRange(n))
  }

  datatype Sct = Sct(logId: Bytes, timestamp: nat, signature: Bytes) {
    predicate Valid() { |logId| == 32 && timestamp < Pow256(8) }
  }

  /** The serialized SCT, given that its signature's length can be written. */
  function SerializeSct(s: Sct): Result<Bytes, WriteError> {
    match WriteUint16(|s.signature|)
    case Err(e) => Err(e)
    case Ok(length) =>
      Ok([0x00] + s.logId + ToBytes(s.timestamp, 8) + [0x00, 0x00] + [0x04] + [0x03] + length + s.signature)
  }

  /** Each SCT with its length before it. */
  function FrameAll(scts: seq<Bytes>): Result<Bytes, WriteError> {
    if scts == [] then Ok([])
    else
      match WriteUint16(|scts[0]|)
      case Err(e) => Err(e)
      case Ok(length) =>
        match FrameAll(scts[1..])
        case Err(e) => Err(e)
        case Ok(rest) => Ok(length + scts[0] + rest)
  }

  /** The SignedCertificateTimestampList. */
  function FrameList(scts: seq<Bytes>): Result<Bytes, WriteError> {
    match FrameAll(scts)
    case Err(e) => Err(e)
    case Ok(all) =>
      match WriteUint16(|all|)
      case Err(e) => Err(e)
      case Ok(length) => Ok(length + all)
  }

  // ---- Reading, from RFC 6962 sections 3.2 and 3.3 ---------------------------------------------

  function ParseSct(b: Bytes): Option<Sct> {
    if |b| < 47 || b[0] != 0 || b[41..43] != [0, 0] || b[43] != 4 || b[44] != 3 then None
    else if Value(b[45..47]) != |b| - 47 then None
    else Some(Sct(b[1..33], Value(b[33..41]), b[47..]))
  }

  function ParseAll(b: Bytes): Option<seq<Bytes>>
    decreases |b|
  {
    if b == [] then Some([])
    else if |b| < 2 then None
    else
      var length := Value(b[..2]);
      if |b| < 2 + length then None
      else
        match ParseAll(b[2 + length..])
        case None => None
        case Some(rest) => Some([b[2..2 + length]] + rest)
  }

  function ParseList(b: Bytes): Option<seq<Bytes>> {
    if |b| < 2 || Value(b[..2]) != |b| - 2 then None else ParseAll(b[2..])
  }

  // ---- Inverses --------------------------------------------------------------------------------

  function FramedSize(scts: seq<Bytes>): nat { if scts == [] then 0 else 2 + |scts[0]| + FramedSize(scts[1..]) }

  predicate Fits(scts: seq<Bytes>) {
    (forall i :: 0 <= i < |scts| ==> |scts[i]| < 0x10000) && FramedSize(scts) < 0x10000
  }

  lemma TwoBytesHold(n: nat)
    requires n < 0x10000
    ensures Value(ToBytes(n, 2)) == n
  {
    assert Pow256(2) == 0x1_0000;
    ToBytesHasValue(n, 2);
  }

  lemma {:induction false} FrameAllComesBack(scts: seq<Bytes>)
    ensures FrameAll(scts).Ok? <==> forall i :: 0 <= i < |scts| ==> |scts[i]| < 0x10000
    ensures FrameAll(scts).Ok? ==>
      |FrameAll(scts).value| == FramedSize(scts) && ParseAll(FrameAll(scts).value) == Some(scts)
    decreases |scts|
  {
    hide Value, ToBytes;
    if scts != [] {
      FrameAllComesBack(scts[1..]);
      assert forall i :: 1 <= i < |scts| ==> scts[i] == scts[1..][i - 1];
      if FrameAll(scts).Ok? {
        var b, length := FrameAll(scts).value, |scts[0]|;
        TwoBytesHold(length);
        assert b[..2] == ToBytes(length, 2) && b[2..2 + length] == scts[0];
        assert b[2 + length..] == FrameAll(scts[1..]).value;
        assert [scts[0]] + scts[1..] == scts;
      }
    }
  }

  /** The list parses back to exactly the SCTs; writing it fails exactly when a 16-bit length overflows. */
  lemma ListComesBackIffItFits(scts: seq<Bytes>)
    ensures FrameList(scts).Ok? <==> Fits(scts)
    ensures FrameList(scts).Ok? ==> ParseList(FrameList(scts).value) == Some(scts)
  {
    hide Value, ToBytes, ParseAll, FrameAll;
    FrameAllComesBack(scts);
    SizeBoundsEach(scts);
    if Fits(scts) {
      var all, b := FrameAll(scts).value, FrameList(scts).value;
      TwoBytesHold(|all|);
      assert b[..2] == ToBytes(|all|, 2) && b[2..] == all;
    }
  }

  lemma {:induction false} SizeBoundsEach(scts: seq<Bytes>)
    ensures forall i :: 0 <= i < |scts| ==> |scts[i]| < FramedSize(scts)
    decreases |scts|
  {
    if scts != [] {
      SizeBoundsEach(scts[1..]);
      assert forall i :: 1 <= i < |scts| ==> scts[i] == scts[1..][i - 1];
    }
  }

  /** An SCT parses back to its fields; serializing fails exactly when the signature is too long. */
  lemma SctComesBack(s: Sct)
    requires s.Valid()
    ensures SerializeSct(s).Ok? <==> |s.signature| < 0x10000
    ensures SerializeSct(s).Ok? ==>
      |SerializeSct(s).value| == 47 + |s.signature| && ParseSct(SerializeSct(s).value) == Some(s)
  {
    hide Value, ToBytes, Pow256;
    if |s.signature| < 0x10000 {
      var b := SerializeSct(s).value;
      TwoBytesHold(|s.signature|);
      ToBytesHasValue(s.timestamp, 8);
      assert b[0] == 0 && b[1..33] == s.logId;
      assert b[33..41] == ToBytes(s.timestamp, 8);
      assert b[41..43] == [0, 0] && b[43] == 4 && b[44] == 3;
      assert b[45..47] == ToBytes(|s.signature|, 2) && b[47..] == s.signature;
    }
  }

  /** With DER signatures of P-256 (at most 72 bytes) the two operators' list never overflows. */
  lemma P256ListNeverOverflows(a: Sct, b: Sct)
    requires a.Valid() && b.Valid() && |a.signature| <= 72 && |b.signature| <= 72
    ensures SerializeSct(a).Ok? && SerializeSct(b).Ok?
    ensures var list := FrameList([SerializeSct(a).value, SerializeSct(b).value]);
      list.Ok? && |list.value| <= 244
      && ParseList(list.value) == Some([SerializeSct(a).value, SerializeSct(b).value])
  {
    SctComesBack(a);
    SctComesBack(b);
    var scts := [SerializeSct(a).value, SerializeSct(b).value];
    SizeOfTwo(scts);
    ListComesBackIffItFits(scts);
    FrameAllComesBack(scts);
  }

  lemma SizeOfTwo(scts: seq<Bytes>)
    requires |scts| == 2
    ensures FramedSize(scts) == 4 + |scts[0]| + |scts[1]|
  {
    assert scts[1..][1..] == [] && FramedSize(scts[1..]) == 2 + |scts[1]| + FramedSize([]);
  }

  // ---- The private scalar ----------------------------------------------------------------------

  const P256_ORDER: nat := 0xFFFFFFFF00000000FFFFFFFFFFFFFFFFBCE6FAADA7179E84F3B9CAC2FC632551

  /** In range, and the value itself or the value less the order, except that zero becomes one. */
  predicate IsScalarOf(scalar: nat, value: nat) {
    && 1 <= scalar < P256_ORDER
    && if value == 0 || value == P256_ORDER then scalar == 1 else scalar == value || scalar + P256_ORDER == value
  }

  /** That determines the scalar: it is the value modulo the order, with one in place of zero. */
  lemma ScalarIsResidue(scalar: nat, value: nat)
    requires IsScalarOf(scalar, value)
    ensures scalar == if value % P256_ORDER == 0 then 1 else value % P256_ORDER
  {
    OneSubtraction(value, P256_ORDER);
  }

  /** buildP256KeyFromScalar up to the PKCS#8 wrapping: reassign, then print, pad and reread as hex. */
  method DeriveScalar(raw: Bytes) returns (scalar: nat, scalarBytes: Bytes)
    requires |raw| == 32
    ensures IsScalarOf(scalar, Value(raw))
    ensures scalarBytes == ToBytes(scalar, 32) && |scalarBytes| == 32 && Value(scalarBytes) == scalar
  {
    hide Pow256, Hex, PadStart, FromHex, HexValue, ToHex, Value, ToBytes;
    ToHexHasValue(raw);
    ValueBound(raw);
    OrderIsAlmostTwoTo256();
    scalar := HexValue(ToHex(raw));
    if scalar >= P256_ORDER {
      scalar := scalar - P256_ORDER;
    }
    if scalar == 0 {
      scalar := 1;
    }
    PaddedHexIsToBytes(scalar, 32);
    ToBytesHasValue(scalar, 32);
    scalarBytes := FromHex(PadStart(Hex(scalar), 64));
  }

  lemma OneSubtraction(value: nat, order: nat)
    requires value < 2 * order
    ensures value % order == if value >= order then value - order else value
  {
  }

  /** One subtraction is enough because 2^256 is less than twice the order. */
  lemma OrderIsAlmostTwoTo256()
    ensures P256_ORDER < Pow256(32) < 2 * P256_ORDER
  {
    assert Pow256(2) == 0x1_0000;
    assert Pow256(4) == 0x1_0000_0000;
    assert Pow256(6) == 0x1_0000_0000_0000;
    assert Pow256(8) == 0x1_0000_0000_0000_0000;
    assert Pow256(10) == 0x1_0000_0000_0000_0000_0000;
    assert Pow256(12) == 0x1_0000_0000_0000_0000_0000_0000;
    assert Pow256(14) == 0x1_0000_0000_0000_0000_0000_0000_0000;
    assert Pow256(16) == 0x1_0000_0000_0000_0000_0000_0000_0000_0000;
    assert Pow256(18) == 0x1_0000_0000_0000_0000_0000_0000_0000_0000_0000;
    assert Pow256(20) == 0x1_0000_0000_0000_0000_0000_0000_0000_0000_0000_0000;
    assert Pow256(22) == 0x1_0000_0000_0000_0000_0000_0000_0000_0000_0000_0000_0000;
    assert Pow256(24) == 0x1_0000_0000_0000_0000_0000_0000_0000_0000_0000_0000_0000_0000;
    assert Pow256(26) == 0x1_0000_0000_0000_0000_0000_0000_0000_0000_0000_0000_0000_0000_0000;
    assert Pow256(28) == 0x1_0000_0000_0000_0000_0000_0000_0000_0000_0000_0000_0000_0000_0000_0000;
    assert Pow256(30) == 0x1_0000_0000_0000_0000_0000_0000_0000_0000_0000_0000_0000_0000_0000_0000_0000;
    assert Pow256(32) == 0x1_0000_0000_0000_0000_0000_0000_0000_0000_0000_0000_0000_0000_0000_0000_0000_0000;
  }

  // ---- The PKCS#8 template ---------------------------------------------------------------------

  const Pkcs8Version: Bytes := [0x02, 0x01, 0x00]
  const Pkcs8Algorithm: Bytes := [0x30, 0x13,
    0x06, 0x07, 0x2a, 0x86, 0x48, 0xce, 0x3d, 0x02, 0x01,
    0x06, 0x08, 0x2a, 0x86, 0x48, 0xce, 0x3d, 0x03, 0x01, 0x07]
  const EcVersion: Bytes := [0x02, 0x01, 0x01]

  /** The template followed by the scalar, in the source's byte order. */
  function Pkcs8(scalar: Bytes): Bytes {
    [0x30, 0x41] + Pkcs8Version + Pkcs8Algorithm + [0x04, 0x27] + [0x30, 0x25] + EcVersion + [0x04, 0x20] + scalar
  }

  /** The constant lengths in the template are right: with 32 bytes it is one well-formed nested DER value. */
  lemma TemplateIsWellFormed(scalar: Bytes)
    requires |scalar| == 32
    ensures Pkcs8(scalar)
         == Tlv(0x30, Pkcs8Version + Pkcs8Algorithm + Tlv(0x04, Tlv(0x30, EcVersion + Tlv(0x04, scalar))))
  {
  }

  /** And so are those inside the constant parts. */
  lemma TemplateConstantsAreWellFormed()
    ensures Pkcs8Algorithm == Tlv(0x30, Tlv(0x06, [0x2a, 0x86, 0x48, 0xce, 0x3d, 0x02, 0x01])
                                        + Tlv(0x06, [0x2a, 0x86, 0x48, 0xce, 0x3d, 0x03, 0x01, 0x07]))
    ensures Pkcs8Version == EncodeInteger([0]) && EcVersion == EncodeInteger([1])
  {
  }
}
