/**
 * The DER encoders of src/util/certificate-transparency.ts, against decoders written from X.690
 * (definite lengths 8.1.3 and 10.1, INTEGER 8.3, SEQUENCE 8.9).
 */
module Der {
  import opened Prelude
  import opened BigEndian

  // ---- The encoders ----------------------------------------------------------------------------

  function DerLength(length: nat): Bytes {
    if length < 0x80 then [length]
    else if length < 0x100 then [0x81, length]
    else [0x82, length / 256 % 256, length % 256]
  }

  function Tlv(tag: byte, content: Bytes): Bytes { [tag] + DerLength(|content|) + content }

  /** Drop leading zero bytes, but not the last byte. */
  function Strip(value: Bytes): Bytes {
    if |value| > 1 && value[0] == 0 then Strip(value[1..]) else value
  }

  /** The content octets of derInteger. */
  function IntegerContent(value: Bytes): Bytes {
    var content := Strip(value);
    if content != [] && content[0] >= 0x80 then [0] + content else content
  }

  function EncodeInteger(value: Bytes): Bytes { Tlv(0x02, IntegerContent(value)) }

  method DerInteger(value: Bytes) returns (encoded: Bytes)
    ensures encoded == EncodeInteger(value)
  {
    var start := 0;
    while start < |value| - 1 && value[start] == 0
      invariant 0 <= start <= |value| && Strip(value) == Strip(value[start..])
      decreases |value| - start
    {
      assert value[start..][1..] == value[start + 1..];
      start := start + 1;
    }
    var content := value[start..];
    if content != [] && content[0] >= 0x80 {
      content := [0] + content;
    }
    encoded := [0x02] + DerLength(|content|) + content;
  }

  /** The two INTEGERs of the signature; an odd length rounds down for r. */
  function SignatureBody(raw: Bytes): Bytes {
    EncodeInteger(raw[..|raw| / 2]) + EncodeInteger(raw[|raw| / 2..])
  }

  function RawSignatureToDer(raw: Bytes): Bytes { Tlv(0x30, SignatureBody(raw)) }

  // ---- Decoders, from the standard -------------------------------------------------------------

  datatype Parsed<T> = Parsed(value: T, rest: Bytes)

  /** A definite length in the shortest form. */
  function ParseLength(b: Bytes): Option<Parsed<nat>> {
    if b == [] then None
    else if b[0] < 0x80 then Some(Parsed(b[0] as nat, b[1..]))
    else
      var octets := (b[0] - 0x80) as nat;
      if octets == 0 || octets == 0x7F || |b| < 1 + octets then None
      else
        var length := Value(b[1..1 + octets]);
        if length < 0x80 || b[1] == 0 then None else Some(Parsed(length, b[1 + octets..]))
  }

  function ParseTlv(tag: byte, b: Bytes): Option<Parsed<Bytes>> {
    if b == [] || b[0] != tag then None
    else
      match ParseLength(b[1..])
      case None => None
      case Some(p) => if |p.rest| < p.value then None else Some(Parsed(p.rest[..p.value], p.rest[p.value..]))
  }

  /** Section 8.3.2: not all of the first nine bits are equal. */
  predicate Minimal(content: Bytes) {
    && content != []
    && !(|content| > 1 && content[0] == 0 && content[1] < 0x80)
    && !(|content| > 1 && content[0] == 0xFF && content[1] >= 0x80)
  }

  /** Section 8.3.3: two's complement. */
  function Signed(content: Bytes): int {
    if content != [] && content[0] >= 0x80 then Value(content) - Pow256(|content|) else Value(content)
  }

  function ParseInteger(b: Bytes): Option<Parsed<int>> {
    match ParseTlv(0x02, b)
    case None => None
    case Some(p) => if Minimal(p.value) then Some(Parsed(Signed(p.value), p.rest)) else None
  }

  /** ECDSA-Sig-Value: a SEQUENCE of two INTEGERs and nothing else. */
  function ParseSignature(b: Bytes): Option<(int, int)> {
    match ParseTlv(0x30, b)
    case None => None
    case Some(body) =>
      if body.rest != [] then None
      else
        match ParseInteger(body.value)
        case None => None
        case Some(r) =>
          match ParseInteger(r.rest)
          case None => None
          case Some(s) => if s.rest == [] then Some((r.value, s.value)) else None
  }

  // ---- Inverses --------------------------------------------------------------------------------

  lemma ValueOfOne(a: byte)
    ensures Value([a]) == a as int
  {
  }

  lemma ValueOfTwo(a: byte, b: byte)
    ensures Value([a, b]) == (a as int) * 256 + b as int
  {
    assert [a, b][..1] == [a];
    ValueOfOne(a);
  }

  /** Every length below 65536 is written in the shortest form and read back; no other is. */
  lemma LengthComesBackIff(n: nat, rest: Bytes)
    ensures ParseLength(DerLength(n) + rest) == Some(Parsed(n, rest)) <==> n < 0x10000
  {
    var b := DerLength(n) + rest;
    if n < 0x80 {
      assert b[1..] == rest;
    } else if n < 0x100 {
      assert b[1..2] == [n] && b[2..] == rest;
      ValueOfOne(n);
    } else {
      assert b[1..3] == [n / 256 % 256, n % 256] && b[3..] == rest;
      ValueOfTwo(n / 256 % 256, n % 256);
    }
  }

  /**
   * A value of any length below 65536 is read back; a longer one never is: if its truncated length can be
   * read at all, some of the content is left over.
   */
  lemma TlvComesBackIff(tag: byte, content: Bytes, rest: Bytes)
    ensures var p := ParseTlv(tag, Tlv(tag, content) + rest);
      if |content| < 0x10000 then p == Some(Parsed(content, rest)) else p.Some? ==> |p.value.rest| > |rest|
  {
    hide ParseLength, DerLength;
    var b := Tlv(tag, content) + rest;
    assert b[1..] == DerLength(|content|) + (content + rest);
    LengthComesBackIff(|content|, content + rest);
    LongLengthIsTruncated(|content|, content + rest);
    assert (content + rest)[..|content|] == content && (content + rest)[|content|..] == rest;
  }

  lemma LongLengthIsTruncated(n: nat, rest: Bytes)
    ensures n >= 0x10000 ==>
      var p := ParseLength(DerLength(n) + rest); p.Some? ==> p.value.value < n && p.value.rest == rest
  {
    if n >= 0x10000 {
      var b := DerLength(n) + rest;
      assert b[1..3] == [n / 256 % 256, n % 256] && b[3..] == rest;
      ValueOfTwo(n / 256 % 256, n % 256);
    }
  }

  lemma {:induction false} StripKeepsValue(value: Bytes)
    ensures Value(Strip(value)) == Value(value) && |Strip(value)| <= |value|
    ensures value != [] ==> Strip(value) != []
    ensures |Strip(value)| > 1 ==> Strip(value)[0] != 0
    decreases |value|
  {
    if |value| > 1 && value[0] == 0 {
      StripKeepsValue(value[1..]);
      LeadingZeroHasNoValue(value[1..]);
      assert [0] + value[1..] == value;
    }
  }

  /** derInteger: non-negative, minimal, and of the same value, unless it was given no bytes at all. */
  lemma IntegerContentIsMinimal(value: Bytes)
    ensures var content := IntegerContent(value);
      && (Minimal(content) <==> value != [])
      && Signed(content) == Value(value) >= 0
      && |content| <= |value| + 1
  {
    StripKeepsValue(value);
    LeadingZeroHasNoValue(Strip(value));
  }

  /** An INTEGER is read back exactly when it was given a byte and its content is below 65536 bytes. */
  lemma IntegerComesBackIff(value: Bytes, rest: Bytes)
    ensures ParseInteger(EncodeInteger(value) + rest) == Some(Parsed(Value(value) as int, rest))
      <==> value != [] && |IntegerContent(value)| < 0x10000
    ensures value == [] ==> ParseInteger(EncodeInteger(value) + rest) == None
  {
    hide ParseTlv, Tlv, IntegerContent;
    IntegerContentIsMinimal(value);
    TlvComesBackIff(0x02, IntegerContent(value), rest);
  }

  /**
   * The signature conversion inverts: decoding gives exactly the unsigned values of the two halves if
   * both halves have at least one byte and the body fits the two length octets that the encoder can
   * write, and fails otherwise.
   */
  lemma SignatureComesBackIff(raw: Bytes)
    ensures ParseSignature(RawSignatureToDer(raw))
         == if |raw| >= 2 && |SignatureBody(raw)| < 0x10000
            then Some((Value(raw[..|raw| / 2]) as int, Value(raw[|raw| / 2..]) as int)) else None
  {
    hide Tlv, ParseTlv, EncodeInteger, ParseInteger, SignatureBody;
    TlvComesBackIff(0x30, SignatureBody(raw), []);
    assert RawSignatureToDer(raw) + [] == RawSignatureToDer(raw);
    if |SignatureBody(raw)| < 0x10000 { BodyComesBack(raw); }
  }

  lemma BodyComesBack(raw: Bytes)
    requires |SignatureBody(raw)| < 0x10000
    ensures var r := ParseInteger(SignatureBody(raw));
      if |raw| >= 2 then
        && r.Some? && r.value.value == Value(raw[..|raw| / 2])
        && ParseInteger(r.value.rest) == Some(Parsed(Value(raw[|raw| / 2..]) as int, []))
      else r.None?
  {
    hide EncodeInteger, ParseInteger, IntegerContent;
    var r, s := raw[..|raw| / 2], raw[|raw| / 2..];
    EncodedLength(r);
    EncodedLength(s);
    IntegerComesBackIff(r, EncodeInteger(s));
    IntegerComesBackIff(s, []);
    assert EncodeInteger(s) + [] == EncodeInteger(s);
  }

  lemma EncodedLength(value: Bytes)
    ensures |IntegerContent(value)| + 2 <= |EncodeInteger(value)| <= |value| + 5
    ensures |value| < 0x7F ==> |EncodeInteger(value)| <= |value| + 3
  {
    IntegerContentIsMinimal(value);
  }

  /** Every raw signature of up to 65525 bytes is short enough, and a 64-byte one gives at most 72. */
  lemma SignatureLength(raw: Bytes)
    ensures |raw| <= 65525 ==> |SignatureBody(raw)| < 0x10000
    ensures |raw| == 64 ==> |RawSignatureToDer(raw)| <= 72
  {
    EncodedLength(raw[..|raw| / 2]);
    EncodedLength(raw[|raw| / 2..]);
  }
}
