/** Printing and parsing of numbers, and searching in strings, as JavaScript does them on ASCII text. */
module Text {
  import opened Prelude

  predicate IsDigit(c: char) { '0' <= c <= '9' }

  function DigitValue(c: char): nat
    requires IsDigit(c)
  {
    (c - '0') as nat
  }

  /** Number.prototype.toString(). */
  function Decimal(n: nat): (s: string)
    ensures |s| >= 1 && forall i :: 0 <= i < |s| ==> IsDigit(s[i])
  {
    if n < 10 then [('0' as int + n) as char] else Decimal(n / 10) + [('0' as int + n % 10) as char]
  }

  function DigitsValue(s: string): nat
    requires forall i :: 0 <= i < |s| ==> IsDigit(s[i])
  {
    if s == [] then 0 else DigitsValue(s[..|s| - 1]) * 10 + DigitValue(s[|s| - 1])
  }

  lemma {:induction false} DecimalHasValue(n: nat)
    ensures DigitsValue(Decimal(n)) == n
  {
    if n >= 10 {
      DecimalHasValue(n / 10);
      var s := Decimal(n);
      assert s[..|s| - 1] == Decimal(n / 10);
    } else {
      assert Decimal(n)[..0] == [];
    }
  }

  /** The longest prefix made of digits. */
  function DigitPrefix(s: string): (p: string)
    ensures |p| <= |s| && p == s[..|p|] && forall i :: 0 <= i < |p| ==> IsDigit(p[i])
  {
    if s != [] && IsDigit(s[0]) then [s[0]] + DigitPrefix(s[1..]) else []
  }

  lemma {:induction false} DigitPrefixStops(digits: string, rest: string)
    requires forall i :: 0 <= i < |digits| ==> IsDigit(digits[i])
    requires rest == "" || !IsDigit(rest[0])
    ensures DigitPrefix(digits + rest) == digits
  {
    if digits != "" {
      DigitPrefixStops(digits[1..], rest);
      assert (digits + rest)[1..] == digits[1..] + rest;
    } else {
      assert digits + rest == rest;
    }
  }

  /** White space, as trim() and parseInt() skip it. */
  predicate IsSpace(c: char) {
    c == ' ' || '\t' <= c <= '\r' || c == '\U{00A0}' || c == '\U{FEFF}'
  }

  function TrimStart(s: string): string { if s != "" && IsSpace(s[0]) then TrimStart(s[1..]) else s }

  lemma {:induction false} TrimStartIs(s: string)
    ensures var t := TrimStart(s); |t| <= |s| && t == s[|s| - |t|..] && (t == "" || !IsSpace(t[0]))
  {
    if s != "" && IsSpace(s[0]) { TrimStartIs(s[1..]); }
  }

  function TrimEnd(s: string): string { if s != "" && IsSpace(s[|s| - 1]) then TrimEnd(s[..|s| - 1]) else s }

  lemma {:induction false} TrimEndIs(s: string)
    ensures var t := TrimEnd(s); |t| <= |s| && t == s[..|t|] && (t == "" || !IsSpace(t[|t| - 1]))
  {
    if s != "" && IsSpace(s[|s| - 1]) { TrimEndIs(s[..|s| - 1]); }
  }

  /** String.prototype.trim. */
  function Trim(s: string): string { TrimEnd(TrimStart(s)) }

  predicate IsTrimmed(s: string) { s == "" || (!IsSpace(s[0]) && !IsSpace(s[|s| - 1])) }

  /** The value of the leading digits; None is NaN. */
  function Natural(s: string): Option<nat> {
    var digits := DigitPrefix(s);
    if digits == "" then None else Some(DigitsValue(digits))
  }

  /** parseInt(s, 10): white space, a sign, digits, and then anything. */
  function ParseInt(s: string): Option<int> {
    var text := TrimStart(s);
    if text != "" && text[0] == '-' then
      match Natural(text[1..])
      case None => None
      case Some(n) => var value: int := n; Some(-value)
    else
      Natural(if text != "" && text[0] == '+' then text[1..] else text)
  }

  lemma UnsignedIsNatural(s: string)
    requires s != "" && IsDigit(s[0])
    ensures ParseInt(s) == Natural(s)
  {
  }

  /** Digits are read as their value, whatever text follows them. */
  lemma ParseIntReadsDigits(digits: string, rest: string)
    requires digits != "" && forall i :: 0 <= i < |digits| ==> IsDigit(digits[i])
    requires rest == "" || !IsDigit(rest[0])
    ensures ParseInt(digits + rest) == Some(DigitsValue(digits))
  {
    hide ParseInt, DigitsValue, DigitPrefix;
    UnsignedIsNatural(digits + rest);
    DigitPrefixStops(digits, rest);
  }

  lemma {:induction false} SpacesAreSkipped(spaces: string, rest: string)
    requires (forall i :: 0 <= i < |spaces| ==> IsSpace(spaces[i])) && (rest == "" || !IsSpace(rest[0]))
    ensures TrimStart(spaces + rest) == rest
  {
    if spaces == "" {
      assert spaces + rest == rest;
    } else {
      SpacesAreSkipped(spaces[1..], rest);
      assert (spaces + rest)[1..] == spaces[1..] + rest;
    }
  }

  /**
   * What is read of white space, a sign or none, digits or none, and text that does not go on with a
   * digit: the signed value of the digits, or nothing.
   */
  lemma ParseIntIs(spaces: string, sign: string, digits: string, rest: string)
    requires (forall i :: 0 <= i < |spaces| ==> IsSpace(spaces[i])) && (sign == "" || sign == "+" || sign == "-")
    requires (forall i :: 0 <= i < |digits| ==> IsDigit(digits[i])) && (rest == "" || !IsDigit(rest[0]))
    requires sign == digits == "" ==> rest == "" || (!IsSpace(rest[0]) && rest[0] != '+' && rest[0] != '-')
    ensures var value: int := DigitsValue(digits);
      ParseInt(spaces + (sign + (digits + rest)))
        == if digits == "" then None else if sign == "-" then Some(-value) else Some(value)
  {
    hide ParseInt, DigitsValue, TrimStart, DigitPrefix;
    var text := sign + (digits + rest);
    assert text != "" ==> text[0] == if sign != "" then sign[0] else if digits != "" then digits[0] else rest[0];
    SpacesAreSkipped(spaces, text);
    SpacesAreSkipped("", text);
    assert "" + text == text;
    SameTrimmed(spaces + text, text);
    NaturalIs(digits, rest);
    if sign == "" {
      assert text == digits + rest;
      UnsignedIs(text);
    } else {
      assert text == [sign[0]] + (digits + rest);
      SignedIs(sign[0], digits + rest);
    }
  }

  lemma SameTrimmed(s: string, t: string)
    requires TrimStart(s) == TrimStart(t)
    ensures ParseInt(s) == ParseInt(t)
  {
    hide Natural, TrimStart;
  }

  lemma NaturalIs(digits: string, rest: string)
    requires (forall i :: 0 <= i < |digits| ==> IsDigit(digits[i])) && (rest == "" || !IsDigit(rest[0]))
    ensures Natural(digits + rest) == if digits == "" then None else Some(DigitsValue(digits))
  {
    hide DigitPrefix, DigitsValue;
    DigitPrefixStops(digits, rest);
  }

  lemma UnsignedIs(s: string)
    requires s == "" || (!IsSpace(s[0]) && s[0] != '+' && s[0] != '-')
    ensures ParseInt(s) == Natural(s)
  {
    hide Natural;
  }

  lemma SignedIs(sign: char, s: string)
    requires sign == '+' || sign == '-'
    ensures ParseInt([sign] + s) == match Natural(s)
      case None => None
      case Some(n) => (var value: int := n; Some(if sign == '-' then -value else value))
  {
    hide Natural;
    assert TrimStart([sign] + s) == [sign] + s && ([sign] + s)[1..] == s;
  }

  /** White space in ASCII. */
  lemma AsciiSpaces(c: char)
    requires c as int < 128
    ensures IsSpace(c) <==> c in [' ', '\t', '\n', '\U{000B}', '\U{000C}', '\r']
  {
    assert '\n' as int == 10 && '\U{000B}' as int == 11 && '\U{000C}' as int == 12 && '\r' as int == 13;
    if '\t' <= c <= '\r' {
      assert c as int == 9 || c as int == 10 || c as int == 11 || c as int == 12 || c as int == 13;
    }
  }

  lemma ParseIntInvertsDecimal(n: nat)
    ensures ParseInt(Decimal(n)) == Some(n)
  {
    ParseIntReadsDigits(Decimal(n), "");
    assert Decimal(n) + "" == Decimal(n);
    DecimalHasValue(n);
  }

  function HexDigit(d: nat): char
    requires d < 16
  {
    if d < 10 then ('0' as int + d) as char else ('a' as int + (d - 10)) as char
  }

  predicate IsHexDigit(c: char) { IsDigit(c) || 'a' <= c <= 'f' }

  function HexDigitValue(c: char): nat
    requires IsHexDigit(c)
  {
    if IsDigit(c) then DigitValue(c) else (c - 'a') as nat + 10
  }

  /** Number.prototype.toString(16). */
  function Hex(n: nat): (s: string)
    ensures |s| >= 1 && forall i :: 0 <= i < |s| ==> IsHexDigit(s[i])
  {
    if n < 16 then [HexDigit(n)] else Hex(n / 16) + [HexDigit(n % 16)]
  }

  function HexValue(s: string): nat
    requires forall i :: 0 <= i < |s| ==> IsHexDigit(s[i])
  {
    if s == [] then 0 else HexValue(s[..|s| - 1]) * 16 + HexDigitValue(s[|s| - 1])
  }

  lemma {:induction false} HexHasValue(n: nat)
    ensures HexValue(Hex(n)) == n
  {
    if n >= 16 {
      HexHasValue(n / 16);
      var s := Hex(n);
      assert s[..|s| - 1] == Hex(n / 16);
    } else {
      assert Hex(n)[..0] == [];
    }
  }

  /** lastIndexOf of one character; None is -1. */
  function LastIndex(s: string, c: char): (at: Option<nat>)
    ensures at.Some? ==> at.value < |s| && s[at.value] == c && forall i :: at.value < i < |s| ==> s[i] != c
    ensures at.None? ==> c !in s
  {
    if s == [] then None
    else if s[|s| - 1] == c then Some(|s| - 1)
    else LastIndex(s[..|s| - 1], c)
  }

  predicate OccursAt(s: string, part: string, at: nat) {
    at + |part| <= |s| && s[at..at + |part|] == part
  }

  /** String.prototype.includes. */
  predicate Includes(s: string, part: string) {
    exists at :: 0 <= at <= |s| && OccursAt(s, part, at)
  }

  /** Array.prototype.join. */
  function Join(parts: seq<string>, separator: string): string {
    if parts == [] then []
    else if |parts| == 1 then parts[0]
    else Join(parts[..|parts| - 1], separator) + separator + parts[|parts| - 1]
  }

  predicate Excludes(s: string, c: char) { forall i :: 0 <= i < |s| ==> s[i] != c }

  lemma {:induction false} LastIndexAt(before: string, after: string, c: char)
    requires Excludes(after, c)
    ensures LastIndex(before + [c] + after, c) == Some(|before|)
  {
    var s := before + [c] + after;
    if after == [] {
      assert s[|before|] == c;
    } else {
      assert s[..|s| - 1] == before + [c] + after[..|after| - 1];
      LastIndexAt(before, after[..|after| - 1], c);
    }
  }

  lemma {:induction false} JoinCons(parts: seq<string>, separator: string)
    requires |parts| > 1
    ensures Join(parts, separator) == parts[0] + separator + Join(parts[1..], separator)
    decreases |parts|
  {
    var front, last := parts[..|parts| - 1], parts[|parts| - 1];
    if |parts| == 2 {
      assert parts[1..] == [last] && Join(front, separator) == parts[0];
    } else {
      JoinCons(front, separator);
      assert parts[1..][..|parts| - 2] == front[1..];
    }
  }

  /** String.prototype.split with a one-character separator. */
  function SplitOn(s: string, c: char): (parts: seq<string>)
    ensures |parts| >= 1
  {
    if s == "" then [""]
    else
      var parts := SplitOn(s[1..], c);
      if s[0] == c then [""] + parts else [[s[0]] + parts[0]] + parts[1..]
  }

  lemma {:induction false} FirstWord(word: string, rest: string, c: char)
    requires Excludes(word, c)
    ensures SplitOn(word + [c] + rest, c) == [word] + SplitOn(rest, c)
  {
    var s := word + [c] + rest;
    if word == "" {
      assert s[1..] == rest;
    } else {
      FirstWord(word[1..], rest, c);
      assert s[1..] == word[1..] + [c] + rest && s[0] == word[0];
      assert ([word[1..]] + SplitOn(rest, c))[1..] == SplitOn(rest, c);
      assert [word[0]] + word[1..] == word;
    }
  }

  lemma {:induction false} LastWord(word: string, c: char)
    requires Excludes(word, c)
    ensures SplitOn(word, c) == [word]
  {
    if word != "" {
      LastWord(word[1..], c);
      assert word[0] != c && word == [word[0]] + word[1..];
    }
  }

  /** Splitting undoes joining when no part contains the separator. */
  lemma {:induction false} SplitOfJoin(parts: seq<string>, c: char)
    requires parts != [] && forall i :: 0 <= i < |parts| ==> Excludes(parts[i], c)
    ensures SplitOn(Join(parts, [c]), c) == parts
  {
    hide SplitOn;
    if |parts| == 1 {
      LastWord(parts[0], c);
      assert parts == [parts[0]];
    } else {
      JoinCons(parts, [c]);
      FirstWord(parts[0], Join(parts[1..], [c]), c);
      SplitOfJoin(parts[1..], c);
      assert parts == [parts[0]] + parts[1..];
    }
  }

  /** Numbers are printed with their most significant digit first. */
  lemma PrintedNumbers()
    ensures Decimal(0) == "0" && Decimal(9) == "9" && Decimal(80) == "80" && Decimal(443) == "443"
    ensures Hex(0) == "0" && Hex(0x1f) == "1f" && Hex(0xa2b) == "a2b"
  {
  }
}
