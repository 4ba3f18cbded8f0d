/**
 * Request framing after a beforeRequest callback (src/rules/requests/request-step-impls.ts): the
 * callback may return new headers and a new body, and the content-length is then set on the header
 * object, which becomes raw headers only afterwards.
 */
module CallbackFraming {
  import opened Prelude
  import opened Text
  import opened Headers
  import opened HeaderObjects
  import opened RequestFraming

  /** What the callback returned, as far as framing goes. Header objects have distinct keys. */
  datatype Modified = Modified(headers: Option<seq<Entry>>, replacesBody: bool) {
    predicate Valid() { headers.Some? ==> DistinctKeys(headers.value) }

    /** The framing is looked at only when something was returned. */
    predicate Checked() { replacesBody || headers.Some? }
  }

  /** The callback returned neither headers nor a body. */
  const Nothing := Modified(None, false)

  /** The callback's headers, or the client's. */
  function Chosen(raw: seq<Header>, m: Modified): seq<Entry> {
    if m.headers.Some? then m.headers.value else ToObject(raw)
  }

  /** The length is that of the new body or, for want of one, of what was buffered of the original. */
  function CallbackFix(raw: seq<Header>, m: Modified, measured: nat): Option<string> {
    if !m.Checked() then None
    else
      var replacement := if m.headers.Some? then Some(Object(m.headers.value)) else None;
      ContentLengthFix(measured, Object(ToObject(raw)), replacement, Http1)
  }

  /** The headers sent upstream. */
  function Sent(raw: seq<Header>, m: Modified, measured: nat): seq<Header> {
    var headers := Chosen(raw, m);
    match CallbackFix(raw, m, measured)
    case None => Additions(headers)
    case Some(length) => Additions(Put(headers, LENGTH, One(length)))
  }

  // ---- The headers that an object adds under one name ------------------------------------------

  /** What an entry of this name, but in another casing, adds. */
  function OtherCasingOf(e: Entry, lower: string): seq<Header> {
    if Lower(e.key) == lower && e.key != lower then AddedBy(e) else []
  }

  function OtherCasings(obj: seq<Entry>, lower: string): seq<Header> {
    if obj == [] then []
    else OtherCasings(obj[..|obj| - 1], lower) + OtherCasingOf(obj[|obj| - 1], lower)
  }

  /** What the entry of exactly this key adds. */
  function Own(obj: seq<Entry>, lower: string): seq<Header> { AddedBy(Entry(lower, Lookup(obj, lower))) }

  lemma OnlyOfEntry(e: Entry, lower: string)
    ensures Only(AddedBy(e), lower) == if Lower(e.key) == lower then AddedBy(e) else []
  {
    hide Lower;
    var added := AddedBy(e);
    if Lower(e.key) == lower { AllNamed(added, lower); } else { OtherNames(added, lower); }
  }

  lemma {:induction false} AllNamed(raw: seq<Header>, lower: string)
    requires forall i :: 0 <= i < |raw| ==> Named(raw[i], lower)
    ensures Only(raw, lower) == raw
  {
    if raw != [] { AllNamed(raw[1..], lower); }
  }

  lemma FrontParts(obj: seq<Entry>)
    requires obj != [] && DistinctKeys(obj)
    ensures DistinctKeys(obj[..|obj| - 1]) && !HasKey(obj[..|obj| - 1], obj[|obj| - 1].key)
  {
  }

  lemma LookupFront(obj: seq<Entry>, key: string)
    requires obj != []
    ensures var front, last := obj[..|obj| - 1], obj[|obj| - 1];
      Lookup(obj, key) == if last.key == key then last.value else Lookup(front, key)
  {
  }

  lemma NoKeyIsMissing(obj: seq<Entry>, key: string)
    requires !HasKey(obj, key)
    ensures Lookup(obj, key) == Missing
  {
  }

  /** The headers of one name: those of the entry itself and those of its other casings. */
  lemma {:induction false} OnlyOfObject(obj: seq<Entry>, lower: string)
    requires DistinctKeys(obj) && Lower(lower) == lower
    ensures |Only(Additions(obj), lower)| == |OtherCasings(obj, lower)| + |Own(obj, lower)|
    ensures OtherCasings(obj, lower) == [] ==> Only(Additions(obj), lower) == Own(obj, lower)
  {
    hide Lower, Lookup, HasKey, DistinctKeys, Only;
    if obj == [] {
      assert Only([], lower) == [] && Lookup([], lower) == Missing by { NothingUnder(lower); }
    } else {
      var front, last := obj[..|obj| - 1], obj[|obj| - 1];
      FrontParts(obj);
      OnlyOfObject(front, lower);
      OnlyAppend(Additions(front), AddedBy(last), lower);
      OnlyOfEntry(last, lower);
      LookupFront(obj, lower);
      if last.key == lower {
        NoKeyIsMissing(front, lower);
        assert last == Entry(lower, last.value);
      }
    }
  }

  lemma NothingUnder(lower: string)
    ensures Only([], lower) == [] && Lookup([], lower) == Missing
  {
  }

  lemma PutIsLooked(obj: seq<Entry>, key: string, value: HeaderValue)
    requires DistinctKeys(obj)
    ensures DistinctKeys(Put(obj, key, value)) && Lookup(Put(obj, key, value), key) == value
  {
    var longer := Put(obj, key, value);
    var at := if HasKey(obj, key) then Find(obj, key).value else |obj|;
    assert longer[at] == Entry(key, value);
  }

  lemma PutSplits(obj: seq<Entry>, key: string, value: HeaderValue)
    requires obj != []
    ensures var front, last := obj[..|obj| - 1], obj[|obj| - 1];
      Put(obj, key, value) == if last.key == key then front + [Entry(key, value)]
                              else if HasKey(front, key) then Put(front, key, value) + [last]
                              else obj + [Entry(key, value)]
  {
    var front, last := obj[..|obj| - 1], obj[|obj| - 1];
    assert obj == front + [last];
    if last.key != key && HasKey(obj, key) {
      var at := Find(front, key).value;
      assert obj[at := Entry(key, value)] == front[at := Entry(key, value)] + [last];
    }
  }

  lemma OtherCasingsSnoc(obj: seq<Entry>, e: Entry, lower: string)
    ensures OtherCasings(obj + [e], lower) == OtherCasings(obj, lower) + OtherCasingOf(e, lower)
    ensures Additions(obj + [e]) == Additions(obj) + AddedBy(e)
  {
    assert (obj + [e])[..|obj|] == obj;
  }

  /** Setting a key leaves the other casings of its name, and all other names, as they are. */
  lemma {:induction false} PutKeepsOthers(obj: seq<Entry>, key: string, value: HeaderValue, other: string)
    requires DistinctKeys(obj) && Lower(key) == key && other != key
    ensures OtherCasings(Put(obj, key, value), key) == OtherCasings(obj, key)
    ensures Only(Additions(Put(obj, key, value)), other) == Only(Additions(obj), other)
  {
    hide Lower, HasKey, DistinctKeys, Only, Find;
    var entry := Entry(key, value);
    OnlyOfEntry(entry, other);
    OtherCasingsSnoc(obj, entry, key);
    OnlyAppend(Additions(obj), AddedBy(entry), other);
    if obj == [] {
      assert Put([], key, value) == [] + [entry] by { PutOnNothing(key, value); }
    } else {
      var front, last := obj[..|obj| - 1], obj[|obj| - 1];
      assert obj == front + [last];
      PutSplits(obj, key, value);
      FrontParts(obj);
      PutKeepsOthers(front, key, value, other);
      OtherCasingsSnoc(front, entry, key);
      OtherCasingsSnoc(front, last, key);
      OtherCasingsSnoc(Put(front, key, value), last, key);
      OnlyAppend(Additions(front), AddedBy(entry), other);
      OnlyAppend(Additions(front), AddedBy(last), other);
      OnlyAppend(Additions(Put(front, key, value)), AddedBy(last), other);
      OnlyOfEntry(last, other);
    }
  }

  lemma PutOnNothing(key: string, value: HeaderValue)
    ensures Put([], key, value) == [] + [Entry(key, value)]
  {
  }

  // ---- One request -----------------------------------------------------------------------------

  /** When a length is set, the request has that one exactly if no other casing gives another. */
  lemma SetIsFramedIff(headers: seq<Entry>, measured: nat, bodyLength: nat)
    requires DistinctKeys(headers)
    ensures var sent := Additions(Put(headers, LENGTH, One(Decimal(measured))));
      && (HasLength(sent, bodyLength) <==> measured == bodyLength && OtherCasings(headers, LENGTH) == [])
      && (Chunked(sent) <==> Chunked(Additions(headers)))
  {
    hide Put, DistinctKeys, Additions, Only, AnyChunked, Lookup, OtherCasings;
    NamesAreLower();
    var length := One(Decimal(measured));
    PutIsLooked(headers, LENGTH, length);
    PutKeepsOthers(headers, LENGTH, length, ENCODING);
    OnlyOfObject(Put(headers, LENGTH, length), LENGTH);
    if Decimal(measured) == Decimal(bodyLength) {
      DecimalHasValue(measured);
      DecimalHasValue(bodyLength);
    }
  }

  lemma ChosenIsDistinct(raw: seq<Header>, m: Modified)
    requires m.Valid()
    ensures DistinctKeys(Chosen(raw, m))
  {
    ObjectOfRawComesBack(raw);
  }

  /**
   * For every request, callback result and body: exactly when what is sent is correctly framed. A length
   * that was set must be the one of the body sent, and the only one.
   */
  lemma CallbackIsFramedIff(raw: seq<Header>, m: Modified, measured: nat, bodyLength: nat)
    requires m.Valid()
    ensures var headers := Chosen(raw, m);
      var right := if CallbackFix(raw, m, measured).None? then HasLength(Additions(headers), bodyLength)
                   else measured == bodyLength && OtherCasings(headers, LENGTH) == [];
      Framed(Sent(raw, m, measured), bodyLength) <==> Chunked(Additions(headers)) || right
  {
    hide Chunked, HasLength, Put, Additions, OtherCasings, DistinctKeys, ToObject, SaysChunked, GetHeaderValue, Find;
    ChosenIsDistinct(raw, m);
    SetIsFramedIff(Chosen(raw, m), measured, bodyLength);
  }

  /** Without a callback's headers or body nothing is set, and the request keeps the framing it had. */
  lemma UntouchedIsFramedIff(raw: seq<Header>, measured: nat, bodyLength: nat)
    ensures Framed(Sent(raw, Nothing, measured), bodyLength)
      <==> Chunked(raw) || Trimmed(Values(raw, LENGTH)) == [Decimal(bodyLength)]
    ensures Framed(raw, bodyLength) ==> Framed(Sent(raw, Nothing, measured), bodyLength)
  {
    hide Only, Values, Trimmed, Lower, ToObject, Additions, AnyChunked;
    var sent := Sent(raw, Nothing, measured);
    NamesAreLower();
    ValuesOfObject(raw, LENGTH);
    ValuesOfObject(raw, ENCODING);
    var values := Values(raw, ENCODING);
    SameValuesSameChunked(Only(sent, ENCODING), Trimmed(values), Only(raw, ENCODING), values);
    TrimmedSingle(Values(raw, LENGTH));
  }

  lemma TrimmedSingle(values: seq<string>)
    ensures |values| == 1 ==> Trimmed(values) == values
  {
  }

  /** Under each lowercase name the object gives back the trimmed values. */
  lemma ValuesOfObject(raw: seq<Header>, lower: string)
    requires Lower(lower) == lower
    ensures var only, values := Only(Additions(ToObject(raw)), lower), Trimmed(Values(raw, lower));
      && |only| == |values| && (forall i :: 0 <= i < |only| ==> only[i].value == values[i])
      && (values == [] <==> Values(raw, lower) == [])
    ensures |Values(raw, lower)| == |Only(raw, lower)|
    ensures forall i :: 0 <= i < |Only(raw, lower)| ==> Values(raw, lower)[i] == Only(raw, lower)[i].value
  {
    hide Only, Values, Lower, Additions, Find, AddAll, FirstNames;
    ObjectOfRawComesBack(raw);
    ObjectIsNormalForm(raw);
    LookupInNormalForm(raw, lower);
    NormalHasNoOtherCasing(ToObject(raw), lower);
    OnlyOfObject(ToObject(raw), lower);
    ValuesAreOnly(raw, lower);
    if Values(raw, lower) != [] { var n := TrimmedDropsLeadingEmpties(Values(raw, lower)); }
  }

  lemma {:induction false} NormalHasNoOtherCasing(obj: seq<Entry>, lower: string)
    requires Normal(obj)
    ensures OtherCasings(obj, lower) == []
  {
    if obj != [] {
      NormalParts(obj);
      NormalHasNoOtherCasing(obj[..|obj| - 1], lower);
    }
  }

  /** Trimming drops only empty values, and none of them says chunked. */
  lemma SameValuesSameChunked(a: seq<Header>, trimmed: seq<string>, b: seq<Header>, values: seq<string>)
    requires |a| == |trimmed| && forall i :: 0 <= i < |a| ==> a[i].value == trimmed[i]
    requires |b| == |values| && forall i :: 0 <= i < |b| ==> b[i].value == values[i]
    requires trimmed == Trimmed(values)
    ensures AnyChunked(a) <==> AnyChunked(b)
  {
    hide Trimmed, Includes;
    EmptyIsNotChunked();
    if values == [] {
      NothingTrimmed();
    } else {
      var n := TrimmedDropsLeadingEmpties(values);
      if AnyChunked(b) {
        var i :| 0 <= i < |b| && Includes(b[i].value, CHUNKED);
        assert a[i - n].value == values[i];
      }
      if AnyChunked(a) {
        var i :| 0 <= i < |a| && Includes(a[i].value, CHUNKED);
        assert b[n + i].value == values[n + i];
      }
    }
  }

  lemma NothingTrimmed()
    ensures Trimmed([]) == []
  {
  }

  lemma EmptyIsNotChunked()
    ensures !Includes("", CHUNKED)
  {
  }

  // ---- All bodies ------------------------------------------------------------------------------

  lemma NotSaidByObject(headers: seq<Entry>)
    requires !Chunked(Additions(headers))
    ensures !SaysChunked(Object(headers))
  {
    if SaysChunked(Object(headers)) { StoredEncodingIsAdded(headers); }
  }

  /** The content-length that the check looks at is the first of its own entry. */
  lemma FirstOwn(headers: seq<Entry>)
    ensures GetHeaderValue(Object(headers), LENGTH)
         == if Own(headers, LENGTH) == [] then None else Some(Own(headers, LENGTH)[0].value)
  {
  }

  lemma FixUnlessChunked(raw: seq<Header>, m: Modified, measured: nat)
    requires m != Nothing && !Chunked(Additions(Chosen(raw, m)))
    ensures CallbackFix(raw, m, measured).None?
      <==> GetHeaderValue(Object(Chosen(raw, m)), LENGTH) == Some(Decimal(measured))
  {
    hide Chunked, Additions, ToObject, SaysChunked, GetHeaderValue;
    NotSaidByObject(Chosen(raw, m));
  }

  /**
   * A body larger than what is buffered, with headers from the callback: unless these say chunked, the
   * request is sent with the length of what was kept, and never correctly framed.
   */
  lemma WrongMeasureMisframes(raw: seq<Header>, m: Modified, measured: nat, bodyLength: nat)
    requires m.Valid() && m != Nothing && measured != bodyLength
    ensures Framed(Sent(raw, m, measured), bodyLength) <==> Chunked(Additions(Chosen(raw, m)))
  {
    hide Chunked, Additions, ToObject, OtherCasings, GetHeaderValue, DistinctKeys, Sent, Only, CallbackFix, Own, Lower;
    var headers := Chosen(raw, m);
    CallbackIsFramedIff(raw, m, measured, bodyLength);
    if !Chunked(Additions(headers)) && CallbackFix(raw, m, measured).None? {
      FixUnlessChunked(raw, m, measured);
      ChosenIsDistinct(raw, m);
      NamesAreLower();
      FirstOwn(headers);
      OnlyOfObject(headers, LENGTH);
      DecimalHasValue(measured);
      DecimalHasValue(bodyLength);
    }
  }

  /** The length comes once, or it comes more than once and the first is not the length of any body. */
  ghost predicate SafeOwnLength(headers: seq<Entry>) {
    && OtherCasings(headers, LENGTH) == []
    && (|Own(headers, LENGTH)| <= 1 || !IsLength(Some(Own(headers, LENGTH)[0].value)))
  }

  /**
   * For every request and every callback result that is checked: framing is right for all bodies exactly
   * when the headers say chunked, or content-length is in lowercase only and safe.
   */
  lemma CallbackFramesAllIff(raw: seq<Header>, m: Modified)
    requires m.Valid() && m != Nothing
    ensures (forall bodyLength: nat :: Framed(Sent(raw, m, bodyLength), bodyLength))
      <==> Chunked(Additions(Chosen(raw, m))) || SafeOwnLength(Chosen(raw, m))
  {
    hide Chunked, Additions, ToObject, OtherCasings, GetHeaderValue, DistinctKeys, Only, Own, Lower;
    hide Sent, CallbackFix, Framed;
    var headers := Chosen(raw, m);
    ChosenIsDistinct(raw, m);
    NamesAreLower();
    FirstOwn(headers);
    OnlyOfObject(headers, LENGTH);
    if Chunked(Additions(headers)) || SafeOwnLength(headers) {
      forall bodyLength: nat
        ensures Framed(Sent(raw, m, bodyLength), bodyLength)
      {
        CallbackIsFramedIff(raw, m, bodyLength, bodyLength);
        if !Chunked(Additions(headers)) { FixUnlessChunked(raw, m, bodyLength); }
      }
    } else {
      var bodyLength: nat := 0;
      if OtherCasings(headers, LENGTH) == [] {
        var n: nat :| Some(Own(headers, LENGTH)[0].value) == Some(Decimal(n));
        bodyLength := n;
      } else {
        DecimalHasValue(0);
        DecimalHasValue(1);
        if GetHeaderValue(Object(headers), LENGTH) == Some(Decimal(0)) { bodyLength := 1; }
      }
      FixUnlessChunked(raw, m, bodyLength);
      CallbackIsFramedIff(raw, m, bodyLength, bodyLength);
      assert !Framed(Sent(raw, m, bodyLength), bodyLength);
    }
  }
}
