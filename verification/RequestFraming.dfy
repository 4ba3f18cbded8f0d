/**
 * Request framing after a transform (src/rules/passthrough-handling.ts and the way
 * src/rules/requests/request-step-impls.ts uses it): when the body was replaced, the outgoing HTTP/1
 * request should be chunked or carry the length of the new body.
 */
module RequestFraming {
  import opened Prelude
  import opened Text
  import opened Headers
  import opened HeaderObjects

  const LENGTH: string := "content-length"
  const ENCODING: string := "transfer-encoding"
  const CHUNKED: string := "chunked"

  /** Either representation of headers. */
  datatype AnyHeaders = Raw(raw: seq<Header>) | Object(obj: seq<Entry>)

  function FindRawHeader(raw: seq<Header>, lower: string): Option<string> {
    if raw == [] then None
    else if Named(raw[0], lower) then Some(raw[0].value)
    else FindRawHeader(raw[1..], lower)
  }

  function GetHeaderValue(headers: AnyHeaders, target: string): Option<string> {
    match headers
    case Raw(raw) => FindRawHeader(raw, target)
    case Object(obj) =>
      match Lookup(obj, target)
      case Missing => None
      case One(v) => Some(v)
      case Many(vs) => if vs == [] then None else Some(vs[0])
  }

  predicate SaysChunked(headers: AnyHeaders) {
    var encoding := GetHeaderValue(headers, ENCODING);
    encoding.Some? && Includes(encoding.value, CHUNKED)
  }

  datatype HttpVersion = Http1 | Http2

  /** getRequestContentLengthAfterModification: the content-length to set, if any. */
  function ContentLengthFix(bodyLength: nat, original: AnyHeaders, replacement: Option<AnyHeaders>,
                            version: HttpVersion): Option<string>
  {
    var resulting := if replacement.Some? then replacement.value else original;
    if version != Http1 then None
    else if SaysChunked(resulting) then None
    else if GetHeaderValue(resulting, LENGTH) == Some(Decimal(bodyLength)) then None
    else Some(Decimal(bodyLength))
  }

  /** Over HTTP/2 the framing is not touched. */
  lemma Http2IsLeftAlone(bodyLength: nat, original: AnyHeaders, replacement: Option<AnyHeaders>)
    ensures ContentLengthFix(bodyLength, original, replacement, Http2) == None
  {
  }

  /** A rule has at most one of updateHeaders and replaceHeaders. */
  datatype Transform = NoChange | Update(updates: seq<Entry>) | Replace(headers: seq<Entry>)

  /** The headers after the header transform. */
  function Transformed(raw: seq<Header>, t: Transform): seq<Header> {
    match t
    case NoChange => raw
    case Update(updates) => Updated(raw, updates)
    case Replace(headers) => Additions(headers)
  }

  /** Whether an update is seen to change the framing headers. */
  predicate SeenToReframe(updates: seq<Entry>) {
    GetHeaderValue(Object(updates), LENGTH).Some? || SaysChunked(Object(updates))
  }

  /** The headers handed to the check as the replacement. */
  function Replacement(raw: seq<Header>, t: Transform): Option<AnyHeaders> {
    match t
    case NoChange => None
    case Update(updates) => if SeenToReframe(updates) then Some(Raw(Transformed(raw, t))) else None
    case Replace(headers) => Some(Object(headers))
  }

  /** The headers sent upstream over HTTP/1 with a replaced body of the given length. */
  function Outgoing(raw: seq<Header>, t: Transform, bodyLength: nat): seq<Header> {
    var sent := Transformed(raw, t);
    match ContentLengthFix(bodyLength, Object(ToObject(raw)), Replacement(raw, t), Http1)
    case None => sent
    case Some(length) => Updated(sent, [Entry(LENGTH, One(length))])
  }

  // ---- Correct framing -------------------------------------------------------------------------

  predicate AnyChunked(headers: seq<Header>) {
    exists i :: 0 <= i < |headers| && Includes(headers[i].value, CHUNKED)
  }

  predicate Chunked(raw: seq<Header>) { AnyChunked(Only(raw, ENCODING)) }

  predicate HasLength(raw: seq<Header>, bodyLength: nat) {
    |Only(raw, LENGTH)| == 1 && Only(raw, LENGTH)[0].value == Decimal(bodyLength)
  }

  predicate Framed(raw: seq<Header>, bodyLength: nat) { Chunked(raw) || HasLength(raw, bodyLength) }

  predicate OneLength(raw: seq<Header>) { |Only(raw, LENGTH)| <= 1 }

  /** The headers that a transform adds of its own. */
  function Added(t: Transform): seq<Header> {
    match t
    case NoChange => []
    case Update(updates) => Additions(updates)
    case Replace(headers) => Additions(headers)
  }

  predicate Touches(updates: seq<Entry>, lower: string) { lower in LowerKeys(updates) }

  /**
   * The update changes content-length or transfer-encoding, in a casing or with a value that the check
   * does not look at, and does not itself make the request chunked.
   */
  predicate Blind(t: Transform) {
    && t.Update?
    && GetHeaderValue(Object(t.updates), LENGTH).None? && !SaysChunked(Object(t.updates))
    && (Touches(t.updates, LENGTH) || Touches(t.updates, ENCODING))
    && !Chunked(Additions(t.updates))
  }

  /** The added content-length that the check looks at. */
  function Consulted(t: Transform): Option<string> {
    match t
    case NoChange => None
    case Update(updates) => FindRawHeader(Additions(updates), LENGTH)
    case Replace(headers) => GetHeaderValue(Object(headers), LENGTH)
  }

  ghost predicate IsLength(value: Option<string>) { exists n: nat :: value == Some(Decimal(n)) }

  /**
   * At most one content-length is added, or they are added apart from each other and the one that the
   * check looks at is not the length of any body.
   */
  ghost predicate SafeLengths(t: Transform) {
    OneLength(Added(t)) || (NoAdjacent(Added(t), LENGTH) && !IsLength(Consulted(t)))
  }

  ghost predicate Reliable(t: Transform) { !Blind(t) && (Chunked(Added(t)) || SafeLengths(t)) }

  lemma NamesAreLower()
    ensures LENGTH == "content-length" && ENCODING == "transfer-encoding" && CHUNKED == "chunked"
    ensures Lower(LENGTH) == LENGTH && Lower(ENCODING) == ENCODING && LENGTH != ENCODING
  {
  }

  lemma ChunkedAppend(a: seq<Header>, b: seq<Header>)
    ensures AnyChunked(a + b) <==> AnyChunked(a) || AnyChunked(b)
  {
    if AnyChunked(a) {
      var i :| 0 <= i < |a| && Includes(a[i].value, CHUNKED);
      assert (a + b)[i] == a[i];
    }
    if AnyChunked(b) {
      var i :| 0 <= i < |b| && Includes(b[i].value, CHUNKED);
      assert (a + b)[|a| + i] == b[i];
    }
  }

  lemma {:induction false} FindIsFirst(raw: seq<Header>, lower: string)
    ensures FindRawHeader(raw, lower) == if Only(raw, lower) == [] then None else Some(Only(raw, lower)[0].value)
  {
    if raw != [] && !Named(raw[0], lower) { FindIsFirst(raw[1..], lower); }
  }

  /** Of a name that occurs once, what is left after an update is what the update adds. */
  lemma OnlyOfUpdated(raw: seq<Header>, updates: seq<Entry>, lower: string)
    ensures |Only(raw, lower)| <= 1 || !Touches(updates, lower) ==>
      Only(Updated(raw, updates), lower)
        == (if Touches(updates, lower) then [] else Only(raw, lower)) + Only(Additions(updates), lower)
  {
    OnlyAppend(RemoveAll(raw, LowerKeys(updates)), Additions(updates), lower);
    if !Touches(updates, lower) {
      RemoveAllKeepsOthers(raw, LowerKeys(updates), lower);
    } else if |Only(raw, lower)| <= 1 {
      SingleIsRemoved(raw, LowerKeys(updates), lower);
    }
  }

  lemma {:induction false} UntouchedIsNotAdded(updates: seq<Entry>, lower: string)
    requires !Touches(updates, lower)
    ensures Only(Additions(updates), lower) == []
  {
    if updates != [] {
      var front, last := updates[..|updates| - 1], updates[|updates| - 1];
      assert forall i :: 0 <= i < |front| ==> LowerKeys(front)[i] == LowerKeys(updates)[i];
      UntouchedIsNotAdded(front, lower);
      OnlyAppend(Additions(front), AddedBy(last), lower);
      assert LowerKeys(updates)[|updates| - 1] == Lower(last.key);
      OtherNames(AddedBy(last), lower);
    }
  }

  lemma {:induction false} OtherNames(raw: seq<Header>, lower: string)
    requires forall i :: 0 <= i < |raw| ==> !Named(raw[i], lower)
    ensures Only(raw, lower) == []
  {
    if raw != [] { OtherNames(raw[1..], lower); }
  }

  /** When the fix sets a length, the request has that one and no other exactly if it had no two adjacent. */
  lemma FixedIsFramedIff(sent: seq<Header>, bodyLength: nat)
    ensures HasLength(Updated(sent, [Entry(LENGTH, One(Decimal(bodyLength)))]), bodyLength)
      <==> NoAdjacent(sent, LENGTH)
  {
    hide NoAdjacent, RemovePass;
    NamesAreLower();
    var e, h := Entry(LENGTH, One(Decimal(bodyLength))), Header(LENGTH, Decimal(bodyLength));
    var names := LowerKeys([e]);
    assert names == [LENGTH] && names[1..] == [];
    assert RemoveAll(sent, names) == RemoveAll(RemovePass(sent, LENGTH), []);
    assert [e][..0] == [] && Additions([e]) == [h] && Only([h], LENGTH) == [h];
    PassIsCompleteIff(sent, LENGTH);
    OnlyAppend(RemovePass(sent, LENGTH), [h], LENGTH);
  }

  lemma FixKeepsChunked(sent: seq<Header>, length: string)
    ensures Chunked(Updated(sent, [Entry(LENGTH, One(length))])) <==> Chunked(sent)
  {
    NamesAreLower();
    var updates := [Entry(LENGTH, One(length))];
    assert LowerKeys(updates) == [LENGTH];
    OnlyOfUpdated(sent, updates, ENCODING);
    UntouchedIsNotAdded(updates, ENCODING);
    assert Only(sent, ENCODING) + [] == Only(sent, ENCODING);
  }

  /** For every request, transform and body: exactly when what is sent is correctly framed. */
  lemma OutgoingIsFramedIff(raw: seq<Header>, t: Transform, bodyLength: nat)
    ensures var sent := Transformed(raw, t);
      var fix := ContentLengthFix(bodyLength, Object(ToObject(raw)), Replacement(raw, t), Http1);
      var right := if fix.Some? then NoAdjacent(sent, LENGTH) else HasLength(sent, bodyLength);
      Framed(Outgoing(raw, t, bodyLength), bodyLength) <==> Chunked(sent) || right
  {
    hide Chunked, HasLength, Updated, Transformed, ToObject, NoAdjacent, Replacement, SaysChunked;
    var sent := Transformed(raw, t);
    FixedIsFramedIff(sent, bodyLength);
    FixKeepsChunked(sent, Decimal(bodyLength));
  }

  // ---- When the headers consulted describe the headers sent ------------------------------------

  /** What the check takes for good framing. */
  predicate Accepted(headers: AnyHeaders, bodyLength: nat) {
    SaysChunked(headers) || GetHeaderValue(headers, LENGTH) == Some(Decimal(bodyLength))
  }

  lemma AcceptedRawIsFramed(raw: seq<Header>, bodyLength: nat)
    requires OneLength(raw) && Accepted(Raw(raw), bodyLength)
    ensures Framed(raw, bodyLength)
  {
    FindIsFirst(raw, LENGTH);
    FindIsFirst(raw, ENCODING);
  }

  lemma AcceptedObjectIsFramed(raw: seq<Header>, bodyLength: nat)
    requires OneLength(raw) && Accepted(Object(ToObject(raw)), bodyLength)
    ensures Framed(raw, bodyLength)
  {
    hide Find, Includes;
    ObjectIsNormalForm(raw);
    LookupInNormalForm(raw, LENGTH);
    LookupInNormalForm(raw, ENCODING);
    ValuesAreOnly(raw, LENGTH);
    ValuesAreOnly(raw, ENCODING);
    if SaysChunked(Object(ToObject(raw))) {
      var n := TrimmedDropsLeadingEmpties(Values(raw, ENCODING));
      assert Includes(Only(raw, ENCODING)[n].value, CHUNKED);
    }
  }

  /** The value an object gives for a lowercase key is among its additions. */
  lemma {:induction false} StoredIsAdded(obj: seq<Entry>, at: nat, lower: string)
    requires at < |obj| && obj[at].key == lower && Lower(lower) == lower && AddedBy(obj[at]) != []
    ensures exists i :: 0 <= i < |Only(Additions(obj), lower)|
                     && Only(Additions(obj), lower)[i].value == AddedBy(obj[at])[0].value
  {
    var front, last := obj[..|obj| - 1], obj[|obj| - 1];
    var before, added := Only(Additions(front), lower), Only(AddedBy(last), lower);
    OnlyAppend(Additions(front), AddedBy(last), lower);
    assert Only(Additions(obj), lower) == before + added;
    if at < |obj| - 1 {
      StoredIsAdded(front, at, lower);
      var i :| 0 <= i < |before| && before[i].value == AddedBy(front[at])[0].value;
      assert (before + added)[i] == before[i] && front[at] == obj[at];
    } else {
      assert added[0] == AddedBy(last)[0];
      assert (before + added)[|before|] == added[0];
    }
  }

  lemma AcceptedReplacementIsFramed(headers: seq<Entry>, bodyLength: nat)
    requires OneLength(Additions(headers)) && Accepted(Object(headers), bodyLength)
    ensures Framed(Additions(headers), bodyLength)
  {
    hide Includes, Additions, Only, Lower;
    NamesAreLower();
    var key := if SaysChunked(Object(headers)) then ENCODING else LENGTH;
    var at := Find(headers, key).value;
    hide Find;
    StoredIsAdded(headers, at, key);
  }

  /** The framing of a request the update leaves alone stays as it was. */
  lemma UntouchedFraming(raw: seq<Header>, updates: seq<Entry>, bodyLength: nat)
    requires !Touches(updates, LENGTH) && !Touches(updates, ENCODING)
    ensures Framed(Updated(raw, updates), bodyLength) <==> Framed(raw, bodyLength)
  {
    OnlyOfUpdated(raw, updates, LENGTH);
    OnlyOfUpdated(raw, updates, ENCODING);
    UntouchedIsNotAdded(updates, LENGTH);
    UntouchedIsNotAdded(updates, ENCODING);
    assert Only(raw, LENGTH) + [] == Only(raw, LENGTH) && Only(raw, ENCODING) + [] == Only(raw, ENCODING);
  }

  lemma TransformedHasOneLength(raw: seq<Header>, t: Transform)
    requires OneLength(raw) && OneLength(Added(t))
    ensures OneLength(Transformed(raw, t))
  {
    if t.Update? {
      OnlyOfUpdated(raw, t.updates, LENGTH);
      if !Touches(t.updates, LENGTH) { UntouchedIsNotAdded(t.updates, LENGTH); }
    }
  }

  lemma AddedChunkedIsSent(raw: seq<Header>, t: Transform)
    requires Chunked(Added(t))
    ensures Chunked(Transformed(raw, t))
  {
    if t.Update? {
      var kept := RemoveAll(raw, LowerKeys(t.updates));
      OnlyAppend(kept, Additions(t.updates), ENCODING);
      ChunkedAppend(Only(kept, ENCODING), Only(Additions(t.updates), ENCODING));
    }
  }

  /** A transform that is not blind, left alone by the check, leaves headers that are correctly framed. */
  lemma AcceptedIsFramed(raw: seq<Header>, t: Transform, bodyLength: nat)
    requires OneLength(raw) && OneLength(Added(t)) && !Blind(t)
    requires ContentLengthFix(bodyLength, Object(ToObject(raw)), Replacement(raw, t), Http1).None?
    ensures Framed(Transformed(raw, t), bodyLength)
  {
    hide Includes, Updated, ToObject;
    var sent := Transformed(raw, t);
    TransformedHasOneLength(raw, t);
    if t.Replace? {
      AcceptedReplacementIsFramed(t.headers, bodyLength);
    } else if t.Update? && SeenToReframe(t.updates) {
      AcceptedRawIsFramed(sent, bodyLength);
    } else {
      AcceptedObjectIsFramed(raw, bodyLength);
      if t.Update? {
        if Chunked(Added(t)) {
          AddedChunkedIsSent(raw, t);
        } else {
          UntouchedFraming(raw, t.updates, bodyLength);
        }
      }
    }
  }

  lemma NoAdjacentAfterNone(a: seq<Header>, b: seq<Header>, lower: string)
    requires Only(a, lower) == []
    ensures NoAdjacent(a + b, lower) <==> NoAdjacent(b, lower)
  {
    NoneNamed(a, lower);
    var s := a + b;
    if NoAdjacent(s, lower) {
      forall i | 0 <= i < |b| - 1
        ensures !(Named(b[i], lower) && Named(b[i + 1], lower))
      {
        assert s[|a| + i] == b[i] && s[|a| + i + 1] == b[i + 1];
      }
    }
    if NoAdjacent(b, lower) {
      forall i | 0 <= i < |s| - 1
        ensures !(Named(s[i], lower) && Named(s[i + 1], lower))
      {
        assert i < |a| ==> s[i] == a[i];
        assert i >= |a| ==> s[i] == b[i - |a|] && s[i + 1] == b[i - |a| + 1];
      }
    }
  }

  lemma {:induction false} NoneNamed(raw: seq<Header>, lower: string)
    requires Only(raw, lower) == []
    ensures forall i :: 0 <= i < |raw| ==> !Named(raw[i], lower)
  {
    if raw != [] { NoneNamed(raw[1..], lower); }
  }

  /** Several added lengths of which the check looks at one that is no length: all are replaced. */
  lemma SeveralLengthsAreReplaced(raw: seq<Header>, t: Transform, bodyLength: nat)
    requires OneLength(raw) && !Blind(t) && !Chunked(Added(t))
    requires !OneLength(Added(t)) && NoAdjacent(Added(t), LENGTH) && !IsLength(Consulted(t))
    ensures Chunked(Transformed(raw, t)) || NoAdjacent(Transformed(raw, t), LENGTH)
    ensures ContentLengthFix(bodyLength, Object(ToObject(raw)), Replacement(raw, t), Http1).None?
      ==> Chunked(Transformed(raw, t))
  {
    hide Includes, ToObject, NoAdjacent, IsLength;
    NotALength(Consulted(t), bodyLength);
    var sent := Transformed(raw, t);
    match t
    case Update(updates) =>
      LengthIsTouched(updates);
      OnlyOfUpdated(raw, updates, LENGTH);
      var kept := RemoveAll(raw, LowerKeys(updates));
      SingleIsRemoved(raw, LowerKeys(updates), LENGTH);
      NoAdjacentAfterNone(kept, Additions(updates), LENGTH);
      FindIsFirst(sent, LENGTH);
      FindIsFirst(sent, ENCODING);
      FindIsFirst(Additions(updates), LENGTH);
      assert [] + Only(Additions(updates), LENGTH) == Only(Additions(updates), LENGTH);
    case Replace(headers) =>
      if SaysChunked(Object(headers)) { StoredEncodingIsAdded(headers); }
  }

  lemma NotALength(value: Option<string>, n: nat)
    requires !IsLength(value)
    ensures value != Some(Decimal(n))
  {
  }

  lemma LengthIsTouched(updates: seq<Entry>)
    requires !OneLength(Additions(updates))
    ensures Touches(updates, LENGTH)
  {
    if !Touches(updates, LENGTH) { UntouchedIsNotAdded(updates, LENGTH); }
  }

  lemma StoredEncodingIsAdded(headers: seq<Entry>)
    requires SaysChunked(Object(headers))
    ensures Chunked(Additions(headers))
  {
    hide Includes, Additions, Only, Lower;
    NamesAreLower();
    var at := Find(headers, ENCODING).value;
    hide Find;
    StoredIsAdded(headers, at, ENCODING);
  }

  /** Every reliable transform leaves every request with at most one content-length correctly framed. */
  lemma ReliableTransformsFrame(raw: seq<Header>, t: Transform, bodyLength: nat)
    requires OneLength(raw) && Reliable(t)
    ensures Framed(Outgoing(raw, t, bodyLength), bodyLength)
  {
    hide Chunked, HasLength, Outgoing, Transformed, ToObject, NoAdjacent, Replacement, ContentLengthFix;
    hide Blind, IsLength;
    OutgoingIsFramedIff(raw, t, bodyLength);
    if Chunked(Added(t)) {
      AddedChunkedIsSent(raw, t);
    } else if OneLength(Added(t)) {
      TransformedHasOneLength(raw, t);
      SingleIsNotAdjacent(Transformed(raw, t), LENGTH);
      if ContentLengthFix(bodyLength, Object(ToObject(raw)), Replacement(raw, t), Http1).None? {
        AcceptedIsFramed(raw, t, bodyLength);
      }
    } else {
      SeveralLengthsAreReplaced(raw, t, bodyLength);
    }
  }

  // ---- When they do not ------------------------------------------------------------------------

  /** The headers of a request that came in correctly framed, and that the update misframes. */
  function Victim(updates: seq<Entry>, bodyLength: nat): seq<Header> {
    if Touches(updates, LENGTH) then [Header(LENGTH, Decimal(bodyLength))] else [Header(ENCODING, CHUNKED)]
  }

  lemma VictimIsAccepted(updates: seq<Entry>, bodyLength: nat)
    ensures Accepted(Object(ToObject(Victim(updates, bodyLength))), bodyLength)
    ensures Only(Victim(updates, bodyLength), LENGTH)
         == if Touches(updates, LENGTH) then Victim(updates, bodyLength) else []
    ensures Only(Victim(updates, bodyLength), ENCODING)
         == if Touches(updates, LENGTH) then [] else Victim(updates, bodyLength)
  {
    NamesAreLower();
    var raw := Victim(updates, bodyLength);
    assert raw[1..] == [] && Lower(raw[0].name) == raw[0].name;
    var first := AddHeader([], Lower(raw[0].name), raw[0].value);
    assert first == [Entry(raw[0].name, One(raw[0].value))];
    assert ToObject(raw) == AddAll(first, raw[1..]) == first;
    assert OccursAt(CHUNKED, CHUNKED, 0);
  }

  /** A body length for which what the update adds is not right. */
  lemma OtherLength(updates: seq<Entry>) returns (bodyLength: nat)
    ensures !HasLength(Additions(updates), bodyLength)
  {
    bodyLength := if HasLength(Additions(updates), 0) then 1 else 0;
    DecimalHasValue(0);
    DecimalHasValue(1);
  }

  /** Every blind update misframes some request that came in correctly framed. */
  lemma BlindUpdatesMisframe(t: Transform) returns (raw: seq<Header>, bodyLength: nat)
    requires Blind(t)
    ensures OneLength(raw) && Framed(raw, bodyLength) && !Framed(Outgoing(raw, t, bodyLength), bodyLength)
  {
    hide Includes, Updated, ToObject, Only, Additions, LowerKeys;
    bodyLength := OtherLength(t.updates);
    raw := Victim(t.updates, bodyLength);
    VictimIsAccepted(t.updates, bodyLength);
    AcceptedObjectIsFramed(raw, bodyLength);
    OnlyOfUpdated(raw, t.updates, LENGTH);
    OnlyOfUpdated(raw, t.updates, ENCODING);
    if !Touches(t.updates, LENGTH) { UntouchedIsNotAdded(t.updates, LENGTH); }
    var sent := Transformed(raw, t);
    assert [] + Only(Additions(t.updates), ENCODING) == Only(Additions(t.updates), ENCODING);
    assert [] + Only(Additions(t.updates), LENGTH) == Only(Additions(t.updates), LENGTH);
    assert Only(sent, ENCODING) == Only(Additions(t.updates), ENCODING);
    assert Only(sent, LENGTH) == Only(Additions(t.updates), LENGTH);
  }

  /** Several lengths, of which one is looked at and believed, or of which two are adjacent. */
  lemma UnsafeLengthsMisframe(t: Transform) returns (bodyLength: nat)
    requires !Blind(t) && !Chunked(Added(t)) && !SafeLengths(t)
    ensures !Framed(Outgoing([], t, bodyLength), bodyLength)
  {
    hide Includes, ToObject, NoAdjacent, Only, Additions;
    bodyLength := 0;
    if IsLength(Consulted(t)) {
      var n: nat :| Consulted(t) == Some(Decimal(n));
      bodyLength := n;
    }
    NothingToKeep(t);
    OutgoingIsFramedIff([], t, bodyLength);
    NotSaidChunked(t);
    if t.Update? { LengthIsTouched(t.updates); }
  }

  lemma NothingToKeep(t: Transform)
    ensures Transformed([], t) == Added(t)
  {
    if t.Update? { RemoveAllOfNothing(LowerKeys(t.updates)); }
  }

  lemma {:induction false} RemoveAllOfNothing(names: seq<string>)
    ensures RemoveAll([], names) == []
  {
    if names != [] { RemoveAllOfNothing(names[1..]); }
  }

  lemma NotSaidChunked(t: Transform)
    requires !Chunked(Added(t))
    ensures t.Update? ==> !SaysChunked(Raw(Additions(t.updates)))
    ensures t.Replace? ==> !SaysChunked(Object(t.headers))
  {
    hide Includes;
    if t.Update? { FindIsFirst(Additions(t.updates), ENCODING); }
    if t.Replace? && SaysChunked(Object(t.headers)) { StoredEncodingIsAdded(t.headers); }
  }

  /**
   * "It's impossible to send a request with framing that doesn't match the body": true of a transform,
   * for every request with at most one content-length and every new body, exactly when it is reliable.
   */
  lemma FramingHoldsIffReliable(t: Transform)
    ensures (forall raw, bodyLength :: OneLength(raw) ==> Framed(Outgoing(raw, t, bodyLength), bodyLength))
      <==> Reliable(t)
  {
    hide Blind, Chunked, SafeLengths, Framed, Outgoing;
    if Blind(t) {
      var raw, bodyLength := BlindUpdatesMisframe(t);
      assert !Framed(Outgoing(raw, t, bodyLength), bodyLength);
    } else if !Reliable(t) {
      var bodyLength := UnsafeLengthsMisframe(t);
      assert OneLength([]) && !Framed(Outgoing([], t, bodyLength), bodyLength);
    } else {
      forall raw, bodyLength | OneLength(raw)
        ensures Framed(Outgoing(raw, t, bodyLength), bodyLength)
      {
        ReliableTransformsFrame(raw, t, bodyLength);
      }
    }
  }

  // ---- Requests with any number of lengths -----------------------------------------------------

  function Repeat(h: Header, n: nat): seq<Header> { if n == 0 then [] else [h] + Repeat(h, n - 1) }

  function Doubled(times: nat, n: nat): nat { if times == 0 then n else 2 * Doubled(times - 1, n) }

  lemma {:induction false} PassHalves(h: Header, n: nat, lower: string)
    ensures RemovePass(Repeat(h, n), lower) == Repeat(h, if Named(h, lower) then n / 2 else n)
  {
    if n > 0 {
      var run := Repeat(h, n);
      if !Named(h, lower) {
        PassHalves(h, n - 1, lower);
        assert run[1..] == Repeat(h, n - 1);
      } else if n > 1 {
        PassHalves(h, n - 2, lower);
        assert run[1..] == Repeat(h, n - 1) && run[2..] == Repeat(h, n - 1)[1..] == Repeat(h, n - 2);
      }
    }
  }

  /** Enough copies of a header survive any number of passes. */
  lemma {:induction false} SomeSurvive(h: Header, names: seq<string>, n: nat, least: nat) returns (left: nat)
    requires n >= Doubled(|names|, least)
    ensures left >= least && RemoveAll(Repeat(h, n), names) == Repeat(h, left)
    decreases |names|
  {
    if names == [] {
      left := n;
    } else {
      PassHalves(h, n, names[0]);
      left := SomeSurvive(h, names[1..], if Named(h, names[0]) then n / 2 else n, least);
    }
  }

  lemma RepeatedLengths(n: nat)
    requires n >= 2
    ensures var raw := Repeat(Header(LENGTH, "0"), n);
      && |Only(raw, LENGTH)| >= 2 && Only(raw, ENCODING) == []
      && |raw| >= 2 && Named(raw[0], LENGTH) && Named(raw[1], LENGTH)
  {
    NamesAreLower();
    var h := Header(LENGTH, "0");
    var raw := Repeat(h, n);
    assert raw[1..] == Repeat(h, n - 1) && raw[1] == raw[1..][0] == h;
    assert raw[1..][1..] == Repeat(h, n - 2);
    assert Only(raw, LENGTH) == [h] + ([h] + Only(Repeat(h, n - 2), LENGTH));
    OtherNamesOfRepeat(h, n, ENCODING);
  }

  lemma {:induction false} OtherNamesOfRepeat(h: Header, n: nat, lower: string)
    requires !Named(h, lower)
    ensures Only(Repeat(h, n), lower) == []
  {
    if n > 0 {
      OtherNamesOfRepeat(h, n - 1, lower);
      assert Repeat(h, n)[1..] == Repeat(h, n - 1);
    }
  }

  lemma CrowdedIsMisframed(t: Transform, bodyLength: nat) returns (raw: seq<Header>)
    requires !Chunked(Added(t)) && !t.Replace?
    ensures !Framed(Outgoing(raw, t, bodyLength), bodyLength)
  {
    hide Includes, ToObject, RemoveAll, LowerKeys, Repeat, Doubled;
    var h := Header(LENGTH, "0");
    var names := if t.Update? then LowerKeys(t.updates) else [];
    raw := Repeat(h, Doubled(|names|, 2));
    var left := SomeSurvive(h, names, Doubled(|names|, 2), 2);
    var kept, sent := Repeat(h, left), Transformed(raw, t);
    NoneRemoved(raw);
    assert sent == kept + Added(t);
    RepeatedLengths(left);
    OnlyAppend(kept, Added(t), LENGTH);
    OnlyAppend(kept, Added(t), ENCODING);
    assert [] + Only(Added(t), ENCODING) == Only(Added(t), ENCODING);
    assert sent[0] == kept[0] && sent[1] == kept[1];
    OutgoingIsFramedIff(raw, t, bodyLength);
  }

  lemma NoneRemoved(raw: seq<Header>)
    ensures RemoveAll(raw, []) == raw
  {
  }

  /**
   * Over requests with any number of content-lengths, framing is right for every request and body exactly
   * when the transform makes every request chunked, or replaces all headers with safe ones.
   */
  lemma FramingHoldsForAllIff(t: Transform)
    ensures (forall raw, bodyLength :: Framed(Outgoing(raw, t, bodyLength), bodyLength))
      <==> Chunked(Added(t)) || (t.Replace? && SafeLengths(t))
  {
    hide Chunked, SafeLengths, Framed, Outgoing;
    if Chunked(Added(t)) || (t.Replace? && SafeLengths(t)) {
      forall raw, bodyLength
        ensures Framed(Outgoing(raw, t, bodyLength), bodyLength)
      {
        if Chunked(Added(t)) {
          ChunkedIsFramed(raw, t, bodyLength);
        } else {
          ReliableTransformsFrame([], t, bodyLength);
          ReplacementIgnoresOriginal(raw, t, bodyLength);
        }
      }
    } else if t.Replace? {
      var bodyLength := UnsafeLengthsMisframe(t);
      assert !Framed(Outgoing([], t, bodyLength), bodyLength);
    } else {
      var raw := CrowdedIsMisframed(t, 0);
      assert !Framed(Outgoing(raw, t, 0), 0);
    }
  }

  lemma ChunkedIsFramed(raw: seq<Header>, t: Transform, bodyLength: nat)
    requires Chunked(Added(t))
    ensures Framed(Outgoing(raw, t, bodyLength), bodyLength)
  {
    hide Chunked, Outgoing, Transformed, HasLength, NoAdjacent;
    AddedChunkedIsSent(raw, t);
    OutgoingIsFramedIff(raw, t, bodyLength);
  }

  lemma ReplacementIgnoresOriginal(raw: seq<Header>, t: Transform, bodyLength: nat)
    requires t.Replace?
    ensures Outgoing(raw, t, bodyLength) == Outgoing([], t, bodyLength)
  {
  }
}
