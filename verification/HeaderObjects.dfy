/**
 * Header objects (src/util/header-utils.ts): the two folds from raw headers to an object, and the way
 * back. An object is the list of its entries in insertion order; its keys are distinct.
 */
module HeaderObjects {
  import opened Prelude
  import opened Headers

  predicate HasKey(obj: seq<Entry>, key: string) { exists i :: 0 <= i < |obj| && obj[i].key == key }

  predicate DistinctKeys(obj: seq<Entry>) { forall i, j :: 0 <= i < j < |obj| ==> obj[i].key != obj[j].key }

  /** Where a key is stored. */
  function Find(obj: seq<Entry>, key: string): (at: Option<nat>)
    ensures at.None? <==> !HasKey(obj, key)
    ensures at.Some? ==> at.value < |obj| && obj[at.value].key == key
  {
    if obj == [] then None
    else if obj[|obj| - 1].key == key then Some(|obj| - 1)
    else
      var front := obj[..|obj| - 1];
      assert forall i :: 0 <= i < |front| ==> front[i] == obj[i];
      Find(front, key)
  }

  /** obj[key], undefined when absent. */
  function Lookup(obj: seq<Entry>, key: string): HeaderValue {
    match Find(obj, key)
    case None => Missing
    case Some(at) => obj[at].value
  }

  /** obj[key] = value: a new key goes to the end, an old one keeps its place. */
  function Put(obj: seq<Entry>, key: string, value: HeaderValue): seq<Entry> {
    match Find(obj, key)
    case None => obj + [Entry(key, value)]
    case Some(at) => obj[at := Entry(key, value)]
  }

  /** What one more value makes of the existing one: an empty string is falsy, so it is overwritten. */
  function Merged(existing: HeaderValue, value: string): HeaderValue {
    match existing
    case Many(vs) => Many(vs + [value])
    case One(v) => if v != "" then Many([v, value]) else One(value)
    case Missing => One(value)
  }

  function AddHeader(obj: seq<Entry>, key: string, value: string): seq<Entry> {
    Put(obj, key, Merged(Lookup(obj, key), value))
  }

  function AddAll(obj: seq<Entry>, raw: seq<Header>): seq<Entry>
    decreases |raw|
  {
    if raw == [] then obj else AddAll(AddHeader(obj, Lower(raw[0].name), raw[0].value), raw[1..])
  }

  function ToObject(raw: seq<Header>): seq<Entry> { AddAll([], raw) }

  method RawHeadersToObject(raw: seq<Header>) returns (headers: seq<Entry>)
    ensures headers == ToObject(raw)
  {
    hide Find, Lower;
    headers := [];
    assert raw[0..] == raw;
    for i := 0 to |raw|
      invariant AddAll(headers, raw[i..]) == ToObject(raw)
    {
      assert raw[i..][0] == raw[i] && raw[i..][1..] == raw[i + 1..];
      var key := Lower(raw[i].name);
      match Lookup(headers, key)
      case Many(existing) => headers := Put(headers, key, Many(existing + [raw[i].value]));
      case One(existing) =>
        if existing != "" {
          headers := Put(headers, key, Many([existing, raw[i].value]));
        } else {
          headers := Put(headers, key, One(raw[i].value));
        }
      case Missing => headers := Put(headers, key, One(raw[i].value));
    }
    assert raw[|raw|..] == [];
  }

  /** The way back: one raw header for each value, none for undefined ones. */
  method ObjectHeadersToRaw(headers: seq<Entry>) returns (raw: seq<Header>)
    ensures raw == Additions(headers)
  {
    hide AddedBy;
    raw := [];
    for k := 0 to |headers|
      invariant raw == Additions(headers[..k])
    {
      assert headers[..k + 1][..k] == headers[..k];
      raw := AddEntry(raw, headers[k]);
    }
    assert headers[..|headers|] == headers;
  }

  // ---- The normal form -------------------------------------------------------------------------

  /** The values of one name, in order. */
  function Values(raw: seq<Header>, lower: string): seq<string> {
    if raw == [] then []
    else Values(raw[..|raw| - 1], lower)
         + (if Named(raw[|raw| - 1], lower) then [raw[|raw| - 1].value] else [])
  }

  /** Without the leading empty values, of which the last stays when there is no other value. */
  function Trimmed(values: seq<string>): seq<string> {
    if |values| > 1 && values[0] == "" then Trimmed(values[1..]) else values
  }

  function AsValue(values: seq<string>): HeaderValue {
    if values == [] then Missing else if |values| == 1 then One(values[0]) else Many(values)
  }

  /** The lowercased names in the order in which they first occur. */
  function FirstNames(raw: seq<Header>): (names: seq<string>)
    ensures Distinct(names)
  {
    if raw == [] then []
    else
      var names, name := FirstNames(raw[..|raw| - 1]), Lower(raw[|raw| - 1].name);
      if name in names then names else names + [name]
  }

  /** The object a reader expects: each name once, with its trimmed values. */
  function NormalForm(raw: seq<Header>): seq<Entry> {
    var names := FirstNames(raw);
    seq(|names|, i requires 0 <= i < |names| => Entry(names[i], AsValue(Trimmed(Values(raw, names[i])))))
  }

  /** What trimming drops: exactly the empty values before the first other one, or before the last value. */
  lemma {:induction false} TrimmedDropsLeadingEmpties(values: seq<string>) returns (n: nat)
    requires values != []
    ensures n < |values| && Trimmed(values) == values[n..]
    ensures forall i :: 0 <= i < n ==> values[i] == ""
    ensures values[n] != "" || n == |values| - 1
  {
    n := 0;
    if |values| > 1 && values[0] == "" {
      var m := TrimmedDropsLeadingEmpties(values[1..]);
      assert values[1..][m..] == values[m + 1..];
      assert forall i :: 0 <= i < m ==> values[1..][i] == values[i + 1];
      n := m + 1;
    }
  }

  lemma {:induction false} ValuesAreOnly(raw: seq<Header>, lower: string)
    ensures |Values(raw, lower)| == |Only(raw, lower)|
    ensures forall i :: 0 <= i < |Only(raw, lower)| ==> Values(raw, lower)[i] == Only(raw, lower)[i].value
  {
    if raw != [] {
      var front, last := raw[..|raw| - 1], raw[|raw| - 1];
      ValuesAreOnly(front, lower);
      assert raw == front + [last];
      OnlyAppend(front, [last], lower);
      assert [last][1..] == [];
    }
  }

  lemma {:induction false} TrimmedSnoc(values: seq<string>, value: string)
    ensures Trimmed(values + [value])
         == (if values == [] || Trimmed(values) == [""] then [] else Trimmed(values)) + [value]
    ensures values != [] ==> Trimmed(values) != []
  {
    if |values| > 1 && values[0] == "" {
      TrimmedSnoc(values[1..], value);
      assert (values + [value])[1..] == values[1..] + [value];
    } else if |values| == 1 && values[0] == "" {
      assert (values + [value])[1..] == [value];
    }
  }

  lemma {:induction false} NamesHaveValues(raw: seq<Header>, name: string)
    ensures name in FirstNames(raw) <==> Values(raw, name) != []
  {
    if raw != [] { NamesHaveValues(raw[..|raw| - 1], name); }
  }

  lemma MergedTrims(values: seq<string>, value: string)
    ensures Merged(AsValue(Trimmed(values)), value) == AsValue(Trimmed(values + [value]))
  {
    TrimmedSnoc(values, value);
  }

  lemma LookupInNormalForm(raw: seq<Header>, name: string)
    ensures Find(NormalForm(raw), name).Some? <==> name in FirstNames(raw)
    ensures Lookup(NormalForm(raw), name) == AsValue(Trimmed(Values(raw, name)))
  {
    NamesHaveValues(raw, name);
    var obj, names := NormalForm(raw), FirstNames(raw);
    if name in names {
      var i :| 0 <= i < |names| && names[i] == name;
      assert obj[i].key == name;
    }
  }

  lemma NormalFormStep(raw: seq<Header>, h: Header)
    ensures NormalForm(raw + [h]) == AddHeader(NormalForm(raw), Lower(h.name), h.value)
  {
    var name, longer := Lower(h.name), raw + [h];
    assert longer[..|longer| - 1] == raw;
    LookupInNormalForm(raw, name);
    MergedTrims(Values(raw, name), h.value);
    var names := FirstNames(raw);
    assert forall other :: other != name ==> Values(longer, other) == Values(raw, other);
    assert Values(longer, name) == Values(raw, name) + [h.value];
    var added := AddHeader(NormalForm(raw), name, h.value);
    assert |NormalForm(longer)| == |added|;
    forall i | 0 <= i < |added|
      ensures NormalForm(longer)[i] == added[i]
    {
      if name in names {
        var at := Find(NormalForm(raw), name).value;
        assert names[at] == name;
      }
    }
  }

  lemma {:induction false} AddAllAppend(obj: seq<Entry>, a: seq<Header>, b: seq<Header>)
    ensures AddAll(obj, a + b) == AddAll(AddAll(obj, a), b)
    decreases |a|
  {
    if a == [] {
      assert a + b == b;
    } else {
      assert (a + b)[1..] == a[1..] + b;
      AddAllAppend(AddHeader(obj, Lower(a[0].name), a[0].value), a[1..], b);
    }
  }

  /** rawHeadersToObject computes the normal form: for each name its values but the leading empty ones. */
  lemma {:induction false} ObjectIsNormalForm(raw: seq<Header>)
    ensures ToObject(raw) == NormalForm(raw)
  {
    if raw != [] {
      var front, last := raw[..|raw| - 1], raw[|raw| - 1];
      ObjectIsNormalForm(front);
      assert raw == front + [last];
      AddAllAppend([], front, [last]);
      assert [last][1..] == [];
      NormalFormStep(front, last);
    }
  }

  // ---- There and back --------------------------------------------------------------------------

  /** What an object made from raw headers looks like. */
  predicate NormalEntry(e: Entry) {
    && Lower(e.key) == e.key
    && !e.value.Missing?
    && (e.value.Many? ==> |e.value.values| >= 2 && e.value.values[0] != "")
  }

  predicate Normal(obj: seq<Entry>) {
    DistinctKeys(obj) && forall i :: 0 <= i < |obj| ==> NormalEntry(obj[i])
  }

  lemma AddKeepsNormal(obj: seq<Entry>, h: Header)
    requires Normal(obj)
    ensures Normal(AddHeader(obj, Lower(h.name), h.value))
  {
  }

  lemma {:induction false} AddAllKeepsNormal(obj: seq<Entry>, raw: seq<Header>)
    requires Normal(obj)
    ensures Normal(AddAll(obj, raw))
    decreases |raw|
  {
    if raw != [] {
      AddKeepsNormal(obj, raw[0]);
      AddAllKeepsNormal(AddHeader(obj, Lower(raw[0].name), raw[0].value), raw[1..]);
    }
  }

  lemma NewKey(obj: seq<Entry>, key: string, value: HeaderValue, next: HeaderValue)
    requires !HasKey(obj, key)
    ensures Put(obj, key, value) == obj + [Entry(key, value)] && Lookup(obj, key) == Missing
    ensures Lookup(obj + [Entry(key, value)], key) == value
    ensures Put(obj + [Entry(key, value)], key, next) == obj + [Entry(key, next)]
  {
  }

  function Rebuilt(e: Entry, n: nat): HeaderValue
    requires NormalEntry(e) && 1 <= n <= |AddedBy(e)|
  {
    if n == 1 then One(AddedBy(e)[0].value) else Many(e.value.values[..n])
  }

  lemma RebuiltStep(e: Entry, n: nat)
    requires NormalEntry(e) && 1 <= n < |AddedBy(e)|
    ensures Merged(Rebuilt(e, n), AddedBy(e)[n].value) == Rebuilt(e, n + 1)
  {
  }

  /** Adding the headers of one normal entry under a new key appends that entry. */
  lemma {:induction false} EntryIsRebuilt(obj: seq<Entry>, e: Entry, n: nat)
    requires NormalEntry(e) && !HasKey(obj, e.key) && 1 <= n <= |AddedBy(e)|
    ensures AddAll(obj, AddedBy(e)[..n]) == obj + [Entry(e.key, Rebuilt(e, n))]
  {
    hide Find, Put, Lookup, HasKey;
    var headers := AddedBy(e);
    var front, last := headers[..n - 1], headers[n - 1];
    assert headers[..n] == front + [last];
    AddAllAppend(obj, front, [last]);
    assert [last][1..] == [];
    if n == 1 {
      assert front == [];
      NewKey(obj, e.key, One(last.value), Missing);
    } else {
      EntryIsRebuilt(obj, e, n - 1);
      RebuiltStep(e, n - 1);
      NewKey(obj, e.key, Rebuilt(e, n - 1), Rebuilt(e, n));
    }
  }

  lemma WholeEntryIsRebuilt(obj: seq<Entry>, e: Entry)
    requires NormalEntry(e) && !HasKey(obj, e.key)
    ensures AddAll(obj, AddedBy(e)) == obj + [e]
  {
    hide AddAll, HasKey, Lower;
    EntryIsRebuilt(obj, e, |AddedBy(e)|);
    assert AddedBy(e)[..|AddedBy(e)|] == AddedBy(e);
    assert e.value.Many? ==> e.value.values[..|e.value.values|] == e.value.values;
  }

  lemma NormalParts(obj: seq<Entry>)
    requires obj != [] && Normal(obj)
    ensures var front, last := obj[..|obj| - 1], obj[|obj| - 1];
      Normal(front) && NormalEntry(last) && !HasKey(front, last.key)
  {
    hide NormalEntry;
  }

  lemma {:induction false} NormalObjectIsRebuilt(obj: seq<Entry>)
    requires Normal(obj)
    ensures ToObject(Additions(obj)) == obj
  {
    if obj != [] {
      hide AddAll, AddedBy, NormalEntry, Normal, HasKey;
      var front, last := obj[..|obj| - 1], obj[|obj| - 1];
      NormalParts(obj);
      NormalObjectIsRebuilt(front);
      AddAllAppend([], Additions(front), AddedBy(last));
      WholeEntryIsRebuilt(front, last);
      assert obj == front + [last];
    }
  }

  /** An object survives becoming raw headers and an object again exactly when it is normal. */
  lemma ObjectComesBackIff(obj: seq<Entry>)
    ensures ToObject(Additions(obj)) == obj <==> Normal(obj)
  {
    AddAllKeepsNormal([], Additions(obj));
    if Normal(obj) { NormalObjectIsRebuilt(obj); }
  }

  /** So raw headers, made an object and raw again, always give that same object. */
  lemma ObjectOfRawComesBack(raw: seq<Header>)
    ensures Normal(ToObject(raw)) && ToObject(Additions(ToObject(raw))) == ToObject(raw)
  {
    AddAllKeepsNormal([], raw);
    ObjectComesBackIff(ToObject(raw));
  }

  // ---- Preserving case -------------------------------------------------------------------------

  /** The object being built and the casing chosen for each lowercased name. */
  datatype Preserving = Preserving(headers: seq<Entry>, nameMap: map<string, string>)

  /** The stored casing is used unless it is falsy: absent or the empty string. */
  function Casing(p: Preserving, name: string): string {
    var lower := Lower(name);
    if lower in p.nameMap && p.nameMap[lower] != "" then p.nameMap[lower] else name
  }

  function AddPreserving(p: Preserving, h: Header): Preserving {
    var key := Casing(p, h.name);
    Preserving(AddHeader(p.headers, key, h.value), p.nameMap[Lower(h.name) := key])
  }

  function PreservingCase(raw: seq<Header>): Preserving {
    if raw == [] then Preserving([], map[])
    else AddPreserving(PreservingCase(raw[..|raw| - 1]), raw[|raw| - 1])
  }

  method RawHeadersToObjectPreservingCase(raw: seq<Header>) returns (headers: seq<Entry>)
    ensures headers == PreservingCase(raw).headers
  {
    hide Find, Lower;
    headers := [];
    var nameMap: map<string, string> := map[];
    for i := 0 to |raw|
      invariant Preserving(headers, nameMap) == PreservingCase(raw[..i])
    {
      assert raw[..i + 1][..i] == raw[..i];
      var key, lowerCaseKey := raw[i].name, Lower(raw[i].name);
      if lowerCaseKey in nameMap && nameMap[lowerCaseKey] != "" {
        key := nameMap[lowerCaseKey];
        assert nameMap[lowerCaseKey := key] == nameMap;
      } else {
        nameMap := nameMap[lowerCaseKey := key];
      }
      headers := Put(headers, key, Merged(Lookup(headers, key), raw[i].value));
    }
    assert raw[..|raw|] == raw;
  }

  function LowerEntries(obj: seq<Entry>): seq<Entry> {
    seq(|obj|, i requires 0 <= i < |obj| => Entry(Lower(obj[i].key), obj[i].value))
  }

  /** The first casing of a name in the list. */
  function FirstCasing(raw: seq<Header>, lower: string): Option<string> {
    if raw == [] then None
    else if Named(raw[0], lower) then Some(raw[0].name)
    else FirstCasing(raw[1..], lower)
  }

  lemma {:induction false} FirstCasingSnoc(raw: seq<Header>, h: Header, lower: string)
    ensures FirstCasing(raw + [h], lower)
         == if FirstCasing(raw, lower).Some? then FirstCasing(raw, lower)
            else if Named(h, lower) then Some(h.name) else None
    ensures FirstCasing(raw, lower).Some? ==> Lower(FirstCasing(raw, lower).value) == lower
    decreases |raw|
  {
    if raw == [] {
      assert raw + [h] == [h] && [h][1..] == [];
    } else {
      assert (raw + [h])[1..] == raw[1..] + [h];
      FirstCasingSnoc(raw[1..], h, lower);
    }
  }

  /** The name map holds the first casing of every name, and every key of the object is one of them. */
  ghost predicate CasingInv(p: Preserving, raw: seq<Header>) {
    && (forall lower :: lower in p.nameMap <==> FirstCasing(raw, lower).Some?)
    && (forall lower :: lower in p.nameMap ==> FirstCasing(raw, lower) == Some(p.nameMap[lower]))
    && (forall lower :: lower in p.nameMap ==> Lower(p.nameMap[lower]) == lower)
    && (forall i :: 0 <= i < |p.headers| ==> CanonicalKey(p, p.headers[i].key))
    && DistinctKeys(p.headers)
  }

  predicate CanonicalKey(p: Preserving, key: string) {
    Lower(key) in p.nameMap && p.nameMap[Lower(key)] == key
  }

  lemma EmptyLower(s: string)
    ensures Lower(s) == "" <==> s == ""
  {
  }

  lemma CasingIsCanonical(p: Preserving, raw: seq<Header>, h: Header)
    requires CasingInv(p, raw)
    ensures FirstCasing(raw + [h], Lower(h.name)) == Some(Casing(p, h.name))
    ensures Lower(Casing(p, h.name)) == Lower(h.name)
  {
    var lower := Lower(h.name);
    FirstCasingSnoc(raw, h, lower);
    EmptyLower(h.name);
    if lower in p.nameMap { EmptyLower(p.nameMap[lower]); }
  }

  lemma StepKeepsCasing(p: Preserving, raw: seq<Header>, h: Header)
    requires CasingInv(p, raw)
    ensures CasingInv(AddPreserving(p, h), raw + [h])
  {
    CasingIsCanonical(p, raw, h);
    var after, name := AddPreserving(p, h), Lower(h.name);
    forall lower
      ensures lower in after.nameMap <==> FirstCasing(raw + [h], lower).Some?
      ensures lower in after.nameMap ==> FirstCasing(raw + [h], lower) == Some(after.nameMap[lower])
      ensures lower in after.nameMap ==> Lower(after.nameMap[lower]) == lower
    {
      FirstCasingSnoc(raw, h, lower);
    }
    assert name in p.nameMap ==> p.nameMap[name] == after.nameMap[name] by { FirstCasingSnoc(raw, h, name); }
    forall i | 0 <= i < |after.headers|
      ensures CanonicalKey(after, after.headers[i].key)
    {
      if i < |p.headers| { assert CanonicalKey(p, p.headers[i].key); }
    }
  }

  lemma LowerStep(p: Preserving, raw: seq<Header>, h: Header)
    requires CasingInv(p, raw)
    ensures LowerEntries(AddPreserving(p, h).headers) == AddHeader(LowerEntries(p.headers), Lower(h.name), h.value)
  {
    CasingIsCanonical(p, raw, h);
    StepKeepsCasing(p, raw, h);
    var key, lower := Casing(p, h.name), Lower(h.name);
    var lowered := LowerEntries(p.headers);
    forall i | 0 <= i < |p.headers|
      ensures p.headers[i].key == key <==> lowered[i].key == lower
    {
      assert CanonicalKey(p, p.headers[i].key);
      FirstCasingSnoc(raw, h, lower);
    }
    if HasKey(p.headers, key) {
      var at := Find(p.headers, key).value;
      assert lowered[at].key == lower;
      var at' := Find(lowered, lower).value;
      assert p.headers[at'].key == key;
      assert at == at';
    }
    assert HasKey(lowered, lower) <==> HasKey(p.headers, key);
  }

  /**
   * The case-preserving object has the first casing of every name as its key, and lowercasing its keys
   * gives exactly the plain object: same order, same values.
   */
  lemma {:induction false} PreservingCaseAgrees(raw: seq<Header>)
    ensures CasingInv(PreservingCase(raw), raw)
    ensures LowerEntries(PreservingCase(raw).headers) == ToObject(raw)
  {
    if raw != [] {
      var front, last := raw[..|raw| - 1], raw[|raw| - 1];
      PreservingCaseAgrees(front);
      assert raw == front + [last];
      StepKeepsCasing(PreservingCase(front), front, last);
      LowerStep(PreservingCase(front), front, last);
      AddAllAppend([], front, [last]);
      assert [last][1..] == [];
    }
  }
}
