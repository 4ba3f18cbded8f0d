/**
 * Raw header lists (src/util/header-utils.ts): pairing and flattening, and updateRawHeaders with its
 * in-place removal loop exactly as it runs.
 */
module Headers {
  import opened Prelude

  datatype Header = Header(name: string, value: string)

  /** An undefined value, one string, or an array of strings. */
  datatype HeaderValue = Missing | One(value: string) | Many(values: seq<string>)

  /** An entry of a header object. Objects are lists of entries in insertion order. */
  datatype Entry = Entry(key: string, value: HeaderValue)

  function LowerChar(c: char): char { if 'A' <= c <= 'Z' then (c as int + 32) as char else c }

  /** toLowerCase on ASCII text. */
  function Lower(s: string): string { seq(|s|, i requires 0 <= i < |s| => LowerChar(s[i])) }

  /** Letters lose their case, everything else stays, place by place. */
  lemma LowerIs(a: string, b: string)
    ensures Lower("ABCDEFGHIJKLMNOPQRSTUVWXYZ") == "abcdefghijklmnopqrstuvwxyz"
    ensures (forall i :: 0 <= i < |a| ==> a[i] !in "ABCDEFGHIJKLMNOPQRSTUVWXYZ") ==> Lower(a) == a
    ensures Lower(a + b) == Lower(a) + Lower(b) && |Lower(a)| == |a|
  {
    forall i | 0 <= i < |a| && a[i] !in "ABCDEFGHIJKLMNOPQRSTUVWXYZ"
      ensures LowerChar(a[i]) == a[i]
    {
      OtherCharsStay(a[i]);
    }
  }

  lemma OtherCharsStay(c: char)
    ensures c !in "ABCDEFGHIJKLMNOPQRSTUVWXYZ" ==> LowerChar(c) == c
  {
    var letters := "ABCDEFGHIJKLMNOPQRSTUVWXYZ";
    assert forall k :: 0 <= k < 26 ==> letters[k] as int == 65 + k;
    if 'A' <= c <= 'Z' { assert letters[c as int - 65] == c; }
  }

  predicate Named(h: Header, lower: string) { Lower(h.name) == lower }

  /** The headers of one name. */
  function Only(raw: seq<Header>, lower: string): seq<Header> {
    if raw == [] then []
    else (if Named(raw[0], lower) then [raw[0]] else []) + Only(raw[1..], lower)
  }

  /** The headers of every other name. */
  function Without(raw: seq<Header>, lower: string): seq<Header> {
    if raw == [] then []
    else (if Named(raw[0], lower) then [] else [raw[0]]) + Without(raw[1..], lower)
  }

  // ---- updateRawHeaders ------------------------------------------------------------------------

  /** One removal pass: after each removal the loop steps over the header that took its place. */
  function RemovePass(raw: seq<Header>, lower: string): seq<Header>
    decreases |raw|
  {
    if raw == [] then []
    else if !Named(raw[0], lower) then [raw[0]] + RemovePass(raw[1..], lower)
    else if |raw| == 1 then []
    else [raw[1]] + RemovePass(raw[2..], lower)
  }

  function RemoveAll(raw: seq<Header>, names: seq<string>): seq<Header>
    decreases |names|
  {
    if names == [] then raw else RemoveAll(RemovePass(raw, names[0]), names[1..])
  }

  function AddedBy(e: Entry): seq<Header> {
    match e.value
    case Missing => []
    case One(v) => [Header(e.key, v)]
    case Many(vs) => seq(|vs|, i requires 0 <= i < |vs| => Header(e.key, vs[i]))
  }

  function Additions(updates: seq<Entry>): seq<Header> {
    if updates == [] then [] else Additions(updates[..|updates| - 1]) + AddedBy(updates[|updates| - 1])
  }

  function LowerKeys(updates: seq<Entry>): seq<string> {
    seq(|updates|, i requires 0 <= i < |updates| => Lower(updates[i].key))
  }

  function Updated(raw: seq<Header>, updates: seq<Entry>): seq<Header> {
    RemoveAll(raw, LowerKeys(updates)) + Additions(updates)
  }

  /** The lowercased names, kept by the source in a second array beside the headers. */
  function Keys(raw: seq<Header>): (keys: seq<string>)
    ensures |keys| == |raw| && forall k :: 0 <= k < |raw| ==> keys[k] == Lower(raw[k].name)
  {
    seq(|raw|, i requires 0 <= i < |raw| => Lower(raw[i].name))
  }

  /** Array.prototype.splice(at, 1). */
  function Splice<T>(s: seq<T>, at: nat): (t: seq<T>)
    requires at < |s|
    ensures |t| == |s| - 1
  {
    s[..at] + s[at + 1..]
  }

  lemma KeysOfSplice(raw: seq<Header>, at: nat)
    requires at < |raw|
    ensures Splice(Keys(raw), at) == Keys(Splice(raw, at))
  {
  }

  /** What is left to do once the pass stands at index i. */
  function PassFrom(raw: seq<Header>, i: nat, lower: string): seq<Header> {
    if i <= |raw| then raw[..i] + RemovePass(raw[i..], lower) else raw
  }

  lemma PassStep(raw: seq<Header>, i: nat, lower: string)
    requires i < |raw|
    ensures PassFrom(raw, i, lower)
         == PassFrom(if Named(raw[i], lower) then Splice(raw, i) else raw, i + 1, lower)
  {
    var rest := raw[i..];
    if !Named(raw[i], lower) {
      assert raw[..i] + [rest[0]] == raw[..i + 1] && rest[1..] == raw[i + 1..];
    } else if |rest| > 1 {
      assert raw[..i] + [rest[1]] == Splice(raw, i)[..i + 1] && rest[2..] == Splice(raw, i)[i + 1..];
    } else {
      assert Splice(raw, i) == raw[..i];
    }
  }

  lemma PassEnds(raw: seq<Header>, i: nat, lower: string)
    requires i >= |raw|
    ensures PassFrom(raw, 0, lower) == RemovePass(raw, lower)
    ensures PassFrom(raw, i, lower) == raw
  {
  }

  /** The inner loop over one key, on both arrays. */
  method RemoveKey(headers: seq<Header>, keys: seq<string>, lower: string)
    returns (headers': seq<Header>, keys': seq<string>)
    requires keys == Keys(headers)
    ensures headers' == RemovePass(headers, lower) && keys' == Keys(headers')
  {
    hide PassFrom, Keys, Splice, RemovePass;
    headers', keys' := headers, keys;
    var i := 0;
    PassEnds(headers, |headers|, lower);
    while i < |keys'|
      invariant keys' == Keys(headers')
      invariant PassFrom(headers', i, lower) == RemovePass(headers, lower)
      decreases |keys'| - i
    {
      PassStep(headers', i, lower);
      KeysOfSplice(headers', i);
      if keys'[i] == lower {
        headers', keys' := Splice(headers', i), Splice(keys', i);
      }
      i := i + 1;
    }
    PassEnds(headers', i, lower);
  }

  /** The removals, in the order of the updates. */
  method RemoveKeys(raw: seq<Header>, updates: seq<Entry>) returns (result: seq<Header>)
    ensures result == RemoveAll(raw, LowerKeys(updates))
  {
    hide Keys, RemovePass, Lower;
    result := raw;
    var keys := Keys(raw);
    ghost var names := LowerKeys(updates);
    assert names[0..] == names;
    for k := 0 to |updates|
      invariant keys == Keys(result) && RemoveAll(raw, names) == RemoveAll(result, names[k..])
    {
      assert names[k..][1..] == names[k + 1..] && names[k..][0] == Lower(updates[k].key);
      result, keys := RemoveKey(result, keys, Lower(updates[k].key));
    }
    assert names[|updates|..] == [];
  }

  /** The additions of one entry. */
  method AddEntry(before: seq<Header>, e: Entry) returns (result: seq<Header>)
    ensures result == before + AddedBy(e)
  {
    result := before;
    match e.value
    case Missing =>
    case One(v) => result := result + [Header(e.key, v)];
    case Many(vs) =>
      for j := 0 to |vs|
        invariant result == before + AddedBy(e)[..j]
      {
        result := result + [Header(e.key, vs[j])];
      }
      assert AddedBy(e)[..|vs|] == AddedBy(e);
  }

  method UpdateRawHeaders(raw: seq<Header>, updates: seq<Entry>) returns (result: seq<Header>)
    ensures result == Updated(raw, updates)
  {
    hide RemoveAll, LowerKeys, AddedBy;
    result := RemoveKeys(raw, updates);
    ghost var kept := result;
    for k := 0 to |updates|
      invariant result == kept + Additions(updates[..k])
    {
      assert updates[..k + 1][..k] == updates[..k];
      result := AddEntry(result, updates[k]);
    }
    assert updates[..|updates|] == updates;
  }

  // ---- What a pass leaves ----------------------------------------------------------------------

  lemma {:induction false} OnlyAppend(a: seq<Header>, b: seq<Header>, lower: string)
    ensures Only(a + b, lower) == Only(a, lower) + Only(b, lower)
    decreases |a|
  {
    if a == [] {
      assert a + b == b;
    } else {
      hide Named;
      OnlyAppend(a[1..], b, lower);
      var first := if Named(a[0], lower) then [a[0]] else [];
      assert (a + b)[0] == a[0] && (a + b)[1..] == a[1..] + b;
      assert first + (Only(a[1..], lower) + Only(b, lower)) == first + Only(a[1..], lower) + Only(b, lower);
    }
  }

  /** The 2nd, 4th, ... of a list. */
  function Evens(run: seq<Header>): seq<Header>
    decreases |run|
  {
    if |run| < 2 then [] else [run[1]] + Evens(run[2..])
  }

  lemma {:induction false} EvensAre(run: seq<Header>)
    ensures |Evens(run)| == |run| / 2 && forall j :: 0 <= j < |run| / 2 ==> Evens(run)[j] == run[2 * j + 1]
    decreases |run|
  {
    if |run| >= 2 {
      EvensAre(run[2..]);
      forall j | 0 <= j < |run| / 2
        ensures Evens(run)[j] == run[2 * j + 1]
      {
        if j > 0 { assert Evens(run)[j] == Evens(run[2..])[j - 1]; }
      }
    }
  }

  /** Of every run of k adjacent matches, the pass keeps floor(k/2): the 2nd, the 4th and so on. */
  lemma {:induction false} RunLeavesHalf(run: seq<Header>, rest: seq<Header>, lower: string)
    requires forall i :: 0 <= i < |run| ==> Named(run[i], lower)
    requires rest == [] || !Named(rest[0], lower)
    ensures RemovePass(run + rest, lower) == Evens(run) + RemovePass(rest, lower)
    decreases |run|
  {
    if run == [] {
      assert run + rest == rest;
    } else if |run| == 1 {
      if rest == [] {
        assert run + rest == run;
      } else {
        assert (run + rest)[2..] == rest[1..];
      }
    } else {
      assert (run + rest)[2..] == run[2..] + rest;
      RunLeavesHalf(run[2..], rest, lower);
    }
  }

  /** Headers of other names survive a pass, in order. */
  lemma {:induction false} PassKeepsOthers(raw: seq<Header>, lower: string, other: string)
    requires other != lower
    ensures Only(RemovePass(raw, lower), other) == Only(raw, other)
    ensures Without(RemovePass(raw, lower), lower) == Without(raw, lower)
    decreases |raw|
  {
    if raw != [] {
      if !Named(raw[0], lower) {
        PassKeepsOthers(raw[1..], lower, other);
        assert ([raw[0]] + RemovePass(raw[1..], lower))[1..] == RemovePass(raw[1..], lower);
      } else if |raw| > 1 {
        PassKeepsOthers(raw[2..], lower, other);
        assert ([raw[1]] + RemovePass(raw[2..], lower))[1..] == RemovePass(raw[2..], lower);
        assert raw[1..][1..] == raw[2..];
      }
    }
  }

  predicate NoAdjacent(raw: seq<Header>, lower: string) {
    forall i :: 0 <= i < |raw| - 1 ==> !(Named(raw[i], lower) && Named(raw[i + 1], lower))
  }

  /** A pass removes all previous values, as intended, exactly when no two of them are adjacent. */
  lemma {:induction false} PassIsCompleteIff(raw: seq<Header>, lower: string)
    ensures RemovePass(raw, lower) == Without(raw, lower) <==> NoAdjacent(raw, lower)
    ensures Only(RemovePass(raw, lower), lower) == [] <==> NoAdjacent(raw, lower)
    decreases |raw|
  {
    if raw != [] {
      if !Named(raw[0], lower) {
        PassIsCompleteIff(raw[1..], lower);
        var tail := RemovePass(raw[1..], lower);
        assert ([raw[0]] + tail)[1..] == tail;
        assert Without(raw, lower) == [raw[0]] + Without(raw[1..], lower);
        assert ([raw[0]] + Without(raw[1..], lower))[1..] == Without(raw[1..], lower);
      } else if |raw| > 1 {
        PassIsCompleteIff(raw[2..], lower);
        var tail := RemovePass(raw[2..], lower);
        assert raw[1..][1..] == raw[2..] && ([raw[1]] + tail)[1..] == tail;
        if Named(raw[1], lower) {
          WithoutHasNone(raw, lower);
          assert RemovePass(raw, lower)[0] == raw[1];
        } else {
          assert Without(raw, lower) == [raw[1]] + Without(raw[2..], lower);
          assert ([raw[1]] + Without(raw[2..], lower))[1..] == Without(raw[2..], lower);
        }
      }
    }
  }

  lemma {:induction false} WithoutHasNone(raw: seq<Header>, lower: string)
    ensures forall i :: 0 <= i < |Without(raw, lower)| ==> !Named(Without(raw, lower)[i], lower)
  {
    if raw != [] { WithoutHasNone(raw[1..], lower); }
  }

  // ---- All the keys ----------------------------------------------------------------------------

  /** The headers the caller means to keep: those of no updated name. */
  function Untouched(raw: seq<Header>, names: set<string>): seq<Header> {
    if raw == [] then []
    else (if Lower(raw[0].name) in names then [] else [raw[0]]) + Untouched(raw[1..], names)
  }

  function Names(names: seq<string>): set<string> { set n | n in names }

  predicate Distinct(names: seq<string>) { forall i, j :: 0 <= i < j < |names| ==> names[i] != names[j] }

  /**
   * No two headers of a name are separated only by headers of names updated before it: without those,
   * no two of its headers are adjacent.
   */
  predicate Separated(raw: seq<Header>, names: seq<string>) {
    forall p :: 0 <= p < |names| ==> NoAdjacent(Untouched(raw, Names(names[..p])), names[p])
  }

  /**
   * The same for names of which some are equal, where a later turn meets what an earlier one left: at the
   * last turn of each name, no two of its headers are adjacent.
   */
  predicate Removable(raw: seq<Header>, names: seq<string>)
    decreases |names|
  {
    names == []
    || ((names[0] in names[1..] || NoAdjacent(raw, names[0])) && Removable(RemovePass(raw, names[0]), names[1..]))
  }

  lemma {:induction false} RemoveAllKeepsOthers(raw: seq<Header>, names: seq<string>, other: string)
    requires other !in names
    ensures Only(RemoveAll(raw, names), other) == Only(raw, other)
    decreases |names|
  {
    if names != [] {
      assert names[0] in names && forall n :: n in names[1..] ==> n in names;
      PassKeepsOthers(raw, names[0], other);
      RemoveAllKeepsOthers(RemovePass(raw, names[0]), names[1..], other);
    }
  }

  lemma {:induction false} UntouchedHasNone(raw: seq<Header>, names: set<string>, lower: string)
    requires lower in names
    ensures Only(Untouched(raw, names), lower) == []
  {
    if raw != [] {
      UntouchedHasNone(raw[1..], names, lower);
      var tail := Untouched(raw[1..], names);
      assert ([raw[0]] + tail)[1..] == tail && [] + tail == tail;
    }
  }

  lemma {:induction false} UntouchedAfterPass(raw: seq<Header>, lower: string, names: set<string>)
    requires lower in names
    ensures Untouched(RemovePass(raw, lower), names) == Untouched(raw, names)
    decreases |raw|
  {
    if raw != [] {
      if !Named(raw[0], lower) {
        UntouchedAfterPass(raw[1..], lower, names);
        assert ([raw[0]] + RemovePass(raw[1..], lower))[1..] == RemovePass(raw[1..], lower);
      } else if |raw| > 1 {
        UntouchedAfterPass(raw[2..], lower, names);
        assert ([raw[1]] + RemovePass(raw[2..], lower))[1..] == RemovePass(raw[2..], lower);
        assert raw[1..][1..] == raw[2..];
      }
    }
  }

  lemma {:induction false} UntouchedOfWithout(raw: seq<Header>, lower: string, names: set<string>)
    ensures Untouched(Without(raw, lower), names) == Untouched(raw, {lower} + names)
  {
    if raw != [] {
      UntouchedOfWithout(raw[1..], lower, names);
      var tail := Without(raw[1..], lower);
      assert ([raw[0]] + tail)[1..] == tail && [] + tail == tail;
    }
  }

  lemma {:induction false} UntouchedByNone(raw: seq<Header>)
    ensures Untouched(raw, {}) == raw
  {
    if raw != [] { UntouchedByNone(raw[1..]); }
  }

  lemma {:induction false} RemovalIsCompleteInTurn(raw: seq<Header>, names: seq<string>)
    ensures RemoveAll(raw, names) == Untouched(raw, Names(names)) <==> Removable(raw, names)
    decreases |names|
  {
    if names == [] {
      UntouchedByNone(raw);
      assert Names(names) == {};
    } else {
      var name, others := names[0], names[1..];
      assert Names(names) == {name} + Names(others);
      PassIsCompleteIff(raw, name);
      RemovalIsCompleteInTurn(RemovePass(raw, name), others);
      if name in others {
        assert Names(names) == Names(others);
        UntouchedAfterPass(raw, name, Names(others));
      } else if NoAdjacent(raw, name) {
        UntouchedOfWithout(raw, name, Names(others));
      } else {
        RemoveAllKeepsOthers(RemovePass(raw, name), others, name);
        UntouchedHasNone(raw, Names(names), name);
      }
    }
  }

  /** For different names the condition can be read off the headers as they are. */
  lemma {:induction false} RemovableIffSeparated(raw: seq<Header>, names: seq<string>)
    requires Distinct(names)
    ensures Removable(raw, names) <==> Separated(raw, names)
    decreases |names|
  {
    if names != [] {
      hide NoAdjacent, RemovePass, Without, Untouched, Names;
      var name, others := names[0], names[1..];
      assert name !in others;
      UntouchedBefore(raw, names, 0);
      PassIsCompleteIff(raw, name);
      if NoAdjacent(raw, name) {
        RemovableIffSeparated(Without(raw, name), others);
        forall p | 0 <= p < |others|
          ensures Untouched(Without(raw, name), Names(others[..p])) == Untouched(raw, Names(names[..p + 1]))
        {
          UntouchedBefore(raw, names, p);
        }
      }
    }
  }

  lemma UntouchedBefore(raw: seq<Header>, names: seq<string>, p: nat)
    requires p < |names|
    ensures Untouched(raw, Names(names[..0])) == raw
    ensures Untouched(Without(raw, names[0]), Names(names[1..][..p])) == Untouched(raw, Names(names[..p + 1]))
  {
    var before := names[1..][..p];
    UntouchedByNone(raw);
    assert Names(names[..0]) == {};
    UntouchedOfWithout(raw, names[0], Names(before));
    assert names[..p + 1] == [names[0]] + before;
    assert Names(names[..p + 1]) == {names[0]} + Names(before);
  }

  /**
   * The removals of updateRawHeaders do what its comment says - every previous value of every updated
   * name is gone, and nothing else is - exactly when the names are separated or, for names of which some
   * are equal, removable.
   */
  lemma RemovalIsCompleteIff(raw: seq<Header>, names: seq<string>)
    ensures RemoveAll(raw, names) == Untouched(raw, Names(names)) <==> Removable(raw, names)
    ensures Distinct(names) ==> (RemoveAll(raw, names) == Untouched(raw, Names(names)) <==> Separated(raw, names))
  {
    RemovalIsCompleteInTurn(raw, names);
    if Distinct(names) { RemovableIffSeparated(raw, names); }
  }

  /** What updateRawHeaders is for: the updated headers replaced, the others as they were. */
  predicate Replaces(raw: seq<Header>, updates: seq<Entry>) {
    Updated(raw, updates) == Untouched(raw, Names(LowerKeys(updates))) + Additions(updates)
  }

  /** It does that exactly when its keys are separated or, if some are equal when lowercased, removable. */
  lemma UpdateReplacesIff(raw: seq<Header>, updates: seq<Entry>)
    ensures Replaces(raw, updates) <==> Removable(raw, LowerKeys(updates))
    ensures Distinct(LowerKeys(updates)) ==> (Replaces(raw, updates) <==> Separated(raw, LowerKeys(updates)))
  {
    var left, right := RemoveAll(raw, LowerKeys(updates)), Untouched(raw, Names(LowerKeys(updates)));
    RemovalIsCompleteIff(raw, LowerKeys(updates));
    if left + Additions(updates) == right + Additions(updates) {
      assert |left| == |right|;
      assert left == (left + Additions(updates))[..|left|] == (right + Additions(updates))[..|left|] == right;
    }
  }

  lemma {:induction false} PassShortens(raw: seq<Header>, lower: string, other: string)
    ensures |Only(RemovePass(raw, lower), other)| <= |Only(raw, other)|
    decreases |raw|
  {
    if other != lower {
      PassKeepsOthers(raw, lower, other);
    } else if raw != [] {
      if !Named(raw[0], lower) {
        PassShortens(raw[1..], lower, other);
        assert ([raw[0]] + RemovePass(raw[1..], lower))[1..] == RemovePass(raw[1..], lower);
      } else if |raw| > 1 {
        PassShortens(raw[2..], lower, other);
        assert ([raw[1]] + RemovePass(raw[2..], lower))[1..] == RemovePass(raw[2..], lower);
        assert raw[1..][1..] == raw[2..];
      }
    }
  }

  /** In particular they do when no updated name occurs more than once. */
  lemma {:induction false} SingleNamesAreRemoved(raw: seq<Header>, names: seq<string>)
    requires forall n :: n in names ==> |Only(raw, n)| <= 1
    ensures RemoveAll(raw, names) == Untouched(raw, Names(names)) && Removable(raw, names)
    decreases |names|
  {
    if names != [] {
      assert names[0] in names && forall n :: n in names[1..] ==> n in names;
      SingleIsNotAdjacent(raw, names[0]);
      forall n | n in names[1..]
        ensures |Only(RemovePass(raw, names[0]), n)| <= 1
      {
        PassShortens(raw, names[0], n);
      }
      SingleNamesAreRemoved(RemovePass(raw, names[0]), names[1..]);
    }
    RemovalIsCompleteIff(raw, names);
  }

  /** A name that occurs once is removed whatever happens to the other names. */
  lemma {:induction false} SingleIsRemoved(raw: seq<Header>, names: seq<string>, name: string)
    requires |Only(raw, name)| <= 1
    ensures Only(RemoveAll(raw, names), name) == if name in names then [] else Only(raw, name)
    decreases |names|
  {
    if names != [] {
      assert names == [names[0]] + names[1..];
      PassShortens(raw, names[0], name);
      SingleIsRemoved(RemovePass(raw, names[0]), names[1..], name);
      if names[0] == name {
        SingleIsNotAdjacent(raw, name);
        PassIsCompleteIff(raw, name);
      } else {
        PassKeepsOthers(raw, names[0], name);
      }
    }
  }

  lemma {:induction false} SingleIsNotAdjacent(raw: seq<Header>, lower: string)
    requires |Only(raw, lower)| <= 1
    ensures NoAdjacent(raw, lower)
    decreases |raw|
  {
    if |raw| > 0 {
      SingleIsNotAdjacent(raw[1..], lower);
      if |raw| > 1 { assert raw[1..][0] == raw[1]; }
    }
  }

  // ---- Pairing and flattening ------------------------------------------------------------------

  /** Pairs of a flat list; an odd list ends in a pair whose second part is undefined. */
  function Paired<T>(flat: seq<T>, undefined: T): seq<(T, T)>
    decreases |flat|
  {
    if flat == [] then []
    else if |flat| == 1 then [(flat[0], undefined)]
    else [(flat[0], flat[1])] + Paired(flat[2..], undefined)
  }

  function PairsFrom<T>(flat: seq<T>, i: nat, undefined: T): seq<(T, T)> {
    if i <= |flat| then Paired(flat[i..], undefined) else []
  }

  lemma PairsFromStep<T>(flat: seq<T>, i: nat, undefined: T)
    requires i < |flat|
    ensures PairsFrom(flat, i, undefined)
         == [(flat[i], if i + 1 < |flat| then flat[i + 1] else undefined)] + PairsFrom(flat, i + 2, undefined)
  {
  }

  method PairFlatRawHeaders<T>(flat: seq<T>, undefined: T) returns (result: seq<(T, T)>)
    ensures result == Paired(flat, undefined)
  {
    result := [];
    var i := 0;
    assert flat[0..] == flat;
    while i < |flat|
      invariant Paired(flat, undefined) == result + PairsFrom(flat, i, undefined)
      decreases |flat| - i
    {
      hide PairsFrom, Paired;
      PairsFromStep(flat, i, undefined);
      result := result + [(flat[i], if i + 1 < |flat| then flat[i + 1] else undefined)];
      i := i + 2;
    }
  }

  function Flat<T>(pairs: seq<(T, T)>): seq<T> {
    if pairs == [] then [] else [pairs[0].0, pairs[0].1] + Flat(pairs[1..])
  }

  lemma {:induction false} FlatAt<T>(pairs: seq<(T, T)>)
    ensures |Flat(pairs)| == 2 * |pairs|
    ensures forall i :: 0 <= i < |pairs| ==> Flat(pairs)[2 * i] == pairs[i].0 && Flat(pairs)[2 * i + 1] == pairs[i].1
  {
    if pairs != [] {
      FlatAt(pairs[1..]);
      forall i | 0 <= i < |pairs|
        ensures Flat(pairs)[2 * i] == pairs[i].0 && Flat(pairs)[2 * i + 1] == pairs[i].1
      {
        if i > 0 {
          assert pairs[i] == pairs[1..][i - 1];
          assert Flat(pairs)[2 * i] == Flat(pairs[1..])[2 * (i - 1)];
          assert Flat(pairs)[2 * i + 1] == Flat(pairs[1..])[2 * (i - 1) + 1];
        }
      }
    }
  }

  /** The loop fills a preallocated array of twice the length. */
  method FlattenPairedRawHeaders(pairs: seq<(string, string)>) returns (result: array<string>)
    ensures fresh(result) && result[..] == Flat(pairs)
  {
    result := new string[2 * |pairs|];
    for i := 0 to |pairs|
      invariant forall j :: 0 <= j < i ==> result[2 * j] == pairs[j].0 && result[2 * j + 1] == pairs[j].1
    {
      result[2 * i] := pairs[i].0;
      result[2 * i + 1] := pairs[i].1;
    }
    FlatAt(pairs);
    forall k | 0 <= k < 2 * |pairs|
      ensures result[k] == Flat(pairs)[k]
    {
      var i := k / 2;
      assert result[2 * i] == pairs[i].0 && result[2 * i + 1] == pairs[i].1;
      assert k == 2 * i || k == 2 * i + 1;
    }
  }

  /** Pairing undoes flattening always, and flattening undoes pairing exactly on even-length lists. */
  lemma {:induction false} FlattenUndoesPairingIff<T>(flat: seq<T>, undefined: T)
    ensures Flat(Paired(flat, undefined)) == flat <==> |flat| % 2 == 0
    ensures |Flat(Paired(flat, undefined))| == |flat| + |flat| % 2
    decreases |flat|
  {
    if |flat| == 1 {
      assert Flat(Paired(flat, undefined)) == [flat[0], undefined] + Flat<T>([]);
    } else if |flat| > 1 {
      FlattenUndoesPairingIff(flat[2..], undefined);
      var tail := Paired(flat[2..], undefined);
      assert ([(flat[0], flat[1])] + tail)[1..] == tail;
      assert Flat(Paired(flat, undefined)) == [flat[0], flat[1]] + Flat(tail);
      assert ([flat[0], flat[1]] + Flat(tail))[2..] == Flat(tail) && flat == [flat[0], flat[1]] + flat[2..];
    }
  }

  lemma {:induction false} PairingUndoesFlattening<T>(pairs: seq<(T, T)>, undefined: T)
    ensures Paired(Flat(pairs), undefined) == pairs
    decreases |pairs|
  {
    if pairs != [] {
      PairingUndoesFlattening(pairs[1..], undefined);
      assert Flat(pairs)[2..] == Flat(pairs[1..]);
    }
  }
}
