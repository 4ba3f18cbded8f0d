/**
 * Proxy configuration sent to another process and used there (serializeProxyConfig and
 * deserializeProxyConfig in src/serialization/serialization.ts, getProxySetting in
 * src/rules/proxy-config.ts, dereferenceParam in src/rules/rule-parameters.ts).
 */
module ProxyConfig {
  import opened Prelude

  /** A certificate given as text, as a buffer, as the plain object that JSON makes of a buffer, or by path. */
  datatype CA = Cert(text: string) | CertBuffer(bytes: Bytes) | CertObject(bytes: Bytes) | CertPath(path: string)

  datatype Setting = Setting(
    proxyUrl: string,
    noProxy: Option<seq<string>>,
    trustedCAs: Option<seq<CA>>,
    additionalTrustedCAs: Option<seq<CA>>)

  type Callback = string -> Option<Setting>

  /** A config; without parameter references it is a setting source. */
  datatype Config =
    | Undefined
    | Fixed(setting: Setting)
    | Function(callback: Callback)
    | Many(configs: seq<Config>)
    | Param(key: string)

  datatype Serialized =
    | SUndefined
    | SSetting(setting: Setting)
    | SCallback(id: nat)
    | SMany(items: seq<Serialized>)
    | SParam(key: string)

  // ---- Using a source --------------------------------------------------------------------------

  ghost function Eval(source: Config, hostname: string): Option<Setting>
    decreases source
  {
    match source
    case Fixed(setting) => Some(setting)
    case Function(callback) => callback(hostname)
    case Many(configs) => EvalFirst(configs, hostname)
    case _ => None
  }

  /** The first source in the list that has a setting. */
  ghost function EvalFirst(configs: seq<Config>, hostname: string): Option<Setting>
    decreases configs
  {
    if configs == [] then None
    else
      var first := Eval(configs[0], hostname);
      if first.Some? then first else EvalFirst(configs[1..], hostname)
  }

  method GetProxySetting(source: Config, hostname: string) returns (result: Option<Setting>)
    ensures result == Eval(source, hostname)
    decreases source
  {
    result := None;
    match source
    case Function(callback) => result := callback(hostname);
    case Many(configs) =>
      for i := 0 to |configs|
        invariant result.None? && EvalFirst(configs, hostname) == EvalFirst(configs[i..], hostname)
      {
        result := GetProxySetting(configs[i], hostname);
        assert configs[i..][0] == configs[i] && configs[i..][1..] == configs[i + 1..];
        if result.Some? {
          break;
        }
      }
    case Fixed(setting) => result := Some(setting);
    case _ =>
  }

  // ---- Sending and receiving -------------------------------------------------------------------

  /** What toString makes of a plain object. */
  const OBJECT_TEXT := "[object Object]"

  /** cert.toString('utf8') on ASCII text. */
  function Text(b: Bytes): string { seq(|b|, i requires 0 <= i < |b| => b[i] as char) }

  function PlainCA(c: CA): CA {
    match c
    case CertBuffer(bytes) => Cert(Text(bytes))
    case CertObject(_) => Cert(OBJECT_TEXT)
    case _ => c
  }

  /** What JSON.stringify and JSON.parse make of a certificate. */
  function JsonCA(c: CA): CA { if c.CertBuffer? then CertObject(c.bytes) else c }

  function MapCAs(f: CA -> CA, cas: Option<seq<CA>>): Option<seq<CA>> {
    match cas
    case None => None
    case Some(list) => Some(seq(|list|, i requires 0 <= i < |list| => f(list[i])))
  }

  /** A setting with its certificates as text, which is how getCA reads them. */
  function Plain(s: Setting): Setting {
    s.(trustedCAs := MapCAs(PlainCA, s.trustedCAs), additionalTrustedCAs := MapCAs(PlainCA, s.additionalTrustedCAs))
  }

  /** A setting after it was sent as JSON. */
  function Json(s: Setting): Setting {
    s.(trustedCAs := MapCAs(JsonCA, s.trustedCAs), additionalTrustedCAs := MapCAs(JsonCA, s.additionalTrustedCAs))
  }

  /** The request handlers on the sending end of the channel, by callback id; ids are not reused. */
  datatype Registry = Registry(handlers: map<nat, Callback>, next: nat) {
    ghost predicate Valid() { forall id :: id in handlers ==> id < next }

    /** Everything registered before is still registered. */
    ghost predicate Within(later: Registry) {
      next <= later.next && forall id :: id in handlers ==> id in later.handlers && later.handlers[id] == handlers[id]
    }
  }

  function Serialize(c: Config, r: Registry): (Serialized, Registry)
    decreases c
  {
    match c
    case Function(callback) => (SCallback(r.next), Registry(r.handlers[r.next := callback], r.next + 1))
    case Many(configs) =>
      var (items, r') := SerializeAll(configs, r);
      (SMany(items), r')
    case Param(key) =>
      // A reference with an empty key is not recognised as one, and travels as a setting with no fields.
      if key != "" then (SParam(key), r) else (SSetting(Setting("", None, None, None)), r)
    case Fixed(setting) => (SSetting(Plain(setting)), r)
    case Undefined => (SUndefined, r)
  }

  function SerializeAll(configs: seq<Config>, r: Registry): (seq<Serialized>, Registry)
    decreases configs
  {
    if configs == [] then ([], r)
    else
      var (first, r1) := Serialize(configs[0], r);
      var (rest, r2) := SerializeAll(configs[1..], r1);
      ([first] + rest, r2)
  }

  /** A received callback asks the channel and gets JSON back; a handler that is not there never answers. */
  function Remote(id: nat, r: Registry): Callback {
    (hostname: string) =>
      if id !in r.handlers then None
      else
        var answer := r.handlers[id](hostname);
        if answer.Some? then Some(Json(answer.value)) else None
  }

  /** The error is the first undefined parameter met. */
  function Deserialize(s: Serialized, r: Registry, params: map<string, Config>): Result<Config, string>
    decreases s
  {
    match s
    case SCallback(id) => Ok(Function(Remote(id, r)))
    case SMany(items) =>
      (match DeserializeAll(items, r, params)
       case Ok(configs) => Ok(Many(configs))
       case Err(key) => Err(key))
    case SParam(key) => if key in params then Ok(params[key]) else Err(key)
    case SSetting(setting) => Ok(Fixed(setting))
    case SUndefined => Ok(Undefined)
  }

  function DeserializeAll(items: seq<Serialized>, r: Registry, params: map<string, Config>): Result<seq<Config>, string>
    decreases items
  {
    if items == [] then Ok([])
    else
      match Deserialize(items[0], r, params)
      case Err(key) => Err(key)
      case Ok(first) =>
        match DeserializeAll(items[1..], r, params)
        case Err(key) => Err(key)
        case Ok(rest) => Ok([first] + rest)
  }

  // ---- The meaning that should survive ---------------------------------------------------------

  /** The config with every reference replaced by its parameter. */
  ghost function Resolve(c: Config, params: map<string, Config>): Result<Config, string>
    decreases c
  {
    match c
    case Many(configs) =>
      (match ResolveAll(configs, params)
       case Ok(resolved) => Ok(Many(resolved))
       case Err(key) => Err(key))
    case Param(key) => if key in params then Ok(params[key]) else Err(key)
    case _ => Ok(c)
  }

  ghost function ResolveAll(configs: seq<Config>, params: map<string, Config>): Result<seq<Config>, string>
    decreases configs
  {
    if configs == [] then Ok([])
    else
      match Resolve(configs[0], params)
      case Err(key) => Err(key)
      case Ok(first) =>
        match ResolveAll(configs[1..], params)
        case Err(key) => Err(key)
        case Ok(rest) => Ok([first] + rest)
  }

  /** Every reference names its parameter. */
  ghost predicate Named(c: Config)
    decreases c
  {
    match c
    case Many(configs) => forall i :: 0 <= i < |configs| ==> Named(configs[i])
    case Param(key) => key != ""
    case _ => true
  }

  ghost predicate SameSetting(a: Option<Setting>, b: Option<Setting>) {
    a.Some? == b.Some? && (a.Some? ==> Plain(a.value) == Plain(b.value))
  }

  ghost predicate SameAt(a: Config, b: Config, h: string) { SameSetting(Eval(a, h), Eval(b, h)) }

  ghost predicate SameMeaning(a: Config, b: Config) { forall h: string :: SameAt(a, b, h) }

  ghost predicate Agree(received: Result<Config, string>, intended: Result<Config, string>) {
    match intended
    case Err(key) => received == Err(key)
    case Ok(config) => received.Ok? && SameMeaning(received.value, config)
  }

  /** No certificate is a buffer, unless its text is what is made of every buffer anyway. */
  predicate NoBuffers(cas: Option<seq<CA>>) {
    cas.Some? ==>
      forall i :: 0 <= i < |cas.value| && cas.value[i].CertBuffer? ==> Text(cas.value[i].bytes) == OBJECT_TEXT
  }

  predicate Portable(s: Setting) { NoBuffers(s.trustedCAs) && NoBuffers(s.additionalTrustedCAs) }

  /**
   * The source within a config that answers for a host, and so decides: the first with a setting. It is
   * the reference itself when its parameter answers; one without a parameter counts for nothing.
   */
  ghost function Answerer(c: Config, params: map<string, Config>, h: string): Option<Config>
    decreases c
  {
    match c
    case Many(configs) => FirstAnswerer(configs, params, h)
    case Param(key) => if key in params && Eval(params[key], h).Some? then Some(c) else None
    case _ => if Eval(c, h).Some? then Some(c) else None
  }

  ghost function FirstAnswerer(configs: seq<Config>, params: map<string, Config>, h: string): Option<Config>
    decreases configs
  {
    if configs == [] then None
    else
      var first := Answerer(configs[0], params, h);
      if first.Some? then first else FirstAnswerer(configs[1..], params, h)
  }

  /** The source is not a callback whose answer holds a buffer. */
  ghost predicate AnswersPortably(source: Option<Config>, h: string) {
    source.Some? && source.value.Function?
    ==> source.value.callback(h).None? || Portable(source.value.callback(h).value)
  }

  /** For this host the meaning does not hang on a buffer in a callback's answer. */
  ghost predicate DecidedPortably(c: Config, params: map<string, Config>, h: string) {
    AnswersPortably(Answerer(c, params, h), h)
  }

  lemma MapsAgree(cas: Option<seq<CA>>)
    ensures MapCAs(PlainCA, MapCAs(PlainCA, cas)) == MapCAs(PlainCA, cas)
    ensures MapCAs(PlainCA, MapCAs(JsonCA, cas)) == MapCAs(PlainCA, cas) <==> NoBuffers(cas)
  {
    if cas.Some? {
      var list, plain := cas.value, MapCAs(PlainCA, cas).value;
      var twice, json := MapCAs(PlainCA, Some(plain)).value, MapCAs(PlainCA, MapCAs(JsonCA, cas)).value;
      forall i | 0 <= i < |list|
        ensures plain[i] == PlainCA(list[i]) && twice[i] == plain[i] && json[i] == PlainCA(JsonCA(list[i]))
      {
        assert twice[i] == PlainCA(plain[i]);
        assert MapCAs(JsonCA, cas).value[i] == JsonCA(list[i]);
      }
      assert twice == plain;
      if NoBuffers(cas) { assert json == plain; }
    }
  }

  /** Sent as text a setting means the same; sent as JSON it does exactly if it holds no buffer. */
  lemma JsonKeepsMeaningIffPortable(s: Setting)
    ensures Plain(Plain(s)) == Plain(s)
    ensures Plain(Json(s)) == Plain(s) <==> Portable(s)
  {
    hide MapCAs, NoBuffers;
    MapsAgree(s.trustedCAs);
    MapsAgree(s.additionalTrustedCAs);
  }

  lemma {:induction false} SerializeExtends(c: Config, r: Registry)
    requires r.Valid()
    ensures Serialize(c, r).1.Valid() && r.Within(Serialize(c, r).1)
    decreases c
  {
    if c.Many? { SerializeAllExtends(c.configs, r); }
  }

  lemma {:induction false} SerializeAllExtends(configs: seq<Config>, r: Registry)
    requires r.Valid()
    ensures SerializeAll(configs, r).1.Valid() && r.Within(SerializeAll(configs, r).1)
    decreases configs
  {
    if configs != [] {
      SerializeExtends(configs[0], r);
      SerializeAllExtends(configs[1..], Serialize(configs[0], r).1);
    }
  }

  /** For one host: the received config answers if the original does, and the same exactly if portably. */
  ghost predicate AgreesAt(received: Option<Setting>, intended: Option<Setting>, source: Option<Config>, h: string) {
    && received.Some? == intended.Some? == source.Some?
    && (SameSetting(received, intended) <==> AnswersPortably(source, h))
  }

  lemma {:induction false} ReceivedAgreesAt(c: Config, r: Registry, later: Registry,
                                            params: map<string, Config>, h: string)
    requires Named(c) && r.Valid() && Serialize(c, r).1.Within(later)
    ensures var received := Deserialize(Serialize(c, r).0, later, params);
      match Resolve(c, params)
      case Err(key) => received == Err(key)
      case Ok(intended) =>
        received.Ok? && AgreesAt(Eval(received.value, h), Eval(intended, h), Answerer(c, params, h), h)
    decreases c
  {
    hide Plain, Json, Portable;
    match c
    case Fixed(setting) => JsonKeepsMeaningIffPortable(setting);
    case Function(callback) =>
      assert later.handlers[r.next] == callback;
      if callback(h).Some? { JsonKeepsMeaningIffPortable(callback(h).value); }
    case Many(configs) => ReceivedAgreeAt(configs, r, later, params, h);
    case _ =>
  }

  lemma {:induction false} ReceivedAgreeAt(configs: seq<Config>, r: Registry, later: Registry,
                                           params: map<string, Config>, h: string)
    requires (forall i :: 0 <= i < |configs| ==> Named(configs[i])) && r.Valid()
    requires SerializeAll(configs, r).1.Within(later)
    ensures var received := DeserializeAll(SerializeAll(configs, r).0, later, params);
      match ResolveAll(configs, params)
      case Err(key) => received == Err(key)
      case Ok(intended) =>
        && received.Ok?
        && AgreesAt(EvalFirst(received.value, h), EvalFirst(intended, h), FirstAnswerer(configs, params, h), h)
    decreases configs
  {
    hide SameSetting, AnswersPortably;
    if configs == [] {
      assert AgreesAt(None, None, None, h) by { NothingAgrees(h); }
    } else {
      var (first, r1) := Serialize(configs[0], r);
      var (rest, r2) := SerializeAll(configs[1..], r1);
      SerializeExtends(configs[0], r);
      SerializeAllExtends(configs[1..], r1);
      ReceivedAgreesAt(configs[0], r, later, params, h);
      ReceivedAgreeAt(configs[1..], r1, later, params, h);
      assert ([first] + rest)[1..] == rest;
    }
  }

  lemma NothingAgrees(h: string)
    ensures AgreesAt(None, None, None, h)
  {
  }

  /**
   * When meaning survives the journey, for every nested config and every set of parameters: an undefined
   * reference is always reported by its key; otherwise the received config gives the setting that the
   * original gives with its references replaced, for every host, exactly if no callback that decides
   * answers with a buffer for a certificate. This asks that references have non-empty keys.
   */
  lemma SerializationKeepsMeaning(c: Config, r: Registry, later: Registry, params: map<string, Config>)
    requires Named(c) && r.Valid() && Serialize(c, r).1.Within(later)
    ensures Agree(Deserialize(Serialize(c, r).0, later, params), Resolve(c, params))
      <==> Resolve(c, params).Err? || forall h: string :: DecidedPortably(c, params, h)
  {
    hide Answerer, AnswersPortably, SameSetting, Eval, Serialize, Deserialize, Resolve;
    var received, intended := Deserialize(Serialize(c, r).0, later, params), Resolve(c, params);
    ReceivedAgreesAt(c, r, later, params, "");
    if intended.Ok? {
      forall h: string
        ensures SameAt(received.value, intended.value, h) <==> DecidedPortably(c, params, h)
      {
        ReceivedAgreesAt(c, r, later, params, h);
      }
      assert SameMeaning(received.value, intended.value) <==> forall h: string :: DecidedPortably(c, params, h);
    }
  }

  /** The same certificate: a buffer as the text of exactly its bytes, any other as it was. */
  predicate SameCertificate(sent: CA, arrived: CA) {
    if sent.CertBuffer? then
      && arrived.Cert? && |arrived.text| == |sent.bytes|
      && forall i :: 0 <= i < |sent.bytes| ==> arrived.text[i] as int == sent.bytes[i]
    else if sent.CertObject? then arrived == Cert("[object Object]")
    else arrived == sent
  }

  predicate SameCertificates(sent: Option<seq<CA>>, arrived: Option<seq<CA>>) {
    match sent
    case None => arrived.None?
    case Some(list) =>
      && arrived.Some? && |arrived.value| == |list|
      && forall i :: 0 <= i < |list| ==> SameCertificate(list[i], arrived.value[i])
  }

  lemma PlainCertificatesAreSame(cas: Option<seq<CA>>)
    ensures SameCertificates(cas, MapCAs(PlainCA, cas))
  {
    if cas.Some? {
      forall i | 0 <= i < |cas.value|
        ensures SameCertificate(cas.value[i], MapCAs(PlainCA, cas).value[i])
      {
        assert MapCAs(PlainCA, cas).value[i] == PlainCA(cas.value[i]);
      }
    }
  }

  /** A fixed setting arrives whole. */
  lemma FixedSettingArrives(setting: Setting, r: Registry, params: map<string, Config>)
    ensures Deserialize(Serialize(Fixed(setting), r).0, r, params).Ok?
    ensures var arrived := Deserialize(Serialize(Fixed(setting), r).0, r, params).value;
      && arrived.Fixed? && arrived.setting.proxyUrl == setting.proxyUrl && arrived.setting.noProxy == setting.noProxy
      && SameCertificates(setting.trustedCAs, arrived.setting.trustedCAs)
      && SameCertificates(setting.additionalTrustedCAs, arrived.setting.additionalTrustedCAs)
  {
    PlainCertificatesAreSame(setting.trustedCAs);
    PlainCertificatesAreSame(setting.additionalTrustedCAs);
  }

  /** A callback's certificates arrive garbled where those of the same setting given outright do not. */
  lemma BufferFromCallbackIsLost(bytes: Bytes, r: Registry)
    requires r.Valid() && Text(bytes) != OBJECT_TEXT
    ensures var setting := Setting("https://proxy", None, Some([CertBuffer(bytes)]), None);
      var (callback, fixed) := (Function((h: string) => Some(setting)), Fixed(setting));
      && !Agree(Deserialize(Serialize(callback, r).0, Serialize(callback, r).1, map[]), Ok(callback))
      && Agree(Deserialize(Serialize(fixed, r).0, Serialize(fixed, r).1, map[]), Ok(fixed))
  {
    var setting := Setting("https://proxy", None, Some([CertBuffer(bytes)]), None);
    var (callback, fixed) := (Function((h: string) => Some(setting)), Fixed(setting));
    assert setting.trustedCAs.value[0].CertBuffer?;
    SerializeExtends(callback, r);
    SerializeExtends(fixed, r);
    SerializationKeepsMeaning(fixed, r, Serialize(fixed, r).1, map[]);
    SerializationKeepsMeaning(callback, r, Serialize(callback, r).1, map[]);
    assert !DecidedPortably(callback, map[], "");
    assert forall h: string :: DecidedPortably(fixed, map[], h);
  }

  // ---- Under all parameters --------------------------------------------------------------------

  /** Every reference but the unnamed ones is defined. */
  ghost predicate Covers(params: map<string, Config>, c: Config)
    decreases c
  {
    match c
    case Many(configs) => forall i :: 0 <= i < |configs| ==> Covers(params, configs[i])
    case Param(key) => key == "" || key in params
    case _ => true
  }

  ghost predicate AllUndefined(params: map<string, Config>) { forall key :: key in params ==> params[key] == Undefined }

  /** Parameters that define the named references of a config. */
  ghost function ParamsFor(c: Config): (params: map<string, Config>)
    ensures "" !in params && AllUndefined(params)
    decreases c
  {
    match c
    case Many(configs) => ParamsForAll(configs)
    case Param(key) => if key == "" then map[] else map[key := Undefined]
    case _ => map[]
  }

  ghost function ParamsForAll(configs: seq<Config>): (params: map<string, Config>)
    ensures "" !in params && AllUndefined(params)
    decreases configs
  {
    if configs == [] then map[] else ParamsFor(configs[0]) + ParamsForAll(configs[1..])
  }

  lemma {:induction false} CoversMore(params: map<string, Config>, more: map<string, Config>, c: Config)
    requires Covers(params, c) && params.Keys <= more.Keys
    ensures Covers(more, c)
    decreases c
  {
    if c.Many? {
      forall i | 0 <= i < |c.configs|
        ensures Covers(more, c.configs[i])
      {
        CoversMore(params, more, c.configs[i]);
      }
    }
  }

  lemma {:induction false} ParamsForCovers(c: Config)
    ensures Covers(ParamsFor(c), c)
    decreases c
  {
    if c.Many? { ParamsForAllCovers(c.configs); }
  }

  lemma {:induction false} ParamsForAllCovers(configs: seq<Config>)
    ensures forall i :: 0 <= i < |configs| ==> Covers(ParamsForAll(configs), configs[i])
    decreases configs
  {
    if configs != [] {
      ParamsForCovers(configs[0]);
      ParamsForAllCovers(configs[1..]);
      forall i | 0 <= i < |configs|
        ensures Covers(ParamsForAll(configs), configs[i])
      {
        if i == 0 {
          CoversMore(ParamsFor(configs[0]), ParamsForAll(configs), configs[0]);
        } else {
          assert configs[i] == configs[1..][i - 1];
          CoversMore(ParamsForAll(configs[1..]), ParamsForAll(configs), configs[i]);
        }
      }
    }
  }

  /** With only the unnamed references undefined, the sender's side is an error and the receiver's is not. */
  lemma {:induction false} UnnamedIsMissed(c: Config, r: Registry, later: Registry, params: map<string, Config>)
    requires Covers(params, c) && "" !in params
    ensures Deserialize(Serialize(c, r).0, later, params).Ok?
    ensures Resolve(c, params).Ok? ==> Named(c)
    decreases c
  {
    if c.Many? { UnnamedAreMissed(c.configs, r, later, params); }
  }

  lemma {:induction false} UnnamedAreMissed(configs: seq<Config>, r: Registry, later: Registry,
                                            params: map<string, Config>)
    requires (forall i :: 0 <= i < |configs| ==> Covers(params, configs[i])) && "" !in params
    ensures DeserializeAll(SerializeAll(configs, r).0, later, params).Ok?
    ensures ResolveAll(configs, params).Ok? ==> forall i :: 0 <= i < |configs| ==> Named(configs[i])
    decreases configs
  {
    if configs != [] {
      var (first, r1) := Serialize(configs[0], r);
      var (rest, r2) := SerializeAll(configs[1..], r1);
      UnnamedIsMissed(configs[0], r, later, params);
      UnnamedAreMissed(configs[1..], r1, later, params);
      assert ([first] + rest)[1..] == rest;
      assert forall i :: 1 <= i < |configs| ==> configs[i] == configs[1..][i - 1];
    }
  }

  /** Parameters can only take decisions away from the other sources, and undefined ones take none. */
  lemma {:induction false} ParamsOnlyPreempt(c: Config, params: map<string, Config>, h: string)
    ensures var source := Answerer(c, params, h);
      source == Answerer(c, map[], h) || (source.Some? && source.value.Param? && !AllUndefined(params))
    decreases c
  {
    if c.Many? { ParamsOnlyPreemptAll(c.configs, params, h); }
  }

  lemma {:induction false} ParamsOnlyPreemptAll(configs: seq<Config>, params: map<string, Config>, h: string)
    ensures var source := FirstAnswerer(configs, params, h);
      source == FirstAnswerer(configs, map[], h) || (source.Some? && source.value.Param? && !AllUndefined(params))
    decreases configs
  {
    if configs != [] {
      ParamsOnlyPreempt(configs[0], params, h);
      ParamsOnlyPreemptAll(configs[1..], params, h);
    }
  }

  /**
   * The journey keeps the meaning under all parameters exactly when every reference is named and, for
   * every host, the source that decides when no reference does is not a callback answering with a buffer.
   */
  lemma MeaningIsKeptIff(c: Config, r: Registry, later: Registry)
    requires r.Valid() && Serialize(c, r).1.Within(later)
    ensures (forall params :: Agree(Deserialize(Serialize(c, r).0, later, params), Resolve(c, params)))
      <==> Named(c) && forall h: string :: DecidedPortably(c, map[], h)
  {
    hide Answerer, AnswersPortably, SameMeaning, Serialize, Deserialize, Resolve;
    var undefined := ParamsFor(c);
    ParamsForCovers(c);
    UnnamedIsMissed(c, r, later, undefined);
    if !Named(c) {
      assert !Agree(Deserialize(Serialize(c, r).0, later, undefined), Resolve(c, undefined));
    } else {
      forall params
        ensures Agree(Deserialize(Serialize(c, r).0, later, params), Resolve(c, params))
          <==> Resolve(c, params).Err? || forall h: string :: DecidedPortably(c, params, h)
        ensures forall h: string ::
          DecidedPortably(c, map[], h) ==> DecidedPortably(c, params, h)
      {
        SerializationKeepsMeaning(c, r, later, params);
        forall h: string
          ensures DecidedPortably(c, map[], h) ==> DecidedPortably(c, params, h)
        {
          ParamsOnlyPreempt(c, params, h);
          ReferencesArePortable(Answerer(c, params, h), h);
        }
      }
      forall h: string
        ensures DecidedPortably(c, undefined, h) == DecidedPortably(c, map[], h)
      {
        ParamsOnlyPreempt(c, undefined, h);
      }
      ReceivedAgreesAt(c, r, later, undefined, "");
    }
  }

  lemma ReferencesArePortable(source: Option<Config>, h: string)
    ensures source.Some? && source.value.Param? ==> AnswersPortably(source, h)
  {
  }

  /** A reference with an empty key loses its parameter on the way. */
  lemma EmptyKeyLosesItsParameter(setting: Setting, r: Registry)
    requires setting.proxyUrl != ""
    ensures var params := map["" := Fixed(setting)];
      !Agree(Deserialize(Serialize(Param(""), r).0, r, params), Resolve(Param(""), params))
  {
    var params := map["" := Fixed(setting)];
    var received := Deserialize(Serialize(Param(""), r).0, r, params).value;
    assert !SameAt(received, Fixed(setting), "a");
  }
}
