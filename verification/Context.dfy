/**
 * `AttestationContext`: settings, components built on first use and dropped when a setting
 * they were built from changes, and the attestation of a device with them.
 */
module Context {
  import opened Common
  import opened HttpRetry
  import opened Policy
  import opened DetachedEat
  import opened LocalVerification

  const DEVICE_GPU := 0
  const DEVICE_NVSWITCH := 1

  datatype VerifierType = Local | Remote

  datatype Device = GpuDevice | SwitchDevice

  // Components: handed in by the caller, or built by the context from the settings shown.

  datatype RimStore = GivenStore(id: int) | RemoteStore(url: string, key: string, http: HttpOptions)

  datatype OcspSource = GivenClient(id: int) | HttpClient(url: string, key: string, http: HttpOptions)

  datatype DeviceVerifier =
    | GivenVerifier(id: int)
    | LocalVerifier(rim: RimStore, ocsp: OcspSource, eat: Options)
    | RemoteVerifier(url: string, key: string, http: HttpOptions)

  datatype EvidenceSource = GivenSource(id: int) | FileSource(path: string) | Collector

  /** What components are built from. */
  datatype Settings = Settings(
    verifierType: VerifierType, http: HttpOptions, ocspUrl: string, rimUrl: string, nrasUrl: string, eat: Options, serviceKey: string)

  /** The components themselves. */
  datatype Parts = Parts(
    rim: Option<RimStore>, ocsp: Option<OcspSource>, gpuVerifier: Option<DeviceVerifier>, switchVerifier: Option<DeviceVerifier>)

  /** The fields of a context. */
  datatype State = State(
    settings: Settings,
    parts: Parts,
    gpuEnabled: bool,
    switchEnabled: bool,
    gpuSource: Option<EvidenceSource>,
    switchSource: Option<EvidenceSource>,
    policy: EvidencePolicy,
    evaluator: Option<int>)

  /** Whether building a component fails, and how. */
  datatype Factories = Factories(
    rim: (string, string, HttpOptions) -> Option<Fault>,
    ocsp: (string, string, HttpOptions) -> Option<Fault>,
    remote: (Device, string, string, HttpOptions) -> Option<Fault>,
    file: (Device, string) -> Option<Fault>)

  datatype Call =
    | SetDeviceType(code: int)
    | SetVerifierType(verifierType: VerifierType)
    | SetHttpOptions(http: HttpOptions)
    | SetRimUrl(url: string)
    | SetOcspUrl(url: string)
    | SetNrasUrl(url: string)
    | SetRimStore(given: Option<int>)
    | SetOcspClient(given: Option<int>)
    | SetPolicy(policy: EvidencePolicy)
    | SetEvaluator(given: Option<int>)
    | SetSource(device: Device, given: Option<int>)
    | SetSourceFile(device: Device, path: string, factories: Factories)
    | SetVerifier(device: Device, given: Option<int>)
    | SetEat(eat: Options)
    | SetServiceKey(key: string)
    | EnsureInit(factories: Factories)

  const DEFAULT_EAT := Options("", "NVAT-LOCAL-VERIFIER", "")
  const DEFAULT_POLICY := EvidencePolicy(true, true)

  function Initial(http: HttpOptions): State {
    State(Settings(Remote, http, "", "", "", DEFAULT_EAT, ""), Parts(None, None, None, None), true, false, None, None, DEFAULT_POLICY, None)
  }

  /** Verifiers gone, and with `rim` or `ocsp` the store or the client too. */
  function Without(p: Parts, rim: bool, ocsp: bool): Parts {
    Parts(if rim then None else p.rim, if ocsp then None else p.ocsp, None, None)
  }

  // ---------------------------------------------------------------------------
  // Building
  // ---------------------------------------------------------------------------

  function InitRim(x: Settings, p: Parts, f: Factories): (Parts, Option<Fault>) {
    if p.rim.Some? then (p, None)
    else if f.rim(x.rimUrl, x.serviceKey, x.http).Some? then (p, f.rim(x.rimUrl, x.serviceKey, x.http))
    else (p.(rim := Some(RemoteStore(x.rimUrl, x.serviceKey, x.http))), None)
  }

  function InitOcsp(x: Settings, p: Parts, f: Factories): (Parts, Option<Fault>) {
    if p.ocsp.Some? then (p, None)
    else if f.ocsp(x.ocspUrl, x.serviceKey, x.http).Some? then (p, f.ocsp(x.ocspUrl, x.serviceKey, x.http))
    else (p.(ocsp := Some(HttpClient(x.ocspUrl, x.serviceKey, x.http))), None)
  }

  /** The verifier a device gets when it has none. */
  function MakeVerifier(x: Settings, p: Parts, device: Device, f: Factories): Result<DeviceVerifier> {
    match x.verifierType
    case Local =>
      if p.rim.None? || p.ocsp.None? then Err(BadArgument) else Ok(LocalVerifier(p.rim.value, p.ocsp.value, x.eat))
    case Remote =>
      var failed := f.remote(device, x.nrasUrl, x.serviceKey, x.http);
      if failed.Some? then Err(failed.value) else Ok(RemoteVerifier(x.nrasUrl, x.serviceKey, x.http))
  }

  function VerifierIn(p: Parts, device: Device): Option<DeviceVerifier> {
    if device == GpuDevice then p.gpuVerifier else p.switchVerifier
  }

  function WithVerifier(p: Parts, device: Device, v: Option<DeviceVerifier>): Parts {
    if device == GpuDevice then p.(gpuVerifier := v) else p.(switchVerifier := v)
  }

  function InitVerifier(x: Settings, p: Parts, device: Device, f: Factories): (Parts, Option<Fault>) {
    if VerifierIn(p, device).Some? then (p, None)
    else
      var v := MakeVerifier(x, p, device, f);
      if v.Err? then (p, Some(v.error)) else (WithVerifier(p, device, Some(v.value)), None)
  }

  /** Store and client. */
  function InitCommon(x: Settings, p: Parts, f: Factories): (Parts, Option<Fault>) {
    var (q, error) := InitRim(x, p, f);
    if error.Some? then (q, error) else InitOcsp(x, q, f)
  }

  /** The evidence source and the verifier of a device, if it is enabled. */
  function InitDevice(s: State, device: Device, f: Factories): (State, Option<Fault>) {
    if !IsEnabled(s, device) then (s, None)
    else
      var (q, error) := InitVerifier(s.settings, s.parts, device, f);
      var sourced := if SourceOf(s, device).Some? then s else WithSource(s, device, Some(Collector));
      (sourced.(parts := q), error)
  }

  /** `ensure_init`: a failing step leaves what the steps before it have built. */
  function Init(s: State, f: Factories): (State, Option<Fault>) {
    var (p, error) := InitCommon(s.settings, s.parts, f);
    if error.Some? then (s.(parts := p), error)
    else
      var (t, error') := InitDevice(s.(parts := p), GpuDevice, f);
      if error'.Some? then (t, error') else InitDevice(t, SwitchDevice, f)
  }

  function Apply(s: State, call: Call): State {
    var x, p := s.settings, s.parts;
    match call
    case SetDeviceType(code) =>
      if code != DEVICE_GPU && code != DEVICE_NVSWITCH then s
      else s.(gpuEnabled := code == DEVICE_GPU, switchEnabled := code == DEVICE_NVSWITCH)
    case SetVerifierType(t) =>
      s.(settings := x.(verifierType := t), parts := if x.verifierType != t then Without(p, false, false) else p)
    case SetHttpOptions(http) => s.(settings := x.(http := http))
    case SetRimUrl(url) => s.(settings := x.(rimUrl := url), parts := Without(p, true, false))
    case SetOcspUrl(url) => s.(settings := x.(ocspUrl := url), parts := Without(p, false, true))
    case SetNrasUrl(url) => s.(settings := x.(nrasUrl := url), parts := Without(p, false, false))
    case SetRimStore(given) => s.(parts := Without(p, false, false).(rim := Store(given)))
    case SetOcspClient(given) => s.(parts := Without(p, false, false).(ocsp := Client(given)))
    case SetPolicy(policy) => s.(policy := policy, parts := Without(p, false, false))
    case SetEvaluator(given) => s.(evaluator := given)
    case SetSource(device, given) => WithSource(s, device, Source(given))
    case SetSourceFile(device, path, f) => if f.file(device, path).Some? then s else WithSource(s, device, Some(FileSource(path)))
    case SetVerifier(device, given) => s.(parts := WithVerifier(p, device, Supplied(given)))
    case SetEat(eat) => s.(settings := x.(eat := eat), parts := Without(p, false, false))
    case SetServiceKey(key) => s.(settings := x.(serviceKey := key), parts := Without(p, true, true))
    case EnsureInit(f) => Init(s, f).0
  }

  function Store(given: Option<int>): Option<RimStore> {
    if given.Some? then Some(GivenStore(given.value)) else None
  }

  function Client(given: Option<int>): Option<OcspSource> {
    if given.Some? then Some(GivenClient(given.value)) else None
  }

  function Source(given: Option<int>): Option<EvidenceSource> {
    if given.Some? then Some(GivenSource(given.value)) else None
  }

  function Supplied(given: Option<int>): Option<DeviceVerifier> {
    if given.Some? then Some(GivenVerifier(given.value)) else None
  }

  function WithSource(s: State, device: Device, source: Option<EvidenceSource>): State {
    if device == GpuDevice then s.(gpuSource := source) else s.(switchSource := source)
  }

  function VerifierOf(s: State, device: Device): Option<DeviceVerifier> { VerifierIn(s.parts, device) }

  function SourceOf(s: State, device: Device): Option<EvidenceSource> {
    if device == GpuDevice then s.gpuSource else s.switchSource
  }

  predicate IsEnabled(s: State, device: Device) {
    if device == GpuDevice then s.gpuEnabled else s.switchEnabled
  }

  function Enabled(s: State): Device { if s.gpuEnabled then GpuDevice else SwitchDevice }

  function Run(s: State, calls: seq<Call>): State {
    if calls == [] then s else Apply(Run(s, calls[..|calls| - 1]), calls[|calls| - 1])
  }

  // ---------------------------------------------------------------------------
  // Nothing out of date
  // ---------------------------------------------------------------------------

  predicate StoreCurrent(x: Settings, rim: Option<RimStore>) {
    rim.Some? && rim.value.RemoteStore? ==> rim.value.url == x.rimUrl && rim.value.key == x.serviceKey
  }

  predicate ClientCurrent(x: Settings, ocsp: Option<OcspSource>) {
    ocsp.Some? && ocsp.value.HttpClient? ==> ocsp.value.url == x.ocspUrl && ocsp.value.key == x.serviceKey
  }

  /** A verifier the context built has the settings of now, HTTP options aside. */
  predicate VerifierCurrent(x: Settings, p: Parts, v: Option<DeviceVerifier>) {
    if v.None? then true
    else match v.value
      case GivenVerifier(_) => true
      case LocalVerifier(rim, ocsp, eat) => x.verifierType == Local && p.rim == Some(rim) && p.ocsp == Some(ocsp) && eat == x.eat
      case RemoteVerifier(url, key, _) => x.verifierType == Remote && url == x.nrasUrl && key == x.serviceKey
  }

  predicate PartsCurrent(x: Settings, p: Parts) {
    && StoreCurrent(x, p.rim) && ClientCurrent(x, p.ocsp)
    && VerifierCurrent(x, p, p.gpuVerifier) && VerifierCurrent(x, p, p.switchVerifier)
  }

  predicate UpToDate(s: State) {
    s.gpuEnabled != s.switchEnabled && PartsCurrent(s.settings, s.parts)
  }

  lemma CommonKeeps(x: Settings, p: Parts, f: Factories)
    requires PartsCurrent(x, p)
    ensures PartsCurrent(x, InitCommon(x, p, f).0)
    ensures InitCommon(x, p, f).1.None? ==> InitCommon(x, p, f).0.rim.Some? && InitCommon(x, p, f).0.ocsp.Some?
  {
    var q := InitRim(x, p, f).0;
    assert PartsCurrent(x, q);
  }

  lemma VerifierKeeps(x: Settings, p: Parts, device: Device, f: Factories)
    requires PartsCurrent(x, p)
    ensures PartsCurrent(x, InitVerifier(x, p, device, f).0)
  {
  }

  lemma DeviceKeeps(s: State, device: Device, f: Factories)
    requires UpToDate(s)
    ensures UpToDate(InitDevice(s, device, f).0)
  {
    hide PartsCurrent, InitVerifier;
    VerifierKeeps(s.settings, s.parts, device, f);
  }

  lemma InitKeeps(s: State, f: Factories)
    requires UpToDate(s)
    ensures UpToDate(Init(s, f).0)
  {
    hide PartsCurrent, InitCommon, InitDevice;
    CommonKeeps(s.settings, s.parts, f);
    var t := s.(parts := InitCommon(s.settings, s.parts, f).0);
    DeviceKeeps(t, GpuDevice, f);
    DeviceKeeps(InitDevice(t, GpuDevice, f).0, SwitchDevice, f);
  }

  lemma ApplyKeeps(s: State, call: Call)
    requires UpToDate(s)
    ensures UpToDate(Apply(s, call))
  {
    if call.EnsureInit? {
      hide PartsCurrent, Init;
      InitKeeps(s, call.factories);
    }
  }

  /** After any sequence of calls one device kind is enabled and nothing built is out of date. */
  lemma {:induction false} RunUpToDate(http: HttpOptions, calls: seq<Call>)
    ensures UpToDate(Run(Initial(http), calls))
  {
    if calls != [] {
      hide UpToDate, Apply;
      RunUpToDate(http, calls[..|calls| - 1]);
      ApplyKeeps(Run(Initial(http), calls[..|calls| - 1]), calls[|calls| - 1]);
    }
  }

  /** Initialization only adds to the components, and leaves everything else but the sources alone. */
  lemma InitFrame(s: State, f: Factories)
    ensures var t := Init(s, f).0;
            && t.settings == s.settings && t.policy == s.policy && t.evaluator == s.evaluator
            && t.gpuEnabled == s.gpuEnabled && t.switchEnabled == s.switchEnabled
  {
  }

  /** Success means that store, client, evidence source and verifier of the enabled device are there. */
  lemma InitComplete(s: State, f: Factories)
    requires UpToDate(s) && Init(s, f).1.None?
    ensures var t := Init(s, f).0;
            && t.parts.rim.Some? && t.parts.ocsp.Some?
            && SourceOf(t, Enabled(s)).Some? && VerifierOf(t, Enabled(s)).Some?
  {
    hide PartsCurrent, InitCommon, MakeVerifier;
    CommonKeeps(s.settings, s.parts, f);
  }

  /** Initialization fails only where building a missing component from the settings of now fails. */
  lemma InitFailure(s: State, f: Factories)
    requires UpToDate(s) && Init(s, f).1.Some?
    ensures var x, error := s.settings, Init(s, f).1;
            || (s.parts.rim.None? && error == f.rim(x.rimUrl, x.serviceKey, x.http))
            || (s.parts.ocsp.None? && error == f.ocsp(x.ocspUrl, x.serviceKey, x.http))
            || (VerifierOf(s, Enabled(s)).None? && x.verifierType == Remote && error == f.remote(Enabled(s), x.nrasUrl, x.serviceKey, x.http))
  {
    hide PartsCurrent;
    CommonKeeps(s.settings, s.parts, f);
  }

  /** A context that is initialized stays as it is. */
  lemma InitOnce(s: State, f: Factories, f': Factories)
    requires UpToDate(s) && Init(s, f).1.None?
    ensures Init(Init(s, f).0, f') == (Init(s, f).0, None)
  {
    hide PartsCurrent, MakeVerifier;
    InitFrame(s, f);
    InitComplete(s, f);
  }

  // ---------------------------------------------------------------------------
  // What the setters store
  // ---------------------------------------------------------------------------

  /** The argument of the last call that `pick` is about, or the initial value. */
  function LastOf<T>(calls: seq<Call>, pick: Call -> Option<T>, initial: T): T {
    if calls == [] then initial
    else if pick(calls[|calls| - 1]).Some? then pick(calls[|calls| - 1]).value
    else LastOf(calls[..|calls| - 1], pick, initial)
  }

  lemma {:induction false} LastOfMeans<T>(calls: seq<Call>, pick: Call -> Option<T>, initial: T, k: nat)
    requires k < |calls| && pick(calls[k]).Some? && forall j :: k < j < |calls| ==> pick(calls[j]).None?
    ensures LastOf(calls, pick, initial) == pick(calls[k]).value
  {
    if k < |calls| - 1 {
      LastOfMeans(calls[..|calls| - 1], pick, initial, k);
    }
  }

  lemma {:induction false} LastOfNone<T>(calls: seq<Call>, pick: Call -> Option<T>, initial: T)
    requires forall j :: 0 <= j < |calls| ==> pick(calls[j]).None?
    ensures LastOf(calls, pick, initial) == initial
  {
    if calls != [] {
      LastOfNone(calls[..|calls| - 1], pick, initial);
    }
  }

  function OfEvaluator(c: Call): Option<Option<int>> { if c.SetEvaluator? then Some(c.given) else None }
  function OfPolicy(c: Call): Option<EvidencePolicy> { if c.SetPolicy? then Some(c.policy) else None }
  function OfRimUrl(c: Call): Option<string> { if c.SetRimUrl? then Some(c.url) else None }
  function OfOcspUrl(c: Call): Option<string> { if c.SetOcspUrl? then Some(c.url) else None }
  function OfNrasUrl(c: Call): Option<string> { if c.SetNrasUrl? then Some(c.url) else None }
  function OfServiceKey(c: Call): Option<string> { if c.SetServiceKey? then Some(c.key) else None }
  function OfEat(c: Call): Option<Options> { if c.SetEat? then Some(c.eat) else None }
  function OfVerifierType(c: Call): Option<VerifierType> { if c.SetVerifierType? then Some(c.verifierType) else None }
  function OfHttp(c: Call): Option<HttpOptions> { if c.SetHttpOptions? then Some(c.http) else None }

  /** Device codes other than 0, a GPU, and 1, a switch, are ignored. */
  function OfDevice(c: Call): Option<int> { if c.SetDeviceType? && (c.code == 0 || c.code == 1) then Some(c.code) else None }

  function OfSource(device: Device): Call -> Option<Option<EvidenceSource>> {
    (c: Call) =>
      if c.SetSource? && c.device == device then Some(if c.given.Some? then Some(GivenSource(c.given.value)) else None)
      else if c.SetSourceFile? && c.device == device && c.factories.file(device, c.path).None? then Some(Some(FileSource(c.path)))
      else None
  }

  /** A store is set, or dropped because the URL or the key behind it has changed. */
  function OfStore(c: Call): Option<Option<RimStore>> {
    if c.SetRimStore? then Some(if c.given.Some? then Some(GivenStore(c.given.value)) else None)
    else if c.SetRimUrl? || c.SetServiceKey? then Some(None)
    else None
  }

  function OfClient(c: Call): Option<Option<OcspSource>> {
    if c.SetOcspClient? then Some(if c.given.Some? then Some(GivenClient(c.given.value)) else None)
    else if c.SetOcspUrl? || c.SetServiceKey? then Some(None)
    else None
  }

  function Or<T>(picked: Option<T>, otherwise: T): T { if picked.Some? then picked.value else otherwise }

  lemma StepSettings(s: State, c: Call)
    ensures var t := Apply(s, c);
            && t.settings.rimUrl == Or(OfRimUrl(c), s.settings.rimUrl)
            && t.settings.ocspUrl == Or(OfOcspUrl(c), s.settings.ocspUrl)
            && t.settings.nrasUrl == Or(OfNrasUrl(c), s.settings.nrasUrl)
            && t.settings.serviceKey == Or(OfServiceKey(c), s.settings.serviceKey)
            && t.settings.eat == Or(OfEat(c), s.settings.eat)
            && t.settings.verifierType == Or(OfVerifierType(c), s.settings.verifierType)
            && t.settings.http == Or(OfHttp(c), s.settings.http)
  {
    if c.EnsureInit? {
      InitFrame(s, c.factories);
      hide Init;
    }
  }

  lemma StepOthers(s: State, c: Call)
    ensures var t := Apply(s, c);
            && t.evaluator == Or(OfEvaluator(c), s.evaluator)
            && t.policy == Or(OfPolicy(c), s.policy)
            && (t.gpuEnabled <==> if OfDevice(c).Some? then OfDevice(c).value == 0 else s.gpuEnabled)
            && (t.switchEnabled <==> if OfDevice(c).Some? then OfDevice(c).value == 1 else s.switchEnabled)
  {
    if c.EnsureInit? {
      InitFrame(s, c.factories);
      hide Init;
    }
  }

  /** After any run each setting is the argument of the last call that sets it, or its initial value. */
  lemma {:induction false} RunSettings(http: HttpOptions, calls: seq<Call>)
    ensures var s := Run(Initial(http), calls);
            && s.settings.rimUrl == LastOf(calls, OfRimUrl, "")
            && s.settings.ocspUrl == LastOf(calls, OfOcspUrl, "")
            && s.settings.nrasUrl == LastOf(calls, OfNrasUrl, "")
            && s.settings.serviceKey == LastOf(calls, OfServiceKey, "")
            && s.settings.eat == LastOf(calls, OfEat, Options("", "NVAT-LOCAL-VERIFIER", ""))
            && s.settings.verifierType == LastOf(calls, OfVerifierType, Remote)
            && s.settings.http == LastOf(calls, OfHttp, http)
  {
    if calls != [] {
      hide Apply, Initial;
      RunSettings(http, calls[..|calls| - 1]);
      StepSettings(Run(Initial(http), calls[..|calls| - 1]), calls[|calls| - 1]);
    }
  }

  /** So are the evaluator, the evidence policy and the enabled device kind. */
  lemma {:induction false} RunOthers(http: HttpOptions, calls: seq<Call>)
    ensures var s := Run(Initial(http), calls);
            && s.evaluator == LastOf(calls, OfEvaluator, None)
            && s.policy == LastOf(calls, OfPolicy, EvidencePolicy(true, true))
            && (s.gpuEnabled <==> LastOf(calls, OfDevice, 0) == 0)
            && (s.switchEnabled <==> LastOf(calls, OfDevice, 0) == 1)
  {
    if calls != [] {
      hide Apply, Initial;
      RunOthers(http, calls[..|calls| - 1]);
      StepOthers(Run(Initial(http), calls[..|calls| - 1]), calls[|calls| - 1]);
    }
  }

  /** What is there is what the caller gave, or the collector or a component the context makes up for nothing. */
  predicate SourceFits(held: Option<EvidenceSource>, given: Option<EvidenceSource>) {
    if given.Some? then held == given else held == None || held == Some(Collector)
  }

  predicate StoreFits(held: Option<RimStore>, given: Option<RimStore>) {
    if given.Some? then held == given else held.None? || held.value.RemoteStore?
  }

  predicate ClientFits(held: Option<OcspSource>, given: Option<OcspSource>) {
    if given.Some? then held == given else held.None? || held.value.HttpClient?
  }

  lemma StepSource(s: State, c: Call, device: Device, given: Option<EvidenceSource>)
    requires SourceFits(SourceOf(s, device), given)
    ensures SourceFits(SourceOf(Apply(s, c), device), Or(OfSource(device)(c), given))
  {
    if c.EnsureInit? {
      InitSources(s, c.factories, device);
      hide Init;
    }
  }

  lemma InitSources(s: State, f: Factories, device: Device)
    ensures var held := SourceOf(Init(s, f).0, device);
            held == SourceOf(s, device) || (SourceOf(s, device).None? && held == Some(Collector))
  {
    hide InitCommon, InitVerifier;
  }

  lemma StepParts(s: State, c: Call, store: Option<RimStore>, client: Option<OcspSource>)
    requires StoreFits(s.parts.rim, store) && ClientFits(s.parts.ocsp, client)
    ensures StoreFits(Apply(s, c).parts.rim, Or(OfStore(c), store)) && ClientFits(Apply(s, c).parts.ocsp, Or(OfClient(c), client))
  {
    if c.EnsureInit? {
      InitParts(s, c.factories);
      hide Init;
    }
  }

  lemma InitParts(s: State, f: Factories)
    ensures var p := Init(s, f).0.parts;
            && (p.rim == s.parts.rim || (s.parts.rim.None? && p.rim.Some? && p.rim.value.RemoteStore?))
            && (p.ocsp == s.parts.ocsp || (s.parts.ocsp.None? && p.ocsp.Some? && p.ocsp.value.HttpClient?))
  {
    hide MakeVerifier;
  }

  /** Evidence sources, RIM store and OCSP client are those the caller gave last, as long as nothing later drops them. */
  lemma {:induction false} RunGiven(http: HttpOptions, calls: seq<Call>, device: Device)
    ensures var s := Run(Initial(http), calls);
            && SourceFits(SourceOf(s, device), LastOf(calls, OfSource(device), None))
            && StoreFits(s.parts.rim, LastOf(calls, OfStore, None))
            && ClientFits(s.parts.ocsp, LastOf(calls, OfClient, None))
  {
    if calls != [] {
      hide Apply, Initial, SourceFits, StoreFits, ClientFits;
      var front, last := calls[..|calls| - 1], calls[|calls| - 1];
      RunGiven(http, front, device);
      StepSource(Run(Initial(http), front), last, device, LastOf(front, OfSource(device), None));
      StepParts(Run(Initial(http), front), last, LastOf(front, OfStore, None), LastOf(front, OfClient, None));
    }
  }

  // ---------------------------------------------------------------------------
  // The HTTP options
  // ---------------------------------------------------------------------------

  predicate StoreHttp(rim: RimStore, http: HttpOptions) { rim.RemoteStore? ==> rim.http == http }

  predicate ClientHttp(ocsp: OcspSource, http: HttpOptions) { ocsp.HttpClient? ==> ocsp.http == http }

  predicate VerifierHttp(v: Option<DeviceVerifier>, http: HttpOptions) {
    if v.None? then true
    else match v.value
      case GivenVerifier(_) => true
      case LocalVerifier(rim, ocsp, _) => StoreHttp(rim, http) && ClientHttp(ocsp, http)
      case RemoteVerifier(_, _, h) => h == http
  }

  /** Everything the context built uses the HTTP options `http`. */
  predicate BuiltWith(p: Parts, http: HttpOptions) {
    && (p.rim.Some? ==> StoreHttp(p.rim.value, http))
    && (p.ocsp.Some? ==> ClientHttp(p.ocsp.value, http))
    && VerifierHttp(p.gpuVerifier, http) && VerifierHttp(p.switchVerifier, http)
  }

  predicate IsRemote(v: Option<DeviceVerifier>) { v.Some? && v.value.RemoteVerifier? }

  /** Some component was built by the context from HTTP options. */
  predicate HoldsBuilt(p: Parts) {
    || (p.rim.Some? && p.rim.value.RemoteStore?)
    || (p.ocsp.Some? && p.ocsp.value.HttpClient?)
    || IsRemote(p.gpuVerifier) || IsRemote(p.switchVerifier)
  }

  /**
   * Changing the HTTP options drops nothing. Components with the options of now have them
   * after a call exactly when the call is not a change of options while something built is held.
   */
  lemma HttpOptionsCurrentIff(s: State, call: Call)
    requires UpToDate(s) && BuiltWith(s.parts, s.settings.http)
    ensures BuiltWith(Apply(s, call).parts, Apply(s, call).settings.http) <==> !Outdates(s, call)
  {
    if call.EnsureInit? {
      hide Init, BuiltWith, UpToDate;
      InitBuiltWith(s, call.factories);
    } else if call.SetHttpOptions? {
      OptionsChange(s.settings, s.parts, call.http);
    }
  }

  /** A change of the HTTP options while something built from the old ones is held. */
  predicate Outdates(s: State, call: Call) {
    call.SetHttpOptions? && call.http != s.settings.http && HoldsBuilt(s.parts)
  }

  ghost predicate NeverOutdates(http: HttpOptions, calls: seq<Call>) {
    forall k :: 0 <= k < |calls| ==> !Outdates(Run(Initial(http), calls[..k]), calls[k])
  }

  ghost predicate AlwaysCurrent(http: HttpOptions, calls: seq<Call>) {
    forall k :: 0 <= k <= |calls| ==> CurrentAfter(http, calls, k)
  }

  predicate CurrentAfter(http: HttpOptions, calls: seq<Call>, k: nat)
    requires k <= |calls|
  {
    var s := Run(Initial(http), calls[..k]);
    BuiltWith(s.parts, s.settings.http)
  }

  /** A run keeps everything built on the current HTTP options throughout exactly when no call in it outdates them. */
  lemma {:induction false} RunCurrentIff(http: HttpOptions, calls: seq<Call>)
    ensures AlwaysCurrent(http, calls) <==> NeverOutdates(http, calls)
  {
    if calls == [] {
      assert calls[..0] == [];
    } else {
      var front, last := calls[..|calls| - 1], calls[|calls| - 1];
      RunCurrentIff(http, front);
      hide BuiltWith, HoldsBuilt, Apply, UpToDate, Initial;
      forall k | 0 <= k <= |front| ensures calls[..k] == front[..k] && CurrentAfter(http, calls, k) == CurrentAfter(http, front, k) {
      }
      assert forall k :: 0 <= k < |front| ==> calls[k] == front[k];
      assert front[..|front|] == front && calls[..|calls|] == calls;
      RunUpToDate(http, front);
      var s := Run(Initial(http), front);
      if AlwaysCurrent(http, front) {
        assert CurrentAfter(http, front, |front|);
        HttpOptionsCurrentIff(s, last);
        assert CurrentAfter(http, calls, |calls|) <==> !Outdates(s, last);
      }
      RunCurrentStep(http, calls);
    }
  }

  lemma RunCurrentStep(http: HttpOptions, calls: seq<Call>)
    requires calls != []
    ensures var front := calls[..|calls| - 1];
            && (AlwaysCurrent(http, calls) <==> AlwaysCurrent(http, front) && CurrentAfter(http, calls, |calls|))
            && (NeverOutdates(http, calls) <==> NeverOutdates(http, front) && !Outdates(Run(Initial(http), front), calls[|calls| - 1]))
  {
    hide BuiltWith, HoldsBuilt, Outdates, Run;
    var front := calls[..|calls| - 1];
    assert forall k :: 0 <= k <= |front| ==> calls[..k] == front[..k];
    assert forall k :: 0 <= k <= |front| ==> CurrentAfter(http, calls, k) == CurrentAfter(http, front, k);
    assert forall k :: 0 <= k < |front| ==> calls[k] == front[k];
    assert front[..|front|] == front;
  }

  /** Some component is held that was built from these options. */
  predicate Holds(p: Parts, http: HttpOptions) {
    || (p.rim.Some? && p.rim.value.RemoteStore? && p.rim.value.http == http)
    || (p.ocsp.Some? && p.ocsp.value.HttpClient? && p.ocsp.value.http == http)
    || (IsRemote(p.gpuVerifier) && p.gpuVerifier.value.http == http)
    || (IsRemote(p.switchVerifier) && p.switchVerifier.value.http == http)
  }

  /** Everything built is current exactly when nothing is held that was built from other options. */
  lemma CurrentByHeld(s: State)
    requires UpToDate(s)
    ensures BuiltWith(s.parts, s.settings.http) <==> forall http :: Holds(s.parts, http) ==> http == s.settings.http
  {
    if !BuiltWith(s.parts, s.settings.http) {
      OneHeldOtherwise(s);
    }
  }

  lemma OneHeldOtherwise(s: State)
    requires UpToDate(s) && !BuiltWith(s.parts, s.settings.http)
    ensures exists http :: Holds(s.parts, http) && http != s.settings.http
  {
    var p, now := s.parts, s.settings.http;
    if p.rim.Some? && p.rim.value.RemoteStore? && p.rim.value.http != now {
      assert Holds(p, p.rim.value.http);
    }
    if p.ocsp.Some? && p.ocsp.value.HttpClient? && p.ocsp.value.http != now {
      assert Holds(p, p.ocsp.value.http);
    }
    if IsRemote(p.gpuVerifier) && p.gpuVerifier.value.http != now {
      assert Holds(p, p.gpuVerifier.value.http);
    }
    if IsRemote(p.switchVerifier) && p.switchVerifier.value.http != now {
      assert Holds(p, p.switchVerifier.value.http);
    }
  }

  predicate HoldsAfter(http: HttpOptions, calls: seq<Call>, k: nat, held: HttpOptions)
    requires k <= |calls|
  {
    Holds(Run(Initial(http), calls[..k]).parts, held)
  }

  /** A call that builds nothing holds only what was held before; one that builds adds only the options of now. */
  lemma HeldStep(s: State, call: Call, held: HttpOptions)
    requires Holds(Apply(s, call).parts, held)
    ensures Holds(s.parts, held) || (call.EnsureInit? && s.settings.http == held)
  {
    if call.EnsureInit? {
      InitHeld(s, call.factories, held);
      hide Init;
    }
  }

  lemma InitHeld(s: State, f: Factories, held: HttpOptions)
    requires Holds(Init(s, f).0.parts, held)
    ensures Holds(s.parts, held) || s.settings.http == held
  {
    hide InitCommon, InitVerifier, Holds;
    var x := s.settings;
    var p := InitCommon(x, s.parts, f).0;
    CommonHeld(x, s.parts, f, held);
    VerifierHeld(x, p, GpuDevice, f, held);
    VerifierHeld(x, InitVerifier(x, p, GpuDevice, f).0, SwitchDevice, f, held);
    VerifierHeld(x, p, SwitchDevice, f, held);
  }

  lemma CommonHeld(x: Settings, p: Parts, f: Factories, held: HttpOptions)
    ensures Holds(InitCommon(x, p, f).0, held) ==> Holds(p, held) || x.http == held
  {
  }

  lemma VerifierHeld(x: Settings, p: Parts, device: Device, f: Factories, held: HttpOptions)
    ensures Holds(InitVerifier(x, p, device, f).0, held) ==> Holds(p, held) || x.http == held
  {
  }

  /**
   * Where a component's options come from: some initialization in the run, with the options of
   * that moment, and something built from them has been held ever since.
   */
  lemma {:induction false} HeldSince(http: HttpOptions, calls: seq<Call>, held: HttpOptions) returns (k: nat)
    requires Holds(Run(Initial(http), calls).parts, held)
    ensures k < |calls| && calls[k].EnsureInit? && Run(Initial(http), calls[..k]).settings.http == held
    ensures forall j :: k < j <= |calls| ==> HoldsAfter(http, calls, j, held)
  {
    hide Holds, Apply;
    if calls == [] {
      NothingHeldAtFirst(http, held);
    } else {
      var front, last := calls[..|calls| - 1], calls[|calls| - 1];
      assert calls[..|calls|] == calls;
      HeldStep(Run(Initial(http), front), last, held);
      if Holds(Run(Initial(http), front).parts, held) {
        k := HeldSince(http, front, held);
        assert front[..k] == calls[..k];
        forall j | k < j <= |calls| ensures HoldsAfter(http, calls, j, held) {
          if j <= |front| {
            assert HoldsAfter(http, front, j, held) && front[..j] == calls[..j];
          }
        }
      } else {
        k := |front|;
      }
    }
  }

  lemma NothingHeldAtFirst(http: HttpOptions, held: HttpOptions)
    ensures !Holds(Initial(http).parts, held)
  {
  }

  lemma OptionsChange(x: Settings, p: Parts, http: HttpOptions)
    requires PartsCurrent(x, p) && BuiltWith(p, x.http)
    ensures BuiltWith(p, http) <==> http == x.http || !HoldsBuilt(p)
  {
  }

  lemma InitBuiltWith(s: State, f: Factories)
    requires UpToDate(s) && BuiltWith(s.parts, s.settings.http)
    ensures BuiltWith(Init(s, f).0.parts, s.settings.http) && Init(s, f).0.settings == s.settings
  {
    hide InitCommon, InitVerifier, BuiltWith, PartsCurrent;
    InitFrame(s, f);
    var x := s.settings;
    var p := InitCommon(x, s.parts, f).0;
    CommonBuilt(x, s.parts, f);
    VerifierBuilt(x, p, GpuDevice, f);
    VerifierBuilt(x, InitVerifier(x, p, GpuDevice, f).0, SwitchDevice, f);
    VerifierBuilt(x, p, SwitchDevice, f);
  }

  lemma CommonBuilt(x: Settings, p: Parts, f: Factories)
    requires BuiltWith(p, x.http)
    ensures BuiltWith(InitCommon(x, p, f).0, x.http)
  {
  }

  lemma VerifierBuilt(x: Settings, p: Parts, device: Device, f: Factories)
    requires BuiltWith(p, x.http)
    ensures BuiltWith(InitVerifier(x, p, device, f).0, x.http)
  {
  }

  /** A stale component: attest, change the options, attest again. */
  lemma StaleHttpOptions(before: HttpOptions, after: HttpOptions, f: Factories)
    requires before != after && Init(Initial(before), f).1.None?
    ensures var s := Run(Initial(before), [EnsureInit(f), SetHttpOptions(after), EnsureInit(f)]);
            s.settings.http == after && s.parts.gpuVerifier == Some(RemoteVerifier("", "", before))
  {
    var one, two := [EnsureInit(f)], [EnsureInit(f), SetHttpOptions(after)];
    var three := two + [EnsureInit(f)];
    assert three == [EnsureInit(f), SetHttpOptions(after), EnsureInit(f)];
    assert three[..2] == two && two[..1] == one && one[..0] == [];
    var a := Init(Initial(before), f).0;
    assert Run(Initial(before), one) == a;
    assert a.parts.gpuVerifier == Some(RemoteVerifier("", "", before));
    var b := a.(settings := a.settings.(http := after));
    InitFrame(b, f);
    InitKeepsVerifier(b, f, GpuDevice);
    hide Init;
    assert Run(Initial(before), two) == Apply(Run(Initial(before), two[..1]), SetHttpOptions(after)) == b;
    assert Run(Initial(before), three) == Apply(Run(Initial(before), three[..2]), EnsureInit(f)) == Init(b, f).0;
  }

  lemma AfterServiceKey(s: State, key: string)
    ensures Apply(s, SetServiceKey(key)) == s.(settings := s.settings.(serviceKey := key), parts := Parts(None, None, None, None))
  {
  }

  /** Setting the service key, even to the same value, makes everything be built afresh. */
  lemma ServiceKeyRefreshes(s: State, key: string)
    ensures !HoldsBuilt(Apply(s, SetServiceKey(key)).parts) && BuiltWith(Apply(s, SetServiceKey(key)).parts, s.settings.http)
  {
  }

  // ---------------------------------------------------------------------------
  // What the caller supplied
  // ---------------------------------------------------------------------------

  /** The calls that take away a verifier the caller has set for a device. */
  predicate Discards(s: State, call: Call, device: Device) {
    match call
    case SetVerifierType(t) => t != s.settings.verifierType
    case SetVerifier(d, given) => d == device && Supplied(given) != VerifierOf(s, device)
    case SetRimUrl(_) => true
    case SetOcspUrl(_) => true
    case SetNrasUrl(_) => true
    case SetRimStore(_) => true
    case SetOcspClient(_) => true
    case SetPolicy(_) => true
    case SetEat(_) => true
    case SetServiceKey(_) => true
    case _ => false
  }

  ghost predicate NeverDiscarded(s: State, calls: seq<Call>, device: Device) {
    forall k :: 0 <= k < |calls| ==> !Discards(Run(s, calls[..k]), calls[k], device)
  }

  lemma SuppliedStep(s: State, call: Call, device: Device)
    requires VerifierOf(s, device).Some? && VerifierOf(s, device).value.GivenVerifier?
    ensures VerifierOf(Apply(s, call), device) == VerifierOf(s, device) <==> !Discards(s, call, device)
  {
    if call.EnsureInit? {
      InitKeepsVerifier(s, call.factories, device);
      hide Init;
    }
  }

  lemma InitKeepsVerifier(s: State, f: Factories, device: Device)
    requires VerifierOf(s, device).Some?
    ensures VerifierOf(Init(s, f).0, device) == VerifierOf(s, device)
  {
    hide MakeVerifier;
    var p := InitCommon(s.settings, s.parts, f).0;
    assert VerifierIn(p, device) == VerifierIn(s.parts, device);
  }

  /** A verifier the caller supplied is used until the first call that discards it. */
  lemma {:induction false} SuppliedKept(s: State, calls: seq<Call>, device: Device)
    requires VerifierOf(s, device).Some? && VerifierOf(s, device).value.GivenVerifier?
    requires NeverDiscarded(s, calls, device)
    ensures VerifierOf(Run(s, calls), device) == VerifierOf(s, device)
  {
    if calls != [] {
      var front := calls[..|calls| - 1];
      forall k | 0 <= k < |front| ensures !Discards(Run(s, front[..k]), front[k], device) {
        assert front[..k] == calls[..k] && front[k] == calls[k];
        assert !Discards(Run(s, calls[..k]), calls[k], device);
      }
      SuppliedKept(s, front, device);
      SuppliedStep(Run(s, front), calls[|calls| - 1], device);
    }
  }

  // ---------------------------------------------------------------------------
  // Attesting
  // ---------------------------------------------------------------------------

  /**
   * The world a device is attested in: the evidence a source has for a nonce, the verifiers that
   * are not local, the relying party's evaluators, and what a detached EAT is issued with.
   */
  datatype World = World(
    factories: Factories,
    freshNonce: Result<seq<byte>>,
    evidence: (EvidenceSource, seq<byte>) -> Result<seq<DeviceInput>>,
    verify: (DeviceVerifier, seq<DeviceInput>, EvidencePolicy, bool) -> (Option<Error>, seq<Claim>),
    evaluate: (int, seq<Claim>) -> Result<bool>,
    now: Result<(int, int)>,
    random: nat -> Result<seq<byte>>,
    crypto: Crypto)

  ghost predicate WorldPopulated(w: World) {
    forall source, nonce :: w.evidence(source, nonce).Ok? ==> EvidencePopulated(w.evidence(source, nonce).value)
  }

  /** What a detached EAT is issued with. */
  function Desk(w: World, eat: Options): Session { Session([], eat, w.now, w.random, w.crypto) }

  /** The nonce that is used: the caller's, or a fresh one if the caller gives none. */
  function NonceUsed(nonce: seq<byte>, w: World): (used: Result<seq<byte>>)
    ensures nonce != [] ==> used == Ok(nonce)
    ensures nonce == [] ==> used == w.freshNonce
  {
    if nonce != [] then Ok(nonce) else w.freshNonce
  }

  /** The evaluator's say, when there is one. */
  predicate Endorsed(evaluator: Option<int>, claims: seq<Claim>, w: World) {
    evaluator.Some? ==> w.evaluate(evaluator.value, claims) == Ok(true)
  }

  /** A false overall result counts only without an evaluator. */
  predicate Tolerated(evaluator: Option<int>, error: Option<Error>) {
    error.None? || (error.value == OverallResultFalse && evaluator.Some?)
  }

  /** A verifier's answer to evidence: that of `verify_evidence` for one the context has built locally. */
  ghost predicate AnswerOf(
    verifier: DeviceVerifier, evidence: seq<DeviceInput>, policy: EvidencePolicy, wantsEat: bool, w: World,
    error: Option<Error>, claims: seq<Claim>)
  {
    if verifier.LocalVerifier? then LocalAnswer(evidence, policy, wantsEat, Desk(w, verifier.eat), error, claims)
    else (error, claims) == w.verify(verifier, evidence, policy, wantsEat)
  }

  /** The enabled device's verifier has this answer for the evidence of its source. */
  ghost predicate DeviceAnswered(
    s: State, nonce: seq<byte>, wantsEat: bool, w: World, error: Option<Error>, claims: seq<Claim>)
  {
    var source, verifier := SourceOf(s, Enabled(s)), VerifierOf(s, Enabled(s));
    && source.Some? && verifier.Some?
    && var evidence := w.evidence(source.value, nonce);
    && if evidence.Err? then error == Some(evidence.error) && claims == []
       else AnswerOf(verifier.value, evidence.value, s.policy, wantsEat, w, error, claims)
  }

  /** What an answer comes to, given the relying party's evaluator. */
  function Ruled(evaluator: Option<int>, answer: Option<Error>, claims: seq<Claim>, w: World): (error: Option<Error>)
    ensures error.None? <==> Tolerated(evaluator, answer) && Endorsed(evaluator, claims, w)
    ensures error == Some(OverallResultFalse) <==> evaluator.None? && answer == Some(OverallResultFalse)
    ensures Tolerated(evaluator, answer) && evaluator.Some? && w.evaluate(evaluator.value, claims) == Ok(false) ==>
              error == Some(RelyingPartyPolicyMismatch)
    ensures !Tolerated(evaluator, answer) ==> error == answer
  {
    if !Tolerated(evaluator, answer) then answer
    else if evaluator.None? then None
    else
      var ruling := w.evaluate(evaluator.value, claims);
      if ruling.Err? then Some(ruling.error)
      else if ruling.value then None else Some(RelyingPartyPolicyMismatch)
  }

  /** What `attest_device` ends in from an initialized context. */
  ghost predicate Concluded(s: State, nonce: seq<byte>, wantsEat: bool, w: World, error: Option<Error>, claims: seq<Claim>) {
    var used := NonceUsed(nonce, w);
    if used.Err? then error == Some(used.error) && claims == []
    else exists answer :: DeviceAnswered(s, used.value, wantsEat, w, answer, claims) && error == Ruled(s.evaluator, answer, claims, w)
  }

  /** The enabled device is to be verified locally, on this evidence. */
  ghost predicate Locally(s: State, nonce: seq<byte>, w: World, evidence: seq<DeviceInput>) {
    var source, verifier := SourceOf(s, Enabled(s)), VerifierOf(s, Enabled(s));
    && source.Some? && verifier.Some? && verifier.value.LocalVerifier?
    && NonceUsed(nonce, w).Ok? && w.evidence(source.value, NonceUsed(nonce, w).value) == Ok(evidence)
  }

  /**
   * What success with a local verifier comes to: claims can be made for all evidence; only if a
   * detached EAT is wanted, it can be issued and every device is trustworthy or there is an
   * evaluator; and an evaluator agrees.
   */
  ghost predicate LocalSuccess(s: State, wantsEat: bool, w: World, evidence: seq<DeviceInput>, claims: seq<Claim>) {
    && VerifierOf(s, Enabled(s)).Some? && VerifierOf(s, Enabled(s)).value.LocalVerifier?
    && EvidenceMade(evidence, s.policy)
    && (wantsEat ==>
          && Issuable(Desk(w, VerifierOf(s, Enabled(s)).value.eat).(claims := claims))
          && (EvidenceTrustworthy(evidence, s.policy) || s.evaluator.Some?))
    && Endorsed(s.evaluator, claims, w)
  }

  /** An attestation with a local verifier ends without error exactly when it is such a success. */
  lemma LocalAttestationMeans(
    s: State, nonce: seq<byte>, wantsEat: bool, w: World, evidence: seq<DeviceInput>, error: Option<Error>, claims: seq<Claim>)
    requires Locally(s, nonce, w, evidence) && Concluded(s, nonce, wantsEat, w, error, claims)
    ensures error.None? <==> LocalSuccess(s, wantsEat, w, evidence, claims)
    ensures EvidenceMade(evidence, s.policy) ==> AreClaimsOf(evidence, s.policy, claims)
  {
    hide EvidenceMade, EvidenceTrustworthy, AreClaimsOf, StoppedAfter, Issuable, RefusedFor;
  }

  /** With any other verifier: there is evidence, its answer is tolerated, and an evaluator agrees. */
  lemma OtherAttestationMeans(s: State, nonce: seq<byte>, wantsEat: bool, w: World, error: Option<Error>, claims: seq<Claim>)
    requires SourceOf(s, Enabled(s)).Some? && VerifierOf(s, Enabled(s)).Some? && !VerifierOf(s, Enabled(s)).value.LocalVerifier?
    requires Concluded(s, nonce, wantsEat, w, error, claims)
    ensures error.None? <==>
              && NonceUsed(nonce, w).Ok?
              && var evidence := w.evidence(SourceOf(s, Enabled(s)).value, NonceUsed(nonce, w).value);
              && evidence.Ok?
              && var answer := w.verify(VerifierOf(s, Enabled(s)).value, evidence.value, s.policy, wantsEat);
              && Tolerated(s.evaluator, answer.0) && Endorsed(s.evaluator, answer.1, w)
  {
  }

  /**
   * The evaluator that decides is the last one set in the run before: if it does not accept the
   * claims, the attestation does not succeed, and a false overall result is not reported.
   */
  lemma EvaluatorDecides(
    http: HttpOptions, calls: seq<Call>, e: int, nonce: seq<byte>, wantsEat: bool, w: World, error: Option<Error>, claims: seq<Claim>)
    requires LastOf(calls, OfEvaluator, None) == Some(e)
    requires var (t, failed) := Init(Run(Initial(http), calls), w.factories);
             failed.None? && Concluded(t, nonce, wantsEat, w, error, claims)
    ensures w.evaluate(e, claims) != Ok(true) ==> error.Some?
    ensures error != Some(OverallResultFalse)
  {
    hide Init, DeviceAnswered;
    RunOthers(http, calls);
    InitFrame(Run(Initial(http), calls), w.factories);
  }

  class AttestationContext {
    var verifierType: VerifierType
    var http: HttpOptions
    var ocsp: Option<OcspSource>
    var ocspUrl: string
    var rim: Option<RimStore>
    var rimUrl: string
    var gpuEnabled: bool
    var gpuSource: Option<EvidenceSource>
    var gpuVerifier: Option<DeviceVerifier>
    var switchEnabled: bool
    var switchSource: Option<EvidenceSource>
    var switchVerifier: Option<DeviceVerifier>
    var nrasUrl: string
    var policy: EvidencePolicy
    var evaluator: Option<int>
    var eat: Options
    var serviceKey: string

    function View(): State
      reads this
    {
      State(Settings(verifierType, http, ocspUrl, rimUrl, nrasUrl, eat, serviceKey), Parts(rim, ocsp, gpuVerifier, switchVerifier),
            gpuEnabled, switchEnabled, gpuSource, switchSource, policy, evaluator)
    }

    constructor (http: HttpOptions)
      ensures View() == Initial(http) && UpToDate(View())
    {
      verifierType, this.http := Remote, http;
      ocsp, ocspUrl, rim, rimUrl := None, "", None, "";
      gpuEnabled, gpuSource, gpuVerifier := true, None, None;
      switchEnabled, switchSource, switchVerifier := false, None, None;
      nrasUrl, policy, evaluator, eat, serviceKey := "", DEFAULT_POLICY, None, DEFAULT_EAT, "";
    }

    method SetDeviceType(code: int)
      requires UpToDate(View())
      modifies this
      ensures View() == Apply(old(View()), Call.SetDeviceType(code)) && UpToDate(View())
      ensures gpuEnabled == (if code == 0 then true else if code == 1 then false else old(gpuEnabled))
    {
      ApplyKeeps(View(), Call.SetDeviceType(code));
      hide UpToDate, Init;
      if code != DEVICE_GPU && code != DEVICE_NVSWITCH {
        return;
      }
      gpuEnabled := code == DEVICE_GPU;
      switchEnabled := code == DEVICE_NVSWITCH;
    }

    method SetVerifierType(t: VerifierType)
      requires UpToDate(View())
      modifies this
      ensures View() == Apply(old(View()), Call.SetVerifierType(t)) && UpToDate(View())
      ensures verifierType == t
    {
      ApplyKeeps(View(), Call.SetVerifierType(t));
      hide UpToDate, Init;
      if verifierType != t {
        gpuVerifier, switchVerifier := None, None;
      }
      verifierType := t;
    }

    method SetDefaultHttpOptions(options: HttpOptions)
      requires UpToDate(View())
      modifies this
      ensures View() == Apply(old(View()), Call.SetHttpOptions(options)) && UpToDate(View())
      ensures http == options
    {
      ApplyKeeps(View(), Call.SetHttpOptions(options));
      hide UpToDate, Init;
      http := options;
    }

    method SetDefaultRimStoreUrl(url: string)
      requires UpToDate(View())
      modifies this
      ensures View() == Apply(old(View()), Call.SetRimUrl(url)) && UpToDate(View())
      ensures rimUrl == url
    {
      ApplyKeeps(View(), Call.SetRimUrl(url));
      hide UpToDate, Init;
      rimUrl, rim, gpuVerifier, switchVerifier := url, None, None, None;
    }

    method SetDefaultOcspUrl(url: string)
      requires UpToDate(View())
      modifies this
      ensures View() == Apply(old(View()), Call.SetOcspUrl(url)) && UpToDate(View())
      ensures ocspUrl == url
    {
      ApplyKeeps(View(), Call.SetOcspUrl(url));
      hide UpToDate, Init;
      ocspUrl, ocsp, gpuVerifier, switchVerifier := url, None, None, None;
    }

    method SetDefaultNrasUrl(url: string)
      requires UpToDate(View())
      modifies this
      ensures View() == Apply(old(View()), Call.SetNrasUrl(url)) && UpToDate(View())
      ensures nrasUrl == url
    {
      ApplyKeeps(View(), Call.SetNrasUrl(url));
      hide UpToDate, Init;
      nrasUrl, gpuVerifier, switchVerifier := url, None, None;
    }

    method SetDefaultRimStore(given: Option<int>)
      requires UpToDate(View())
      modifies this
      ensures View() == Apply(old(View()), Call.SetRimStore(given)) && UpToDate(View())
      ensures given.Some? ==> rim == Some(GivenStore(given.value))
    {
      ApplyKeeps(View(), Call.SetRimStore(given));
      hide UpToDate, Init;
      rim, gpuVerifier, switchVerifier := Store(given), None, None;
    }

    method SetDefaultOcspClient(given: Option<int>)
      requires UpToDate(View())
      modifies this
      ensures View() == Apply(old(View()), Call.SetOcspClient(given)) && UpToDate(View())
      ensures given.Some? ==> ocsp == Some(GivenClient(given.value))
    {
      ApplyKeeps(View(), Call.SetOcspClient(given));
      hide UpToDate, Init;
      ocsp, gpuVerifier, switchVerifier := Client(given), None, None;
    }

    method SetEvidencePolicy(p: EvidencePolicy)
      requires UpToDate(View())
      modifies this
      ensures View() == Apply(old(View()), Call.SetPolicy(p)) && UpToDate(View())
      ensures policy == p
    {
      ApplyKeeps(View(), Call.SetPolicy(p));
      hide UpToDate, Init;
      policy, gpuVerifier, switchVerifier := p, None, None;
    }

    method SetClaimsEvaluator(given: Option<int>)
      requires UpToDate(View())
      modifies this
      ensures View() == Apply(old(View()), Call.SetEvaluator(given)) && UpToDate(View())
      ensures evaluator == given
    {
      ApplyKeeps(View(), Call.SetEvaluator(given));
      hide UpToDate, Init;
      evaluator := given;
    }

    method SetEvidenceSource(device: Device, given: Option<int>)
      requires UpToDate(View())
      modifies this
      ensures View() == Apply(old(View()), Call.SetSource(device, given)) && UpToDate(View())
    {
      ApplyKeeps(View(), Call.SetSource(device, given));
      hide UpToDate, Init;
      if device == GpuDevice {
        gpuSource := Source(given);
      } else {
        switchSource := Source(given);
      }
    }

    method SetEvidenceSourceJsonFile(device: Device, path: string, f: Factories) returns (error: Option<Fault>)
      requires UpToDate(View())
      modifies this
      ensures View() == Apply(old(View()), Call.SetSourceFile(device, path, f)) && UpToDate(View())
      ensures error == f.file(device, path)
    {
      hide PartsCurrent;
      error := f.file(device, path);
      if error.Some? {
        return;
      }
      if device == GpuDevice {
        gpuSource := Some(FileSource(path));
      } else {
        switchSource := Some(FileSource(path));
      }
    }

    method SetDeviceVerifier(device: Device, given: Option<int>)
      requires UpToDate(View())
      modifies this
      ensures View() == Apply(old(View()), Call.SetVerifier(device, given)) && UpToDate(View())
    {
      ApplyKeeps(View(), Call.SetVerifier(device, given));
      hide UpToDate, Init;
      if device == GpuDevice {
        gpuVerifier := Supplied(given);
      } else {
        switchVerifier := Supplied(given);
      }
    }

    method SetDetachedEatOptions(options: Options)
      requires UpToDate(View())
      modifies this
      ensures View() == Apply(old(View()), Call.SetEat(options)) && UpToDate(View())
      ensures eat == options
    {
      ApplyKeeps(View(), Call.SetEat(options));
      hide UpToDate, Init;
      eat, gpuVerifier, switchVerifier := options, None, None;
    }

    method SetServiceKey(key: string)
      requires UpToDate(View())
      modifies this
      ensures View() == Apply(old(View()), Call.SetServiceKey(key)) && UpToDate(View())
      ensures serviceKey == key
    {
      ApplyKeeps(View(), Call.SetServiceKey(key));
      AfterServiceKey(View(), key);
      hide UpToDate, Apply;
      serviceKey := key;
      gpuVerifier, switchVerifier := None, None;
      rim, ocsp := None, None;
    }

    method EnsureCommon(f: Factories) returns (error: Option<Fault>)
      modifies this
      ensures var (p, e) := InitCommon(old(View()).settings, old(View()).parts, f);
              View() == old(View()).(parts := p) && error == e
    {
      if rim.None? {
        error := f.rim(rimUrl, serviceKey, http);
        if error.Some? {
          return;
        }
        rim := Some(RemoteStore(rimUrl, serviceKey, http));
      }
      if ocsp.None? {
        error := f.ocsp(ocspUrl, serviceKey, http);
        if error.Some? {
          return;
        }
        ocsp := Some(HttpClient(ocspUrl, serviceKey, http));
      }
      error := None;
    }

    method EnsureGpu(f: Factories) returns (error: Option<Fault>)
      modifies this
      ensures (View(), error) == InitDevice(old(View()), GpuDevice, f)
    {
      if gpuEnabled {
        if gpuSource.None? {
          gpuSource := Some(Collector);
        }
        if gpuVerifier.None? {
          var made := MakeVerifier(View().settings, View().parts, GpuDevice, f);
          if made.Err? {
            return Some(made.error);
          }
          gpuVerifier := Some(made.value);
        }
      }
      error := None;
    }

    method EnsureSwitch(f: Factories) returns (error: Option<Fault>)
      modifies this
      ensures (View(), error) == InitDevice(old(View()), SwitchDevice, f)
    {
      if switchEnabled {
        if switchSource.None? {
          switchSource := Some(Collector);
        }
        if switchVerifier.None? {
          var made := MakeVerifier(View().settings, View().parts, SwitchDevice, f);
          if made.Err? {
            return Some(made.error);
          }
          switchVerifier := Some(made.value);
        }
      }
      error := None;
    }

    /** `ensure_init`. */
    method EnsureInitialized(f: Factories) returns (error: Option<Fault>)
      requires UpToDate(View())
      modifies this
      ensures (View(), error) == Init(old(View()), f) && UpToDate(View())
    {
      hide InitCommon, InitDevice, UpToDate;
      InitKeeps(View(), f);
      error := EnsureCommon(f);
      if error.None? {
        error := EnsureGpu(f);
        if error.None? {
          error := EnsureSwitch(f);
        }
      }
    }

    /** `attest_device`. */
    method AttestDevice(nonce: seq<byte>, wantsEat: bool, w: World) returns (error: Option<Error>, claims: seq<Claim>)
      requires UpToDate(View()) && WorldPopulated(w)
      modifies this
      ensures View() == Init(old(View()), w.factories).0 && UpToDate(View())
      ensures Init(old(View()), w.factories).1.Some? ==> error == Init(old(View()), w.factories).1 && claims == []
      ensures Init(old(View()), w.factories).1.None? ==> Concluded(View(), nonce, wantsEat, w, error, claims)
      ensures forall evidence :: Init(old(View()), w.factories).1.None? && Locally(View(), nonce, w, evidence) ==>
                (error.None? <==> LocalSuccess(View(), wantsEat, w, evidence, claims))
    {
      hide Init, Concluded, PartsCurrent, WorldPopulated, Locally, LocalSuccess, EvidenceMade, AreClaimsOf;
      claims := [];
      ghost var before := View();
      error := EnsureInitialized(w.factories);
      if error.Some? {
        return;
      }
      InitComplete(before, w.factories);
      InitFrame(before, w.factories);
      error, claims := Attest(nonce, wantsEat, w);
      forall evidence | Locally(View(), nonce, w, evidence)
        ensures error.None? <==> LocalSuccess(View(), wantsEat, w, evidence, claims)
      {
        LocalAttestationMeans(View(), nonce, wantsEat, w, evidence, error, claims);
      }
    }

    /** The part of `attest_device` after initialization. */
    method Attest(nonce: seq<byte>, wantsEat: bool, w: World) returns (error: Option<Error>, claims: seq<Claim>)
      requires gpuEnabled != switchEnabled && SourceOf(View(), Enabled(View())).Some? && VerifierOf(View(), Enabled(View())).Some?
      requires WorldPopulated(w)
      ensures Concluded(View(), nonce, wantsEat, w, error, claims)
    {
      hide AnswerOf, WorldPopulated;
      claims := [];
      var used := nonce;
      if nonce == [] {
        if w.freshNonce.Err? {
          return Some(w.freshNonce.error), claims;
        }
        used := w.freshNonce.value;
      }
      error := Some(InternalError);
      if gpuEnabled {
        error, claims := AttestWith(gpuSource.value, gpuVerifier.value, used, wantsEat, w);
      } else if switchEnabled {
        error, claims := AttestWith(switchSource.value, switchVerifier.value, used, wantsEat, w);
      }
      assert DeviceAnswered(View(), used, wantsEat, w, error, claims);
      if error == Some(OverallResultFalse) {
        if evaluator.None? {
          return;
        }
        error := None;
      }
      if error.Some? {
        return;
      }
      if evaluator.Some? {
        var answer := w.evaluate(evaluator.value, claims);
        if answer.Err? {
          return Some(answer.error), claims;
        }
        if !answer.value {
          return Some(RelyingPartyPolicyMismatch), claims;
        }
      }
    }

    /** `attest_gpus` and `attest_switches`. */
    method AttestWith(source: EvidenceSource, verifier: DeviceVerifier, nonce: seq<byte>, wantsEat: bool, w: World)
      returns (error: Option<Error>, claims: seq<Claim>)
      requires WorldPopulated(w)
      ensures var evidence := w.evidence(source, nonce);
              if evidence.Err? then error == Some(evidence.error) && claims == []
              else AnswerOf(verifier, evidence.value, policy, wantsEat, w, error, claims)
    {
      hide LocalAnswer, EvidencePopulated;
      var evidence := w.evidence(source, nonce);
      if evidence.Err? {
        return Some(evidence.error), [];
      }
      if verifier.LocalVerifier? {
        var eat;
        error, claims, eat := VerifyEvidence(evidence.value, policy, wantsEat, Desk(w, verifier.eat));
      } else {
        var answer := w.verify(verifier, evidence.value, policy, wantsEat);
        error, claims := answer.0, answer.1;
      }
    }
  }
}
