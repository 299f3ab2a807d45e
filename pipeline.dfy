/**
  What one request through imagor produces, as values: the backends are scripted (each answers
  every call with a fixed result), and each outcome records the backend calls the pipeline makes,
  in order. The methods of class Imagor are proved to produce exactly these outcomes; the lemmas
  here state what the outcomes mean.
 */
module Pipeline {
  import opened Base
  import opened Errors
  import opened Chains
  import opened Strconv

  const Name := "Imagor"
  const Version := "0.1.0"

  /** time.Duration: nanoseconds. */
  const Second := 1_000_000_000
  const Minute := 60 * Second

  /**
    The request parameters the core inspects; params.go is not part of this model, so the other
    fields and how they are parsed are not modelled.
   */
  datatype Params = Params(path: string, image: string, unsafe: bool, meta: bool)

  /** Image metadata; only its content type is inspected, the other fields reach the JSON reply only. */
  datatype Meta = Meta(contentType: string, width: int, height: int)

  /** A loader that answers every Load with these bytes and this error. */
  datatype Loader = Loader(buf: Bytes, err: Option<Error>)

  /** A storage; its Save error is only logged. */
  datatype Storage = Storage(err: Option<Error>)

  /** A processor's scripted answers to Process, Startup and Shutdown. */
  datatype Processor = Processor(
    buf: Bytes, meta: Option<Meta>, err: Option<Error>,
    startup: Option<Error>, shutdown: Option<Error>)

  /** One call into a backend; loaders, storages and processors are named by their position. */
  datatype Call =
    | LoadCall(loader: nat, image: string)
    | SaveCall(storage: nat, image: string, buf: Bytes)
    | ProcessCall(processor: nat, input: Bytes)
    | StartupCall(processor: nat)
    | ShutdownCall(processor: nat)

  /** One call on the http.ResponseWriter. */
  datatype WriterCall =
    | HeaderSet(name: string, value: string)
    | StatusWritten(code: int)
    | BodyWritten(body: Bytes)

  /** The values the server encodes as JSON. */
  datatype JsonValue =
    | ServiceInfo(app: string, version: string)
    | MetaJson(meta: Meta)
    | ErrorJson(err: Error)

  /**
    The functions the core calls but whose bodies are not part of this model: ParseParams,
    Params.Verify, WrapError, json.Marshal and http.DetectContentType.
   */
  datatype Env = Env(
    parse: string -> Params,
    verify: (Params, string) -> bool,
    wrap: Error -> Error,
    marshal: JsonValue -> Bytes,
    detect: Bytes -> string)

  /** The in-memory result cache: item limit, cost limit, default TTL. */
  datatype CacheConfig = Memory(maxItems: int, maxCost: int, ttl: int)

  /** The configurable fields of an Imagor (the logger is not modelled). */
  datatype Config = Config(
    unsafe: bool, secret: string,
    loaders: seq<Loader>, storages: seq<Storage>, processors: seq<Processor>,
    requestTimeout: int, cache: CacheConfig, cacheTTL: int, debug: bool)

  /** imagor.New before any option: a 30 second request timeout and a one minute cache TTL. */
  const Defaults := Config(false, "", [], [], [], 30 * Second, Memory(1000, 0x1000_0000, Minute), Minute, false)

  /** A functional option: the list options append, the others replace the field. */
  datatype AppOption =
    | WithLoaders(addLoaders: seq<Loader>)
    | WithStorages(addStorages: seq<Storage>)
    | WithProcessors(addProcessors: seq<Processor>)
    | WithUnsafe(setUnsafe: bool)
    | WithSecret(setSecret: string)
    | WithRequestTimeout(setTimeout: int)
    | WithCache(setCache: CacheConfig)
    | WithCacheTTL(setTTL: int)
    | WithDebug(setDebug: bool)

  function Applied(c: Config, option: AppOption): Config {
    match option
    case WithLoaders(ls) => c.(loaders := c.loaders + ls)
    case WithStorages(ss) => c.(storages := c.storages + ss)
    case WithProcessors(ps) => c.(processors := c.processors + ps)
    case WithUnsafe(u) => c.(unsafe := u)
    case WithSecret(s) => c.(secret := s)
    case WithRequestTimeout(t) => c.(requestTimeout := t)
    case WithCache(m) => c.(cache := m)
    case WithCacheTTL(t) => c.(cacheTTL := t)
    case WithDebug(d) => c.(debug := d)
  }

  /** The options applied in order. */
  function Configure(c: Config, options: seq<AppOption>): Config
    decreases |options|
  {
    if options == [] then c else Configure(Applied(c, options[0]), options[1..])
  }

  /** The loaders the options add, in order. */
  function LoadersAdded(options: seq<AppOption>): seq<Loader> {
    if options == [] then []
    else (if options[0].WithLoaders? then options[0].addLoaders else []) + LoadersAdded(options[1..])
  }

  /** Every option list adds its loaders after those already configured, in option order. */
  lemma {:induction false} ConfigureLoaders(c: Config, options: seq<AppOption>)
    ensures Configure(c, options).loaders == c.loaders + LoadersAdded(options)
    decreases |options|
  {
    if options != [] {
      ConfigureLoaders(Applied(c, options[0]), options[1..]);
    }
  }

  /** Without a WithRequestTimeout option the request timeout stays as it was. */
  lemma {:induction false} ConfigureKeepsTimeout(c: Config, options: seq<AppOption>)
    requires forall j :: 0 <= j < |options| ==> !options[j].WithRequestTimeout?
    ensures Configure(c, options).requestTimeout == c.requestTimeout
    decreases |options|
  {
    if options != [] {
      ConfigureKeepsTimeout(Applied(c, options[0]), options[1..]);
    }
  }

  /** Options are applied one after the other, so splitting the list changes nothing. */
  lemma {:induction false} ConfigureAppend(c: Config, xs: seq<AppOption>, ys: seq<AppOption>)
    ensures Configure(c, xs + ys) == Configure(Configure(c, xs), ys)
    decreases |xs|
  {
    if xs == [] {
      assert xs + ys == ys;
    } else {
      assert (xs + ys)[0] == xs[0] && (xs + ys)[1..] == xs[1..] + ys;
      ConfigureAppend(Applied(c, xs[0]), xs[1..], ys);
    }
  }

  // ---------------------------------------------------------------- the loader chain

  function LoaderErr(l: Loader): Option<Error> {
    l.err
  }

  function LoaderBufs(loaders: seq<Loader>): seq<Bytes> {
    seq(|loaders|, j requires 0 <= j < |loaders| => loaders[j].buf)
  }

  /** How many loaders the chain calls: up to and including the first that succeeds. */
  function LoadersTried(loaders: seq<Loader>): nat {
    Tried(FirstNil(Errs(loaders, LoaderErr)), |loaders|)
  }

  /** The chain's error before WrapError: nil unless every loader failed, else the last one's. */
  function ChainError(loaders: seq<Loader>): (r: Option<Error>)
    ensures r.None? <==> loaders == [] || exists j :: 0 <= j < |loaders| && loaders[j].err.None?
    ensures r.Some? ==> loaders[|loaders| - 1].err.Some? && r.value == PassToNotFound(loaders[|loaders| - 1].err.value)
    ensures r.Some? ==> r.value != ErrPass
  {
    var k := FirstNil(Errs(loaders, LoaderErr));
    assert k < |loaders| ==> loaders[k].err.None?;
    if k < |loaders| || loaders == [] then None
    else Some(PassToNotFound(loaders[|loaders| - 1].err.value))
  }

  /** The first i loaders failed and loader i succeeds: the chain stops after it. */
  lemma ChainStopsAt(loaders: seq<Loader>, i: nat)
    requires i < |loaders| && loaders[i].err.None?
    requires forall j :: 0 <= j < i ==> loaders[j].err.Some?
    ensures LoadersTried(loaders) == i + 1 && ChainError(loaders).None?
  {
    FirstNilIs(Errs(loaders, LoaderErr), i);
  }

  /** Every loader failed: all of them are tried. */
  lemma ChainExhausted(loaders: seq<Loader>)
    requires forall j :: 0 <= j < |loaders| ==> loaders[j].err.Some?
    ensures LoadersTried(loaders) == |loaders|
    ensures ChainError(loaders).None? <==> loaders == []
  {
  }

  function LoadCalls(image: string, n: nat): seq<Call> {
    seq(n, j requires 0 <= j < n => LoadCall(j, image))
  }

  lemma LoadCallsStep(image: string, n: nat)
    ensures LoadCalls(image, n) + [LoadCall(n, image)] == LoadCalls(image, n + 1)
  {
  }

  function SaveCalls(n: nat, image: string, buf: Bytes): seq<Call> {
    seq(n, j requires 0 <= j < n => SaveCall(j, image, buf))
  }

  datatype Loaded = Loaded(buf: Bytes, err: Option<Error>, calls: seq<Call>)

  /** imagor's load: the loader chain, then the saves when it ended without error, then WrapError. */
  function LoadOutcome(loaders: seq<Loader>, storages: seq<Storage>, image: string, wrap: Error -> Error)
    : (r: Loaded)
    ensures r.err.None? <==> ChainError(loaders).None?
  {
    var t := LoadersTried(loaders);
    var buf := Fallback([], LoaderBufs(loaders)[..t]);
    var err := ChainError(loaders);
    var saves := if err.None? && |storages| > 0 then SaveCalls(|storages|, image, buf) else [];
    Loaded(buf, Wrapped(wrap, err), LoadCalls(image, t) + saves)
  }

  /**
    Loaders are called in list order with the requested image, and the first one that succeeds
    ends the chain: no later loader is called and the error is nil.
   */
  lemma LoadStopsAtFirstSuccess(loaders: seq<Loader>, storages: seq<Storage>, image: string,
                                wrap: Error -> Error, k: nat)
    requires k < |loaders| && loaders[k].err.None?
    requires forall j :: 0 <= j < k ==> loaders[j].err.Some?
    ensures var r := LoadOutcome(loaders, storages, image, wrap);
      r.err.None? && |r.calls| == k + 1 + |storages| &&
      (forall j :: 0 <= j <= k ==> r.calls[j] == LoadCall(j, image)) &&
      (forall c :: c in r.calls ==> !c.LoadCall? || c.loader <= k)
  {
    var errs := Errs(loaders, LoaderErr);
    FirstNilIs(errs, k);
  }

  /**
    The buffer is the last non-empty one a called loader returned: a loader that succeeds with
    empty bytes keeps an earlier loader's fallback bytes.
   */
  lemma SuccessKeepsFallback(loaders: seq<Loader>, storages: seq<Storage>, image: string,
                             wrap: Error -> Error, j: nat, k: nat)
    requires j < k < |loaders| && loaders[k].err.None?
    requires forall i :: 0 <= i < k ==> loaders[i].err.Some?
    requires loaders[j].buf != [] && forall i :: j < i <= k ==> loaders[i].buf == []
    ensures LoadOutcome(loaders, storages, image, wrap).buf == loaders[j].buf
  {
    FirstNilIs(Errs(loaders, LoaderErr), k);
    var bufs := LoaderBufs(loaders)[..k + 1];
    assert bufs[j] != [] && forall i :: j < i < |bufs| ==> bufs[i] == [];
    FallbackIsLast([], bufs);
  }

  /**
    When every loader fails, all of them are called, nothing is saved, and the error is the last
    loader's error, a Pass turned into NotFound, then wrapped.
   */
  lemma AllLoadersFail(loaders: seq<Loader>, storages: seq<Storage>, image: string, wrap: Error -> Error)
    requires loaders != [] && forall j :: 0 <= j < |loaders| ==> loaders[j].err.Some?
    ensures var r := LoadOutcome(loaders, storages, image, wrap);
      r.err == Some(wrap(PassToNotFound(loaders[|loaders| - 1].err.value))) &&
      r.calls == LoadCalls(image, |loaders|) &&
      (loaders[|loaders| - 1].err == Some(ErrPass) ==> r.err == Some(wrap(ErrNotFound)))
  {
    var r := LoadOutcome(loaders, storages, image, wrap);
    assert ChainError(loaders).Some?;
    assert FirstNil(Errs(loaders, LoaderErr)) == |loaders|;
    assert r.calls == LoadCalls(image, |loaders|) + [];
  }

  /** With no loaders the chain succeeds with an empty buffer, and that buffer is saved. */
  lemma NoLoaders(storages: seq<Storage>, image: string, wrap: Error -> Error)
    ensures LoadOutcome([], storages, image, wrap) == Loaded([], None, SaveCalls(|storages|, image, []))
  {
    assert LoadCalls(image, 0) == [];
    var saves := if |storages| > 0 then SaveCalls(|storages|, image, []) else [];
    assert saves == SaveCalls(|storages|, image, []);
  }

  /** Each storage appears exactly once among n save calls. */
  lemma {:induction false} SaveCallsOnce(n: nat, image: string, buf: Bytes, j: nat)
    requires j < n
    ensures multiset(SaveCalls(n, image, buf))[SaveCall(j, image, buf)] == 1
  {
    var c := SaveCall(j, image, buf);
    assert SaveCalls(n, image, buf) == SaveCalls(n - 1, image, buf) + [SaveCall(n - 1, image, buf)];
    if j == n - 1 {
      assert c !in SaveCalls(n - 1, image, buf);
    } else {
      SaveCallsOnce(n - 1, image, buf, j);
    }
  }

  /** The calls of a load: the tried loaders, then the saves when the chain succeeded. */
  lemma LoadCallsSplit(loaders: seq<Loader>, storages: seq<Storage>, image: string, wrap: Error -> Error)
    ensures var r := LoadOutcome(loaders, storages, image, wrap);
      r.calls == LoadCalls(image, LoadersTried(loaders)) +
        (if r.err.None? && |storages| > 0 then SaveCalls(|storages|, image, r.buf) else [])
  {
  }

  /** Save calls after load calls: each storage once, and only save calls with this image and buffer. */
  lemma SavesAfterLoads(t: nat, n: nat, image: string, buf: Bytes)
    ensures var calls := LoadCalls(image, t) + SaveCalls(n, image, buf);
      (forall j :: 0 <= j < n ==> multiset(calls)[SaveCall(j, image, buf)] == 1) &&
      (forall c :: c in calls && c.SaveCall? ==> c.image == image && c.buf == buf && c.storage < n)
  {
    var loads := LoadCalls(image, t);
    var saves := SaveCalls(n, image, buf);
    forall j | 0 <= j < n
      ensures multiset(loads + saves)[SaveCall(j, image, buf)] == 1
    {
      SaveCallsOnce(n, image, buf, j);
      assert SaveCall(j, image, buf) !in loads;
    }
    forall c: Call | c in loads + saves && c.SaveCall?
      ensures c.image == image && c.buf == buf && c.storage < n
    {
      assert c !in loads;
    }
  }

  /**
    After a successful chain Save is attempted exactly once per storage, with the requested image
    and the chain's buffer, and there are no other saves; after a failed chain nothing is saved.
   */
  lemma SavesOncePerStorage(loaders: seq<Loader>, storages: seq<Storage>, image: string, wrap: Error -> Error)
    ensures var r := LoadOutcome(loaders, storages, image, wrap);
      (r.err.None? ==> forall j :: 0 <= j < |storages| ==> multiset(r.calls)[SaveCall(j, image, r.buf)] == 1) &&
      (r.err.None? ==> forall c :: c in r.calls && c.SaveCall? ==> c.image == image && c.buf == r.buf && c.storage < |storages|) &&
      (r.err.Some? ==> forall c :: c in r.calls ==> c.LoadCall?)
  {
    var r := LoadOutcome(loaders, storages, image, wrap);
    var t := LoadersTried(loaders);
    LoadCallsSplit(loaders, storages, image, wrap);
    if r.err.None? {
      SavesAfterLoads(t, |storages|, image, r.buf);
      if |storages| == 0 {
        assert r.calls == LoadCalls(image, t) + SaveCalls(0, image, r.buf);
      }
    } else {
      assert r.calls == LoadCalls(image, t) + [];
    }
  }

  // ---------------------------------------------------------------- the processor chain

  function ProcErr(p: Processor): Option<Error> {
    p.err
  }

  /** What each processor hands on: its bytes when it passes, nothing otherwise. */
  function PassBufs(ps: seq<Processor>): seq<Bytes> {
    seq(|ps|, j requires 0 <= j < |ps| => if ps[j].err == Some(ErrPass) then ps[j].buf else [])
  }

  /** The buffer after the processors ps have all failed: the last non-empty Pass bytes, or the input. */
  function Carried(input: Bytes, ps: seq<Processor>): Bytes {
    Fallback(input, PassBufs(ps))
  }

  /** The calls of the first n processors, each given the buffer carried to it. */
  function ProcessCalls(input: Bytes, ps: seq<Processor>, n: nat): seq<Call>
    requires n <= |ps|
  {
    seq(n, j requires 0 <= j < n => ProcessCall(j, Carried(input, ps[..j])))
  }

  /** A result of the processor chain, or of Do. */
  datatype Outcome = Outcome(buf: Bytes, meta: Option<Meta>, err: Option<Error>, calls: seq<Call>)

  /** The processor loop of Do, started on the loaded buffer. */
  function ProcessOutcome(input: Bytes, ps: seq<Processor>): (r: Outcome)
    ensures r.err.Some? ==> r.err.value != ErrPass
  {
    var k := FirstNil(Errs(ps, ProcErr));
    var calls := ProcessCalls(input, ps, Tried(k, |ps|));
    if k < |ps| then Outcome(ps[k].buf, ps[k].meta, LastFailure(Errs(ps[..k], ProcErr)), calls)
    else Outcome(Carried(input, ps), None, LastFailure(Errs(ps, ProcErr)), calls)
  }

  /** Splitting off the last processor splits its error and its handed-on buffer off too. */
  lemma ProcStep(ps: seq<Processor>, i: nat)
    requires i < |ps|
    ensures Errs(ps[..i + 1], ProcErr) == Errs(ps[..i], ProcErr) + [ps[i].err]
    ensures PassBufs(ps[..i + 1]) == PassBufs(ps[..i]) + [if ps[i].err == Some(ErrPass) then ps[i].buf else []]
  {
  }

  /** One more failed processor: its call, the buffer it hands on, and the error it leaves. */
  lemma ProcessStep(input: Bytes, ps: seq<Processor>, i: nat)
    requires i < |ps|
    ensures ProcessCalls(input, ps, i) + [ProcessCall(i, Carried(input, ps[..i]))] == ProcessCalls(input, ps, i + 1)
    ensures Carried(input, ps[..i + 1]) ==
      if ps[i].err == Some(ErrPass) && ps[i].buf != [] then ps[i].buf else Carried(input, ps[..i])
    ensures LastFailure(Errs(ps[..i + 1], ProcErr)) ==
      if IsHard(ps[i].err) then ps[i].err else LastFailure(Errs(ps[..i], ProcErr))
  {
    ProcStep(ps, i);
    FallbackStep(input, PassBufs(ps[..i]), if ps[i].err == Some(ErrPass) then ps[i].buf else []);
    LastFailureStep(Errs(ps[..i], ProcErr), ps[i].err);
  }

  /** The state of the processor loop after n processors that all failed. */
  function Running(input: Bytes, ps: seq<Processor>, n: nat): Outcome
    requires n <= |ps|
  {
    Outcome(Carried(input, ps[..n]), None, LastFailure(Errs(ps[..n], ProcErr)), ProcessCalls(input, ps, n))
  }

  /** One more failed processor advances the loop state. */
  lemma RunningStep(input: Bytes, ps: seq<Processor>, i: nat)
    requires i < |ps| && ps[i].err.Some?
    ensures var r := Running(input, ps, i);
      Running(input, ps, i + 1) ==
        Outcome(if ps[i].err == Some(ErrPass) && ps[i].buf != [] then ps[i].buf else r.buf, None,
                if IsHard(ps[i].err) then ps[i].err else r.err,
                r.calls + [ProcessCall(i, r.buf)])
  {
    ProcessStep(input, ps, i);
  }

  /** Processor i is the first to succeed: the chain ends with its result. */
  lemma ProcessStopsAt(input: Bytes, ps: seq<Processor>, i: nat)
    requires i < |ps| && ps[i].err.None?
    requires forall j :: 0 <= j < i ==> ps[j].err.Some?
    ensures ProcessOutcome(input, ps) ==
      Outcome(ps[i].buf, ps[i].meta, LastFailure(Errs(ps[..i], ProcErr)), ProcessCalls(input, ps, i + 1))
  {
    FirstNilIs(Errs(ps, ProcErr), i);
  }

  /** Every processor failed: the chain ends with the carried buffer and no meta. */
  lemma ProcessExhausted(input: Bytes, ps: seq<Processor>)
    requires forall j :: 0 <= j < |ps| ==> ps[j].err.Some?
    ensures ProcessOutcome(input, ps) ==
      Outcome(Carried(input, ps), None, LastFailure(Errs(ps, ProcErr)), ProcessCalls(input, ps, |ps|))
  {
  }

  /**
    The first processor that succeeds supplies the final buffer and meta, and no later processor
    is called.
   */
  lemma FirstProcessorWins(input: Bytes, ps: seq<Processor>, k: nat)
    requires k < |ps| && ps[k].err.None?
    requires forall j :: 0 <= j < k ==> ps[j].err.Some?
    ensures var r := ProcessOutcome(input, ps);
      r.buf == ps[k].buf && r.meta == ps[k].meta && |r.calls| == k + 1 &&
      forall c :: c in r.calls ==> c.processor <= k
  {
    FirstNilIs(Errs(ps, ProcErr), k);
  }

  /**
    What the next processor receives: the bytes of a Pass that carried some, otherwise the same
    buffer the previous processor received (an empty Pass or a hard error leaves it unchanged).
   */
  lemma PassCarriesBytes(input: Bytes, ps: seq<Processor>, j: nat)
    requires j + 1 < |ProcessOutcome(input, ps).calls|
    ensures var calls := ProcessOutcome(input, ps).calls;
      calls[j + 1].input ==
        if ps[j].err == Some(ErrPass) && ps[j].buf != [] then ps[j].buf else calls[j].input
  {
    ProcStep(ps, j);
    FallbackStep(input, PassBufs(ps[..j]), if ps[j].err == Some(ErrPass) then ps[j].buf else []);
  }

  /** The first processor receives the loaded buffer. */
  lemma FirstProcessorInput(input: Bytes, ps: seq<Processor>)
    requires ps != []
    ensures ProcessOutcome(input, ps).calls[0] == ProcessCall(0, input)
  {
    assert PassBufs(ps[..0]) == [];
  }

  /**
    The error of the processor chain is the last hard (non-nil, non-Pass) error before the first
    success; a later success does not clear it.
   */
  lemma HardErrorSurvivesSuccess(input: Bytes, ps: seq<Processor>, j: nat, k: nat)
    requires j < k < |ps| && ps[k].err.None?
    requires forall i :: 0 <= i < k ==> ps[i].err.Some?
    requires ps[j].err.value != ErrPass
    requires forall i :: j < i < k ==> ps[i].err == Some(ErrPass)
    ensures ProcessOutcome(input, ps).err == ps[j].err
    ensures ProcessOutcome(input, ps).buf == ps[k].buf
  {
    FirstNilIs(Errs(ps, ProcErr), k);
    var errs := Errs(ps[..k], ProcErr);
    assert IsHard(errs[j]) && forall i :: j < i < |errs| ==> !IsHard(errs[i]);
    LastFailureIsLast(errs);
  }

  /**
    When every processor passes (or there are none), the chain reports no error and no meta, all
    processors are called, and the buffer is the last non-empty Pass bytes or the loaded buffer.
   */
  lemma AllProcessorsPass(input: Bytes, ps: seq<Processor>)
    requires forall j :: 0 <= j < |ps| ==> ps[j].err == Some(ErrPass)
    ensures var r := ProcessOutcome(input, ps);
      r.err.None? && r.meta.None? && r.buf == Carried(input, ps) && |r.calls| == |ps|
    ensures ps == [] ==> ProcessOutcome(input, ps) == Outcome(input, None, None, [])
  {
    var errs := Errs(ps, ProcErr);
    assert forall j :: 0 <= j < |errs| ==> !IsHard(errs[j]);
    LastFailureIsLast(errs);
    assert FirstNil(errs) == |ps|;
  }

  // ---------------------------------------------------------------- scenarios

  /** A passing loader followed by one that succeeds: the second one's bytes, no error. */
  lemma PassThenSuccessLoads(b: Bytes, storages: seq<Storage>, image: string, wrap: Error -> Error)
    ensures var r := LoadOutcome([Loader([], Some(ErrPass)), Loader(b, None)], storages, image, wrap);
      r.buf == b && r.err.None? && r.calls[..2] == [LoadCall(0, image), LoadCall(1, image)]
  {
    var ls := [Loader([], Some(ErrPass)), Loader(b, None)];
    ChainStopsAt(ls, 1);
    var bufs := LoaderBufs(ls);
    assert bufs == [[], b] && bufs[..2] == bufs && bufs[..0] == [];
    FallbackPrefixStep([], bufs, 0);
    FallbackPrefixStep([], bufs, 1);
  }

  /** Two passing loaders: not found. */
  lemma TwoPassesNotFound(a: Bytes, b: Bytes, storages: seq<Storage>, image: string, wrap: Error -> Error)
    ensures var r := LoadOutcome([Loader(a, Some(ErrPass)), Loader(b, Some(ErrPass))], storages, image, wrap);
      r.err == Some(wrap(ErrNotFound)) && |r.calls| == 2
  {
    AllLoadersFail([Loader(a, Some(ErrPass)), Loader(b, Some(ErrPass))], storages, image, wrap);
  }

  /** A passing processor with bytes, then a succeeding one: the second one's result, fed the passed bytes. */
  lemma PassThenSuccessProcesses(input: Bytes, b1: Bytes, b2: Bytes, m2: Meta, x: Option<Error>, y: Option<Error>)
    requires b1 != []
    ensures var r := ProcessOutcome(input, [Processor(b1, None, Some(ErrPass), x, y), Processor(b2, Some(m2), None, x, y)]);
      r == Outcome(b2, Some(m2), None, [ProcessCall(0, input), ProcessCall(1, b1)])
  {
    var ps := [Processor(b1, None, Some(ErrPass), x, y), Processor(b2, Some(m2), None, x, y)];
    ProcessStopsAt(input, ps, 1);
    ProcessStep(input, ps, 0);
    assert ps[..0] == [] && ps[..1] == [ps[0]];
    assert Carried(input, []) == input;
    assert ProcessCalls(input, ps, 0) == [];
    assert Errs([ps[0]], ProcErr) == [Some(ErrPass)];
  }

  // ---------------------------------------------------------------- Do

  /** The authorization gate: unsafe requests on an unsafe server skip the signature check. */
  predicate Admitted(c: Config, params: Params, env: Env) {
    (c.unsafe && params.unsafe) || env.verify(params, c.secret)
  }

  /** Do: the gate, then the load, then (when it succeeded) the processor chain. */
  function DoOutcome(c: Config, params: Params, env: Env): (r: Outcome)
    ensures r.err.None? ==> Admitted(c, params, env)
  {
    if !Admitted(c, params, env) then Outcome([], None, Some(ErrHashMismatch), [])
    else
      var l := LoadOutcome(c.loaders, c.storages, params.image, env.wrap);
      if l.err.Some? then Outcome(l.buf, None, l.err, l.calls)
      else
        var p := ProcessOutcome(l.buf, c.processors);
        Outcome(p.buf, p.meta, p.err, l.calls + p.calls)
  }

  /**
    Unless both the server and the request are unsafe, a request whose signature does not verify
    gets ErrHashMismatch with no bytes and no meta, and no backend is called.
   */
  lemma GateRejects(c: Config, params: Params, env: Env)
    requires !(c.unsafe && params.unsafe) && !env.verify(params, c.secret)
    ensures DoOutcome(c, params, env) == Outcome([], None, Some(ErrHashMismatch), [])
  {
  }

  /** A failed load returns its (possibly partial) buffer with its error, and no processor runs. */
  lemma LoadFailureSkipsProcessors(c: Config, params: Params, env: Env)
    requires Admitted(c, params, env)
    requires LoadOutcome(c.loaders, c.storages, params.image, env.wrap).err.Some?
    ensures var l := LoadOutcome(c.loaders, c.storages, params.image, env.wrap);
      var r := DoOutcome(c, params, env);
      r.buf == l.buf && r.meta.None? && r.err == l.err &&
      forall x :: x in r.calls ==> !x.ProcessCall?
  {
    SavesOncePerStorage(c.loaders, c.storages, params.image, env.wrap);
  }

  /** After a successful load the processors start on the loaded buffer, after the load's calls. */
  lemma LoadSuccessFeedsProcessors(c: Config, params: Params, env: Env)
    requires Admitted(c, params, env)
    requires LoadOutcome(c.loaders, c.storages, params.image, env.wrap).err.None?
    ensures var l := LoadOutcome(c.loaders, c.storages, params.image, env.wrap);
      var r := DoOutcome(c, params, env);
      r.calls[..|l.calls|] == l.calls &&
      (c.processors != [] ==> r.calls[|l.calls|] == ProcessCall(0, l.buf))
  {
    var l := LoadOutcome(c.loaders, c.storages, params.image, env.wrap);
    if c.processors != [] {
      FirstProcessorInput(l.buf, c.processors);
    }
  }

  // ---------------------------------------------------------------- ServeHTTP

  /** A body with its length: Content-Length, then the write. */
  function BodyReply(buf: Bytes): seq<WriterCall> {
    [HeaderSet("Content-Length", Itoa(|buf|)), BodyWritten(buf)]
  }

  /** resJSON: a JSON content type, then the body with its length. */
  function JsonReply(body: Bytes): seq<WriterCall> {
    [HeaderSet("Content-Type", "application/json")] + BodyReply(body)
  }

  /** The content type header ServeHTTP sets before the status: meta's, a sniffed one, or none. */
  function ContentTypeHeader(buf: Bytes, meta: Option<Meta>, env: Env): seq<WriterCall> {
    if meta.Some? then [HeaderSet("Content-Type", meta.value.contentType)]
    else if |buf| > 0 then [HeaderSet("Content-Type", env.detect(buf))]
    else []
  }

  /** The status ServeHTTP writes for an error: the code of the wrapped error, Pass read as NotFound. */
  function StatusHeader(err: Error, env: Env): seq<WriterCall> {
    var e := env.wrap(err);
    if e.Error? then [StatusWritten(PassToNotFound(e).code)] else []
  }

  /** How ServeHTTP turns Do's outcome into writer calls. */
  function Shape(asMeta: bool, buf: Bytes, meta: Option<Meta>, err: Option<Error>, env: Env): seq<WriterCall> {
    if meta.Some? && asMeta then JsonReply(env.marshal(MetaJson(meta.value)))
    else if err.Some? then
      ContentTypeHeader(buf, meta, env) + StatusHeader(err.value, env) +
      (if |buf| > 0 then BodyReply(buf) else JsonReply(env.marshal(ErrorJson(err.value))))
    else ContentTypeHeader(buf, meta, env) + BodyReply(buf)
  }

  datatype Served = Served(writes: seq<WriterCall>, calls: seq<Call>)

  /** ServeHTTP for the escaped request path uri. */
  function Serve(c: Config, uri: string, env: Env): Served {
    if uri == "/" then Served(JsonReply(env.marshal(ServiceInfo(Name, Version))), [])
    else
      var params := env.parse(uri);
      var d := DoOutcome(c, params, env);
      Served(Shape(params.meta, d.buf, d.meta, d.err, env), d.calls)
  }

  /** The root path answers with the service's name and version and calls no backend. */
  lemma RootIsServiceInfo(c: Config, env: Env)
    ensures Serve(c, "/", env).calls == []
    ensures Serve(c, "/", env).writes == JsonReply(env.marshal(ServiceInfo("Imagor", "0.1.0")))
  {
  }

  /** Past the root path, the writes are Do's outcome shaped into a reply. */
  lemma ServeShape(c: Config, uri: string, env: Env)
    requires uri != "/"
    ensures var d := DoOutcome(c, env.parse(uri), env);
      Serve(c, uri, env).writes == Shape(env.parse(uri).meta, d.buf, d.meta, d.err, env)
  {
  }

  /** A meta request that produced meta is answered with the meta as JSON, even with an error. */
  lemma MetaRequestGetsJson(c: Config, uri: string, env: Env)
    requires uri != "/" && env.parse(uri).meta
    requires DoOutcome(c, env.parse(uri), env).meta.Some?
    ensures var d := DoOutcome(c, env.parse(uri), env);
      Serve(c, uri, env).writes == JsonReply(env.marshal(MetaJson(d.meta.value))) &&
      forall x :: x in Serve(c, uri, env).writes ==> !x.StatusWritten?
  {
    ServeShape(c, uri, env);
  }

  /** The writes of an error reply that is not a meta reply. */
  lemma ErrorShape(asMeta: bool, d: Outcome, env: Env)
    requires d.err.Some? && !(d.meta.Some? && asMeta)
    ensures Shape(asMeta, d.buf, d.meta, d.err, env) == ContentTypeHeader(d.buf, d.meta, env) + StatusHeader(d.err.value, env) +
      (if |d.buf| > 0 then BodyReply(d.buf) else JsonReply(env.marshal(ErrorJson(d.err.value))))
  {
  }

  /** An error reply whose error WrapError leaves as Pass writes NotFound's status, and no other. */
  lemma PassShape(asMeta: bool, d: Outcome, env: Env)
    requires d.err.Some? && env.wrap(d.err.value) == ErrPass && !(d.meta.Some? && asMeta)
    ensures StatusWritten(ErrNotFound.code) in Shape(asMeta, d.buf, d.meta, d.err, env)
    ensures forall x :: x in Shape(asMeta, d.buf, d.meta, d.err, env) && x.StatusWritten? ==> x.code == 404
  {
    ErrorShape(asMeta, d, env);
    var ct := ContentTypeHeader(d.buf, d.meta, env);
    var tail := if |d.buf| > 0 then BodyReply(d.buf) else JsonReply(env.marshal(ErrorJson(d.err.value)));
    assert StatusHeader(d.err.value, env) == [StatusWritten(404)];
    assert Shape(asMeta, d.buf, d.meta, d.err, env) == ct + [StatusWritten(404)] + tail;
    assert Shape(asMeta, d.buf, d.meta, d.err, env)[|ct|] == StatusWritten(404);
  }

  /**
    An error that WrapError leaves as Pass is reported with NotFound's status: that is the only
    status written.
   */
  lemma PassReportedAsNotFound(c: Config, uri: string, env: Env)
    requires uri != "/"
    requires var d := DoOutcome(c, env.parse(uri), env);
      d.err.Some? && env.wrap(d.err.value) == ErrPass && !(d.meta.Some? && env.parse(uri).meta)
    ensures StatusWritten(ErrNotFound.code) in Serve(c, uri, env).writes
    ensures forall x :: x in Serve(c, uri, env).writes && x.StatusWritten? ==> x.code == 404
  {
    ServeShape(c, uri, env);
    PassShape(env.parse(uri).meta, DoOutcome(c, env.parse(uri), env), env);
  }

  /**
    When Do returns an error together with bytes, the bytes are still written, with the error's
    status before them and Content-Length set to their length.
   */
  lemma ErrorWithBytesWritesThem(c: Config, uri: string, env: Env)
    requires uri != "/"
    requires var d := DoOutcome(c, env.parse(uri), env);
      d.err.Some? && |d.buf| > 0 && !(d.meta.Some? && env.parse(uri).meta)
    ensures var d := DoOutcome(c, env.parse(uri), env);
      var w := Serve(c, uri, env).writes;
      |w| >= 2 && w[..|w| - 2] == ContentTypeHeader(d.buf, d.meta, env) + StatusHeader(d.err.value, env) &&
      w[|w| - 1] == BodyWritten(d.buf) && w[|w| - 2].name == "Content-Length" &&
      DecimalValue(w[|w| - 2].value) == |d.buf|
  {
    var d := DoOutcome(c, env.parse(uri), env);
    ServeShape(c, uri, env);
    ErrorShape(env.parse(uri).meta, d, env);
    ItoaRoundTrip(|d.buf|);
    var pre := ContentTypeHeader(d.buf, d.meta, env) + StatusHeader(d.err.value, env);
    assert (pre + BodyReply(d.buf))[..|pre|] == pre;
  }

  /** A reply ends with its one body write, right after a Content-Length header. */
  predicate WellFramed(w: seq<WriterCall>) {
    |w| >= 2 && w[|w| - 1].BodyWritten? &&
    w[|w| - 2].HeaderSet? && w[|w| - 2].name == "Content-Length" &&
    DecimalValue(w[|w| - 2].value) == |w[|w| - 1].body| &&
    forall i :: 0 <= i < |w| - 1 ==> !w[i].BodyWritten?
  }

  lemma BodyReplyFramed(pre: seq<WriterCall>, buf: Bytes)
    requires forall i :: 0 <= i < |pre| ==> !pre[i].BodyWritten?
    ensures WellFramed(pre + BodyReply(buf))
  {
    ItoaRoundTrip(|buf|);
    var w := pre + BodyReply(buf);
    assert w[|w| - 1] == BodyWritten(buf) && w[|w| - 2] == HeaderSet("Content-Length", Itoa(|buf|));
    forall i | 0 <= i < |w| - 1 ensures !w[i].BodyWritten? {
      if i < |pre| { assert w[i] == pre[i]; }
    }
  }

  /** Every shaped reply writes its body exactly once and last, right after its Content-Length. */
  lemma ShapeFramed(asMeta: bool, d: Outcome, env: Env)
    ensures WellFramed(Shape(asMeta, d.buf, d.meta, d.err, env))
  {
    var json := [HeaderSet("Content-Type", "application/json")];
    var ct := ContentTypeHeader(d.buf, d.meta, env);
    if d.meta.Some? && asMeta {
      BodyReplyFramed(json, env.marshal(MetaJson(d.meta.value)));
    } else if d.err.Some? {
      var st := StatusHeader(d.err.value, env);
      if |d.buf| > 0 {
        BodyReplyFramed(ct + st, d.buf);
      } else {
        var body := env.marshal(ErrorJson(d.err.value));
        BodyReplyFramed(ct + st + json, body);
        assert ct + st + JsonReply(body) == (ct + st + json) + BodyReply(body);
      }
    } else {
      BodyReplyFramed(ct, d.buf);
    }
  }

  /**
    Every reply, on every path, writes the body exactly once and last, right after a
    Content-Length header that reads back as the body's length.
   */
  lemma EveryReplyFramed(c: Config, uri: string, env: Env)
    ensures WellFramed(Serve(c, uri, env).writes)
  {
    if uri == "/" {
      BodyReplyFramed([HeaderSet("Content-Type", "application/json")], env.marshal(ServiceInfo(Name, Version)));
    } else {
      ServeShape(c, uri, env);
      ShapeFramed(env.parse(uri).meta, DoOutcome(c, env.parse(uri), env), env);
    }
  }

  /** A reply to an outcome without error writes no status. */
  lemma NoStatusShape(asMeta: bool, d: Outcome, env: Env)
    requires d.err.None?
    ensures forall x :: x in Shape(asMeta, d.buf, d.meta, d.err, env) ==> !x.StatusWritten?
  {
  }

  /** A status is written only for an error; a success leaves the writer's default status. */
  lemma StatusOnlyOnError(c: Config, uri: string, env: Env)
    requires uri != "/" && DoOutcome(c, env.parse(uri), env).err.None?
    ensures forall x :: x in Serve(c, uri, env).writes ==> !x.StatusWritten?
  {
    ServeShape(c, uri, env);
    NoStatusShape(env.parse(uri).meta, DoOutcome(c, env.parse(uri), env), env);
  }

  // ---------------------------------------------------------------- Startup and Shutdown

  datatype Phase = Starting | Stopping

  function PhaseErr(p: Processor, phase: Phase): Option<Error> {
    if phase == Starting then p.startup else p.shutdown
  }

  function PhaseCall(phase: Phase, j: nat): Call {
    if phase == Starting then StartupCall(j) else ShutdownCall(j)
  }

  function PhaseErrOf(phase: Phase): Processor -> Option<Error> {
    p => PhaseErr(p, phase)
  }

  function PhaseCalls(phase: Phase, n: nat): seq<Call> {
    seq(n, j requires 0 <= j < n => PhaseCall(phase, j))
  }

  datatype Lifecycle = Lifecycle(err: Option<Error>, calls: seq<Call>)

  /**
    Startup or Shutdown: the processors are called in order until the first error, which is
    returned; processors after it are not called, and without an error the result is nil.
   */
  function LifecycleOutcome(ps: seq<Processor>, phase: Phase): (r: Lifecycle)
    ensures |r.calls| <= |ps|
    ensures forall j :: 0 <= j < |r.calls| ==> r.calls[j] == PhaseCall(phase, j)
    ensures forall j :: 0 <= j < |r.calls| - 1 ==> PhaseErr(ps[j], phase).None?
    ensures r.err.None? <==> forall j :: 0 <= j < |ps| ==> PhaseErr(ps[j], phase).None?
    ensures r.err.None? ==> |r.calls| == |ps|
    ensures r.err.Some? ==> |r.calls| >= 1 && r.err == PhaseErr(ps[|r.calls| - 1], phase)
  {
    var errs := Errs(ps, PhaseErrOf(phase));
    var k := FirstError(errs);
    assert k < |ps| ==> PhaseErr(ps[k], phase).Some?;
    var calls := PhaseCalls(phase, Tried(k, |ps|));
    if k < |ps| then Lifecycle(errs[k], calls) else Lifecycle(None, calls)
  }
}
