/**
  The imagor HTTP handler as an object: its configuration fields, set by New and its options,
  and the step-by-step loops of load, save, Do, ServeHTTP, Startup and Shutdown. Each method is
  proved to produce the outcome the Pipeline module defines for it.
 */
module Imagor {
  import opened Base
  import opened Errors
  import opened Chains
  import opened Strconv
  import opened Pipeline

  /** An http.ResponseWriter, seen as the calls made on it. */
  class ResponseWriter {
    var trace: seq<WriterCall>

    constructor ()
      ensures trace == []
    {
      trace := [];
    }

    /** w.Header().Set(name, value) */
    method SetHeader(name: string, value: string)
      modifies this
      ensures trace == old(trace) + [HeaderSet(name, value)]
    {
      trace := trace + [HeaderSet(name, value)];
    }

    method WriteHeader(code: int)
      modifies this
      ensures trace == old(trace) + [StatusWritten(code)]
    {
      trace := trace + [StatusWritten(code)];
    }

    method Write(body: Bytes)
      modifies this
      ensures trace == old(trace) + [BodyWritten(body)]
    {
      trace := trace + [BodyWritten(body)];
    }
  }

  /** resJSON: encode v, then set the JSON content type and the length, then write it. */
  method ResJson(w: ResponseWriter, v: JsonValue, marshal: JsonValue -> Bytes)
    modifies w
    ensures w.trace == old(w.trace) + JsonReply(marshal(v))
  {
    var buf := marshal(v);
    w.SetHeader("Content-Type", "application/json");
    w.SetHeader("Content-Length", Itoa(|buf|));
    w.Write(buf);
  }

  /** The part of ServeHTTP after Do: headers, status and body for Do's result. */
  method Respond(w: ResponseWriter, asMeta: bool, buf: Bytes, meta: Option<Meta>, err: Option<Error>, env: Env)
    modifies w
    ensures w.trace == old(w.trace) + Shape(asMeta, buf, meta, err, env)
  {
    if meta.Some? {
      if asMeta {
        ResJson(w, MetaJson(meta.value), env.marshal);
        return;
      } else {
        w.SetHeader("Content-Type", meta.value.contentType);
      }
    } else if |buf| > 0 {
      w.SetHeader("Content-Type", env.detect(buf));
    }
    assert w.trace == old(w.trace) + ContentTypeHeader(buf, meta, env);
    RespondBody(w, buf, err, env);
  }

  /** The end of ServeHTTP: the status of an error, then the bytes, or else the error as JSON. */
  method RespondBody(w: ResponseWriter, buf: Bytes, err: Option<Error>, env: Env)
    modifies w
    ensures err.None? ==> w.trace == old(w.trace) + BodyReply(buf)
    ensures err.Some? ==>
      w.trace == old(w.trace) + StatusHeader(err.value, env) +
                 (if |buf| > 0 then BodyReply(buf) else JsonReply(env.marshal(ErrorJson(err.value))))
  {
    var ln := |buf|;
    if err.Some? {
      var e := env.wrap(err.value);
      if e.Error? {
        if e == ErrPass {
          e := ErrNotFound;
        }
        w.WriteHeader(e.code);
      }
      ghost var status := w.trace;
      assert status == old(w.trace) + StatusHeader(err.value, env);
      if ln > 0 {
        w.SetHeader("Content-Length", Itoa(ln));
        w.Write(buf);
        return;
      }
      ResJson(w, ErrorJson(err.value), env.marshal);
      return;
    }
    w.SetHeader("Content-Length", Itoa(ln));
    w.Write(buf);
  }

  class Imagor {
    var unsafe: bool
    var secret: string
    var loaders: seq<Loader>
    var storages: seq<Storage>
    var processors: seq<Processor>
    var requestTimeout: int
    var cache: CacheConfig
    var cacheTTL: int
    var debug: bool

    function Settings(): Config
      reads this
    {
      Config(unsafe, secret, loaders, storages, processors, requestTimeout, cache, cacheTTL, debug)
    }

    /** imagor.New: the defaults, then each option in order. */
    constructor New(options: seq<AppOption>)
      ensures Settings() == Configure(Defaults, options)
    {
      unsafe, secret := false, "";
      loaders, storages, processors := [], [], [];
      requestTimeout := 30 * Second;
      cache := Memory(1000, 0x1000_0000, Minute);
      cacheTTL := Minute;
      debug := false;
      new;
      assert options[..0] == [];
      var i := 0;
      while i < |options|
        invariant 0 <= i <= |options|
        invariant Settings() == Configure(Defaults, options[..i])
      {
        ConfigureAppend(Defaults, options[..i], [options[i]]);
        assert options[..i + 1] == options[..i] + [options[i]];
        Apply(options[i]);
        i := i + 1;
      }
      assert options[..i] == options;
    }

    /** One functional option applied to the server. */
    method Apply(option: AppOption)
      modifies this
      ensures Settings() == Applied(old(Settings()), option)
    {
      match option
      case WithLoaders(ls) => loaders := loaders + ls;
      case WithStorages(ss) => storages := storages + ss;
      case WithProcessors(ps) => processors := processors + ps;
      case WithUnsafe(u) => unsafe := u;
      case WithSecret(s) => secret := s;
      case WithRequestTimeout(t) => requestTimeout := t;
      case WithCache(m) => cache := m;
      case WithCacheTTL(t) => cacheTTL := t;
      case WithDebug(d) => debug := d;
    }

    /** The loop of the load producer: try each loader, stop at the first success. */
    method LoadChain(image: string) returns (buf: Bytes, err: Option<Error>, calls: seq<Call>)
      ensures calls == LoadCalls(image, LoadersTried(loaders))
      ensures buf == Fallback([], LoaderBufs(loaders)[..LoadersTried(loaders)])
      ensures err.None? <==> ChainError(loaders).None?
      ensures err.Some? ==> err.value == loaders[|loaders| - 1].err.value
    {
      var ls := loaders;
      var bufs := LoaderBufs(ls);
      buf, err, calls := [], None, [];
      var i := 0;
      while i < |ls|
        invariant 0 <= i <= |ls|
        invariant forall j :: 0 <= j < i ==> ls[j].err.Some?
        invariant buf == Fallback([], bufs[..i])
        invariant err == if i == 0 then None else ls[i - 1].err
        invariant calls == LoadCalls(image, i)
      {
        var b, e := ls[i].buf, ls[i].err;
        calls := calls + [LoadCall(i, image)];
        LoadCallsStep(image, i);
        FallbackPrefixStep([], bufs, i);
        if |b| > 0 {
          buf := b;
        }
        if e.None? {
          err := None;
          ChainStopsAt(ls, i);
          return;
        }
        err := e;
        i := i + 1;
      }
      ChainExhausted(ls);
    }

    /** imagor's load: the loader chain, the saves after a success, the Pass-to-NotFound rule, WrapError. */
    method Load(image: string, wrap: Error -> Error) returns (buf: Bytes, err: Option<Error>, calls: seq<Call>)
      ensures Loaded(buf, err, calls) == LoadOutcome(loaders, storages, image, wrap)
    {
      buf, err, calls := LoadChain(image);
      if err.None? {
        if |storages| > 0 {
          var saved := Save(storages, image, buf);
          calls := calls + saved;
        } else {
          assert calls == calls + [];
        }
      } else {
        assert calls == calls + [];
        if err.value != Canceled {
          if err.value == ErrPass {
            err := Some(ErrNotFound);
          }
        }
      }
      err := Wrapped(wrap, err);
    }

    /** save: one Save per storage, in order, each with the image and the loaded buffer. */
    method Save(storages: seq<Storage>, image: string, buf: Bytes) returns (calls: seq<Call>)
      ensures calls == SaveCalls(|storages|, image, buf)
    {
      calls := [];
      var i := 0;
      while i < |storages|
        invariant 0 <= i <= |storages|
        invariant calls == SaveCalls(i, image, buf)
      {
        calls := calls + [SaveCall(i, image, buf)];
        i := i + 1;
      }
    }

    /** The processor loop of Do, started on the loaded buffer. */
    method Process(input: Bytes) returns (buf: Bytes, meta: Option<Meta>, err: Option<Error>, calls: seq<Call>)
      ensures Outcome(buf, meta, err, calls) == ProcessOutcome(input, processors)
    {
      var ps := processors;
      buf, meta, err, calls := input, None, None, [];
      assert ps[..0] == [];
      var i := 0;
      while i < |ps|
        invariant 0 <= i <= |ps|
        invariant forall j :: 0 <= j < i ==> ps[j].err.Some?
        invariant Outcome(buf, meta, err, calls) == Running(input, ps, i)
      {
        var b, m, e := ps[i].buf, ps[i].meta, ps[i].err;
        calls := calls + [ProcessCall(i, buf)];
        if e.None? {
          ProcessStopsAt(input, ps, i);
          ProcessStep(input, ps, i);
          return b, m, err, calls;
        }
        RunningStep(input, ps, i);
        if e.value == ErrPass {
          if |b| > 0 {
            buf := b;
          }
        } else {
          err := e;
        }
        i := i + 1;
      }
      assert ps[..i] == ps;
      ProcessExhausted(input, ps);
    }

    /** Do: the authorization gate, the load, then the processor chain. */
    method Do(params: Params, env: Env) returns (buf: Bytes, meta: Option<Meta>, err: Option<Error>, calls: seq<Call>)
      ensures Outcome(buf, meta, err, calls) == DoOutcome(Settings(), params, env)
    {
      if !(unsafe && params.unsafe) && !env.verify(params, secret) {
        return [], None, Some(ErrHashMismatch), [];
      }
      var loadCalls;
      buf, err, loadCalls := Load(params.image, env.wrap);
      if err.Some? {
        return buf, None, err, loadCalls;
      }
      var processCalls;
      buf, meta, err, processCalls := Process(buf);
      calls := loadCalls + processCalls;
    }

    /** ServeHTTP for the escaped request path uri; returns the backend calls made. */
    method ServeHTTP(w: ResponseWriter, uri: string, env: Env) returns (calls: seq<Call>)
      modifies w
      ensures w.trace == old(w.trace) + Serve(Settings(), uri, env).writes
      ensures calls == Serve(Settings(), uri, env).calls
    {
      if uri == "/" {
        ResJson(w, ServiceInfo(Name, Version), env.marshal);
        return [];
      }
      var params := env.parse(uri);
      var buf, meta, err;
      buf, meta, err, calls := Do(params, env);
      Respond(w, params.meta, buf, meta, err, env);
    }

    /** The loop Startup and Shutdown share: call each processor in order, stop at the first error. */
    method RunPhase(phase: Phase) returns (err: Option<Error>, calls: seq<Call>)
      ensures Lifecycle(err, calls) == LifecycleOutcome(processors, phase)
    {
      var errs := Errs(processors, PhaseErrOf(phase));
      err, calls := None, [];
      var i := 0;
      while i < |processors|
        invariant 0 <= i <= |processors|
        invariant forall j :: 0 <= j < i ==> errs[j].None?
        invariant calls == PhaseCalls(phase, i)
        invariant err.None?
      {
        calls := calls + [PhaseCall(phase, i)];
        assert calls == PhaseCalls(phase, i + 1);
        err := PhaseErr(processors[i], phase);
        if err.Some? {
          assert FirstError(errs) == i by { FirstErrorIs(errs, i); }
          return;
        }
        i := i + 1;
      }
      assert FirstError(errs) == |processors|;
    }

    method Startup() returns (err: Option<Error>, calls: seq<Call>)
      ensures Lifecycle(err, calls) == LifecycleOutcome(processors, Starting)
    {
      err, calls := RunPhase(Starting);
    }

    method Shutdown() returns (err: Option<Error>, calls: seq<Call>)
      ensures Lifecycle(err, calls) == LifecycleOutcome(processors, Stopping)
    {
      err, calls := RunPhase(Stopping);
    }
  }
}
