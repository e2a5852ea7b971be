/** The older `MTNOTel` singleton of `src/index.ts`: `init` without a
    builder check or option defaults, which throws without an `otlp` block
    or with the app-state flag set, and a `flushAndShutdown` that reverses
    the instance's own list in place, attempts every step, ignores failures
    and always clears the singleton. */
module LegacyLifecycle {
  import opened Wrappers
  import Lifecycle

  type ShutdownStep = Lifecycle.ShutdownStep

  /** The options `init` reads: whether the `otlp` block is present, and
      each flag, `None` when absent. */
  datatype LegacyOptions = LegacyOptions(
    hasOtlp: bool,
    enableFetch: Option<bool>,
    enableNavigation: Option<bool>,
    enableAppState: Option<bool>)

  datatype LegacyInstance = LegacyInstance(shutdownFns: seq<ShutdownStep>)

  /** A `TypeError` thrown out of `init`, with the shutdown functions already
      obtained when it was thrown; nothing keeps them, so they never run. */
  datatype InitFailure = InitFailure(leaked: seq<ShutdownStep>)

  /** An absent flag is falsy: no default-true here. */
  predicate IsOn(flag: Option<bool>) {
    flag.Some? && flag.value
  }

  /** `init(opts)`: the current instance if there is one. Otherwise it reads
      `opts.otlp.tracesUrl`, which throws when `otlp` is absent, before any
      provider is built. It then installs the instrumentations whose flag is
      set, in the order fetch, navigation, app state; the app-state
      installation is handed the tracer provider where it expects a meter,
      and its `createCounter` call throws, after the providers, fetch and
      navigation are in place and before the singleton is set. `providers`
      identifies the `shutdown` of the bundle `buildProviders` returns. */
  function Init(current: Option<LegacyInstance>, opts: LegacyOptions, providers: Lifecycle.Builder)
    : (r: (Option<LegacyInstance>, Result<LegacyInstance, InitFailure>))
    ensures current.Some? ==> r == (current, Ok(current.value))
    ensures current.None? ==> (r.1.Ok? <==> opts.hasOtlp && !IsOn(opts.enableAppState))
    ensures current.None? && r.1.Ok? ==>
      && r.0 == Some(r.1.value)
      && r.1.value.shutdownFns ==
           Lifecycle.ShutdownList(providers, Lifecycle.Options(IsOn(opts.enableFetch), IsOn(opts.enableNavigation), false))
    ensures current.None? && r.1.Err? ==> r.0.None?
    ensures current.None? && !opts.hasOtlp ==> r.1 == Err(InitFailure([]))
    ensures current.None? && opts.hasOtlp && IsOn(opts.enableAppState) ==>
      r.1 == Err(InitFailure(
        Lifecycle.ShutdownList(providers, Lifecycle.Options(IsOn(opts.enableFetch), IsOn(opts.enableNavigation), false))))
  {
    match current
    case Some(inst) => (current, Ok(inst))
    case None =>
      if !opts.hasOtlp then (None, Err(InitFailure([])))
      else
        var installed := Lifecycle.ShutdownList(
          providers, Lifecycle.Options(IsOn(opts.enableFetch), IsOn(opts.enableNavigation), false));
        if IsOn(opts.enableAppState) then (None, Err(InitFailure(installed)))
        else
          var inst := LegacyInstance(installed);
          (Some(inst), Ok(inst))
  }

  /** A successful `init` never installs the app-state instrumentation, and a
      failed one leaves no instance, so a retry runs the whole installation
      again: each failure with `otlp` present leaks another provider
      shutdown. */
  lemma AppStateNeverInstalled(current: Option<LegacyInstance>, opts: LegacyOptions, providers: Lifecycle.Builder)
    requires current.None?
    ensures var (after, r) := Init(current, opts, providers);
      && (r.Ok? ==> Lifecycle.AppStateCleanup !in r.value.shutdownFns)
      && (r.Err? && opts.hasOtlp ==> Lifecycle.ProviderShutdown(providers) in r.error.leaked && Init(after, opts, providers) == (after, r))
  {
    var installed := Lifecycle.ShutdownList(
      providers, Lifecycle.Options(IsOn(opts.enableFetch), IsOn(opts.enableNavigation), false));
    assert installed[0] == Lifecycle.ProviderShutdown(providers);
    assert Lifecycle.AppStateCleanup !in installed[1..];
    assert installed == [installed[0]] + installed[1..];
  }

  function Reverse<T>(xs: seq<T>): (ys: seq<T>)
    ensures |ys| == |xs|
    ensures forall i :: 0 <= i < |xs| ==> ys[i] == xs[|xs| - 1 - i]
    decreases |xs|
  {
    if |xs| == 0 then [] else [xs[|xs| - 1]] + Reverse(xs[..|xs| - 1])
  }

  lemma ReverseReverse<T>(xs: seq<T>)
    ensures Reverse(Reverse(xs)) == xs
  {
  }

  /** One `flushAndShutdown`: the instance afterwards (its list reversed in
      place), the steps attempted in order, the failures swallowed on the
      way, and the singleton afterwards, which is always cleared. */
  datatype LegacyFlush = LegacyFlush(
    instance: LegacyInstance,
    attempted: seq<ShutdownStep>,
    swallowed: seq<string>,
    current: Option<LegacyInstance>)

  function Swallowed(steps: seq<ShutdownStep>, fails: ShutdownStep -> Option<string>): (errs: seq<string>)
    ensures |errs| <= |steps|
    decreases |steps|
  {
    if |steps| == 0 then []
    else
      var n := |steps| - 1;
      Swallowed(steps[..n], fails) + (match fails(steps[n]) case Some(e) => [e] case None => [])
  }

  /** Every step is attempted, last installed first, whatever fails. */
  function FlushAndShutdown(inst: LegacyInstance, fails: ShutdownStep -> Option<string>): (r: LegacyFlush)
    ensures r.instance.shutdownFns == Reverse(inst.shutdownFns)
    ensures r.attempted == r.instance.shutdownFns
    ensures r.swallowed == Swallowed(r.attempted, fails)
    ensures r.current.None?
  {
    var reversed := Reverse(inst.shutdownFns);
    LegacyFlush(LegacyInstance(reversed), reversed, Swallowed(reversed, fails), None)
  }

  /** The list is reversed in the instance itself, so a second call on the
      same object runs the steps in installation order again: the two calls
      together attempt each step twice, mirrored. */
  lemma SecondFlushRunsInInstallOrder(inst: LegacyInstance, fails: ShutdownStep -> Option<string>)
    ensures var first := FlushAndShutdown(inst, fails);
            var second := FlushAndShutdown(first.instance, fails);
      && first.attempted == Reverse(inst.shutdownFns)
      && second.attempted == inst.shutdownFns
      && second.instance == inst
  {
    ReverseReverse(inst.shutdownFns);
  }

  /** Unlike the current lifecycle, a failing step neither stops the others
      nor keeps the singleton: the provider shutdown runs last even when every
      instrumentation cleanup fails. */
  lemma FailuresAreSwallowed(inst: LegacyInstance, fails: ShutdownStep -> Option<string>)
    requires |inst.shutdownFns| > 0
    ensures var r := FlushAndShutdown(inst, fails);
      && |r.attempted| == |inst.shutdownFns|
      && r.attempted[|r.attempted| - 1] == inst.shutdownFns[0]
      && r.current.None?
  {
  }
}
