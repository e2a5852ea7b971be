/** The `MTNOTel` singleton of `src/mtno-tel.ts`: the provider-builder
    check, the idempotent `init` with option defaults, the ordered list of
    shutdown functions, the fail-fast `flushAndShutdown`, and navigation
    attachment. Building the resource and the providers and installing the
    instrumentations are foreign; the shutdown functions they return are kept
    as opaque steps whose outcome is an input.

    One installation is not foreign: `installReactNavigationInstrumentation`
    returns its bare `shutdown` function, which `init` stores as the
    instance's `navigation`. That function has no `attach`, `detach` or
    `shutdown` property, so the list receives `undefined` in the navigation
    slot, and every call through `navigation` throws a `TypeError`. */
module Lifecycle {
  import opened Wrappers

  /** A provider builder, known by its identity. */
  datatype Builder = Builder(id: nat)

  /** The shutdown functions an instance collects. `NavigationShutdown` is
      what the navigation slot holds: `instance.navigation.shutdown`. */
  datatype ShutdownStep = ProviderShutdown(builder: Builder) | FetchCleanup | NavigationShutdown | AppStateCleanup

  /** A navigation container reference, known by its identity. */
  type NavigationRef = nat

  /** What a rejected call carries: an `Error` with its message, or the
      `TypeError` of calling a value that is not a function (its message is
      the engine's and is not modelled). */
  datatype Thrown = Error(message: string) | NotAFunction

  /** The options `init` reads; `None` is a missing value (or, for the
      navigation reference, `null`). */
  datatype InitOptions = InitOptions(
    enableFetch: Option<bool>,
    enableNavigation: Option<bool>,
    enableAppState: Option<bool>,
    navigationRef: Option<NavigationRef>)

  datatype Options = Options(enableFetch: bool, enableNavigation: bool, enableAppState: bool)

  /** An instance: its options, its shutdown list, and whether its
      `navigation` field is set. */
  datatype Instance = Instance(options: Options, shutdownFns: seq<ShutdownStep>, hasNavigation: bool)

  /** The module state: the builder and the static instance. */
  datatype World = World(builder: Option<Builder>, instance: Option<Instance>)

  const NotConfigured: string := "MTNOTel provider builder has not been configured"

  /** `setProviderBuilder`: replaces the builder and nothing else. */
  function SetProviderBuilder(w: World, b: Builder): (w': World)
    ensures w'.builder == Some(b) && w'.instance == w.instance
  {
    w.(builder := Some(b))
  }

  /** Each flag defaults to true when absent. */
  function Normalize(opts: InitOptions): (o: Options)
    ensures o.enableFetch == (opts.enableFetch.None? || opts.enableFetch.value)
    ensures o.enableNavigation == (opts.enableNavigation.None? || opts.enableNavigation.value)
    ensures o.enableAppState == (opts.enableAppState.None? || opts.enableAppState.value)
  {
    Options(opts.enableFetch.GetOr(true), opts.enableNavigation.GetOr(true), opts.enableAppState.GetOr(true))
  }

  function Enabled(o: Options, step: ShutdownStep): bool {
    match step
    case ProviderShutdown(_) => true
    case FetchCleanup => o.enableFetch
    case NavigationShutdown => o.enableNavigation
    case AppStateCleanup => o.enableAppState
  }

  /** The position of each instrumentation in installation order. */
  function Rank(step: ShutdownStep): nat {
    match step
    case ProviderShutdown(_) => 0
    case FetchCleanup => 1
    case NavigationShutdown => 2
    case AppStateCleanup => 3
  }

  /** The shutdown list of a new instance: the provider shutdown first, then
      the cleanup of each enabled instrumentation, in the order fetch,
      navigation, app state. */
  function ShutdownList(b: Builder, o: Options): (fns: seq<ShutdownStep>)
    ensures |fns| > 0 && fns[0] == ProviderShutdown(b)
    ensures forall s :: s in fns[1..] <==> !s.ProviderShutdown? && Enabled(o, s)
    ensures forall i, j :: 0 <= i < j < |fns| ==> Rank(fns[i]) < Rank(fns[j])
  {
    var instrumentations :=
      (if o.enableFetch then [FetchCleanup] else [])
      + (if o.enableNavigation then [NavigationShutdown] else [])
      + (if o.enableAppState then [AppStateCleanup] else []);
    assert ([ProviderShutdown(b)] + instrumentations)[1..] == instrumentations;
    [ProviderShutdown(b)] + instrumentations
  }

  /** An instance as `init` builds it: the shutdown list of its options, and
      `navigation` set exactly when navigation is enabled. */
  predicate Built(b: Builder, inst: Instance) {
    inst.shutdownFns == ShutdownList(b, inst.options) && inst.hasNavigation == inst.options.enableNavigation
  }

  /** `attachNavigation(ref)` on an instance: nothing when navigation is
      disabled; otherwise `this.navigation?.attach(ref)`, which throws once
      `navigation` is set, since the stored function has no `attach`. */
  function AttachNavigation(inst: Instance, ref: NavigationRef): (r: Result<(), Thrown>)
    ensures r.Err? <==> inst.options.enableNavigation && inst.hasNavigation
    ensures r.Err? ==> r.error == NotAFunction
  {
    if !inst.options.enableNavigation then Ok(())
    else if !inst.hasNavigation then Ok(())
    else Err(NotAFunction)
  }

  /** `detachNavigation()` on an instance: `this.navigation?.detach()`,
      which throws once `navigation` is set; the options are not consulted. */
  function DetachNavigation(inst: Instance): (r: Result<(), Thrown>)
    ensures r.Err? <==> inst.hasNavigation
    ensures r.Err? ==> r.error == NotAFunction
  {
    if inst.hasNavigation then Err(NotAFunction) else Ok(())
  }

  /** The static `attachNavigation`: forwards to the current instance, if any. */
  function AttachCurrent(w: World, ref: NavigationRef): (r: Result<(), Thrown>)
    ensures w.instance.None? ==> r.Ok?
    ensures r.Err? <==> w.instance.Some? && w.instance.value.options.enableNavigation && w.instance.value.hasNavigation
  {
    match w.instance
    case None => Ok(())
    case Some(inst) => AttachNavigation(inst, ref)
  }

  /** The static `detachNavigation`: forwards to the current instance, if any. */
  function DetachCurrent(w: World): (r: Result<(), Thrown>)
    ensures w.instance.None? ==> r.Ok?
    ensures r.Err? <==> w.instance.Some? && w.instance.value.hasNavigation
  {
    match w.instance
    case None => Ok(())
    case Some(inst) => DetachNavigation(inst)
  }

  /** On an instance `init` built, attaching and detaching throw exactly
      when navigation is enabled: no reference ever reaches the navigation
      instrumentation through `MTNOTel`. */
  lemma NavigationCallsThrow(b: Builder, inst: Instance, ref: NavigationRef)
    requires Built(b, inst)
    ensures AttachNavigation(inst, ref).Err? <==> inst.options.enableNavigation
    ensures DetachNavigation(inst).Err? <==> inst.options.enableNavigation
  {
  }

  /** `MTNOTel.init(opts)`. Without a builder it throws and changes nothing.
      With an instance it returns that instance, after forwarding a given
      navigation reference, which throws when the instance has navigation.
      Otherwise it builds a new instance with the defaulted options and its
      shutdown list, and makes it current. */
  function Init(w: World, opts: InitOptions): (r: (World, Result<Instance, Thrown>))
    ensures w.builder.None? ==> r == (w, Err(Error(NotConfigured)))
    ensures w.builder.Some? && w.instance.Some? ==> r.0 == w
    ensures w.builder.Some? && w.instance.Some? ==>
      (r.1.Err? <==> opts.navigationRef.Some? && AttachNavigation(w.instance.value, opts.navigationRef.value).Err?)
    ensures w.builder.Some? && w.instance.Some? && r.1.Ok? ==> r.1.value == w.instance.value
    ensures r.1.Err? && w.builder.Some? ==> r.1.error == NotAFunction
    ensures w.builder.Some? && w.instance.None? ==>
      && r.1.Ok?
      && r.0.instance == Some(r.1.value)
      && r.1.value.options == Normalize(opts)
      && Built(w.builder.value, r.1.value)
    ensures r.0.builder == w.builder
  {
    match w.builder
    case None => (w, Err(Error(NotConfigured)))
    case Some(b) =>
      match w.instance
      case Some(inst) =>
        if opts.navigationRef.Some? then
          match AttachNavigation(inst, opts.navigationRef.value)
          case Err(e) => (w, Err(e))
          case Ok(_) => (w, Ok(inst))
        else (w, Ok(inst))
      case None =>
        var o := Normalize(opts);
        var inst := Instance(o, ShutdownList(b, o), o.enableNavigation);
        (w.(instance := Some(inst)), Ok(inst))
  }

  /** A second `init` leaves the instance as it is, whatever its options,
      and returns the first one's instance unless it throws while
      forwarding a navigation reference. */
  lemma InitIdempotent(w: World, first: InitOptions, second: InitOptions)
    requires w.builder.Some?
    ensures var (w1, r1) := Init(w, first);
            var (w2, r2) := Init(w1, second);
            w1.instance.Some? && w2.instance == w1.instance && (r1.Ok? && r2.Ok? ==> r2 == r1)
  {
  }

  /** What awaiting a step gives: the navigation slot holds `undefined`, so
      calling it throws whatever `fails` says; any other step rejects with
      the message `fails` gives it, if any. */
  function StepOutcome(step: ShutdownStep, fails: ShutdownStep -> Option<string>): (t: Option<Thrown>)
    ensures step.NavigationShutdown? ==> t == Some(NotAFunction)
    ensures !step.NavigationShutdown? ==> (t.Some? <==> fails(step).Some?)
    ensures !step.NavigationShutdown? && t.Some? ==> t.value == Error(fails(step).value)
  {
    if step.NavigationShutdown? then Some(NotAFunction)
    else match fails(step)
      case Some(message) => Some(Error(message))
      case None => None
  }

  /** Where `flushAndShutdown` stops: the position of the first step that
      throws, or the length of the list when none does. */
  function FirstFailure(fns: seq<ShutdownStep>, fails: ShutdownStep -> Option<string>): (k: nat)
    ensures k <= |fns|
    ensures forall i :: 0 <= i < k ==> StepOutcome(fns[i], fails).None?
    ensures k < |fns| ==> StepOutcome(fns[k], fails).Some?
    decreases |fns|
  {
    if |fns| == 0 then 0
    else if StepOutcome(fns[0], fails).Some? then 0
    else 1 + FirstFailure(fns[1..], fails)
  }

  /** One `flushAndShutdown`: the steps run, in order, and how it ended. */
  datatype Flush = Flush(ran: seq<ShutdownStep>, result: Result<(), Thrown>)

  /** Runs the steps in installation order, awaiting each. */
  function RunSteps(fns: seq<ShutdownStep>, fails: ShutdownStep -> Option<string>): (f: Flush)
    decreases |fns|
  {
    if |fns| == 0 then Flush([], Ok(()))
    else match StepOutcome(fns[0], fails)
      case Some(err) => Flush([fns[0]], Err(err))
      case None =>
        var rest := RunSteps(fns[1..], fails);
        Flush([fns[0]] + rest.ran, rest.result)
  }

  /** `flushAndShutdown()` on an instance. The static instance is cleared
      only when every step succeeded; a failure rejects and leaves it set. */
  function FlushAndShutdown(w: World, inst: Instance, fails: ShutdownStep -> Option<string>): (r: (World, Flush))
    ensures r.1 == RunSteps(inst.shutdownFns, fails)
    ensures r.1.result.Ok? ==> r.0 == w.(instance := None)
    ensures r.1.result.Err? ==> r.0 == w
  {
    var f := RunSteps(inst.shutdownFns, fails);
    if f.result.Ok? then (w.(instance := None), f) else (w, f)
  }

  /** Fail-fast in installation order: the steps run are the list up to and
      including the first throwing one, the error is that step's, and the
      shutdown succeeds exactly when no step throws. */
  lemma {:induction false} FlushIsFailFast(fns: seq<ShutdownStep>, fails: ShutdownStep -> Option<string>)
    ensures var f := RunSteps(fns, fails);
            var k := FirstFailure(fns, fails);
      && (f.result.Ok? <==> k == |fns|)
      && (k == |fns| ==> f.ran == fns)
      && (k < |fns| ==> f.ran == fns[..k + 1] && f.result == Err(StepOutcome(fns[k], fails).value))
    decreases |fns|
  {
    if |fns| > 0 && StepOutcome(fns[0], fails).None? {
      FlushIsFailFast(fns[1..], fails);
      var k := FirstFailure(fns[1..], fails);
      if k < |fns[1..]| {
        assert [fns[0]] + fns[1..][..k + 1] == fns[..k + 2];
      } else {
        assert [fns[0]] + fns[1..] == fns;
      }
    }
  }

  /** No step after the navigation slot is ever run. */
  lemma StopsAtNavigation(fns: seq<ShutdownStep>, fails: ShutdownStep -> Option<string>, n: nat)
    requires n < |fns| && fns[n] == NavigationShutdown
    ensures FirstFailure(fns, fails) <= n
    ensures RunSteps(fns, fails).result.Err?
    ensures RunSteps(fns, fails).ran == fns[..FirstFailure(fns, fails) + 1]
  {
    FlushIsFailFast(fns, fails);
  }

  /** With navigation enabled, `flushAndShutdown` always rejects: it stops at
      the navigation slot at the latest, the app-state cleanup never runs,
      and the singleton stays set, so a later `init` returns the same
      instance. */
  lemma NavigationBlocksShutdown(w: World, b: Builder, inst: Instance, fails: ShutdownStep -> Option<string>)
    requires Built(b, inst) && inst.options.enableNavigation
    ensures FlushAndShutdown(w, inst, fails).1.result.Err?
    ensures FlushAndShutdown(w, inst, fails).0 == w
    ensures AppStateCleanup !in FlushAndShutdown(w, inst, fails).1.ran
  {
    var fns := inst.shutdownFns;
    assert NavigationShutdown in fns[1..];
    var n :| 1 <= n < |fns| && fns[n] == NavigationShutdown;
    StopsAtNavigation(fns, fails, n);
    var ran := RunSteps(fns, fails).ran;
    forall i | 0 <= i < |ran| ensures ran[i] != AppStateCleanup {
      assert ran[i] == fns[i];
      assert i <= n;
      assert i < n ==> Rank(fns[i]) < Rank(fns[n]);
    }
  }
}
