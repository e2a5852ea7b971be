/** `StackContextManager` of `src/context-manager/stack.ts`: a stack of
    contexts with an enabled flag. Callbacks are modelled as small programs
    over the manager (observe the active context, nest `with`, throw, catch,
    enable, disable, call a bound function), so that the stack discipline can
    be stated for every way a callback may return. */
module StackContext {

  /** A context: the root context or a context made by the program. */
  datatype Context = Root | Made(id: nat)

  datatype Manager = Manager(stack: seq<Context>, enabled: bool)

  /** A fresh manager: empty stack, disabled. */
  const Initial: Manager := Manager([], false)

  /** A callback body. */
  datatype Stmt =
    | Skip
    | Observe                          // read `active()`
    | Throw
    | Seq(first: Stmt, second: Stmt)
    | Catch(body: Stmt)                // run `body`, swallow a throw
    | With(ctx: Context, fn: Callable) // `with(ctx, fn)`
    | Call(fn: Callable)
    | EnableManager
    | DisableManager

  /** A function value: a plain callback, or the wrapper `bind` returns. */
  datatype Callable = Plain(body: Stmt) | BoundTo(ctx: Context, inner: Callable)

  /** The result of running a callback: the manager afterwards, the contexts
      observed in order, and whether it threw. */
  datatype Outcome = Outcome(m: Manager, trace: seq<Context>, threw: bool)

  /** `active()`: the top of the stack, or the root context when it is empty. */
  function Active(m: Manager): (c: Context)
    ensures |m.stack| == 0 ==> c == Root
    ensures |m.stack| > 0 ==> c == m.stack[|m.stack| - 1]
  {
    if |m.stack| > 0 then m.stack[|m.stack| - 1] else Root
  }

  /** `Array.prototype.pop`: drops the last element, if any. */
  function Pop(m: Manager): Manager {
    if |m.stack| == 0 then m else m.(stack := m.stack[..|m.stack| - 1])
  }

  /** `enable()`: sets the flag and keeps the stack. */
  function Enable(m: Manager): (m': Manager)
    ensures m'.enabled && m'.stack == m.stack
  {
    m.(enabled := true)
  }

  /** `disable()`: clears the flag and empties the stack, so `active()` is
      the root context afterwards. */
  function Disable(m: Manager): (m': Manager)
    ensures !m'.enabled && m'.stack == []
    ensures Active(m') == Root
  {
    Manager([], false)
  }

  function Exec(m: Manager, s: Stmt): Outcome
    decreases s, 2
  {
    match s
    case Skip => Outcome(m, [], false)
    case Observe => Outcome(m, [Active(m)], false)
    case Throw => Outcome(m, [], true)
    case Seq(a, b) =>
      var o1 := Exec(m, a);
      if o1.threw then o1
      else
        var o2 := Exec(o1.m, b);
        Outcome(o2.m, o1.trace + o2.trace, o2.threw)
    case Catch(b) =>
      var o := Exec(m, b);
      o.(threw := false)
    case With(c, f) => RunWith(m, c, f)
    case Call(f) => Invoke(m, f)
    case EnableManager => Outcome(Enable(m), [], false)
    case DisableManager => Outcome(Disable(m), [], false)
  }

  /** `with(ctx, fn)`: a disabled manager just calls `fn`; an enabled one
      pushes `ctx`, calls `fn`, and pops in a `finally`, so the pop happens
      whether `fn` returns or throws. */
  function RunWith(m: Manager, c: Context, f: Callable): Outcome
    decreases f, 1
  {
    if !m.enabled then Invoke(m, f)
    else
      var o := Invoke(m.(stack := m.stack + [c]), f);
      o.(m := Pop(o.m))
  }

  /** Calling a function value; a bound function runs its target under its
      captured context through `with`. */
  function Invoke(m: Manager, f: Callable): Outcome
    decreases f, 0
  {
    match f
    case Plain(body) => Exec(m, body)
    case BoundTo(c, inner) => RunWith(m, c, inner)
  }

  /** How `bind` was called: with one argument (capture `active()`), or with
      an explicit context that is present or nullish. */
  datatype BindContext = CaptureActive | Explicit(c: Context) | ExplicitNullish

  /** A `bind` target: a function or any other value. */
  datatype Target = FnTarget(f: Callable) | OtherTarget(value: int)

  /** The context `bind` captures; it is computed at bind time. */
  function Captured(m: Manager, how: BindContext): Context {
    match how
    case CaptureActive => Active(m)
    case Explicit(c) => c
    case ExplicitNullish => Root
  }

  /** `bind`: a disabled manager or a non-function target gives the target
      back; otherwise a function that runs the target under the captured
      context. */
  function Bind(m: Manager, how: BindContext, target: Target): (r: Target)
    ensures !m.enabled || target.OtherTarget? ==> r == target
    ensures m.enabled && target.FnTarget? ==> r == FnTarget(BoundTo(Captured(m, how), target.f))
  {
    if !m.enabled then target
    else match target
      case FnTarget(f) => FnTarget(BoundTo(Captured(m, how), f))
      case OtherTarget(_) => target
  }

  // ---------------------------------------------------------------------
  // Stack discipline

  predicate NoDisable(s: Stmt)
    decreases s, 1
  {
    match s
    case Seq(a, b) => NoDisable(a) && NoDisable(b)
    case Catch(b) => NoDisable(b)
    case With(_, f) => NoDisableFn(f)
    case Call(f) => NoDisableFn(f)
    case DisableManager => false
    case _ => true
  }

  predicate NoDisableFn(f: Callable)
    decreases f, 0
  {
    match f
    case Plain(body) => NoDisable(body)
    case BoundTo(_, inner) => NoDisableFn(inner)
  }

  /** A callback that never disables the manager leaves the stack exactly as
      it found it, whether it returns or throws, and never clears the flag. */
  lemma {:induction false} StackRestored(m: Manager, s: Stmt)
    requires NoDisable(s)
    ensures Exec(m, s).m.stack == m.stack
    ensures m.enabled ==> Exec(m, s).m.enabled
    decreases s, 2
  {
    match s
    case Seq(a, b) =>
      StackRestored(m, a);
      StackRestored(Exec(m, a).m, b);
    case Catch(b) => StackRestored(m, b);
    case With(c, f) => WithRestores(m, c, f);
    case Call(f) => InvokeRestores(m, f);
    case _ =>
  }

  lemma {:induction false} WithRestores(m: Manager, c: Context, f: Callable)
    requires NoDisableFn(f)
    ensures RunWith(m, c, f).m.stack == m.stack
    ensures m.enabled ==> RunWith(m, c, f).m.enabled
    decreases f, 1
  {
    if !m.enabled {
      InvokeRestores(m, f);
    } else {
      var pushed := m.(stack := m.stack + [c]);
      InvokeRestores(pushed, f);
      assert (m.stack + [c])[..|m.stack|] == m.stack;
    }
  }

  lemma {:induction false} InvokeRestores(m: Manager, f: Callable)
    requires NoDisableFn(f)
    ensures Invoke(m, f).m.stack == m.stack
    ensures m.enabled ==> Invoke(m, f).m.enabled
    decreases f, 0
  {
    match f
    case Plain(body) => StackRestored(m, body);
    case BoundTo(c, inner) => WithRestores(m, c, inner);
  }

  /** Under an enabled manager, `with(ctx, fn)` makes `ctx` active at the
      start of `fn`, makes it active again once any nested callback that does
      not disable the manager has returned or thrown, and afterwards leaves
      the stack as it was: nested calls restore in last-in, first-out order. */
  lemma WithScopesContext(m: Manager, c: Context, nested: Stmt)
    requires m.enabled && NoDisable(nested)
    ensures var o := Exec(m, With(c, Plain(Seq(Observe, Seq(Catch(nested), Observe)))));
            |o.trace| >= 2 && o.trace[0] == c && o.trace[|o.trace| - 1] == c &&
            o.m.stack == m.stack && !o.threw
  {
    var pushed := m.(stack := m.stack + [c]);
    var after := Exec(pushed, Catch(nested));
    StackRestored(pushed, nested);
    assert after.m.stack == pushed.stack;
    assert Active(after.m) == c;
    assert (m.stack + [c])[..|m.stack|] == m.stack;
  }

  /** The state a manager can reach from `Initial`: a disabled manager has an
      empty stack. */
  predicate Reachable(m: Manager) {
    !m.enabled ==> m.stack == []
  }

  lemma {:induction false} ReachablePreserved(m: Manager, s: Stmt)
    requires Reachable(m)
    ensures Reachable(Exec(m, s).m)
    decreases s, 2
  {
    match s
    case Seq(a, b) =>
      ReachablePreserved(m, a);
      ReachablePreserved(Exec(m, a).m, b);
    case Catch(b) => ReachablePreserved(m, b);
    case With(c, f) => ReachableWith(m, c, f);
    case Call(f) => ReachableInvoke(m, f);
    case _ =>
  }

  lemma {:induction false} ReachableWith(m: Manager, c: Context, f: Callable)
    requires Reachable(m)
    ensures Reachable(RunWith(m, c, f).m)
    decreases f, 1
  {
    if !m.enabled {
      ReachableInvoke(m, f);
    } else {
      ReachableInvoke(m.(stack := m.stack + [c]), f);
    }
  }

  lemma {:induction false} ReachableInvoke(m: Manager, f: Callable)
    requires Reachable(m)
    ensures Reachable(Invoke(m, f).m)
    decreases f, 0
  {
    match f
    case Plain(body) => ReachablePreserved(m, body);
    case BoundTo(c, inner) => ReachableWith(m, c, inner);
  }

  predicate NoEnable(s: Stmt)
    decreases s, 1
  {
    match s
    case Seq(a, b) => NoEnable(a) && NoEnable(b)
    case Catch(b) => NoEnable(b)
    case With(_, f) => NoEnableFn(f)
    case Call(f) => NoEnableFn(f)
    case EnableManager => false
    case _ => true
  }

  predicate NoEnableFn(f: Callable)
    decreases f, 0
  {
    match f
    case Plain(body) => NoEnable(body)
    case BoundTo(_, inner) => NoEnableFn(inner)
  }

  /** A disabled manager is inert: as long as nobody enables it, `with` and
      bound functions just call through, the stack stays empty and every
      observation is the root context. */
  lemma {:induction false} DisabledIsInert(m: Manager, s: Stmt)
    requires !m.enabled && Reachable(m) && NoEnable(s)
    ensures Exec(m, s).m == m
    ensures forall i :: 0 <= i < |Exec(m, s).trace| ==> Exec(m, s).trace[i] == Root
    decreases s, 2
  {
    match s
    case Seq(a, b) =>
      DisabledIsInert(m, a);
      DisabledIsInert(Exec(m, a).m, b);
    case Catch(b) => DisabledIsInert(m, b);
    case With(c, f) => DisabledInvokeInert(m, f);
    case Call(f) => DisabledInvokeInert(m, f);
    case _ =>
  }

  lemma {:induction false} DisabledInvokeInert(m: Manager, f: Callable)
    requires !m.enabled && Reachable(m) && NoEnableFn(f)
    ensures Invoke(m, f).m == m
    ensures forall i :: 0 <= i < |Invoke(m, f).trace| ==> Invoke(m, f).trace[i] == Root
    decreases f, 0
  {
    match f
    case Plain(body) => DisabledIsInert(m, body);
    case BoundTo(c, inner) => DisabledInvokeInert(m, inner);
  }

  /** A function bound under an enabled manager runs under the context
      captured at bind time, whatever is active when it is called, as long
      as the manager is still enabled then; if it has been disabled since,
      the function runs under whatever is active. */
  lemma BoundFunctionUsesCapturedContext(m: Manager, how: BindContext, body: Stmt, later: Manager)
    requires m.enabled
    ensures Bind(m, how, FnTarget(Plain(Seq(Observe, body)))).FnTarget?
    ensures var g := Bind(m, how, FnTarget(Plain(Seq(Observe, body)))).f;
            |Invoke(later, g).trace| > 0 &&
            Invoke(later, g).trace[0] == if later.enabled then Captured(m, how) else Active(later)
  {
    var c := Captured(m, how);
    var f := Plain(Seq(Observe, body));
    var g := Bind(m, how, FnTarget(f)).f;
    assert g == BoundTo(c, f);
    assert Invoke(later, g) == RunWith(later, c, f);
    var start := if later.enabled then later.(stack := later.stack + [c]) else later;
    assert Active(start) == if later.enabled then c else Active(later);
    var first := Exec(start, Observe);
    assert first == Outcome(start, [Active(start)], false);
    var o := Exec(start, Seq(Observe, body));
    assert o.trace == [Active(start)] + Exec(start, body).trace;
    assert Invoke(later, g).trace == o.trace;
  }
}
