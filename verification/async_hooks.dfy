/** The `async_hooks` shim of `shims/async_hooks/index.js`: a single-slot
    `AsyncLocalStorage` with no real asynchronous propagation, inert hooks and
    constant async ids. A callback is a function from the storage it sees to
    the storage it leaves and its completion: `Ok` with the value it returned,
    or `Err` with the value it threw. */
module AsyncHooks {
  import opened Wrappers

  /** The one store slot; `None` is `undefined`. */
  datatype LocalStorage<T> = LocalStorage(store: Option<T>)

  /** `new AsyncLocalStorage()`: the store starts undefined. */
  function NewLocalStorage<T>(): (a: LocalStorage<T>)
    ensures GetStore(a) == None
  {
    LocalStorage(None)
  }

  function GetStore<T>(a: LocalStorage<T>): Option<T> {
    a.store
  }

  /** `enterWith(store)`: the value `getStore()` returns until the next write. */
  function EnterWith<T>(a: LocalStorage<T>, store: Option<T>): (a': LocalStorage<T>)
    ensures GetStore(a') == store
  {
    LocalStorage(store)
  }

  /** `disable()`: the store becomes undefined. */
  function Disable<T>(a: LocalStorage<T>): (a': LocalStorage<T>)
    ensures GetStore(a') == None
  {
    LocalStorage(None)
  }

  /** `run(store, callback)`: the callback sees `store`; its return value or
      its throw passes through unchanged; and in every case the slot is reset
      to undefined afterwards, not to what it held before. */
  function Run<T, R, E>(a: LocalStorage<T>, store: Option<T>,
                        callback: LocalStorage<T> -> (LocalStorage<T>, Result<R, E>)): (r: (LocalStorage<T>, Result<R, E>))
    ensures r.1 == callback(EnterWith(a, store)).1
    ensures GetStore(r.0) == None
  {
    var (_, completion) := callback(LocalStorage(store));
    (LocalStorage(None), completion)
  }

  /** A callback that only reads the store and returns it. */
  function ReadStore<T, E>(): LocalStorage<T> -> (LocalStorage<T>, Result<Option<T>, E>) {
    a => (a, Ok(GetStore(a)))
  }

  /** The callback of an outer `run`: an inner `run` with any callback, then a
      read of the store. */
  function InnerThenRead<T, R, E>(inner: Option<T>, callback: LocalStorage<T> -> (LocalStorage<T>, Result<R, E>))
    : LocalStorage<T> -> (LocalStorage<T>, Result<Option<T>, E>)
  {
    a => (Run(a, inner, callback).0, Ok(GetStore(Run(a, inner, callback).0)))
  }

  /** During `run` the callback reads back exactly the store it was given. */
  lemma RunExposesStore<T, E>(a: LocalStorage<T>, store: Option<T>)
    ensures Run(a, store, ReadStore<T, E>()).1 == Ok(store)
    ensures GetStore(Run(a, store, ReadStore<T, E>()).0) == None
  {
  }

  /** Nested runs do not restore: after an inner `run` finishes, the outer
      callback reads `undefined`, not the outer store — unlike the stack
      context manager's `with`. */
  lemma NestedRunClearsOuterStore<T, R, E>(a: LocalStorage<T>, outer: T, inner: Option<T>,
                                           callback: LocalStorage<T> -> (LocalStorage<T>, Result<R, E>))
    ensures Run(a, Some(outer), InnerThenRead(inner, callback)).1 == Ok(None)
    ensures Run(a, Some(outer), InnerThenRead(inner, callback)).1 != Ok(Some(outer))
  {
    var seen := EnterWith(a, Some(outer));
    assert InnerThenRead(inner, callback)(seen).1 == Ok(GetStore(Run(seen, inner, callback).0));
  }

  /** `executionAsyncId()` and `triggerAsyncId()`: always 0. */
  function ExecutionAsyncId(): (id: int)
    ensures id == 0
  {
    0
  }

  function TriggerAsyncId(): (id: int)
    ensures id == 0
  {
    0
  }

  /** `AsyncResource.runInAsyncScope(fn, thisArg, ...args)`: a plain call. */
  function RunInAsyncScope<A, R>(fn: A -> R, args: A): (r: R)
    ensures r == fn(args)
  {
    fn(args)
  }

  /** The object `createHook` returns: its callbacks are never invoked. */
  datatype Hook<C> = Hook(callbacks: C)

  function CreateHook<C>(callbacks: C): Hook<C> {
    Hook(callbacks)
  }

  /** `enable()` and `disable()` on a hook return the hook itself. */
  function EnableHook<C>(h: Hook<C>): (h': Hook<C>)
    ensures h' == h
  {
    h
  }

  function DisableHook<C>(h: Hook<C>): (h': Hook<C>)
    ensures h' == h
  {
    h
  }
}
