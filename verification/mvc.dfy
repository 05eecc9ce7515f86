/**
 Dirty-bit models (MVC.h). A model holds a value and a `dirty` flag. Views
 poll the flag instead of being notified; the flag is raised by every
 store and lowered only by an explicit `reset()`. Nothing in the dispatch
 loop lowers it.

 Both variants share the state of the base class `Model<T>`: the stored
 value (the referenced variable for `RefModel`, the cache for
 `ProxyModel`) and the flag. Reading `value()` or `dirty()` is a field
 access of an immutable value and changes nothing.
 */
module MVC {

  datatype Model<T> =
    | RefModel(value: T, dirty: bool)
    | ProxyModel(value: T, dirty: bool)

  /** `reset()`: acknowledge the change; the value and the variant stay. */
  function Reset<T>(m: Model<T>): (r: Model<T>)
    ensures !r.dirty
    ensures r.value == m.value
    ensures r.RefModel? == m.RefModel?
  {
    m.(dirty := false)
  }

  /** `RefModel::update`: store synchronously and raise the flag. */
  function RefUpdate<T>(m: Model<T>, x: T): (r: Model<T>)
    requires m.RefModel?
    ensures r.RefModel?
    ensures r.value == x && r.dirty
  {
    RefModel(x, true)
  }

  /** `ProxyModel::proxy_set`: the commit path stores into the cache and
      raises the flag. */
  function ProxySet<T>(m: Model<T>, x: T): (r: Model<T>)
    requires m.ProxyModel?
    ensures r.ProxyModel?
    ensures r.value == x && r.dirty
  {
    ProxyModel(x, true)
  }

  /** `ProxyModel::update`: hands `x` to the callback, which either commits
      it at once through `proxy_set` (`synchronous`) or defers the commit
      to a later `proxy_set`, leaving the model untouched for now. */
  function ProxyUpdate<T>(m: Model<T>, x: T, synchronous: bool): (r: Model<T>)
    requires m.ProxyModel?
    ensures r.ProxyModel?
    ensures synchronous ==> r.value == x && r.dirty
    ensures !synchronous ==> r == m
  {
    if synchronous then ProxySet(m, x) else m
  }

  /** The `ProxyModel` constructor: the cache starts at `initial` and dirty,
      and the callback is invoked once with `initial`; whether it commits
      at once or later, the new model shows `initial` and is dirty. */
  function NewProxy<T>(initial: T, synchronous: bool): (m: Model<T>)
    ensures m.ProxyModel?
    ensures m.value == initial && m.dirty
  {
    ProxyUpdate(ProxyModel(initial, true), initial, synchronous)
  }

  /** A call a model's owner makes: the virtual `update`, the deferred
      commit `proxy_set` of a proxy, or `reset`. */
  datatype ModelOp<T> =
    | Update(x: T, synchronous: bool)
    | Commit(x: T)
    | ResetOp

  /** Performs one call; `update` is dispatched on the variant, and
      `proxy_set` exists only on proxies. */
  function Apply<T>(m: Model<T>, op: ModelOp<T>): (r: Model<T>)
    requires op.Commit? ==> m.ProxyModel?
    ensures r.RefModel? == m.RefModel? && r.ProxyModel? == m.ProxyModel?
  {
    match op
    case Update(x, synchronous) =>
      if m.RefModel? then RefUpdate(m, x) else ProxyUpdate(m, x, synchronous)
    case Commit(x) => ProxySet(m, x)
    case ResetOp => Reset(m)
  }

  /** Performs `ops` in order. */
  function ApplyAll<T>(m: Model<T>, ops: seq<ModelOp<T>>): (r: Model<T>)
    requires m.RefModel? ==> forall k :: 0 <= k < |ops| ==> !ops[k].Commit?
    ensures r.RefModel? == m.RefModel?
    decreases |ops|
  {
    if ops == [] then m else ApplyAll(Apply(m, ops[0]), ops[1..])
  }

  /** The values a run of calls stores into a model of the given variant,
      in order: every reference update, every synchronous proxy update and
      every proxy commit. */
  function Stored<T>(isRef: bool, ops: seq<ModelOp<T>>): seq<T>
    decreases |ops|
  {
    if ops == [] then []
    else
      var here := match ops[0]
        case Update(x, synchronous) => if isRef || synchronous then [x] else []
        case Commit(x) => [x]
        case ResetOp => [];
      here + Stored(isRef, ops[1..])
  }

  /** Updates collapse: after calls with no `reset` among them, the model
      shows the last value stored (or its old value if none was), and it is
      dirty exactly when it was dirty before or something was stored. */
  lemma {:induction false} UpdatesCollapse<T>(m: Model<T>, ops: seq<ModelOp<T>>)
    requires m.RefModel? ==> forall k :: 0 <= k < |ops| ==> !ops[k].Commit?
    requires forall k :: 0 <= k < |ops| ==> !ops[k].ResetOp?
    ensures var r := ApplyAll(m, ops);
            var s := Stored(m.RefModel?, ops);
            && r.value == (if s == [] then m.value else s[|s| - 1])
            && r.dirty == (m.dirty || s != [])
    decreases |ops|
  {
    if ops != [] {
      var next := Apply(m, ops[0]);
      UpdatesCollapse(next, ops[1..]);
    }
  }

  /** The flag persists until reset: once dirty, a model stays dirty
      through any calls that do not include `reset`. */
  lemma DirtyUntilReset<T>(m: Model<T>, ops: seq<ModelOp<T>>)
    requires m.dirty
    requires m.RefModel? ==> forall k :: 0 <= k < |ops| ==> !ops[k].Commit?
    requires forall k :: 0 <= k < |ops| ==> !ops[k].ResetOp?
    ensures ApplyAll(m, ops).dirty
  {
    UpdatesCollapse(m, ops);
  }

  /** A deferred proxy update is invisible until its commit arrives, and
      the commit then has the effect of a synchronous update. */
  lemma DeferredThenCommit<T>(m: Model<T>, x: T)
    requires m.ProxyModel?
    ensures ProxySet(ProxyUpdate(m, x, false), x) == ProxyUpdate(m, x, true)
    ensures ProxyUpdate(m, x, false).value == m.value
    ensures ProxyUpdate(m, x, false).dirty == m.dirty
  {
  }
}
