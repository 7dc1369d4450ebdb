/**
 * The reference-counted shared memoiser (`createSharedComposable`): every
 * consumer that calls the wrapper gets the one cached unit, and the unit's
 * effect scope is stopped once the last consumer's scope is disposed.
 *
 * Effect scopes are numbered by generation: the n-th scope the wrapper
 * creates is scope n. A factory result that is `undefined` (or otherwise
 * falsy) is `None`.
 */
module Shared {
  import opened Common

  /** The closure variables of one wrapper, plus the bookkeeping the model observes. */
  datatype Memo<T> = Memo(
    subscribers: int,      // `subscribers`
    state: Option<T>,      // `state`
    scope: Option<nat>,    // `scope`, by generation
    generation: nat,       // scopes created so far, i.e. factory runs
    registered: nat,       // registrations of the `dispose` callback
    stopped: set<nat>)     // scopes on which `stop()` was called

  /** The wrapper as `createSharedComposable` returns it. */
  function Initial<T>(): (m: Memo<T>)
    ensures m.subscribers == 0 && m.state.None? && m.scope.None?
  {
    Memo(0, None, None, 0, 0, {})
  }

  /**
   * One call of the wrapper, `produced` being what the factory would return.
   * Gives the new closure state and the value returned to the caller.
   */
  function CallStep<T>(m: Memo<T>, produced: Option<T>): (r: (Memo<T>, Option<T>))
    ensures r.0.subscribers == m.subscribers + 1
    ensures r.0.registered == m.registered + 1
    ensures r.0.stopped == m.stopped
    ensures m.state.Some? ==>
      r.1 == m.state && r.0.state == m.state && r.0.scope == m.scope && r.0.generation == m.generation
    ensures m.state.None? ==>
      r.1 == produced && r.0.state == produced &&
      r.0.generation == m.generation + 1 && r.0.scope == Some(r.0.generation)
  {
    var subscribers := m.subscribers + 1;
    if m.state.None? then
      var g := m.generation + 1;
      (Memo(subscribers, produced, Some(g), g, m.registered + 1, m.stopped), produced)
    else
      (m.(subscribers := subscribers, registered := m.registered + 1), m.state)
  }

  /** One run of `dispose`. */
  function DisposeStep<T>(m: Memo<T>): (r: Memo<T>)
    ensures r.subscribers == m.subscribers - 1
    ensures r.generation == m.generation && r.registered == m.registered
    ensures m.scope.Some? && m.subscribers - 1 <= 0 ==>
      r.state.None? && r.scope.None? && r.stopped == m.stopped + {m.scope.value}
    ensures !(m.scope.Some? && m.subscribers - 1 <= 0) ==>
      r.state == m.state && r.scope == m.scope && r.stopped == m.stopped
  {
    var subscribers := m.subscribers - 1;
    if m.scope.Some? && subscribers <= 0 then
      Memo(subscribers, None, None, m.generation, m.registered, m.stopped + {m.scope.value})
    else
      m.(subscribers := subscribers)
  }

  /** `n` calls in a row, each with a factory that would return `produced`. */
  function Calls<T>(m: Memo<T>, n: nat, produced: Option<T>): Memo<T>
  {
    if n == 0 then m else CallStep(Calls(m, n - 1, produced), produced).0
  }

  /** `n` disposals in a row. */
  function Disposals<T>(m: Memo<T>, n: nat): Memo<T>
  {
    if n == 0 then m else DisposeStep(Disposals(m, n - 1))
  }

  /**
   * The wrapper's invariant while the factory returns defined values: a unit
   * is cached exactly when a scope is live, a live scope has a subscriber and
   * is the newest one, and every older scope has been stopped, so no two units
   * are live at once.
   */
  ghost predicate Valid<T>(m: Memo<T>)
  {
    && m.subscribers >= 0
    && (m.state.Some? <==> m.scope.Some?)
    && (m.scope.Some? ==> m.subscribers >= 1 && m.scope.value == m.generation >= 1 && m.generation !in m.stopped)
    && (forall g :: 1 <= g <= m.generation && (m.scope.None? || g < m.generation) ==> g in m.stopped)
    && (forall g :: g in m.stopped ==> 1 <= g <= m.generation)
  }

  lemma InitialValid<T>()
    ensures Valid(Initial<T>())
  {
  }

  /** A call whose factory would return a defined value keeps the invariant. */
  lemma CallKeepsValid<T>(m: Memo<T>, v: T)
    requires Valid(m)
    ensures Valid(CallStep(m, Some(v)).0)
  {
  }

  /** A disposal matched by an earlier call (never a double release) keeps the invariant. */
  lemma DisposeKeepsValid<T>(m: Memo<T>)
    requires Valid(m) && m.subscribers >= 1
    ensures Valid(DisposeStep(m))
  {
  }

  /**
   * From a wrapper with nothing cached, `n` calls run the factory once: they
   * open exactly one new generation, and every call returns the unit the
   * first one produced. Once one call has been made, a further call returns
   * that unit and opens no generation, whatever the factory would produce.
   */
  lemma {:induction false} CallsShareOneUnit<T>(m: Memo<T>, n: nat, v: T)
    requires m.state.None? && n >= 1
    ensures Calls(m, n, Some(v)).generation == m.generation + 1
    ensures Calls(m, n, Some(v)).state == Some(v)
    ensures Calls(m, n, Some(v)).scope == Some(m.generation + 1)
    ensures Calls(m, n, Some(v)).subscribers == m.subscribers + n
    ensures Calls(m, n, Some(v)).stopped == m.stopped
    ensures forall j :: 0 <= j < n ==> CallStep(Calls(m, j, Some(v)), Some(v)).1 == Some(v)
    ensures forall j, p :: 1 <= j <= n ==>
      CallStep(Calls(m, j, Some(v)), p).1 == Some(v) &&
      CallStep(Calls(m, j, Some(v)), p).0.generation == m.generation + 1
  {
    if n > 1 {
      CallsShareOneUnit(m, n - 1, v);
    }
  }

  /**
   * With `k` subscribers and a live scope, the first `k - 1` disposals change
   * only the count and the `k`-th stops the scope and drops the unit.
   */
  lemma {:induction false} DisposalsRelease<T>(m: Memo<T>, k: nat)
    requires m.scope.Some? && m.subscribers == k && k >= 1
    ensures forall j :: 0 <= j < k ==>
      Disposals(m, j).state == m.state && Disposals(m, j).scope == m.scope &&
      Disposals(m, j).subscribers == k - j && Disposals(m, j).stopped == m.stopped
    ensures Disposals(m, k).state.None? && Disposals(m, k).scope.None?
    ensures Disposals(m, k).subscribers == 0
    ensures Disposals(m, k).stopped == m.stopped + {m.scope.value}
    ensures Disposals(m, k).generation == m.generation
  {
    DisposalsPrefix(m, k, k - 1);
    var before := Disposals(m, k - 1);
    assert before.subscribers == 1;
  }

  /** Helper for DisposalsRelease: the first `j < k` disposals leave the unit alive. */
  lemma {:induction false} DisposalsPrefix<T>(m: Memo<T>, k: nat, j: nat)
    requires m.scope.Some? && m.subscribers == k && j < k
    ensures forall i :: 0 <= i <= j ==>
      Disposals(m, i).state == m.state && Disposals(m, i).scope == m.scope &&
      Disposals(m, i).subscribers == k - i && Disposals(m, i).stopped == m.stopped &&
      Disposals(m, i).generation == m.generation
  {
    if j > 0 {
      DisposalsPrefix(m, k, j - 1);
      assert Disposals(m, j) == DisposeStep(Disposals(m, j - 1));
    }
  }

  /**
   * `n` calls followed by `n` disposals stop the unit's scope and empty the
   * cache; the next call runs the factory again, in a new generation, and
   * returns the new unit.
   */
  lemma CallsThenDisposalsRestart<T>(m: Memo<T>, n: nat, v: T, w: T)
    requires m.subscribers == 0 && m.state.None? && n >= 1
    ensures var full := Calls(m, n, Some(v));
            var empty := Disposals(full, n);
            && full.scope.Some? && full.scope.value in empty.stopped
            && empty.state.None? && empty.scope.None? && empty.subscribers == 0
            && CallStep(empty, Some(w)).1 == Some(w)
            && CallStep(empty, Some(w)).0.generation == full.generation + 1
  {
    CallsShareOneUnit(m, n, v);
    DisposalsRelease(Calls(m, n, Some(v)), n);
  }

  /**
   * The wrapper of the source: closure variables as fields, the wrapped call
   * as `Call` (its argument is what the factory would return) and the
   * registered `dispose` callback as `Dispose`.
   */
  class SharedComposable<T> {
    var subscribers: int
    var state: Option<T>
    var scope: Option<nat>
    var generation: nat
    var registered: nat
    var stopped: set<nat>

    function Snapshot(): Memo<T>
      reads this
    {
      Memo(subscribers, state, scope, generation, registered, stopped)
    }

    constructor ()
      ensures Snapshot() == Initial()
    {
      subscribers, state, scope := 0, None, None;
      generation, registered, stopped := 0, 0, {};
    }

    /** The function returned by `createSharedComposable`. */
    method Call(produced: Option<T>) returns (r: Option<T>)
      modifies this
      ensures (Snapshot(), r) == CallStep(old(Snapshot()), produced)
      ensures subscribers == old(subscribers) + 1 && registered == old(registered) + 1
      ensures old(state).Some? ==> r == old(state) && generation == old(generation)
    {
      subscribers := subscribers + 1;
      if state.None? {
        generation := generation + 1;
        scope := Some(generation);
        state := produced;
      }
      registered := registered + 1;
      r := state;
    }

    /** The `dispose` callback registered for each consumer. */
    method Dispose()
      modifies this
      ensures Snapshot() == DisposeStep(old(Snapshot()))
      ensures subscribers == old(subscribers) - 1
      ensures subscribers > 0 ==> state == old(state) && scope == old(scope) && stopped == old(stopped)
    {
      subscribers := subscribers - 1;
      if scope.Some? && subscribers <= 0 {
        stopped := stopped + {scope.value};
        state := None;
        scope := None;
      }
    }
  }
}
