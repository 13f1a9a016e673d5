/**
 * The two closure helpers of src/Utils.tsx: `simpleMemoize`, which calls the
 * wrapped function on the first invocation only and returns that result
 * forever, and `callbackToValue`, which reads the value an output delivers
 * synchronously to a callback.
 */
module Memo {
  import opened Wrappers

  /**
   * The closure `simpleMemoize(func)` returns, with its captured `called` and
   * `result` variables. The wrapped function may return a different value on
   * each call: `func(n)` is what its call number `n` returns; `calls` counts
   * the calls made so far.
   */
  class Memoized<T> {
    const func: nat -> T
    var called: bool
    var result: Option<T>
    var calls: nat

    /** Whether the captured variables agree with the calls made: at most one, and its value kept. */
    ghost predicate Valid()
      reads this
    {
      (called ==> calls == 1 && result == Some(func(0))) &&
      (!called ==> calls == 0 && result == None)
    }

    /** `simpleMemoize(func)`: nothing is called yet. */
    constructor (func: nat -> T)
      ensures this.func == func && Valid()
      ensures !called && calls == 0
    {
      this.func := func;
      called := false;
      result := None;
      calls := 0;
    }

    /** One invocation of the memoized function. */
    method Invoke() returns (r: T)
      requires Valid()
      modifies this`called, this`result, this`calls
      ensures Valid() && called && calls == 1
      ensures r == func(0)
      ensures old(called) ==> calls == old(calls)
    {
      if !called {
        called := true;
        result := Some(func(calls));
        calls := calls + 1;
      }
      r := result.value;
    }
  }

  /** Any number of invocations: the wrapped function runs once, and every invocation returns its first result. */
  method InvokeRepeatedly<T>(m: Memoized<T>, n: nat) returns (results: seq<T>)
    requires m.Valid()
    modifies m`called, m`result, m`calls
    ensures |results| == n && forall k :: 0 <= k < n ==> results[k] == m.func(0)
    ensures m.Valid() && m.calls == (if n == 0 then old(m.calls) else 1)
  {
    results := [];
    for k := 0 to n
      invariant m.Valid() && |results| == k
      invariant forall i :: 0 <= i < k ==> results[i] == m.func(0)
      invariant m.calls == (if k == 0 then old(m.calls) else 1)
    {
      var r := m.Invoke();
      results := results + [r];
    }
  }

  /**
   * The thunk `callbackToValue(output, defaultValue)` returns, invoked: the
   * output calls the callback synchronously once per element of `deliveries`,
   * in order, and each call overwrites the result.
   */
  method CallbackToValue<T>(deliveries: seq<T>, defaultValue: T) returns (result: T)
    ensures deliveries == [] ==> result == defaultValue
    ensures deliveries != [] ==> result == deliveries[|deliveries| - 1]
  {
    result := defaultValue;
    for k := 0 to |deliveries|
      invariant k == 0 ==> result == defaultValue
      invariant k > 0 ==> result == deliveries[k - 1]
    {
      result := deliveries[k];
    }
  }
}
