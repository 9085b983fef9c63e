/**
 * The counter generator of the `com.ldbc.generator` package: a state machine
 * that hands out `start`, `start + incrementBy`, `start + 2 * incrementBy`, ...
 * until the count strictly exceeds an optional `max`, after which every call
 * returns `null`. The number type `T` is taken to be an unbounded `int`.
 */
module CounterGenerator {
  import opened Wrappers

  /** The test `null != max && count > max` that guards `doNext`. */
  predicate Exhausted(max: Option<int>, count: int) {
    max.Some? && count > max.value
  }

  /** What one call of `doNext` returns when the counter holds `count`. */
  function Emit(max: Option<int>, count: int): (r: Option<int>)
    ensures r.None? <==> Exhausted(max, count)
    ensures r.Some? ==> r.value == count
    ensures max.None? ==> r.Some?
    ensures r.Some? && max.Some? ==> r.value <= max.value
  {
    if Exhausted(max, count) then None else Some(count)
  }

  /** The counter after one call of `doNext`. */
  function Step(incrementBy: int, max: Option<int>, count: int): int {
    if Exhausted(max, count) then count else count + incrementBy
  }

  /** The counter of a generator built from `start` after `n` calls of `doNext`. */
  function CountAfter(start: int, incrementBy: int, max: Option<int>, n: nat): int {
    if n == 0 then start
    else Step(incrementBy, max, CountAfter(start, incrementBy, max, n - 1))
  }

  /** The result of call number `k` (counting from 0) of `doNext` on a fresh generator. */
  function NthResult(start: int, incrementBy: int, max: Option<int>, k: nat): Option<int> {
    Emit(max, CountAfter(start, incrementBy, max, k))
  }

  /** The first call returns `start` unless `start` already exceeds `max`. */
  lemma FirstCallReturnsStart(start: int, incrementBy: int, max: Option<int>)
    ensures max.None? || start <= max.value ==> NthResult(start, incrementBy, max, 0) == Some(start)
    ensures max.Some? && start > max.value ==> NthResult(start, incrementBy, max, 0) == None
  {
  }

  /** Once the counter is past `max` it never moves again. */
  lemma {:induction false} ExhaustedIsStable(start: int, incrementBy: int, max: Option<int>, j: nat, k: nat)
    requires j <= k
    requires Exhausted(max, CountAfter(start, incrementBy, max, j))
    ensures CountAfter(start, incrementBy, max, k) == CountAfter(start, incrementBy, max, j)
    decreases k - j
  {
    if j < k {
      ExhaustedIsStable(start, incrementBy, max, j, k - 1);
    }
  }

  /** A `null` result is permanent: every later call also returns `null`. */
  lemma NullIsAbsorbing(start: int, incrementBy: int, max: Option<int>, j: nat, k: nat)
    requires j <= k
    requires NthResult(start, incrementBy, max, j) == None
    ensures NthResult(start, incrementBy, max, k) == None
  {
    ExhaustedIsStable(start, incrementBy, max, j, k);
  }

  /**
   * The non-null results form an arithmetic progression: when call `k` returns
   * a value, every call before it returned one too, and that value is
   * `start + k * incrementBy`.
   */
  lemma {:induction false} NonNullResultsAreArithmetic(start: int, incrementBy: int, max: Option<int>, k: nat)
    requires NthResult(start, incrementBy, max, k).Some?
    ensures NthResult(start, incrementBy, max, k) == Some(start + k * incrementBy)
    ensures forall j :: 0 <= j < k ==> NthResult(start, incrementBy, max, j).Some?
  {
    forall j | 0 <= j < k
      ensures NthResult(start, incrementBy, max, j).Some?
    {
      if NthResult(start, incrementBy, max, j).None? {
        NullIsAbsorbing(start, incrementBy, max, j, k);
      }
    }
    if k > 0 {
      NonNullResultsAreArithmetic(start, incrementBy, max, k - 1);
      assert CountAfter(start, incrementBy, max, k)
          == start + (k - 1) * incrementBy + incrementBy;
    }
  }

  /** Without a `max` the generator never returns `null`. */
  lemma {:induction false} UnboundedNeverNull(start: int, incrementBy: int, k: nat)
    ensures NthResult(start, incrementBy, None, k) == Some(start + k * incrementBy)
  {
    if k > 0 {
      UnboundedNeverNull(start, incrementBy, k - 1);
      assert CountAfter(start, incrementBy, None, k)
          == start + (k - 1) * incrementBy + incrementBy;
    }
  }

  /**
   * `CounterGenerator<T>`: `incrementBy` and `max` are final, only `count`
   * changes. The ghost fields remember the starting value and how many times
   * `doNext` has run, so that the object can be related to `CountAfter`.
   */
  class CounterGenerator {
    const incrementBy: int
    const max: Option<int>
    var count: int
    ghost const start: int
    ghost var calls: nat

    ghost predicate Valid()
      reads this
    {
      count == CountAfter(start, incrementBy, max, calls)
    }

    constructor (start: int, incrementBy: int, max: Option<int>)
      ensures Valid()
      ensures this.start == start && this.incrementBy == incrementBy && this.max == max
      ensures count == start && calls == 0
    {
      this.count := start;
      this.incrementBy := incrementBy;
      this.max := max;
      this.start := start;
      this.calls := 0;
    }

    /**
     * `doNext`: returns `null` when `max` is set and the count is strictly
     * above it, leaving the count alone; otherwise returns the count and
     * advances it by `incrementBy`.
     */
    method DoNext() returns (r: Option<int>)
      requires Valid()
      modifies this
      ensures Valid()
      ensures calls == old(calls) + 1
      ensures r == NthResult(start, incrementBy, max, old(calls))
      ensures r.None? <==> max.Some? && old(count) > max.value
      ensures r.Some? ==> r.value == old(count) && count == old(count) + incrementBy
      ensures r.None? ==> count == old(count)
      ensures r.Some? && max.Some? ==> r.value <= max.value
    {
      if max.Some? && count > max.value {
        calls := calls + 1;
        return None;
      }
      var next := count;
      count := count + incrementBy;
      calls := calls + 1;
      return Some(next);
    }
  }
}
