/** The parts of Python's runtime the game code leans on: raised exceptions,
    `None`, and `range`. */
module PyRuntime {

  /** The exception classes the modelled code can raise. */
  datatype Exception =
    | TypeError
    | ValueError
    | IndexError
    | ZeroDivisionError
    | AssertionError
    | RuntimeError
    | KeyError

  /** A Python call either returns a value or raises. */
  datatype Result<T> = Ok(value: T) | Raise(error: Exception)
  {
    predicate IsOk() { this.Ok? }
  }

  /** A value or Python's `None`. */
  datatype Option<T> = None | Some(value: T)

  /** The elements of `range(start, stop, step)`, in iteration order. */
  function PyRange(start: int, stop: int, step: int): (s: seq<int>)
    requires step != 0
    decreases if step > 0 then stop - start else start - stop
  {
    if (step > 0 && start < stop) || (step < 0 && start > stop) then
      [start] + PyRange(start + step, stop, step)
    else
      []
  }

  /** Every element of a range lies between `start` and `stop`. */
  lemma {:induction false} PyRangeBounds(start: int, stop: int, step: int, x: int)
    requires step != 0
    requires x in PyRange(start, stop, step)
    ensures if step > 0 then start <= x < stop else stop < x <= start
    decreases if step > 0 then stop - start else start - stop
  {
    if x != start {
      PyRangeBounds(start + step, stop, step, x);
    }
  }

  /** An ascending range with step 1 or 5 holds exactly the values from
      `start` up to `stop`, excluding `stop`, reached from `start` in steps. */
  lemma {:induction false} InRangeUp(start: int, stop: int, step: int, k: int)
    requires step == 1 || step == 5
    ensures k in PyRange(start, stop, step) <==> start <= k < stop && (k - start) % step == 0
    decreases stop - start
  {
    if start < stop {
      InRangeUp(start + step, stop, step, k);
      if step == 1 {
        assert (k - start) % 1 == 0;
      } else {
        assert (k - start) % 5 == 0 <==> (k - (start + 5)) % 5 == 0;
      }
    }
  }

  /** A descending range with step -1 or -5 holds exactly the values from
      `start` down to `stop`, excluding `stop`, reached from `start` in steps. */
  lemma {:induction false} InRangeDown(start: int, stop: int, step: int, k: int)
    requires step == -1 || step == -5
    ensures k in PyRange(start, stop, step) <==> stop < k <= start && (start - k) % (-step) == 0
    decreases start - stop
  {
    if start > stop {
      InRangeDown(start + step, stop, step, k);
      if step == -1 {
        assert (start - k) % 1 == 0;
      } else {
        assert (start - k) % 5 == 0 <==> (start - 5 - k) % 5 == 0;
      }
    }
  }
}
