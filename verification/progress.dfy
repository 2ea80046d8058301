/** The progress counter every long loop of the pipeline reports through. */
module Progress {
  import opened Outcome
  import Text

  /** `counter`: a count `i` that starts at 0. */
  datatype Counter = Counter(i: nat)

  /** `counter()`. */
  function NewCounter(): (c: Counter)
    ensures c.i == 0
  {
    Counter(0)
  }

  /** `count()`: bump the count by one and report the new count as a decimal
      string, the form the progress messages concatenate. */
  function Count(c: Counter): (r: (Counter, string))
    ensures r.0.i == c.i + 1
    ensures Text.ParseInt(r.1) == Ok(c.i + 1)
  {
    var next := Counter(c.i + 1);
    Text.DecimalRoundTrip(next.i);
    (next, Text.ToDecimal(next.i))
  }

  /** `__str__`: the current count in decimal. */
  function Show(c: Counter): (s: string)
    ensures Text.ParseInt(s) == Ok(c.i)
  {
    Text.DecimalRoundTrip(c.i);
    Text.ToDecimal(c.i)
  }

  /** The counter after `n` calls of `count()` on a fresh counter. */
  function CountTimes(n: nat): Counter {
    if n == 0 then NewCounter() else Count(CountTimes(n - 1)).0
  }

  /** After `n` calls a fresh counter holds `n`: the k-th message reports k. */
  lemma {:induction false} CountsCalls(n: nat)
    ensures CountTimes(n).i == n
  {
    if n > 0 {
      CountsCalls(n - 1);
    }
  }
}
