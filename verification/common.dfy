/** Small shared vocabulary: the byte type and the failure-carrying wrappers
    that stand in for Rust's `Option` and `Result`. */
module Common {

  /** A Rust `u8`: an unsigned 8-bit integer. */
  type u8 = x: int | 0 <= x < 256

  /** The `Option` of the firmware (`Some(v)` / `None`). */
  datatype Option<+T> = None | Some(value: T)

  /** A `Result` whose error carries no information, as Rust's `Result<T, ()>`. */
  datatype Result<+T> = Ok(value: T) | Err

  /** The values of an option as a sequence of length zero or one. */
  function OptionToSeq<T>(o: Option<T>): (s: seq<T>)
    ensures |s| <= 1
    ensures o.Some? <==> |s| == 1
    ensures o.Some? ==> s[0] == o.value
  {
    match o
    case None => []
    case Some(v) => [v]
  }

  /** Runs a state machine that emits zero or more outputs per input item
      over a stream, returning the final state and all outputs in order. */
  function Scan<S, I, O>(step: (S, I) -> (S, seq<O>), s: S, input: seq<I>): (S, seq<O>)
    decreases |input|
  {
    if input == [] then (s, [])
    else
      var next := step(s, input[0]);
      var rest := Scan(step, next.0, input[1..]);
      (rest.0, next.1 + rest.1)
  }

  /** One step of `Scan`. */
  lemma ScanCons<S, I, O>(step: (S, I) -> (S, seq<O>), s: S, x: I, rest: seq<I>)
    ensures var next := step(s, x);
      Scan(step, s, [x] + rest) == (Scan(step, next.0, rest).0, next.1 + Scan(step, next.0, rest).1)
  {
  }

  /** Scanning a stream in two pieces is scanning it whole. */
  lemma {:induction false} ScanAppend<S, I, O>(step: (S, I) -> (S, seq<O>), s: S, a: seq<I>, b: seq<I>)
    ensures Scan(step, s, a + b).0 == Scan(step, Scan(step, s, a).0, b).0
    ensures Scan(step, s, a + b).1 == Scan(step, s, a).1 + Scan(step, Scan(step, s, a).0, b).1
    decreases |a|
  {
    if a == [] {
      assert a + b == b;
    } else {
      var next := step(s, a[0]);
      assert a == [a[0]] + a[1..];
      assert a + b == [a[0]] + (a[1..] + b);
      ScanCons(step, s, a[0], a[1..] + b);
      ScanCons(step, s, a[0], a[1..]);
      ScanAppend(step, next.0, a[1..], b);
      var mid := Scan(step, next.0, a[1..]);
      assert next.1 + (mid.1 + Scan(step, mid.0, b).1) == (next.1 + mid.1) + Scan(step, mid.0, b).1;
    }
  }

  /** Maps every element to a sequence and concatenates the results in order. */
  function FlatMap<A, B>(f: A -> seq<B>, s: seq<A>): seq<B>
    decreases |s|
  {
    if s == [] then [] else f(s[0]) + FlatMap(f, s[1..])
  }

  lemma {:induction false} FlatMapAppend<A, B>(f: A -> seq<B>, a: seq<A>, b: seq<A>)
    ensures FlatMap(f, a + b) == FlatMap(f, a) + FlatMap(f, b)
    decreases |a|
  {
    if a == [] {
      assert a + b == b;
    } else {
      assert (a + b)[0] == a[0];
      assert (a + b)[1..] == a[1..] + b;
      FlatMapAppend(f, a[1..], b);
    }
  }

  lemma FlatMapSingle<A, B>(f: A -> seq<B>, x: A)
    ensures FlatMap(f, [x]) == f(x)
  {
  }

  lemma FlatMapPair<A, B>(f: A -> seq<B>, x: A, y: A)
    ensures FlatMap(f, [x, y]) == f(x) + f(y)
  {
    assert [x, y] == [x] + [y];
    FlatMapAppend(f, [x], [y]);
    FlatMapSingle(f, x);
    FlatMapSingle(f, y);
  }
}
