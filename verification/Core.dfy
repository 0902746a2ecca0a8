/** Shared vocabulary: bytes, the C++ integer ranges, and the two failure datatypes
    that stand for the exceptions of the C++ code. */
module Core {
  type byte = b: int | 0 <= b < 256
  type bytes = seq<byte>

  const TWO_TO_THE_16: int := 0x1_0000
  const TWO_TO_THE_32: int := 0x1_0000_0000
  const TWO_TO_THE_63: int := 0x8000_0000_0000_0000
  const TWO_TO_THE_64: int := 0x1_0000_0000_0000_0000

  type uint64 = n: int | 0 <= n < TWO_TO_THE_64
  type int64 = n: int | -TWO_TO_THE_63 <= n < TWO_TO_THE_63

  const ZERO_KEY: bytes :=
    [0, 0, 0, 0, 0, 0, 0, 0, 0, 0, 0, 0, 0, 0, 0, 0, 0, 0, 0, 0, 0, 0, 0, 0, 0, 0, 0, 0, 0, 0, 0, 0]

  /** A 32-byte node, disco or preshared key. */
  type Key32 = k: bytes | |k| == 32 witness ZERO_KEY

  predicate AllZero(key: Key32) {
    forall i | 0 <= i < |key| :: key[i] == 0
  }

  datatype Option<+T> = None | Some(value: T) {
    predicate IsFailure() { None? }

    function PropagateFailure<U>(): Option<U>
      requires None?
    {
      None
    }

    function Extract(): T
      requires Some?
    {
      value
    }
  }

  datatype Result<+T, +E> = Ok(value: T) | Err(error: E)

  /** Left fold. */
  function Fold<R, F>(step: (R, F) -> R, start: R, fs: seq<F>): R {
    if fs == [] then start else Fold(step, step(start, fs[0]), fs[1..])
  }

  lemma {:induction false} FoldAppend<R, F>(step: (R, F) -> R, start: R, a: seq<F>, b: seq<F>)
    ensures Fold(step, start, a + b) == Fold(step, Fold(step, start, a), b)
  {
    if a == [] {
      assert a + b == b;
    } else {
      assert (a + b)[1..] == a[1..] + b;
      FoldAppend(step, step(start, a[0]), a[1..], b);
    }
  }

  /** Maps a partial function over a sequence; fails as soon as one element does. */
  function Collect<A, B>(f: A -> Option<B>, s: seq<A>): Option<seq<B>> {
    if s == [] then Some([])
    else
      var head :- f(s[0]);
      var tail :- Collect(f, s[1..]);
      Some([head] + tail)
  }

  lemma {:induction false} CollectAppend<A, B>(f: A -> Option<B>, a: seq<A>, b: seq<A>)
    ensures Collect(f, a + b) ==
            (if Collect(f, a).Some? && Collect(f, b).Some?
             then Some(Collect(f, a).value + Collect(f, b).value) else None)
  {
    if a == [] {
      assert a + b == b;
      if Collect(f, b).Some? {
        assert [] + Collect(f, b).value == Collect(f, b).value;
      }
    } else {
      assert (a + b)[0] == a[0] && (a + b)[1..] == a[1..] + b;
      CollectAppend(f, a[1..], b);
      if f(a[0]).Some? && Collect(f, a[1..]).Some? && Collect(f, b).Some? {
        var head, tail, more := f(a[0]).value, Collect(f, a[1..]).value, Collect(f, b).value;
        assert ([head] + tail) + more == [head] + (tail + more);
      }
    }
  }

  lemma MulAtLeast(k: int, m: int)
    requires k > 0 && m >= 1
    ensures k * m >= k
  {
  }

  /** Quotient and remainder are determined by the division equation. */
  lemma DivUnique(v: int, k: int, q: int, r: int)
    requires 0 <= r < k && v == k * q + r
    ensures v / k == q && v % k == r
  {
    var d, e := v / k, v % k;
    assert v == k * d + e && 0 <= e < k;
    assert k * (q - d) == e - r;
    if q > d {
      MulAtLeast(k, q - d);
    } else if q < d {
      MulAtLeast(k, d - q);
    }
  }

  /** Collecting undoes an element-wise construction. */
  lemma {:induction false} CollectInverse<A, B>(f: A -> Option<B>, made: seq<A>, s: seq<B>)
    requires |made| == |s| && forall i | 0 <= i < |s| :: f(made[i]) == Some(s[i])
    ensures Collect(f, made) == Some(s)
  {
    if s != [] {
      CollectInverse(f, made[1..], s[1..]);
      assert [s[0]] + s[1..] == s;
    }
  }

  lemma AppendInjective<T>(front: seq<T>, a: seq<T>, b: seq<T>)
    ensures front + a == front + b <==> a == b
  {
    assert (front + a)[|front|..] == a && (front + b)[|front|..] == b;
  }

  lemma AppendAssociative<T>(a: seq<T>, b: seq<T>, c: seq<T>)
    ensures a + (b + c) == a + b + c
  {
  }

  /** Concatenation of a sequence of byte strings. */
  function Concat(parts: seq<bytes>): bytes {
    if parts == [] then [] else parts[0] + Concat(parts[1..])
  }

  lemma {:induction false} ConcatAppend(a: seq<bytes>, b: seq<bytes>)
    ensures Concat(a + b) == Concat(a) + Concat(b)
  {
    if a == [] {
      assert a + b == b;
    } else {
      assert (a + b)[1..] == a[1..] + b;
      ConcatAppend(a[1..], b);
    }
  }

  /** One more byte written in place after a finished part. */
  lemma UpdateMiddle(front: bytes, back: bytes, b: byte)
    requires back != []
    ensures (front + back)[|front| := b] == (front + [b]) + back[1..]
  {
  }
}
