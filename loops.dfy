/** Counted loops as sequences.

    The boundary routines are nests of `for (v = lo; v <= hi; v++)` loops
    whose bodies move one value per statement.  `Loop1`, `Loop2` and
    `Loop3` list what a nest of one, two or three such loops emits, in
    execution order: the outermost index varies slowest.  The lemmas
    recover, for one emitted element, the loop indices that produced it
    (`Pick`), show that an index tuple inside the bounds does emit its
    body (`Cover`), count the emitted elements (`Len`) and carry a
    position-by-position relation between two nests of the same shape
    (`Pairwise`). */
module Loops {

  /** Number of iterations of `for (v = lo; v <= hi; v++)`. */
  function Trips(lo: int, hi: int): (n: nat)
    ensures hi < lo ==> n == 0
    ensures lo <= hi ==> n == hi - lo + 1
  {
    if hi < lo then 0 else hi - lo + 1
  }

  function Loop1<T>(lo: int, hi: int, f: int -> seq<T>): seq<T>
    decreases Trips(lo, hi)
  {
    if hi < lo then [] else f(lo) + Loop1(lo + 1, hi, f)
  }

  function Row2<T>(a: int, b0: int, b1: int, f: (int, int) -> seq<T>): seq<T>
    decreases Trips(b0, b1)
  {
    if b1 < b0 then [] else f(a, b0) + Row2(a, b0 + 1, b1, f)
  }

  function Loop2<T>(a0: int, a1: int, b0: int, b1: int, f: (int, int) -> seq<T>): seq<T>
    decreases Trips(a0, a1)
  {
    if a1 < a0 then [] else Row2(a0, b0, b1, f) + Loop2(a0 + 1, a1, b0, b1, f)
  }

  function Row3<T>(a: int, b: int, c0: int, c1: int, f: (int, int, int) -> seq<T>): seq<T>
    decreases Trips(c0, c1)
  {
    if c1 < c0 then [] else f(a, b, c0) + Row3(a, b, c0 + 1, c1, f)
  }

  function Plane3<T>(a: int, b0: int, b1: int, c0: int, c1: int, f: (int, int, int) -> seq<T>): seq<T>
    decreases Trips(b0, b1)
  {
    if b1 < b0 then [] else Row3(a, b0, c0, c1, f) + Plane3(a, b0 + 1, b1, c0, c1, f)
  }

  function Loop3<T>(a0: int, a1: int, b0: int, b1: int, c0: int, c1: int,
                    f: (int, int, int) -> seq<T>): seq<T>
    decreases Trips(a0, a1)
  {
    if a1 < a0 then [] else Plane3(a0, b0, b1, c0, c1, f) + Loop3(a0 + 1, a1, b0, b1, c0, c1, f)
  }

  // ---------------------------------------------------------------------
  // Which iteration emitted an element

  lemma {:induction false} Loop1Pick<T>(lo: int, hi: int, f: int -> seq<T>, e: T) returns (v: int)
    requires e in Loop1(lo, hi, f)
    ensures lo <= v <= hi && e in f(v)
    decreases Trips(lo, hi)
  {
    if e in f(lo) {
      v := lo;
    } else {
      v := Loop1Pick(lo + 1, hi, f, e);
    }
  }

  lemma {:induction false} Row2Pick<T>(a: int, b0: int, b1: int, f: (int, int) -> seq<T>, e: T) returns (b: int)
    requires e in Row2(a, b0, b1, f)
    ensures b0 <= b <= b1 && e in f(a, b)
    decreases Trips(b0, b1)
  {
    if e in f(a, b0) {
      b := b0;
    } else {
      b := Row2Pick(a, b0 + 1, b1, f, e);
    }
  }

  lemma {:induction false} Loop2Pick<T>(a0: int, a1: int, b0: int, b1: int, f: (int, int) -> seq<T>, e: T)
    returns (a: int, b: int)
    requires e in Loop2(a0, a1, b0, b1, f)
    ensures a0 <= a <= a1 && b0 <= b <= b1 && e in f(a, b)
    decreases Trips(a0, a1)
  {
    if e in Row2(a0, b0, b1, f) {
      a := a0;
      b := Row2Pick(a0, b0, b1, f, e);
    } else {
      a, b := Loop2Pick(a0 + 1, a1, b0, b1, f, e);
    }
  }

  lemma {:induction false} Row3Pick<T>(a: int, b: int, c0: int, c1: int, f: (int, int, int) -> seq<T>, e: T)
    returns (c: int)
    requires e in Row3(a, b, c0, c1, f)
    ensures c0 <= c <= c1 && e in f(a, b, c)
    decreases Trips(c0, c1)
  {
    if e in f(a, b, c0) {
      c := c0;
    } else {
      c := Row3Pick(a, b, c0 + 1, c1, f, e);
    }
  }

  lemma {:induction false} Plane3Pick<T>(a: int, b0: int, b1: int, c0: int, c1: int,
                                         f: (int, int, int) -> seq<T>, e: T)
    returns (b: int, c: int)
    requires e in Plane3(a, b0, b1, c0, c1, f)
    ensures b0 <= b <= b1 && c0 <= c <= c1 && e in f(a, b, c)
    decreases Trips(b0, b1)
  {
    if e in Row3(a, b0, c0, c1, f) {
      b := b0;
      c := Row3Pick(a, b0, c0, c1, f, e);
    } else {
      b, c := Plane3Pick(a, b0 + 1, b1, c0, c1, f, e);
    }
  }

  lemma {:induction false} Loop3Pick<T>(a0: int, a1: int, b0: int, b1: int, c0: int, c1: int,
                                        f: (int, int, int) -> seq<T>, e: T)
    returns (a: int, b: int, c: int)
    requires e in Loop3(a0, a1, b0, b1, c0, c1, f)
    ensures a0 <= a <= a1 && b0 <= b <= b1 && c0 <= c <= c1 && e in f(a, b, c)
    decreases Trips(a0, a1)
  {
    if e in Plane3(a0, b0, b1, c0, c1, f) {
      a := a0;
      b, c := Plane3Pick(a0, b0, b1, c0, c1, f, e);
    } else {
      a, b, c := Loop3Pick(a0 + 1, a1, b0, b1, c0, c1, f, e);
    }
  }

  // ---------------------------------------------------------------------
  // Every iteration inside the bounds emits its body

  lemma {:induction false} Loop1Cover<T>(lo: int, hi: int, f: int -> seq<T>, v: int, e: T)
    requires lo <= v <= hi && e in f(v)
    ensures e in Loop1(lo, hi, f)
    decreases Trips(lo, hi)
  {
    if v != lo {
      Loop1Cover(lo + 1, hi, f, v, e);
    }
  }

  lemma {:induction false} Row2Cover<T>(a: int, b0: int, b1: int, f: (int, int) -> seq<T>, b: int, e: T)
    requires b0 <= b <= b1 && e in f(a, b)
    ensures e in Row2(a, b0, b1, f)
    decreases Trips(b0, b1)
  {
    if b != b0 {
      Row2Cover(a, b0 + 1, b1, f, b, e);
    }
  }

  lemma {:induction false} Loop2Cover<T>(a0: int, a1: int, b0: int, b1: int, f: (int, int) -> seq<T>,
                                         a: int, b: int, e: T)
    requires a0 <= a <= a1 && b0 <= b <= b1 && e in f(a, b)
    ensures e in Loop2(a0, a1, b0, b1, f)
    decreases Trips(a0, a1)
  {
    if a == a0 {
      Row2Cover(a0, b0, b1, f, b, e);
    } else {
      Loop2Cover(a0 + 1, a1, b0, b1, f, a, b, e);
    }
  }

  lemma {:induction false} Row3Cover<T>(a: int, b: int, c0: int, c1: int, f: (int, int, int) -> seq<T>,
                                        c: int, e: T)
    requires c0 <= c <= c1 && e in f(a, b, c)
    ensures e in Row3(a, b, c0, c1, f)
    decreases Trips(c0, c1)
  {
    if c != c0 {
      Row3Cover(a, b, c0 + 1, c1, f, c, e);
    }
  }

  lemma {:induction false} Plane3Cover<T>(a: int, b0: int, b1: int, c0: int, c1: int,
                                          f: (int, int, int) -> seq<T>, b: int, c: int, e: T)
    requires b0 <= b <= b1 && c0 <= c <= c1 && e in f(a, b, c)
    ensures e in Plane3(a, b0, b1, c0, c1, f)
    decreases Trips(b0, b1)
  {
    if b == b0 {
      Row3Cover(a, b0, c0, c1, f, c, e);
    } else {
      Plane3Cover(a, b0 + 1, b1, c0, c1, f, b, c, e);
    }
  }

  lemma {:induction false} Loop3Cover<T>(a0: int, a1: int, b0: int, b1: int, c0: int, c1: int,
                                         f: (int, int, int) -> seq<T>, a: int, b: int, c: int, e: T)
    requires a0 <= a <= a1 && b0 <= b <= b1 && c0 <= c <= c1 && e in f(a, b, c)
    ensures e in Loop3(a0, a1, b0, b1, c0, c1, f)
    decreases Trips(a0, a1)
  {
    if a == a0 {
      Plane3Cover(a0, b0, b1, c0, c1, f, b, c, e);
    } else {
      Loop3Cover(a0 + 1, a1, b0, b1, c0, c1, f, a, b, c, e);
    }
  }

  // ---------------------------------------------------------------------
  // A property every iteration's body has, every emitted element has

  lemma Loop1All<T>(lo: int, hi: int, f: int -> seq<T>, P: T -> bool)
    requires forall v, e :: lo <= v <= hi && e in f(v) ==> P(e)
    ensures forall e :: e in Loop1(lo, hi, f) ==> P(e)
  {
    forall e | e in Loop1(lo, hi, f) ensures P(e) {
      var v := Loop1Pick(lo, hi, f, e);
    }
  }

  lemma Loop2All<T>(a0: int, a1: int, b0: int, b1: int, f: (int, int) -> seq<T>, P: T -> bool)
    requires forall a, b, e :: a0 <= a <= a1 && b0 <= b <= b1 && e in f(a, b) ==> P(e)
    ensures forall e :: e in Loop2(a0, a1, b0, b1, f) ==> P(e)
  {
    forall e | e in Loop2(a0, a1, b0, b1, f) ensures P(e) {
      var a, b := Loop2Pick(a0, a1, b0, b1, f, e);
    }
  }

  lemma Loop3All<T>(a0: int, a1: int, b0: int, b1: int, c0: int, c1: int,
                    f: (int, int, int) -> seq<T>, P: T -> bool)
    requires forall a, b, c, e :: a0 <= a <= a1 && b0 <= b <= b1 && c0 <= c <= c1 && e in f(a, b, c) ==> P(e)
    ensures forall e :: e in Loop3(a0, a1, b0, b1, c0, c1, f) ==> P(e)
  {
    forall e | e in Loop3(a0, a1, b0, b1, c0, c1, f) ensures P(e) {
      var a, b, c := Loop3Pick(a0, a1, b0, b1, c0, c1, f, e);
    }
  }

  // ---------------------------------------------------------------------
  // How many elements a nest emits

  lemma MulSucc(t: nat, r: int)
    ensures (t + 1) * r == r + t * r
  {
  }

  lemma {:induction false} Loop1Len<T>(lo: int, hi: int, f: int -> seq<T>, n: nat)
    requires forall v :: lo <= v <= hi ==> |f(v)| == n
    ensures |Loop1(lo, hi, f)| == Trips(lo, hi) * n
    decreases Trips(lo, hi)
  {
    if lo <= hi {
      Loop1Len(lo + 1, hi, f, n);
      MulSucc(Trips(lo + 1, hi), n);
    }
  }

  lemma {:induction false} Row2Len<T>(a: int, b0: int, b1: int, f: (int, int) -> seq<T>, n: nat)
    requires forall b :: b0 <= b <= b1 ==> |f(a, b)| == n
    ensures |Row2(a, b0, b1, f)| == Trips(b0, b1) * n
    decreases Trips(b0, b1)
  {
    if b0 <= b1 {
      Row2Len(a, b0 + 1, b1, f, n);
      MulSucc(Trips(b0 + 1, b1), n);
    }
  }

  lemma {:induction false} Loop2Len<T>(a0: int, a1: int, b0: int, b1: int, f: (int, int) -> seq<T>, n: nat)
    requires forall a, b :: a0 <= a <= a1 && b0 <= b <= b1 ==> |f(a, b)| == n
    ensures |Loop2(a0, a1, b0, b1, f)| == Trips(a0, a1) * (Trips(b0, b1) * n)
    decreases Trips(a0, a1)
  {
    if a0 <= a1 {
      Row2Len(a0, b0, b1, f, n);
      Loop2Len(a0 + 1, a1, b0, b1, f, n);
      var r := Trips(b0, b1) * n;
      MulSucc(Trips(a0 + 1, a1), r);
    }
  }

  lemma {:induction false} Row3Len<T>(a: int, b: int, c0: int, c1: int, f: (int, int, int) -> seq<T>, n: nat)
    requires forall c :: c0 <= c <= c1 ==> |f(a, b, c)| == n
    ensures |Row3(a, b, c0, c1, f)| == Trips(c0, c1) * n
    decreases Trips(c0, c1)
  {
    if c0 <= c1 {
      Row3Len(a, b, c0 + 1, c1, f, n);
      MulSucc(Trips(c0 + 1, c1), n);
    }
  }

  lemma {:induction false} Plane3Len<T>(a: int, b0: int, b1: int, c0: int, c1: int,
                                        f: (int, int, int) -> seq<T>, n: nat)
    requires forall b, c :: b0 <= b <= b1 && c0 <= c <= c1 ==> |f(a, b, c)| == n
    ensures |Plane3(a, b0, b1, c0, c1, f)| == Trips(b0, b1) * (Trips(c0, c1) * n)
    decreases Trips(b0, b1)
  {
    if b0 <= b1 {
      Row3Len(a, b0, c0, c1, f, n);
      Plane3Len(a, b0 + 1, b1, c0, c1, f, n);
      var r := Trips(c0, c1) * n;
      MulSucc(Trips(b0 + 1, b1), r);
    }
  }

  lemma {:induction false} Loop3Len<T>(a0: int, a1: int, b0: int, b1: int, c0: int, c1: int,
                                       f: (int, int, int) -> seq<T>, n: nat)
    requires forall a, b, c :: a0 <= a <= a1 && b0 <= b <= b1 && c0 <= c <= c1 ==> |f(a, b, c)| == n
    ensures |Loop3(a0, a1, b0, b1, c0, c1, f)| == Trips(a0, a1) * (Trips(b0, b1) * (Trips(c0, c1) * n))
    decreases Trips(a0, a1)
  {
    if a0 <= a1 {
      Plane3Len(a0, b0, b1, c0, c1, f, n);
      Loop3Len(a0 + 1, a1, b0, b1, c0, c1, f, n);
      var r := Trips(b0, b1) * (Trips(c0, c1) * n);
      MulSucc(Trips(a0 + 1, a1), r);
    }
  }

  // ---------------------------------------------------------------------
  // Two nests of the same shape, related element by element

  ghost predicate Pairwise<T, U>(xs: seq<T>, ys: seq<U>, rel: (T, U) -> bool)
  {
    |xs| == |ys| && forall t :: 0 <= t < |xs| ==> rel(xs[t], ys[t])
  }

  lemma PairwiseAppend<T, U>(xs: seq<T>, ys: seq<U>, xs': seq<T>, ys': seq<U>, rel: (T, U) -> bool)
    requires Pairwise(xs, ys, rel) && Pairwise(xs', ys', rel)
    ensures Pairwise(xs + xs', ys + ys', rel)
  {
    forall t | 0 <= t < |xs + xs'|
      ensures rel((xs + xs')[t], (ys + ys')[t])
    {
      if t < |xs| {
        assert (xs + xs')[t] == xs[t] && (ys + ys')[t] == ys[t];
      } else {
        assert (xs + xs')[t] == xs'[t - |xs|] && (ys + ys')[t] == ys'[t - |xs|];
      }
    }
  }

  lemma {:induction false} Loop1Pairwise<T, U>(lo: int, hi: int, f: int -> seq<T>, h: int -> seq<U>,
                                               rel: (T, U) -> bool)
    requires forall v :: lo <= v <= hi ==> Pairwise(f(v), h(v), rel)
    ensures Pairwise(Loop1(lo, hi, f), Loop1(lo, hi, h), rel)
    decreases Trips(lo, hi)
  {
    if lo <= hi {
      Loop1Pairwise(lo + 1, hi, f, h, rel);
      PairwiseAppend(f(lo), h(lo), Loop1(lo + 1, hi, f), Loop1(lo + 1, hi, h), rel);
    }
  }

  lemma {:induction false} Row2Pairwise<T, U>(a: int, b0: int, b1: int, f: (int, int) -> seq<T>,
                                              h: (int, int) -> seq<U>, rel: (T, U) -> bool)
    requires forall b :: b0 <= b <= b1 ==> Pairwise(f(a, b), h(a, b), rel)
    ensures Pairwise(Row2(a, b0, b1, f), Row2(a, b0, b1, h), rel)
    decreases Trips(b0, b1)
  {
    if b0 <= b1 {
      Row2Pairwise(a, b0 + 1, b1, f, h, rel);
      PairwiseAppend(f(a, b0), h(a, b0), Row2(a, b0 + 1, b1, f), Row2(a, b0 + 1, b1, h), rel);
    }
  }

  lemma {:induction false} Loop2Pairwise<T, U>(a0: int, a1: int, b0: int, b1: int, f: (int, int) -> seq<T>,
                                               h: (int, int) -> seq<U>, rel: (T, U) -> bool)
    requires forall a, b :: a0 <= a <= a1 && b0 <= b <= b1 ==> Pairwise(f(a, b), h(a, b), rel)
    ensures Pairwise(Loop2(a0, a1, b0, b1, f), Loop2(a0, a1, b0, b1, h), rel)
    decreases Trips(a0, a1)
  {
    if a0 <= a1 {
      Row2Pairwise(a0, b0, b1, f, h, rel);
      Loop2Pairwise(a0 + 1, a1, b0, b1, f, h, rel);
      PairwiseAppend(Row2(a0, b0, b1, f), Row2(a0, b0, b1, h),
                     Loop2(a0 + 1, a1, b0, b1, f), Loop2(a0 + 1, a1, b0, b1, h), rel);
    }
  }

  lemma {:induction false} Row3Pairwise<T, U>(a: int, b: int, c0: int, c1: int, f: (int, int, int) -> seq<T>,
                                              h: (int, int, int) -> seq<U>, rel: (T, U) -> bool)
    requires forall c :: c0 <= c <= c1 ==> Pairwise(f(a, b, c), h(a, b, c), rel)
    ensures Pairwise(Row3(a, b, c0, c1, f), Row3(a, b, c0, c1, h), rel)
    decreases Trips(c0, c1)
  {
    if c0 <= c1 {
      Row3Pairwise(a, b, c0 + 1, c1, f, h, rel);
      PairwiseAppend(f(a, b, c0), h(a, b, c0), Row3(a, b, c0 + 1, c1, f), Row3(a, b, c0 + 1, c1, h), rel);
    }
  }

  lemma {:induction false} Plane3Pairwise<T, U>(a: int, b0: int, b1: int, c0: int, c1: int,
                                                f: (int, int, int) -> seq<T>, h: (int, int, int) -> seq<U>,
                                                rel: (T, U) -> bool)
    requires forall b, c :: b0 <= b <= b1 && c0 <= c <= c1 ==> Pairwise(f(a, b, c), h(a, b, c), rel)
    ensures Pairwise(Plane3(a, b0, b1, c0, c1, f), Plane3(a, b0, b1, c0, c1, h), rel)
    decreases Trips(b0, b1)
  {
    if b0 <= b1 {
      Row3Pairwise(a, b0, c0, c1, f, h, rel);
      Plane3Pairwise(a, b0 + 1, b1, c0, c1, f, h, rel);
      PairwiseAppend(Row3(a, b0, c0, c1, f), Row3(a, b0, c0, c1, h),
                     Plane3(a, b0 + 1, b1, c0, c1, f), Plane3(a, b0 + 1, b1, c0, c1, h), rel);
    }
  }

  lemma {:induction false} Loop3Pairwise<T, U>(a0: int, a1: int, b0: int, b1: int, c0: int, c1: int,
                                               f: (int, int, int) -> seq<T>, h: (int, int, int) -> seq<U>,
                                               rel: (T, U) -> bool)
    requires forall a, b, c :: a0 <= a <= a1 && b0 <= b <= b1 && c0 <= c <= c1 ==>
               Pairwise(f(a, b, c), h(a, b, c), rel)
    ensures Pairwise(Loop3(a0, a1, b0, b1, c0, c1, f), Loop3(a0, a1, b0, b1, c0, c1, h), rel)
    decreases Trips(a0, a1)
  {
    if a0 <= a1 {
      Plane3Pairwise(a0, b0, b1, c0, c1, f, h, rel);
      Loop3Pairwise(a0 + 1, a1, b0, b1, c0, c1, f, h, rel);
      PairwiseAppend(Plane3(a0, b0, b1, c0, c1, f), Plane3(a0, b0, b1, c0, c1, h),
                     Loop3(a0 + 1, a1, b0, b1, c0, c1, f), Loop3(a0 + 1, a1, b0, b1, c0, c1, h), rel);
    }
  }

  // ---------------------------------------------------------------------
  // A pass: loop nests run one after the other

  /** One loop nest of a pass, or `Skip` for a nest an `if` leaves out. */
  datatype Nest<T> =
    | Nest2(a0: int, a1: int, b0: int, b1: int, f2: (int, int) -> seq<T>)
    | Nest3(a0: int, a1: int, b0: int, b1: int, c0: int, c1: int, f3: (int, int, int) -> seq<T>)
    | Skip

  function Emit<T>(n: Nest<T>): seq<T>
  {
    match n
    case Nest2(a0, a1, b0, b1, f) => Loop2(a0, a1, b0, b1, f)
    case Nest3(a0, a1, b0, b1, c0, c1, f) => Loop3(a0, a1, b0, b1, c0, c1, f)
    case Skip => []
  }

  /** What the nests `ns` emit, run in order. */
  function Run<T>(ns: seq<Nest<T>>): seq<T>
    decreases |ns|
  {
    if |ns| == 0 then [] else Emit(ns[0]) + Run(ns[1..])
  }

  /** Four nests emit as many elements as their bodies together. */
  lemma RunLen4<T>(ns: seq<Nest<T>>)
    requires |ns| == 4
    ensures |Run(ns)| == |Emit(ns[0])| + |Emit(ns[1])| + |Emit(ns[2])| + |Emit(ns[3])|
  {
    var r1 := ns[1..];
    var r2 := r1[1..];
    var r3 := r2[1..];
    assert Run(r3) == Emit(r3[0]) + Run(r3[1..]);
    assert Run(r2) == Emit(r2[0]) + Run(r3);
    assert Run(r1) == Emit(r1[0]) + Run(r2);
  }

  /** Every element of every body the nest runs has `P`. */
  ghost predicate NestAll<T>(n: Nest<T>, P: T -> bool)
  {
    match n
    case Nest2(a0, a1, b0, b1, f) =>
      forall a, b, e :: a0 <= a <= a1 && b0 <= b <= b1 && e in f(a, b) ==> P(e)
    case Nest3(a0, a1, b0, b1, c0, c1, f) =>
      forall a, b, c, e :: a0 <= a <= a1 && b0 <= b <= b1 && c0 <= c <= c1 && e in f(a, b, c) ==> P(e)
    case Skip => true
  }

  lemma {:induction false} RunAll<T>(ns: seq<Nest<T>>, P: T -> bool)
    requires forall i :: 0 <= i < |ns| ==> NestAll(ns[i], P)
    ensures forall e :: e in Run(ns) ==> P(e)
    decreases |ns|
  {
    if |ns| > 0 {
      match ns[0] {
        case Nest2(a0, a1, b0, b1, f) => Loop2All(a0, a1, b0, b1, f, P);
        case Nest3(a0, a1, b0, b1, c0, c1, f) => Loop3All(a0, a1, b0, b1, c0, c1, f, P);
        case Skip =>
      }
      assert forall i :: 0 <= i < |ns[1..]| ==> ns[1..][i] == ns[i + 1];
      RunAll(ns[1..], P);
    }
  }

  /** What nest `i` emits, the pass emits. */
  lemma {:induction false} RunHas<T>(ns: seq<Nest<T>>, i: int, e: T)
    requires 0 <= i < |ns| && e in Emit(ns[i])
    ensures e in Run(ns)
    decreases |ns|
  {
    assert Run(ns) == Emit(ns[0]) + Run(ns[1..]);
    if i > 0 {
      assert ns[1..][i - 1] == ns[i];
      RunHas(ns[1..], i - 1, e);
    }
  }

  /** An element of a two-deep nest's body at in-range indices is emitted. */
  lemma RunHas2<T>(ns: seq<Nest<T>>, i: int, a: int, b: int, e: T)
    requires 0 <= i < |ns| && ns[i].Nest2?
    requires ns[i].a0 <= a <= ns[i].a1 && ns[i].b0 <= b <= ns[i].b1 && e in ns[i].f2(a, b)
    ensures e in Run(ns)
  {
    var n := ns[i];
    Loop2Cover(n.a0, n.a1, n.b0, n.b1, n.f2, a, b, e);
    RunHas(ns, i, e);
  }

  /** An element of a three-deep nest's body at in-range indices is emitted. */
  lemma RunHas3<T>(ns: seq<Nest<T>>, i: int, a: int, b: int, c: int, e: T)
    requires 0 <= i < |ns| && ns[i].Nest3?
    requires ns[i].a0 <= a <= ns[i].a1 && ns[i].b0 <= b <= ns[i].b1 && ns[i].c0 <= c <= ns[i].c1
    requires e in ns[i].f3(a, b, c)
    ensures e in Run(ns)
  {
    var n := ns[i];
    Loop3Cover(n.a0, n.a1, n.b0, n.b1, n.c0, n.c1, n.f3, a, b, c, e);
    RunHas(ns, i, e);
  }

  /** Two nests of the same shape whose bodies are related pairwise. */
  ghost predicate NestPairwise<T, U>(n: Nest<T>, o: Nest<U>, rel: (T, U) -> bool)
  {
    match n
    case Nest2(a0, a1, b0, b1, f) =>
      o.Nest2? && o.a0 == a0 && o.a1 == a1 && o.b0 == b0 && o.b1 == b1 &&
      forall a, b :: a0 <= a <= a1 && b0 <= b <= b1 ==> Pairwise(f(a, b), o.f2(a, b), rel)
    case Nest3(a0, a1, b0, b1, c0, c1, f) =>
      o.Nest3? && o.a0 == a0 && o.a1 == a1 && o.b0 == b0 && o.b1 == b1 && o.c0 == c0 && o.c1 == c1 &&
      forall a, b, c :: a0 <= a <= a1 && b0 <= b <= b1 && c0 <= c <= c1 ==> Pairwise(f(a, b, c), o.f3(a, b, c), rel)
    case Skip => o.Skip?
  }

  lemma {:induction false} RunPairwise<T, U>(ns: seq<Nest<T>>, os: seq<Nest<U>>, rel: (T, U) -> bool)
    requires |ns| == |os| && forall i :: 0 <= i < |ns| ==> NestPairwise(ns[i], os[i], rel)
    ensures Pairwise(Run(ns), Run(os), rel)
    decreases |ns|
  {
    if |ns| > 0 {
      match ns[0] {
        case Nest2(a0, a1, b0, b1, f) => Loop2Pairwise(a0, a1, b0, b1, f, os[0].f2, rel);
        case Nest3(a0, a1, b0, b1, c0, c1, f) => Loop3Pairwise(a0, a1, b0, b1, c0, c1, f, os[0].f3, rel);
        case Skip =>
      }
      assert forall i :: 0 <= i < |ns| - 1 ==> ns[1..][i] == ns[i + 1] && os[1..][i] == os[i + 1];
      RunPairwise(ns[1..], os[1..], rel);
      PairwiseAppend(Emit(ns[0]), Emit(os[0]), Run(ns[1..]), Run(os[1..]), rel);
    }
  }
}
