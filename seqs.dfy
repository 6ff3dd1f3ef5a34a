/**
 The sequence operations the relay relies on. A JavaScript `Set` iterates in
 insertion order and holds no value twice, so a room's membership is a
 duplicate-free sequence; `Array.prototype.filter` becomes `Without`.
 */
module Seqs {

  /** No value occurs twice in `xs`. */
  predicate NoDup<T(==)>(xs: seq<T>) {
    forall i, j | 0 <= i < j < |xs| :: xs[i] != xs[j]
  }

  /** `Set.prototype.add`: appends `x` at the end unless it is already present. */
  function Add<T(==)>(xs: seq<T>, x: T): (r: seq<T>)
    ensures x in r
    ensures forall y | y in r :: y in xs || y == x
    ensures forall y | y in xs :: y in r
    ensures xs <= r
    ensures NoDup(xs) ==> NoDup(r)
  {
    if x in xs then xs else xs + [x]
  }

  /** `xs.filter(y => y !== x)`: every element except `x`, in the original order. */
  function Without<T(==)>(xs: seq<T>, x: T): (r: seq<T>)
    ensures |r| <= |xs|
    ensures forall y | y in r :: y in xs && y != x
    ensures forall y | y in xs && y != x :: y in r
  {
    if xs == [] then []
    else (if xs[0] == x then [] else [xs[0]]) + Without(xs[1..], x)
  }

  /**
   `xs` without every value that occurs in `ys`, in the original order: a
   broadcast that skips the sockets of an excluded room.
   */
  function Minus<T(==)>(xs: seq<T>, ys: seq<T>): (r: seq<T>)
    ensures |r| <= |xs|
    ensures forall y | y in r :: y in xs && y !in ys
    ensures forall y | y in xs && y !in ys :: y in r
  {
    if xs == [] then []
    else (if xs[0] in ys then [] else [xs[0]]) + Minus(xs[1..], ys)
  }

  /** The number of times `y` occurs in `xs`. */
  function Count<T(==)>(xs: seq<T>, y: T): (n: nat)
    ensures n <= |xs|
    ensures n > 0 <==> y in xs
  {
    if xs == [] then 0
    else (if xs[0] == y then 1 else 0) + Count(xs[1..], y)
  }

  lemma NoDupTail<T>(xs: seq<T>)
    requires xs != [] && NoDup(xs)
    ensures NoDup(xs[1..]) && xs[0] !in xs[1..]
  {
  }

  lemma NoDupCons<T>(x: T, xs: seq<T>)
    requires NoDup(xs) && x !in xs
    ensures NoDup([x] + xs)
  {
  }

  /** Filtering out an absent value changes nothing. */
  lemma {:induction false} WithoutAbsent<T>(xs: seq<T>, x: T)
    requires x !in xs
    ensures Without(xs, x) == xs
  {
    if xs != [] {
      assert xs[0] != x;
      WithoutAbsent(xs[1..], x);
      assert [xs[0]] + xs[1..] == xs;
    }
  }

  /** Filtering distributes over concatenation, so it keeps relative order. */
  lemma {:induction false} WithoutAppend<T>(xs: seq<T>, ys: seq<T>, x: T)
    ensures Without(xs + ys, x) == Without(xs, x) + Without(ys, x)
  {
    if xs == [] {
      assert xs + ys == ys;
    } else {
      assert (xs + ys)[0] == xs[0];
      assert (xs + ys)[1..] == xs[1..] + ys;
      WithoutAppend(xs[1..], ys, x);
    }
  }

  /** Adding `x` and then filtering `x` out gives the filtered original back. */
  lemma WithoutAdd<T>(xs: seq<T>, x: T)
    ensures Without(Add(xs, x), x) == Without(xs, x)
  {
    if x !in xs {
      WithoutAppend(xs, [x], x);
      assert Without([x], x) == [] + Without([x][1..], x);
    }
  }

  /** Filtering keeps a sequence free of duplicates. */
  lemma {:induction false} WithoutNoDup<T>(xs: seq<T>, x: T)
    requires NoDup(xs)
    ensures NoDup(Without(xs, x))
  {
    if xs != [] {
      NoDupTail(xs);
      WithoutNoDup(xs[1..], x);
      if xs[0] != x {
        NoDupCons(xs[0], Without(xs[1..], x));
      } else {
        assert Without(xs, x) == [] + Without(xs[1..], x);
      }
    }
  }

  /** In a duplicate-free sequence every value occurs at most once. */
  lemma {:induction false} CountNoDup<T>(xs: seq<T>, y: T)
    requires NoDup(xs)
    ensures Count(xs, y) == if y in xs then 1 else 0
  {
    if xs != [] {
      NoDupTail(xs);
      CountNoDup(xs[1..], y);
    }
  }

  /** Excluding nothing keeps the sequence as it is, order included. */
  lemma {:induction false} MinusNothing<T>(xs: seq<T>)
    ensures Minus(xs, []) == xs
  {
    if xs != [] {
      MinusNothing(xs[1..]);
      assert [xs[0]] + xs[1..] == xs;
    }
  }

  /** Excluding values keeps a sequence free of duplicates. */
  lemma {:induction false} MinusNoDup<T>(xs: seq<T>, ys: seq<T>)
    requires NoDup(xs)
    ensures NoDup(Minus(xs, ys))
  {
    if xs != [] {
      NoDupTail(xs);
      MinusNoDup(xs[1..], ys);
      if xs[0] !in ys {
        NoDupCons(xs[0], Minus(xs[1..], ys));
      } else {
        assert Minus(xs, ys) == [] + Minus(xs[1..], ys);
      }
    }
  }
}
