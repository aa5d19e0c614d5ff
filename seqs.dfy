/** `Array.prototype.map`, `Array.prototype.filter` and `join("")` on sequences,
    with the facts that pin them down: `map` is pointwise, `filter` keeps exactly
    the elements that satisfy the predicate, in their original order, and joining
    a concatenation joins each part. */
module Seqs {

  /** `xs.map(f)`. */
  function Map<T, U>(f: T -> U, xs: seq<T>): (r: seq<U>)
    ensures |r| == |xs|
  {
    if |xs| == 0 then [] else [f(xs[0])] + Map(f, xs[1..])
  }

  /** `map` is pointwise: the i-th result is `f` of the i-th element. */
  lemma {:induction false} MapIndex<T, U>(f: T -> U, xs: seq<T>)
    ensures forall i :: 0 <= i < |xs| ==> Map(f, xs)[i] == f(xs[i])
  {
    if |xs| > 0 {
      MapIndex(f, xs[1..]);
    }
  }

  /** Mapping a function every element is a fixed point of leaves the sequence alone. */
  lemma {:induction false} MapFixpoint<T>(f: T -> T, xs: seq<T>)
    requires forall i :: 0 <= i < |xs| ==> f(xs[i]) == xs[i]
    ensures Map(f, xs) == xs
  {
    if |xs| > 0 {
      MapFixpoint(f, xs[1..]);
      assert xs == [xs[0]] + xs[1..];
    }
  }

  /** `xs.filter(p)`. */
  function Filter<T>(p: T -> bool, xs: seq<T>): (r: seq<T>)
    ensures |r| <= |xs|
  {
    if |xs| == 0 then []
    else if p(xs[0]) then [xs[0]] + Filter(p, xs[1..])
    else Filter(p, xs[1..])
  }

  /** The filter keeps exactly the elements that satisfy the predicate. */
  lemma {:induction false} FilterMembers<T>(p: T -> bool, xs: seq<T>)
    ensures forall i :: 0 <= i < |Filter(p, xs)| ==> p(Filter(p, xs)[i]) && Filter(p, xs)[i] in xs
    ensures forall x :: x in xs && p(x) ==> x in Filter(p, xs)
  {
    if |xs| > 0 {
      FilterMembers(p, xs[1..]);
    }
  }

  /** The number of elements of `xs` that satisfy `p`. */
  function Count<T>(p: T -> bool, xs: seq<T>): nat {
    if |xs| == 0 then 0 else (if p(xs[0]) then 1 else 0) + Count(p, xs[1..])
  }

  /** Mapping a concatenation maps each part. */
  lemma {:induction false} MapConcat<T, U>(f: T -> U, a: seq<T>, b: seq<T>)
    ensures Map(f, a + b) == Map(f, a) + Map(f, b)
  {
    if |a| == 0 {
      assert a + b == b;
    } else {
      assert (a + b)[0] == a[0];
      assert (a + b)[1..] == a[1..] + b;
      MapConcat(f, a[1..], b);
    }
  }

  /** Filtering a concatenation filters each part and keeps them in order; with
      FilterOne this determines `Filter` completely. */
  lemma {:induction false} FilterConcat<T>(p: T -> bool, a: seq<T>, b: seq<T>)
    ensures Filter(p, a + b) == Filter(p, a) + Filter(p, b)
  {
    if |a| == 0 {
      assert a + b == b;
    } else {
      assert (a + b)[0] == a[0];
      assert (a + b)[1..] == a[1..] + b;
      FilterConcat(p, a[1..], b);
    }
  }

  lemma FilterOne<T>(p: T -> bool, x: T)
    ensures Filter(p, [x]) == if p(x) then [x] else []
  {
  }

  /** The filter keeps as many elements as satisfy the predicate. */
  lemma {:induction false} FilterLength<T>(p: T -> bool, xs: seq<T>)
    ensures |Filter(p, xs)| == Count(p, xs)
  {
    if |xs| > 0 {
      FilterLength(p, xs[1..]);
    }
  }

  /** The filter keeps everything when every element satisfies the predicate. */
  lemma {:induction false} FilterKeepsAll<T>(p: T -> bool, xs: seq<T>)
    requires forall i :: 0 <= i < |xs| ==> p(xs[i])
    ensures Filter(p, xs) == xs
  {
    if |xs| > 0 {
      FilterKeepsAll(p, xs[1..]);
      assert xs == [xs[0]] + xs[1..];
    }
  }

  /** `xss.join("")`: the pieces one after another. */
  function Concat<T>(xss: seq<seq<T>>): (r: seq<T>)
    ensures |xss| == 0 ==> r == []
  {
    if |xss| == 0 then [] else xss[0] + Concat(xss[1..])
  }

  /** Joining a concatenation of lists of pieces joins each list. */
  lemma {:induction false} ConcatAppend<T>(a: seq<seq<T>>, b: seq<seq<T>>)
    ensures Concat(a + b) == Concat(a) + Concat(b)
  {
    if |a| == 0 {
      assert a + b == b;
    } else {
      assert (a + b)[0] == a[0];
      assert (a + b)[1..] == a[1..] + b;
      ConcatAppend(a[1..], b);
    }
  }
}
