/** Datatypes and sequence facts shared by the models. */
module Common {

  datatype Option<+T> = None | Some(value: T)

  datatype Result<+T, +E> = Ok(value: T) | Err(error: E)

  const U64_MAX: nat := 0xFFFF_FFFF_FFFF_FFFF

  function SaturatingSucc(n: nat): (r: nat)
    ensures n < U64_MAX ==> r == n + 1
    ensures n >= U64_MAX ==> r == U64_MAX
  {
    if n < U64_MAX then n + 1 else U64_MAX
  }

  function OrElse<T>(first: Option<T>, second: Option<T>): (r: Option<T>)
    ensures first.Some? ==> r == first
    ensures first.None? ==> r == second
  {
    if first.Some? then first else second
  }

  /** The elements satisfying `p`, in order; built from the right so that it follows a loop that appends. */
  function Filter<T>(xs: seq<T>, p: T -> bool): (r: seq<T>)
    ensures |r| <= |xs|
  {
    if xs == [] then []
    else
      var last := xs[|xs| - 1];
      var init := Filter(xs[..|xs| - 1], p);
      if p(last) then init + [last] else init
  }

  lemma {:induction false} FilterMembers<T(!new)>(xs: seq<T>, p: T -> bool)
    ensures forall x :: x in Filter(xs, p) <==> x in xs && p(x)
  {
    if xs != [] {
      SplitLast(xs);
      FilterMembers(xs[..|xs| - 1], p);
    }
  }

  lemma FilterSnoc<T>(xs: seq<T>, x: T, p: T -> bool)
    ensures Filter(xs + [x], p) == Filter(xs, p) + (if p(x) then [x] else [])
  {
    assert (xs + [x])[..|xs|] == xs;
  }

  lemma {:induction false} FilterConcat<T>(xs: seq<T>, ys: seq<T>, p: T -> bool)
    ensures Filter(xs + ys, p) == Filter(xs, p) + Filter(ys, p)
  {
    if ys == [] {
      assert xs + ys == xs;
    } else {
      var init, last := ys[..|ys| - 1], ys[|ys| - 1];
      FilterConcat(xs, init, p);
      assert xs + ys == (xs + init) + [last] && ys == init + [last];
      FilterSnoc(xs + init, last, p);
      FilterSnoc(init, last, p);
      Regroup(Filter(xs, p), Filter(init, p), if p(last) then [last] else []);
    }
  }

  lemma {:induction false} FilterFilter<T(!new)>(xs: seq<T>, p: T -> bool, q: T -> bool, both: T -> bool)
    requires forall x :: x in xs ==> (both(x) <==> p(x) && q(x))
    ensures Filter(Filter(xs, p), q) == Filter(xs, both)
  {
    if xs != [] {
      var init, last := xs[..|xs| - 1], xs[|xs| - 1];
      FilterFilter(init, p, q, both);
      assert last in xs;
      if p(last) {
        FilterSnoc(Filter(init, p), last, q);
      }
    }
  }

  lemma SplitHead<T>(xs: seq<T>, ys: seq<T>)
    requires xs != []
    ensures xs == [xs[0]] + xs[1..]
    ensures xs + ys == [xs[0]] + (xs[1..] + ys)
    ensures (xs + ys)[1..] == xs[1..] + ys
  {
  }

  lemma SplitLast<T>(xs: seq<T>)
    requires xs != []
    ensures xs == xs[..|xs| - 1] + [xs[|xs| - 1]]
  {
  }

  lemma Regroup<T>(xs: seq<T>, ys: seq<T>, zs: seq<T>)
    ensures xs + ys + zs == xs + (ys + zs)
  {
  }

  function Map<A, B>(f: A -> B, xs: seq<A>): (r: seq<B>)
    ensures |r| == |xs| && forall i :: 0 <= i < |xs| ==> r[i] == f(xs[i])
  {
    seq(|xs|, i requires 0 <= i < |xs| => f(xs[i]))
  }

  /** First present value, scanning left to right. */
  function FirstSome<T>(xs: seq<Option<T>>): Option<T> {
    if xs == [] then None
    else OrElse(FirstSome(xs[..|xs| - 1]), xs[|xs| - 1])
  }

  /** Last present value. */
  function LastSome<T>(xs: seq<Option<T>>): Option<T> {
    if xs == [] then None
    else OrElse(xs[|xs| - 1], LastSome(xs[..|xs| - 1]))
  }

  lemma MapSnoc<A, B>(f: A -> B, xs: seq<A>, x: A)
    ensures Map(f, xs + [x]) == Map(f, xs) + [f(x)]
  {
  }

  lemma FirstSomeSnoc<T>(xs: seq<Option<T>>, x: Option<T>)
    ensures FirstSome(xs + [x]) == OrElse(FirstSome(xs), x)
    ensures LastSome(xs + [x]) == OrElse(x, LastSome(xs))
  {
    assert (xs + [x])[..|xs|] == xs;
  }

  lemma SummarizedSnoc<A, B>(f: A -> Option<B>, xs: seq<A>, x: A)
    ensures FirstSome(Map(f, xs + [x])) == OrElse(FirstSome(Map(f, xs)), f(x))
    ensures LastSome(Map(f, xs + [x])) == OrElse(f(x), LastSome(Map(f, xs)))
  {
    MapSnoc(f, xs, x);
    FirstSomeSnoc(Map(f, xs), f(x));
  }

  lemma SummarizedOne<A, B>(f: A -> Option<B>, x: A)
    ensures FirstSome(Map(f, [x])) == f(x) == LastSome(Map(f, [x]))
  {
    SummarizedSnoc(f, [], x);
    assert [] + [x] == [x];
    assert FirstSome<B>(Map(f, [])) == None == LastSome<B>(Map(f, []));
  }

  /** Scanning from the left stops at the first present value. */
  lemma {:induction false} FirstSomeIsFirst<T>(xs: seq<Option<T>>)
    ensures var r := FirstSome(xs);
            if r.Some? then exists k :: 0 <= k < |xs| && xs[k] == r && forall j :: 0 <= j < k ==> xs[j].None?
            else forall j :: 0 <= j < |xs| ==> xs[j].None?
  {
    if xs != [] {
      var init := xs[..|xs| - 1];
      FirstSomeIsFirst(init);
      if k :| 0 <= k < |init| && init[k] == FirstSome(init) && forall j :: 0 <= j < k ==> init[j].None? {
        assert xs[k] == init[k] && forall j :: 0 <= j < k ==> xs[j] == init[j];
      }
    }
  }

  /** Scanning from the right stops at the last. */
  lemma {:induction false} LastSomeIsLast<T>(xs: seq<Option<T>>)
    ensures var r := LastSome(xs);
            if r.Some? then exists k :: 0 <= k < |xs| && xs[k] == r && forall j :: k < j < |xs| ==> xs[j].None?
            else forall j :: 0 <= j < |xs| ==> xs[j].None?
  {
    if xs != [] {
      var init := xs[..|xs| - 1];
      LastSomeIsLast(init);
      if k :| 0 <= k < |init| && init[k] == LastSome(init) && forall j :: k < j < |init| ==> init[j].None? {
        assert xs[k] == init[k] && forall j :: k < j < |init| ==> xs[j] == init[j];
      }
    }
  }
}
