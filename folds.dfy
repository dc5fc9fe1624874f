/**
 * The loop shape the extractors share: walk a list in order, let each element
 * contribute at most one output item, and stop at the first exception.
 */
module Folds {
  import opened Results

  /** The items `f` makes of `xs`, in order; the first failing element fails the whole walk. */
  function Collect<S, T>(xs: seq<S>, f: S -> Result<Option<T>>): (r: Result<seq<T>>)
    ensures r.Ok? ==> |r.value| <= |xs|
  {
    if xs == [] then Ok([])
    else
      var init :- Collect(xs[..|xs| - 1], f);
      var item :- f(xs[|xs| - 1]);
      match item
      case None => Ok(init)
      case Some(t) => Ok(init + [t])
  }

  /** The elements of `xs` that satisfy `keep`, in order. */
  function Filter<S>(xs: seq<S>, keep: S -> bool): (r: seq<S>)
    ensures |r| <= |xs|
    ensures forall k :: 0 <= k < |r| ==> keep(r[k])
    ensures forall k :: 0 <= k < |r| ==> r[k] in xs
  {
    if xs == [] then []
    else
      var init := Filter(xs[..|xs| - 1], keep);
      var last := xs[|xs| - 1];
      if keep(last) then init + [last] else init
  }

  /** A non-empty tail splits off its last element. */
  lemma AppendSnoc<T>(p: seq<T>, q: seq<T>)
    requires q != []
    ensures p + q == (p + q[..|q| - 1]) + [q[|q| - 1]]
  {
  }

  lemma AppendAssoc<T>(a: seq<T>, b: seq<T>, c: seq<T>)
    ensures (a + b) + c == a + (b + c)
  {
  }

  lemma AppendNil<T>(a: seq<T>)
    ensures a + [] == a
  {
  }

  /** The prefix one longer ends with the next element. */
  lemma PrefixStep<T>(xs: seq<T>, i: nat)
    requires i < |xs|
    ensures xs[..i + 1][..i] == xs[..i] && xs[..i + 1][i] == xs[i]
    ensures xs[..i + 1] == xs[..i] + [xs[i]]
  {
  }

  /** The part of a prefix from `lo` on, and the rest of the list from `lo` on. */
  lemma SliceSplit<T>(xs: seq<T>, lo: nat, i: nat)
    requires lo <= i <= |xs|
    ensures xs[..i][lo..] == xs[lo..i] && xs[lo..] == xs[lo..i] + xs[i..]
  {
  }

  /** A list is its prefix followed by the rest. */
  lemma SplitAt<T>(xs: seq<T>, i: nat)
    requires i <= |xs|
    ensures xs[..i] + xs[i..] == xs && xs[..|xs|] == xs
  {
  }

  /** One more step of the walk. */
  lemma CollectStep<S, T>(xs: seq<S>, i: nat, f: S -> Result<Option<T>>)
    requires i < |xs|
    ensures Collect(xs[..i + 1], f) ==
      match Collect(xs[..i], f)
      case Err(e) => Err(e)
      case Ok(init) =>
        match f(xs[i])
        case Err(e) => Err(e)
        case Ok(None) => Ok(init)
        case Ok(Some(t)) => Ok(init + [t])
  {
    assert xs[..i + 1][..i] == xs[..i];
  }

  /** One more step of the walk over a slice. */
  lemma CollectSliceStep<S, T>(xs: seq<S>, lo: nat, hi: nat, f: S -> Result<Option<T>>)
    requires lo <= hi < |xs|
    ensures Collect(xs[lo..hi + 1], f) ==
      match Collect(xs[lo..hi], f)
      case Err(e) => Err(e)
      case Ok(init) =>
        match f(xs[hi])
        case Err(e) => Err(e)
        case Ok(None) => Ok(init)
        case Ok(Some(t)) => Ok(init + [t])
  {
    var s := xs[lo..hi + 1];
    assert s[..|s| - 1] == xs[lo..hi];
    assert s[|s| - 1] == xs[hi];
  }

  /** Two elements that each give an item give the two items, in order. */
  lemma CollectPair<S, T>(x: S, y: S, f: S -> Result<Option<T>>, a: T, b: T)
    requires f(x) == Ok(Some(a)) && f(y) == Ok(Some(b))
    ensures Collect([x, y], f) == Ok([a, b])
  {
    assert [x, y][..1] == [x];
    assert [x][..0] == [];
    assert Collect([x][..0], f) == Ok([]);
    assert [x][|[x]| - 1] == x;
    assert [] + [a] == [a];
    assert Collect([x], f) == Ok([a]);
    assert [x, y][|[x, y]| - 1] == y;
    assert [a] + [b] == [a, b];
  }

  /** Once an element has failed, the rest of the list does not matter. */
  lemma {:induction false} CollectKeepsError<S, T>(a: seq<S>, b: seq<S>, f: S -> Result<Option<T>>)
    requires Collect(a, f).Err?
    ensures Collect(a + b, f) == Collect(a, f)
  {
    if b == [] {
      assert a + b == a;
    } else {
      var b' := b[..|b| - 1];
      assert (a + b)[..|a + b| - 1] == a + b';
      CollectKeepsError(a, b', f);
    }
  }

  /** Two runs that both succeed give their two lists, joined. */
  lemma {:induction false} CollectAppend<S, T>(a: seq<S>, b: seq<S>, f: S -> Result<Option<T>>)
    requires Collect(a, f).Ok? && Collect(b, f).Ok?
    ensures Collect(a + b, f) == Ok(Collect(a, f).value + Collect(b, f).value)
  {
    if b == [] {
      assert a + b == a;
      assert Collect(a, f).value + [] == Collect(a, f).value;
    } else {
      var b' := b[..|b| - 1];
      assert (a + b)[..|a + b| - 1] == a + b';
      assert (a + b)[|a + b| - 1] == b[|b| - 1];
      assert Collect(b', f).Ok?;
      CollectAppend(a, b', f);
      var x, y := Collect(a, f).value, Collect(b', f).value;
      match f(b[|b| - 1])
      case Ok(Some(t)) => assert x + y + [t] == x + (y + [t]);
      case Ok(None) =>
      case Err(_) =>
    }
  }

  /**
   * A walk that succeeds has one item per element `keep` accepts, where `keep`
   * tells the elements that contribute from those that contribute nothing; the
   * k-th item is what `f` makes of the k-th accepted element.
   */
  lemma {:induction false} CollectFollows<S, T>(xs: seq<S>, f: S -> Result<Option<T>>, keep: S -> bool)
    requires Collect(xs, f).Ok?
    requires forall k :: 0 <= k < |xs| ==> (f(xs[k]) == Ok(None) <==> !keep(xs[k]))
    ensures |Collect(xs, f).value| == |Filter(xs, keep)|
    ensures forall k :: 0 <= k < |Filter(xs, keep)| ==> f(Filter(xs, keep)[k]) == Ok(Some(Collect(xs, f).value[k]))
  {
    if xs != [] {
      var init := xs[..|xs| - 1];
      assert forall k :: 0 <= k < |init| ==> init[k] == xs[k];
      CollectFollows(init, f, keep);
    }
  }

  /** A walk whose elements never fail succeeds. */
  lemma {:induction false} CollectTotal<S, T>(xs: seq<S>, f: S -> Result<Option<T>>)
    requires forall k :: 0 <= k < |xs| ==> f(xs[k]).Ok?
    ensures Collect(xs, f).Ok?
  {
    if xs != [] {
      var init := xs[..|xs| - 1];
      assert forall k :: 0 <= k < |init| ==> init[k] == xs[k];
      CollectTotal(init, f);
    }
  }

  /** A walk that carries a state: `step` updates it with each element, and the first exception ends the walk. */
  function FoldSteps<S, A>(xs: seq<S>, init: A, step: (A, S) -> Result<A>): Result<A> {
    if xs == [] then Ok(init)
    else
      var a :- FoldSteps(xs[..|xs| - 1], init, step);
      step(a, xs[|xs| - 1])
  }

  /** One more step of a stateful walk. */
  lemma FoldStep<S, A>(xs: seq<S>, i: nat, init: A, step: (A, S) -> Result<A>)
    requires i < |xs|
    ensures FoldSteps(xs[..i + 1], init, step) ==
      match FoldSteps(xs[..i], init, step)
      case Err(e) => Err(e)
      case Ok(a) => step(a, xs[i])
  {
    assert xs[..i + 1][..i] == xs[..i];
  }

  /** Once a stateful walk has failed, the rest of the list does not matter. */
  lemma {:induction false} FoldKeepsError<S, A>(a: seq<S>, b: seq<S>, init: A, step: (A, S) -> Result<A>)
    requires FoldSteps(a, init, step).Err?
    ensures FoldSteps(a + b, init, step) == FoldSteps(a, init, step)
  {
    if b == [] {
      assert a + b == a;
    } else {
      var b' := b[..|b| - 1];
      assert (a + b)[..|a + b| - 1] == a + b';
      FoldKeepsError(a, b', init, step);
    }
  }

  /** The position of the first element satisfying `p`, or the length when there is none. */
  function FirstWhere<T>(xs: seq<T>, p: T -> bool): (k: nat)
    ensures k <= |xs|
    ensures k < |xs| ==> p(xs[k])
  {
    if xs == [] || p(xs[0]) then 0 else 1 + FirstWhere(xs[1..], p)
  }

  /** No element before the first match satisfies `p`. */
  lemma {:induction false} BeforeFirst<T>(xs: seq<T>, p: T -> bool, j: nat)
    requires j < FirstWhere(xs, p)
    ensures !p(xs[j])
  {
    if j > 0 {
      BeforeFirst(xs[1..], p, j - 1);
    }
  }

  /** A position up to the first match that holds a match, or is the end, is the first match. */
  lemma FirstWhereAt<T>(xs: seq<T>, p: T -> bool, i: nat)
    requires i <= FirstWhere(xs, p)
    requires i == |xs| || (i < |xs| && p(xs[i]))
    ensures FirstWhere(xs, p) == i
  {
    if i < FirstWhere(xs, p) {
      BeforeFirst(xs, p, i);
    }
  }

  /** Past an element that is not a match, the first match lies further on. */
  lemma FirstWhereBeyond<T>(xs: seq<T>, p: T -> bool, i: nat)
    requires i <= FirstWhere(xs, p) && i < |xs| && !p(xs[i])
    ensures i + 1 <= FirstWhere(xs, p)
  {
  }

  /** Appending to a sequence that already holds a match leaves the first match where it was. */
  lemma {:induction false} FirstWhereAppend<T>(a: seq<T>, b: seq<T>, p: T -> bool)
    requires FirstWhere(a, p) < |a|
    ensures FirstWhere(a + b, p) == FirstWhere(a, p)
  {
    assert (a + b)[0] == a[0];
    if !p(a[0]) {
      assert (a + b)[1..] == a[1..] + b;
      FirstWhereAppend(a[1..], b, p);
    }
  }

  /** On a list without a match, one more element is the first match exactly when it matches. */
  lemma {:induction false} FirstWhereExtend<T>(a: seq<T>, x: T, p: T -> bool)
    requires FirstWhere(a, p) == |a|
    ensures FirstWhere(a + [x], p) == if p(x) then |a| else |a| + 1
  {
    if a != [] {
      assert (a + [x])[1..] == a[1..] + [x];
      FirstWhereExtend(a[1..], x, p);
    } else {
      assert [] + [x] == [x];
      assert [x][1..] == [];
    }
  }

  /**
   * A stateful walk whose steps fail on an element whatever the state fails
   * exactly when some element is bad, and then with the first bad element's
   * exception.
   */
  lemma {:induction false} FoldFailsAtFirst<S, A>(xs: seq<S>, init: A, step: (A, S) -> Result<A>,
                                                  bad: S -> bool, errorOf: S -> Option<Failure>)
    requires forall x :: bad(x) <==> errorOf(x).Some?
    requires forall a, x :: step(a, x).Err? <==> bad(x)
    requires forall a, x :: step(a, x).Err? ==> errorOf(x) == Some(step(a, x).error)
    ensures FoldSteps(xs, init, step).Ok? <==> FirstWhere(xs, bad) == |xs|
    ensures FoldSteps(xs, init, step).Err? ==>
      FirstWhere(xs, bad) < |xs| && errorOf(xs[FirstWhere(xs, bad)]) == Some(FoldSteps(xs, init, step).error)
  {
    if xs != [] {
      var prefix, x := xs[..|xs| - 1], xs[|xs| - 1];
      FoldFailsAtFirst(prefix, init, step, bad, errorOf);
      assert xs == prefix + [x];
      if FoldSteps(prefix, init, step).Err? {
        FirstWhereAppend(prefix, [x], bad);
        assert xs[FirstWhere(xs, bad)] == prefix[FirstWhere(prefix, bad)];
      } else {
        FirstWhereExtend(prefix, x, bad);
      }
    }
  }

  /** The lists `f` makes of `xs`, joined in order; the first failing element fails the whole walk. */
  function FlatCollect<S, T>(xs: seq<S>, f: S -> Result<seq<T>>): Result<seq<T>> {
    if xs == [] then Ok([])
    else
      var init :- FlatCollect(xs[..|xs| - 1], f);
      var items :- f(xs[|xs| - 1]);
      Ok(init + items)
  }

  lemma FlatCollectStep<S, T>(xs: seq<S>, i: nat, f: S -> Result<seq<T>>)
    requires i < |xs|
    ensures FlatCollect(xs[..i + 1], f) ==
      match FlatCollect(xs[..i], f)
      case Err(e) => Err(e)
      case Ok(init) =>
        match f(xs[i])
        case Err(e) => Err(e)
        case Ok(items) => Ok(init + items)
  {
    assert xs[..i + 1][..i] == xs[..i];
  }

  lemma {:induction false} FlatCollectKeepsError<S, T>(a: seq<S>, b: seq<S>, f: S -> Result<seq<T>>)
    requires FlatCollect(a, f).Err?
    ensures FlatCollect(a + b, f) == FlatCollect(a, f)
  {
    if b == [] {
      assert a + b == a;
    } else {
      var b' := b[..|b| - 1];
      assert (a + b)[..|a + b| - 1] == a + b';
      FlatCollectKeepsError(a, b', f);
    }
  }

  /** Two runs that both succeed give their two lists, joined. */
  lemma {:induction false} FlatCollectAppend<S, T>(a: seq<S>, b: seq<S>, f: S -> Result<seq<T>>)
    requires FlatCollect(a, f).Ok? && FlatCollect(b, f).Ok?
    ensures FlatCollect(a + b, f) == Ok(FlatCollect(a, f).value + FlatCollect(b, f).value)
  {
    if b == [] {
      assert a + b == a;
      assert FlatCollect(a, f).value + [] == FlatCollect(a, f).value;
    } else {
      var b' := b[..|b| - 1];
      assert (a + b)[..|a + b| - 1] == a + b';
      assert (a + b)[|a + b| - 1] == b[|b| - 1];
      assert FlatCollect(b', f).Ok?;
      FlatCollectAppend(a, b', f);
      var x, y, z := FlatCollect(a, f).value, FlatCollect(b', f).value, f(b[|b| - 1]).value;
      assert x + y + z == x + (y + z);
    }
  }

  /** A walk in which every element contributes an item makes one item per element. */
  lemma {:induction false} CollectEach<S, T>(xs: seq<S>, f: S -> Result<Option<T>>)
    requires forall x :: f(x) != Ok(None)
    requires Collect(xs, f).Ok?
    ensures |Collect(xs, f).value| == |xs|
    ensures forall k :: 0 <= k < |xs| ==> f(xs[k]) == Ok(Some(Collect(xs, f).value[k]))
  {
    if xs != [] {
      var init := xs[..|xs| - 1];
      CollectEach(init, f);
      assert forall k :: 0 <= k < |init| ==> init[k] == xs[k];
    }
  }

  /** A walk in which no element contributes an item makes nothing. */
  lemma {:induction false} CollectNothing<S, T>(xs: seq<S>, f: S -> Result<Option<T>>)
    requires forall k :: 0 <= k < |xs| ==> f(xs[k]) == Ok(None)
    ensures Collect(xs, f) == Ok([])
  {
    if xs != [] {
      var init := xs[..|xs| - 1];
      assert forall k :: 0 <= k < |init| ==> init[k] == xs[k];
      CollectNothing(init, f);
    }
  }

  /** When every item `f` makes satisfies `p`, so does every item of the walk. */
  lemma {:induction false} CollectEvery<S, T>(xs: seq<S>, f: S -> Result<Option<T>>, p: T -> bool)
    requires forall x :: f(x).Ok? && f(x).value.Some? ==> p(f(x).value.value)
    requires Collect(xs, f).Ok?
    ensures forall k :: 0 <= k < |Collect(xs, f).value| ==> p(Collect(xs, f).value[k])
  {
    if xs != [] {
      CollectEvery(xs[..|xs| - 1], f, p);
    }
  }

  /** When every list `f` makes holds only items satisfying `p`, so does the joined list. */
  lemma {:induction false} FlatCollectEvery<S, T>(xs: seq<S>, f: S -> Result<seq<T>>, p: T -> bool)
    requires forall x :: f(x).Ok? ==> forall k :: 0 <= k < |f(x).value| ==> p(f(x).value[k])
    requires FlatCollect(xs, f).Ok?
    ensures forall k :: 0 <= k < |FlatCollect(xs, f).value| ==> p(FlatCollect(xs, f).value[k])
  {
    if xs != [] {
      var init := xs[..|xs| - 1];
      FlatCollectEvery(init, f, p);
      var a, b := FlatCollect(init, f).value, f(xs[|xs| - 1]).value;
      assert forall k :: 0 <= k < |a + b| ==> (a + b)[k] == if k < |a| then a[k] else b[k - |a|];
    }
  }

  /** The union of what `f` gives for each element. */
  function Gather<S, U>(xs: seq<S>, f: S -> set<U>): set<U> {
    if xs == [] then {} else Gather(xs[..|xs| - 1], f) + f(xs[|xs| - 1])
  }

  lemma GatherStep<S, U>(xs: seq<S>, i: nat, f: S -> set<U>)
    requires i < |xs|
    ensures Gather(xs[..i + 1], f) == Gather(xs[..i], f) + f(xs[i])
  {
    assert xs[..i + 1][..i] == xs[..i];
  }

  /** An item is gathered exactly when some element gives it. */
  lemma {:induction false} GatherHas<S, U>(xs: seq<S>, f: S -> set<U>, u: U)
    ensures u in Gather(xs, f) <==> exists k :: 0 <= k < |xs| && u in f(xs[k])
  {
    if xs != [] {
      var init := xs[..|xs| - 1];
      GatherHas(init, f, u);
      assert forall k :: 0 <= k < |init| ==> init[k] == xs[k];
    }
  }

  /** A loop that applies `f` to every element, in order. */
  method MapEach<S, T>(xs: seq<S>, f: S -> T) returns (ys: seq<T>)
    ensures |ys| == |xs|
    ensures forall k :: 0 <= k < |xs| ==> ys[k] == f(xs[k])
  {
    ys := [];
    for i := 0 to |xs|
      invariant |ys| == i
      invariant forall k :: 0 <= k < i ==> ys[k] == f(xs[k])
    {
      ys := ys + [f(xs[i])];
    }
  }
}
