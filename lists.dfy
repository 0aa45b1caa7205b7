/**
 * The "push if not already included" idiom (`if (!list.includes(x)) list.push(x)`)
 * and what repeating it over a stream of values produces: the distinct values
 * of the stream in the order they are first seen. Also the map-then-drop-empty
 * idiom (`xs.map(f).filter(x => !!x)`) and where each kept value lands.
 */
module Lists {
  import opened Wrappers

  predicate NoDups<T(==)>(xs: seq<T>) {
    forall i, j :: 0 <= i < j < |xs| ==> xs[i] != xs[j]
  }

  /** One step of the idiom. */
  function AddNew<T(==)>(xs: seq<T>, x: T): (r: seq<T>)
    ensures x in r
    ensures |r| <= |xs| + 1
    ensures NoDups(xs) ==> NoDups(r)
    ensures xs <= r
    ensures forall i :: 0 <= i < |r| ==> r[i] in xs || r[i] == x
    ensures |r| == if x in xs then |xs| else |xs| + 1
  {
    if x in xs then xs else xs + [x]
  }

  /** The idiom applied to every element of `xs`, in order, starting from `acc`. */
  function DedupOnto<T(==)>(acc: seq<T>, xs: seq<T>): seq<T>
    decreases |xs|
  {
    if |xs| == 0 then acc else AddNew(DedupOnto(acc, xs[..|xs| - 1]), xs[|xs| - 1])
  }

  /** The idiom applied to every element of `xs`, starting from an empty list. */
  function Dedup<T(==)>(xs: seq<T>): seq<T> {
    DedupOnto([], xs)
  }

  /** Running the idiom over `xs` and then over `ys` is running it over `xs + ys`. */
  lemma {:induction false} DedupOntoAppend<T>(acc: seq<T>, xs: seq<T>, ys: seq<T>)
    ensures DedupOnto(DedupOnto(acc, xs), ys) == DedupOnto(acc, xs + ys)
    decreases |ys|
  {
    if |ys| == 0 {
      assert xs + ys == xs;
    } else {
      var init, last := ys[..|ys| - 1], ys[|ys| - 1];
      DedupOntoAppend(acc, xs, init);
      assert ys == init + [last];
      assert xs + ys == (xs + init) + [last];
      DedupOntoLast(acc, xs + ys, xs + init, last);
      DedupOntoLast(DedupOnto(acc, xs), ys, init, last);
    }
  }

  lemma DedupOntoLast<T>(acc: seq<T>, ws: seq<T>, init: seq<T>, last: T)
    requires ws == init + [last]
    ensures DedupOnto(acc, ws) == AddNew(DedupOnto(acc, init), last)
  {
    assert ws[..|ws| - 1] == init;
  }

  /** The result keeps `acc` as a prefix, never repeats a value, and holds exactly the values of `acc` and `xs`. */
  lemma {:induction false} DedupOntoShape<T>(acc: seq<T>, xs: seq<T>)
    requires NoDups(acc)
    ensures acc <= DedupOnto(acc, xs)
    ensures NoDups(DedupOnto(acc, xs))
    ensures forall y :: y in DedupOnto(acc, xs) <==> y in acc || y in xs
    decreases |xs|
  {
    if |xs| > 0 {
      var p := xs[..|xs| - 1];
      DedupOntoShape(acc, p);
      assert xs == p + [xs[|xs| - 1]];
    }
  }

  /** The last element of `xs` satisfying `p`, or `default` when none does. */
  function LastWhere<T>(xs: seq<T>, p: T -> bool, default: T): T
    decreases |xs|
  {
    if |xs| == 0 then default
    else if p(xs[|xs| - 1]) then xs[|xs| - 1]
    else LastWhere(xs[..|xs| - 1], p, default)
  }

  /** With no element satisfying `p`, the result is `default`. */
  lemma {:induction false} LastWhereNone<T>(xs: seq<T>, p: T -> bool, default: T)
    requires forall i :: 0 <= i < |xs| ==> !p(xs[i])
    ensures LastWhere(xs, p, default) == default
    decreases |xs|
  {
    if |xs| > 0 {
      var init := xs[..|xs| - 1];
      assert forall i :: 0 <= i < |init| ==> init[i] == xs[i];
      LastWhereNone(init, p, default);
    }
  }

  /** When `xs[i]` is the last element satisfying `p`, the result is `xs[i]`. */
  lemma {:induction false} LastWhereLast<T>(xs: seq<T>, p: T -> bool, default: T, i: nat)
    requires i < |xs| && p(xs[i])
    requires forall j :: i < j < |xs| ==> !p(xs[j])
    ensures LastWhere(xs, p, default) == xs[i]
    decreases |xs|
  {
    if i < |xs| - 1 {
      var init := xs[..|xs| - 1];
      assert forall j :: 0 <= j < |init| ==> init[j] == xs[j];
      LastWhereLast(init, p, default, i);
    }
  }

  /** Position of the first occurrence of `x` in `xs`. */
  function FirstIndex<T(==)>(xs: seq<T>, x: T): (i: nat)
    requires x in xs
    ensures i < |xs| && xs[i] == x && x !in xs[..i]
  {
    if xs[0] == x then 0
    else
      var i := 1 + FirstIndex(xs[1..], x);
      assert xs[..i] == [xs[0]] + xs[1..][..i - 1];
      i
  }

  lemma FirstIndexPrefix<T>(xs: seq<T>, ys: seq<T>, x: T)
    requires x in xs
    ensures x in xs + ys && FirstIndex(xs + ys, x) == FirstIndex(xs, x)
  {
    var i, k := FirstIndex(xs, x), FirstIndex(xs + ys, x);
    assert (xs + ys)[..i] == xs[..i];
    assert (xs + ys)[i] == x;
  }

  /** The values of `d` are in first-seen order of the stream `xs`. */
  predicate FirstSeenOrder<T(==)>(xs: seq<T>, d: seq<T>)
    requires forall y :: y in d ==> y in xs
  {
    forall i, j :: 0 <= i < j < |d| ==> FirstIndex(xs, d[i]) < FirstIndex(xs, d[j])
  }

  /**
   * First-seen order: the distinct values come out in the order of their first
   * occurrence in the stream, and every value of the stream comes out once.
   */
  lemma {:induction false} DedupFirstSeen<T>(xs: seq<T>)
    ensures NoDups(Dedup(xs))
    ensures forall x :: x in Dedup(xs) <==> x in xs
    ensures forall i, j :: 0 <= i < j < |Dedup(xs)| ==>
              FirstIndex(xs, Dedup(xs)[i]) < FirstIndex(xs, Dedup(xs)[j])
    decreases |xs|
  {
    DedupOntoShape([], xs);
    if |xs| > 0 {
      var p, x := xs[..|xs| - 1], xs[|xs| - 1];
      assert xs == p + [x];
      DedupFirstSeen(p);
      var d := Dedup(p);
      assert Dedup(xs) == AddNew(d, x);
      FirstSeenExtend(p, x, d);
    }
  }

  /** Pushing the next value of the stream keeps the list in first-seen order. */
  lemma FirstSeenExtend<T>(p: seq<T>, x: T, d: seq<T>)
    requires forall y :: y in d <==> y in p
    requires FirstSeenOrder(p, d)
    ensures forall y :: y in AddNew(d, x) ==> y in p + [x]
    ensures FirstSeenOrder(p + [x], AddNew(d, x))
  {
    var xs, d' := p + [x], AddNew(d, x);
    forall y | y in d ensures FirstIndex(xs, y) == FirstIndex(p, y) {
      FirstIndexPrefix(p, [x], y);
    }
    if x !in d {
      assert xs[|p|] == x && xs[..|p|] == p;
      forall i, j | 0 <= i < j < |d'|
        ensures FirstIndex(xs, d'[i]) < FirstIndex(xs, d'[j])
      {
        assert d'[i] == d[i];
        if j < |d| { assert d'[j] == d[j]; }
      }
    }
  }

  // ---------------------------------------------------------------------
  // `xs.map(f).filter(x => !!x)`
  // ---------------------------------------------------------------------

  /** The values `f` yields for the elements of `xs`, in order, skipping those it yields none for. */
  function FilterMap<T, U>(xs: seq<T>, f: T -> Option<U>): (r: seq<U>)
    ensures |r| <= |xs|
    decreases |xs|
  {
    if |xs| == 0 then []
    else
      var prefix := FilterMap(xs[..|xs| - 1], f);
      match f(xs[|xs| - 1])
      case None => prefix
      case Some(y) => prefix + [y]
  }

  /** How many of the first `n` elements `f` yields a value for. */
  function SomeBefore<T, U>(xs: seq<T>, f: T -> Option<U>, n: nat): nat
    requires n <= |xs|
    decreases n
  {
    if n == 0 then 0 else SomeBefore(xs, f, n - 1) + (if f(xs[n - 1]).Some? then 1 else 0)
  }

  lemma {:induction false} FilterMapCount<T, U>(xs: seq<T>, f: T -> Option<U>, n: nat)
    requires n <= |xs|
    ensures |FilterMap(xs[..n], f)| == SomeBefore(xs, f, n)
    decreases n
  {
    if n > 0 {
      FilterMapCount(xs, f, n - 1);
      assert xs[..n][..n - 1] == xs[..n - 1];
    }
  }

  lemma {:induction false} FilterMapGrows<T, U>(xs: seq<T>, f: T -> Option<U>, n: nat)
    requires n <= |xs|
    ensures FilterMap(xs[..n], f) <= FilterMap(xs, f)
    decreases |xs| - n
  {
    if n < |xs| {
      FilterMapGrows(xs, f, n + 1);
      assert xs[..n + 1][..n] == xs[..n];
    } else {
      assert xs[..n] == xs;
    }
  }

  /**
   * The result holds exactly the yielded values in element order: one value
   * per element with a value, the value of element `i` sitting after those of
   * the elements before it.
   */
  lemma FilterMapRank<T, U>(xs: seq<T>, f: T -> Option<U>)
    ensures |FilterMap(xs, f)| == SomeBefore(xs, f, |xs|)
    ensures forall i :: 0 <= i < |xs| && f(xs[i]).Some? ==>
      SomeBefore(xs, f, i) < |FilterMap(xs, f)| && FilterMap(xs, f)[SomeBefore(xs, f, i)] == f(xs[i]).value
  {
    FilterMapCount(xs, f, |xs|);
    assert xs[..|xs|] == xs;
    forall i | 0 <= i < |xs| && f(xs[i]).Some?
      ensures SomeBefore(xs, f, i) < |FilterMap(xs, f)| && FilterMap(xs, f)[SomeBefore(xs, f, i)] == f(xs[i]).value
    {
      FilterMapAt(xs, f, i);
    }
  }

  lemma FilterMapAt<T, U>(xs: seq<T>, f: T -> Option<U>, i: nat)
    requires i < |xs| && f(xs[i]).Some?
    ensures SomeBefore(xs, f, i) < |FilterMap(xs, f)| && FilterMap(xs, f)[SomeBefore(xs, f, i)] == f(xs[i]).value
  {
    var before := FilterMap(xs[..i], f);
    var upTo := FilterMap(xs[..i + 1], f);
    FilterMapCount(xs, f, i);
    FilterMapGrows(xs, f, i + 1);
    assert xs[..i + 1][..i] == xs[..i];
    assert upTo == before + [f(xs[i]).value];
    assert upTo[|before|] == f(xs[i]).value;
  }

  /** A value counted at element `i` comes before every later count. */
  lemma {:induction false} SomeBeforeGrows<T, U>(xs: seq<T>, f: T -> Option<U>, i: nat, n: nat)
    requires i < n <= |xs| && f(xs[i]).Some?
    ensures SomeBefore(xs, f, i) < SomeBefore(xs, f, n)
    decreases n
  {
    if n > i + 1 {
      SomeBeforeGrows(xs, f, i, n - 1);
    }
  }

  /** Every value of the result is yielded by some element. */
  lemma {:induction false} FilterMapFrom<T, U>(xs: seq<T>, f: T -> Option<U>)
    ensures forall y :: y in FilterMap(xs, f) ==> exists i :: 0 <= i < |xs| && f(xs[i]) == Some(y)
    decreases |xs|
  {
    if |xs| > 0 {
      var p := xs[..|xs| - 1];
      FilterMapFrom(p, f);
      forall y | y in FilterMap(xs, f) ensures exists i :: 0 <= i < |xs| && f(xs[i]) == Some(y) {
        if y in FilterMap(p, f) {
          var i :| 0 <= i < |p| && f(p[i]) == Some(y);
          assert xs[i] == p[i];
        } else {
          assert f(xs[|xs| - 1]) == Some(y);
        }
      }
    }
  }
}
