/** Option and Result, the failure-carrying wrappers shared by every module. */
module Wrappers {

  /** A value that may be absent (Python's `Optional[T]`). */
  datatype Option<+T> = None | Some(value: T) {
    function GetOr(default: T): T {
      match this
      case Some(v) => v
      case None => default
    }
  }

  /** Either a value or an error (a Python function that returns or raises). */
  datatype Result<+R, +E> = Success(value: R) | Failure(error: E) {
    predicate IsFailure() {
      Failure?
    }

    function PropagateFailure<U>(): Result<U, E>
      requires Failure?
    {
      Failure(error)
    }

    function Extract(): R
      requires Success?
    {
      value
    }
  }

  /**
   * The present results of `f` over `xs`, in order: the shape of every
   * "for line in output.splitlines(): ... append" loop.
   */
  function FilterMap<X, Y>(xs: seq<X>, f: X -> Option<Y>): (r: seq<Y>)
    ensures |r| <= |xs|
    ensures forall k | 0 <= k < |r| :: exists i | 0 <= i < |xs| :: f(xs[i]) == Some(r[k])
    ensures forall i | 0 <= i < |xs| && f(xs[i]).Some? :: f(xs[i]).value in r
    decreases |xs|
  {
    if xs == [] then []
    else
      var rest := FilterMap(xs[1..], f);
      assert forall i | 1 <= i < |xs| :: xs[i] == xs[1..][i - 1];
      match f(xs[0])
      case Some(y) => [y] + rest
      case None => rest
  }

  /** `{f(x) for x in xs}` without the absent results. */
  function PresentSet<X, Y(!new)>(xs: seq<X>, f: X -> Option<Y>): (r: set<Y>)
    ensures forall y :: y in r <==> exists i | 0 <= i < |xs| :: f(xs[i]) == Some(y)
  {
    var ys := FilterMap(xs, f);
    assert forall y | y in ys :: exists i | 0 <= i < |xs| :: f(xs[i]) == Some(y);
    set y | y in ys
  }

  /** Mapping over a concatenation concatenates the results. */
  lemma {:induction false} FilterMapAppend<X, Y>(a: seq<X>, b: seq<X>, f: X -> Option<Y>)
    ensures FilterMap(a + b, f) == FilterMap(a, f) + FilterMap(b, f)
    decreases |a|
  {
    if a != [] {
      assert (a + b)[0] == a[0];
      assert (a + b)[1..] == a[1..] + b;
      FilterMapAppend(a[1..], b, f);
      FilterMapCons(a, f);
      FilterMapCons(a + b, f);
    } else {
      assert a + b == b;
    }
  }

  /** The result for the first element, if any, comes first. */
  lemma FilterMapCons<X, Y>(xs: seq<X>, f: X -> Option<Y>)
    requires xs != []
    ensures FilterMap(xs, f) == (if f(xs[0]).Some? then [f(xs[0]).value] else []) + FilterMap(xs[1..], f)
  {
  }

  /** Mapping over one more element adds its result, if any, at the end. */
  lemma FilterMapSnoc<X, Y>(xs: seq<X>, x: X, f: X -> Option<Y>)
    ensures FilterMap(xs + [x], f) == FilterMap(xs, f) + (if f(x).Some? then [f(x).value] else [])
  {
    FilterMapAppend(xs, [x], f);
    assert FilterMap([x], f) == (if f(x).Some? then [f(x).value] else []) by {
      assert [x][1..] == [];
    }
  }

  /** Count the present results of `f` over `xs`. */
  method CountPresent<X, Y>(xs: seq<X>, f: X -> Option<Y>) returns (counts: multiset<Y>)
    ensures counts == multiset(FilterMap(xs, f))
  {
    var ys := FilterMap(xs, f);
    counts := multiset{};
    for i := 0 to |ys|
      invariant counts == multiset(ys[..i])
    {
      assert ys[..i + 1] == ys[..i] + [ys[i]];
      counts := counts + multiset{ys[i]};
    }
    assert ys[..|ys|] == ys;
  }

  /** `dict(pairs)`: a key maps to the value of its last pair. */
  function LastWins<K(!new), V>(pairs: seq<(K, V)>): (m: map<K, V>)
    ensures forall k :: k in m <==> exists i | 0 <= i < |pairs| :: pairs[i].0 == k
    ensures forall k | k in m :: exists i | 0 <= i < |pairs| :: pairs[i] == (k, m[k])
    decreases |pairs|
  {
    if pairs == [] then map[]
    else
      var last := pairs[|pairs| - 1];
      var m := LastWins(pairs[..|pairs| - 1]);
      assert forall i | 0 <= i < |pairs| - 1 :: pairs[..|pairs| - 1][i] == pairs[i];
      m[last.0 := last.1]
  }

  /** The value of a key is the one given by its last pair. */
  lemma {:induction false} LastWinsLast<K(!new), V>(pairs: seq<(K, V)>, i: nat)
    requires i < |pairs|
    requires forall j | i < j < |pairs| :: pairs[j].0 != pairs[i].0
    ensures LastWins(pairs)[pairs[i].0] == pairs[i].1
    decreases |pairs|
  {
    if i < |pairs| - 1 {
      var init := pairs[..|pairs| - 1];
      assert init[i] == pairs[i];
      LastWinsLast(init, i);
    }
  }

  /** The first present result of `f` over `xs`, in order. */
  function FirstSome<X, Y>(xs: seq<X>, f: X -> Option<Y>): (r: Option<Y>)
    ensures r.None? <==> forall i | 0 <= i < |xs| :: f(xs[i]).None?
    ensures r.Some? ==> exists i | 0 <= i < |xs| :: f(xs[i]) == r && forall j | 0 <= j < i :: f(xs[j]).None?
    decreases |xs|
  {
    if xs == [] then None
    else if f(xs[0]).Some? then f(xs[0])
    else
      var r := FirstSome(xs[1..], f);
      assert forall i | 1 <= i < |xs| :: xs[1..][i - 1] == xs[i];
      r
  }

  /** The position of the first element satisfying `p`. */
  function FirstIndex<X>(xs: seq<X>, p: X -> bool): (r: Option<nat>)
    ensures r.Some? ==> r.value < |xs| && p(xs[r.value])
    ensures r.Some? ==> forall j | 0 <= j < r.value :: !p(xs[j])
    ensures r.None? ==> forall j | 0 <= j < |xs| :: !p(xs[j])
    decreases |xs|
  {
    if xs == [] then None
    else if p(xs[0]) then Some(0)
    else
      match FirstIndex(xs[1..], p)
      case Some(i) => Some(i + 1)
      case None => None
  }

  /** `[x for x in xs if p(x)]`. */
  function Filter<X>(xs: seq<X>, p: X -> bool): (r: seq<X>)
    ensures |r| <= |xs|
    ensures forall k | 0 <= k < |r| :: p(r[k]) && r[k] in xs
    ensures forall i | 0 <= i < |xs| && p(xs[i]) :: xs[i] in r
    decreases |xs|
  {
    if xs == [] then []
    else
      var init := xs[..|xs| - 1];
      var last := xs[|xs| - 1];
      assert forall i | 0 <= i < |xs| - 1 :: xs[i] == init[i];
      Filter(init, p) + (if p(last) then [last] else [])
  }

  /** Filtering a concatenation concatenates the filtered parts: the order is kept. */
  lemma {:induction false} FilterAppend<X>(a: seq<X>, b: seq<X>, p: X -> bool)
    ensures Filter(a + b, p) == Filter(a, p) + Filter(b, p)
    decreases |b|
  {
    if b == [] {
      assert a + b == a;
    } else {
      var init := b[..|b| - 1];
      assert (a + b)[..|a + b| - 1] == a + init;
      FilterAppend(a, init, p);
    }
  }

  /** `{key: value for line in lines if (entry := f(line))}`: a key maps to its last entry's value. */
  function KeyedLast<X, K(!new), V>(xs: seq<X>, f: X -> Option<(K, V)>): (m: map<K, V>)
    ensures forall k :: k in m <==> exists i | 0 <= i < |xs| :: f(xs[i]).Some? && f(xs[i]).value.0 == k
    ensures forall k | k in m :: exists i | 0 <= i < |xs| :: f(xs[i]) == Some((k, m[k]))
  {
    var entries := FilterMap(xs, f);
    var m := LastWins(entries);
    forall k | k in m
      ensures exists i | 0 <= i < |xs| :: f(xs[i]) == Some((k, m[k]))
    {
      var j :| 0 <= j < |entries| && entries[j] == (k, m[k]);
      var i :| 0 <= i < |xs| && f(xs[i]) == Some(entries[j]);
    }
    forall k | exists i | 0 <= i < |xs| :: f(xs[i]).Some? && f(xs[i]).value.0 == k
      ensures k in m
    {
      var i :| 0 <= i < |xs| && f(xs[i]).Some? && f(xs[i]).value.0 == k;
      assert f(xs[i]).value in entries;
    }
    m
  }

  /** A key's value comes from the last element that names it. */
  lemma KeyedLastWins<X, K(!new), V>(xs: seq<X>, f: X -> Option<(K, V)>, i: nat, key: K, value: V)
    requires i < |xs| && f(xs[i]) == Some((key, value))
    requires forall j | i < j < |xs| && f(xs[j]).Some? :: f(xs[j]).value.0 != key
    ensures key in KeyedLast(xs, f) && KeyedLast(xs, f)[key] == value
  {
    var head, tail := xs[..i + 1], xs[i + 1..];
    TailKeys(xs, f, i, key, tail);
    OtherKeys(tail, f, key);
    assert xs == head + tail;
    assert head == xs[..i] + [xs[i]];
    FilterMapSnoc(xs[..i], xs[i], f);
    FilterMapAppend(head, tail, f);
    LastWinsBeforeOthers(FilterMap(head, f), FilterMap(tail, f), key, value);
  }

  lemma TailKeys<X, K, V>(xs: seq<X>, f: X -> Option<(K, V)>, i: nat, key: K, tail: seq<X>)
    requires i < |xs| && tail == xs[i + 1..]
    requires forall j | i < j < |xs| && f(xs[j]).Some? :: f(xs[j]).value.0 != key
    ensures forall t | 0 <= t < |tail| && f(tail[t]).Some? :: f(tail[t]).value.0 != key
  {
    forall t | 0 <= t < |tail| && f(tail[t]).Some?
      ensures f(tail[t]).value.0 != key
    {
      assert tail[t] == xs[i + 1 + t];
    }
  }

  lemma OtherKeys<X, K, V>(xs: seq<X>, f: X -> Option<(K, V)>, key: K)
    requires forall j | 0 <= j < |xs| && f(xs[j]).Some? :: f(xs[j]).value.0 != key
    ensures forall k | 0 <= k < |FilterMap(xs, f)| :: FilterMap(xs, f)[k].0 != key
  {
  }

  lemma LastWinsBeforeOthers<K(!new), V>(first: seq<(K, V)>, later: seq<(K, V)>, key: K, value: V)
    requires first != [] && first[|first| - 1] == (key, value)
    requires forall k | 0 <= k < |later| :: later[k].0 != key
    ensures key in LastWins(first + later) && LastWins(first + later)[key] == value
  {
    var entries := first + later;
    assert forall j | |first| <= j < |entries| :: entries[j] == later[j - |first|];
    LastWinsLast(entries, |first| - 1);
  }

  /** A prefix one longer is the prefix with the next element appended. */
  lemma PrefixSnoc<T>(s: seq<T>, i: nat)
    requires i < |s|
    ensures s[..i + 1] == s[..i] + [s[i]]
  {
  }
}
