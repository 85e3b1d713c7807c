/**
 Sequence operations shared by the model. `Collect` is concatenation-map: with a
 function that returns one element or none it is a filter, and its length is a count.
 */
module Sequences {

  datatype Option<+T> = None | Some(value: T)

  function Collect<T, R>(s: seq<T>, f: T -> seq<R>): seq<R> {
    if s == [] then [] else f(s[0]) + Collect(s[1..], f)
  }

  function Map<T, R>(s: seq<T>, f: T -> R): (r: seq<R>)
    ensures |r| == |s|
    ensures forall i :: 0 <= i < |s| ==> r[i] == f(s[i])
  {
    seq(|s|, i requires 0 <= i < |s| => f(s[i]))
  }

  /** The function that keeps every element except `x`, as `Vec::retain(|a| a != x)` does. */
  function Except<T(==)>(x: T): T -> seq<T> {
    (a: T) => if a == x then [] else [a]
  }

  function Min(a: int, b: int): int {
    if a < b then a else b
  }

  predicate Distinct<T(==)>(s: seq<T>) {
    forall i, j :: 0 <= i < j < |s| ==> s[i] != s[j]
  }

  lemma {:induction false} CollectAppend<T, R>(a: seq<T>, b: seq<T>, f: T -> seq<R>)
    ensures Collect(a + b, f) == Collect(a, f) + Collect(b, f)
  {
    if a == [] {
      assert a + b == b;
    } else {
      assert (a + b)[1..] == a[1..] + b;
      CollectAppend(a[1..], b, f);
    }
  }

  lemma CollectOne<T, R>(x: T, f: T -> seq<R>)
    ensures Collect([x], f) == f(x)
  {
    assert Collect([x], f) == f(x) + Collect([x][1..], f);
  }

  lemma CollectSnoc<T, R>(a: seq<T>, x: T, f: T -> seq<R>)
    ensures Collect(a + [x], f) == Collect(a, f) + f(x)
  {
    CollectAppend(a, [x], f);
    CollectOne(x, f);
  }

  lemma CollectCut<T, R>(s: seq<T>, k: nat, f: T -> seq<R>)
    requires k <= |s|
    ensures Collect(s, f) == Collect(s[..k], f) + Collect(s[k..], f)
  {
    assert s == s[..k] + s[k..];
    CollectAppend(s[..k], s[k..], f);
  }

  lemma CollectSplit<T, R>(s: seq<T>, k: nat, f: T -> seq<R>)
    requires k < |s|
    ensures Collect(s, f) == Collect(s[..k], f) + f(s[k]) + Collect(s[k + 1..], f)
  {
    CollectCut(s, k, f);
    assert s[k..][1..] == s[k + 1..];
  }

  lemma CollectRemove<T, R>(s: seq<T>, k: nat, f: T -> seq<R>)
    requires k < |s|
    ensures Collect(s[..k] + s[k + 1..], f) == Collect(s[..k], f) + Collect(s[k + 1..], f)
    ensures |Collect(s[..k] + s[k + 1..], f)| == |Collect(s, f)| - |f(s[k])|
  {
    CollectSplit(s, k, f);
    CollectAppend(s[..k], s[k + 1..], f);
  }

  lemma {:induction false} CollectCongruent<S, T, R>(s: seq<S>, f: S -> seq<R>, t: seq<T>, g: T -> seq<R>)
    requires |s| == |t|
    requires forall i :: 0 <= i < |s| ==> f(s[i]) == g(t[i])
    ensures Collect(s, f) == Collect(t, g)
  {
    if s != [] {
      assert f(s[0]) == g(t[0]);
      CollectCongruent(s[1..], f, t[1..], g);
    }
  }

  lemma {:induction false} CollectNothing<T, R>(s: seq<T>, f: T -> seq<R>)
    requires forall i :: 0 <= i < |s| ==> f(s[i]) == []
    ensures Collect(s, f) == []
  {
    if s != [] {
      CollectNothing(s[1..], f);
    }
  }

  lemma {:induction false} CollectEverything<T, R>(s: seq<T>, f: T -> seq<R>, t: seq<R>)
    requires |s| == |t| && forall i :: 0 <= i < |s| ==> f(s[i]) == [t[i]]
    ensures Collect(s, f) == t
  {
    if s != [] {
      CollectEverything(s[1..], f, t[1..]);
    }
  }

  /** A pointwise smaller selection collects no more elements. */
  lemma {:induction false} CollectShrinks<S, T, R, Q>(s: seq<S>, f: S -> seq<R>, t: seq<T>, g: T -> seq<Q>)
    requires |s| == |t|
    requires forall i :: 0 <= i < |s| ==> |f(s[i])| <= |g(t[i])|
    ensures |Collect(s, f)| <= |Collect(t, g)|
  {
    if s != [] {
      assert |f(s[0])| <= |g(t[0])|;
      CollectShrinks(s[1..], f, t[1..], g);
    }
  }

  lemma {:induction false} CollectMember<T, R>(s: seq<T>, f: T -> seq<R>, x: R)
    ensures x in Collect(s, f) <==> exists i :: 0 <= i < |s| && x in f(s[i])
  {
    if s != [] {
      CollectMember(s[1..], f, x);
      if x in Collect(s[1..], f) {
        var i :| 0 <= i < |s[1..]| && x in f(s[1..][i]);
        assert s[i + 1] == s[1..][i];
      }
      if i :| 0 <= i < |s| && x in f(s[i]) {
        assert i > 0 ==> s[i] == s[1..][i - 1];
      }
    }
  }

  /** Selecting among collected elements is selecting within what each element contributes. */
  lemma {:induction false} CollectCompose<T, R, Q>(s: seq<T>, f: T -> seq<R>, g: R -> seq<Q>, h: T -> seq<Q>)
    requires forall i :: 0 <= i < |s| ==> h(s[i]) == Collect(f(s[i]), g)
    ensures Collect(Collect(s, f), g) == Collect(s, h)
  {
    if s != [] {
      CollectAppend(f(s[0]), Collect(s[1..], f), g);
      assert h(s[0]) == Collect(f(s[0]), g);
      CollectCompose(s[1..], f, g, h);
    }
  }

  /** A subset of a finite set has at most as many elements. */
  lemma {:induction false} SubsetSize<T>(a: set<T>, b: set<T>)
    requires a <= b
    ensures |a| <= |b|
  {
    assert b == a + (b - a);
    assert a !! (b - a);
  }
}
