/** Facts about sequences used by several models. */
module Sequences {
  function Last<T>(s: seq<T>): T
    requires s != []
  {
    s[|s| - 1]
  }

  function Front<T>(s: seq<T>): seq<T>
    requires s != []
  {
    s[..|s| - 1]
  }

  lemma EmptyFirst<T>(s: seq<T>)
    ensures [] + s == s
  {
  }

  lemma NothingAdded<T>(a: seq<T>, b: seq<T>)
    ensures b == [] ==> a + b == a
  {
  }

  lemma BothEmpty<T>(a: seq<T>, b: seq<T>)
    requires a + b == []
    ensures a == [] && b == []
  {
    assert |a + b| == |a| + |b|;
  }

  lemma AtSeam<T>(a: seq<T>, x: T, y: T, b: seq<T>)
    ensures var s := a + ([x] + b);
            s[|a|] == x && s[..|a|] == a && s[|a| + 1..] == b && s[|a| := y] == a + ([y] + b)
  {
  }

  lemma CutFromLonger<T>(s: seq<T>, x: T, k: nat)
    requires k <= |s|
    ensures (s + [x])[..k] + (s + [x])[k + 1..] == if k < |s| then s[..k] + s[k + 1..] + [x] else s
  {
  }

  lemma Regroup<T>(a: seq<T>, b: seq<T>, c: seq<T>)
    ensures a + (b + c) == (a + b) + c
  {
  }

  lemma WithoutIndex<T>(s: seq<T>, i: nat)
    requires i < |s|
    ensures multiset(s[..i] + s[i + 1..]) == multiset(s) - multiset{s[i]}
  {
    var a, b := s[..i], s[i + 1..];
    assert s == a + [s[i]] + b;
    assert multiset(s) == multiset(a) + multiset{s[i]} + multiset(b);
    assert multiset(a + b) == multiset(a) + multiset(b);
  }

  lemma WithoutLast<T>(s: seq<T>)
    requires s != []
    ensures multiset(s[..|s| - 1]) == multiset(s) - multiset{s[|s| - 1]}
  {
    assert s == s[..|s| - 1] + [s[|s| - 1]];
  }

  lemma FindIn<T>(s: seq<T>, x: T) returns (i: nat)
    requires x in multiset(s)
    ensures i < |s| && s[i] == x
    ensures multiset(s[..i] + s[i + 1..]) == multiset(s) - multiset{x}
  {
    i :| i < |s| && s[i] == x;
    WithoutIndex(s, i);
  }

  /** Moving the first `n` elements of `b + c` over to `a` loses nothing. */
  lemma MoveOver<T>(a: seq<T>, b: seq<T>, c: seq<T>, n: nat)
    requires n <= |b|
    ensures a + (b + c) == (a + b[..n]) + (b + c)[n..]
    ensures n == |b| ==> (b + c)[n..] == c
  {
    assert (b + c)[n..] == b[n..] + c;
    assert b == b[..n] + b[n..];
  }

  lemma {:induction false} OnceEach<T>(s: seq<T>, x: T)
    requires forall i, j :: 0 <= i < j < |s| ==> s[i] != s[j]
    ensures multiset(s)[x] <= 1
    decreases |s|
  {
    if s != [] {
      var rest, last := s[..|s| - 1], s[|s| - 1];
      OnceEach(rest, x);
      assert s == rest + [last];
      assert last !in rest;
    }
  }

  function MapSeq<A, B>(f: A -> B, s: seq<A>): seq<B>
    decreases |s|
  {
    if s == [] then [] else MapSeq(f, s[..|s| - 1]) + [f(s[|s| - 1])]
  }

  lemma {:induction false} MapAppend<A, B>(f: A -> B, a: seq<A>, b: seq<A>)
    ensures MapSeq(f, a + b) == MapSeq(f, a) + MapSeq(f, b)
    decreases |b|
  {
    if b == [] {
      assert a + b == a;
    } else {
      assert (a + b)[..|a + b| - 1] == a + b[..|b| - 1];
      MapAppend(f, a, b[..|b| - 1]);
    }
  }

  lemma MapWithout<A, B>(f: A -> B, s: seq<A>, i: nat)
    requires i < |s|
    ensures multiset(MapSeq(f, s)) == multiset(MapSeq(f, s[..i] + s[i + 1..])) + multiset{f(s[i])}
  {
    AroundIndex(s, i);
    MapBetween(f, s, s[..i], s[i], s[i + 1..], s[..i] + s[i + 1..]);
  }

  lemma AroundIndex<T>(s: seq<T>, i: nat)
    requires i < |s|
    ensures s == s[..i] + ([s[i]] + s[i + 1..])
  {
  }

  lemma MapBetween<A, B>(f: A -> B, s: seq<A>, a: seq<A>, x: A, b: seq<A>, rest: seq<A>)
    requires s == a + ([x] + b) && rest == a + b
    ensures multiset(MapSeq(f, s)) == multiset(MapSeq(f, rest)) + multiset{f(x)}
  {
    MapAppend(f, a, [x] + b);
    MapAppend(f, [x], b);
    MapAppend(f, a, b);
    MapOne(f, x);
    Between(MapSeq(f, a), f(x), MapSeq(f, b));
  }

  lemma MapOne<A, B>(f: A -> B, x: A)
    ensures MapSeq(f, [x]) == [f(x)]
  {
    assert [x][..0] == [];
  }

  lemma Between<T>(a: seq<T>, x: T, b: seq<T>)
    ensures multiset(a + ([x] + b)) == multiset(a + b) + multiset{x}
  {
    assert multiset(a + b) == multiset(a) + multiset(b);
  }

  lemma WithoutFirst<T>(s: seq<T>)
    requires s != []
    ensures multiset(s[1..]) == multiset(s) - multiset{s[0]}
  {
    assert s == [s[0]] + s[1..];
  }

  /** Two places in one order of a bag are two places in any other. */
  lemma TwoPlaces<T>(s: seq<T>, t: seq<T>, i: nat, j: nat) returns (m: nat, n: nat)
    requires multiset(s) == multiset(t) && i < j < |s|
    ensures m < |t| && n < |t| && m != n && t[m] == s[i] && t[n] == s[j]
  {
    assert s[i] in multiset(s);
    m := FindIn(t, s[i]);
    n := OtherPlace(s, t, i, j, m);
  }

  lemma OtherPlace<T>(s: seq<T>, t: seq<T>, i: nat, j: nat, m: nat) returns (n: nat)
    requires multiset(s) == multiset(t) && i < j < |s| && m < |t| && t[m] == s[i]
    ensures n < |t| && m != n && t[n] == s[j]
  {
    var s', t' := s[..i] + s[i + 1..], t[..m] + t[m + 1..];
    WithoutIndex(s, i);
    WithoutIndex(t, m);
    assert s'[j - 1] == s[j];
    assert s[j] in multiset(t');
    var k :| 0 <= k < |t'| && t'[k] == s[j];
    n := if k < m then k else k + 1;
  }

  /** Mapping a reordered sequence reorders the result. */
  lemma {:induction false} MapBag<A, B>(f: A -> B, s: seq<A>, t: seq<A>)
    requires multiset(s) == multiset(t)
    ensures multiset(MapSeq(f, s)) == multiset(MapSeq(f, t))
    decreases |s|
  {
    assert |s| == |multiset(s)| == |t|;
    if s != [] {
      WithoutLast(s);
      assert s[|s| - 1] in multiset(s);
      var i := FindIn(t, s[|s| - 1]);
      MapBag(f, s[..|s| - 1], t[..i] + t[i + 1..]);
      MapWithout(f, t, i);
    }
  }
}
