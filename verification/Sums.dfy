/** Sums over sequences and over buckets, independent of order. */
module Sums {
  import opened Options
  import opened Sequences

  function SumInt<T>(f: T -> int, s: seq<T>): int
    decreases |s|
  {
    if s == [] then 0 else SumInt(f, s[..|s| - 1]) + f(s[|s| - 1])
  }

  function SumReal<T>(f: T -> real, s: seq<T>): real
    decreases |s|
  {
    if s == [] then 0.0 else SumReal(f, s[..|s| - 1]) + f(s[|s| - 1])
  }

  lemma {:induction false} SumIntAppend<T>(f: T -> int, a: seq<T>, b: seq<T>)
    ensures SumInt(f, a + b) == SumInt(f, a) + SumInt(f, b)
    decreases |b|
  {
    if b == [] {
      assert a + b == a;
    } else {
      assert (a + b)[..|a + b| - 1] == a + b[..|b| - 1];
      SumIntAppend(f, a, b[..|b| - 1]);
    }
  }

  lemma {:induction false} SumRealAppend<T>(f: T -> real, a: seq<T>, b: seq<T>)
    ensures SumReal(f, a + b) == SumReal(f, a) + SumReal(f, b)
    decreases |b|
  {
    if b == [] {
      assert a + b == a;
    } else {
      assert (a + b)[..|a + b| - 1] == a + b[..|b| - 1];
      SumRealAppend(f, a, b[..|b| - 1]);
    }
  }

  lemma SumMore<T>(f: T -> int, g: T -> real, s: seq<T>, x: T)
    ensures SumInt(f, s + [x]) == SumInt(f, s) + f(x)
    ensures SumReal(g, s + [x]) == SumReal(g, s) + g(x)
  {
    assert (s + [x])[..|s|] == s;
  }

  lemma SumIntWithout<T>(f: T -> int, s: seq<T>, i: nat)
    requires i < |s|
    ensures SumInt(f, s) == SumInt(f, s[..i] + s[i + 1..]) + f(s[i])
  {
    assert s == s[..i] + ([s[i]] + s[i + 1..]);
    SumIntBetween(f, s[..i], s[i], s[i + 1..]);
  }

  lemma SumIntBetween<T>(f: T -> int, a: seq<T>, x: T, b: seq<T>)
    ensures SumInt(f, a + ([x] + b)) == SumInt(f, a + b) + f(x)
  {
    SumIntAppend(f, a, [x] + b);
    SumIntAppend(f, [x], b);
    SumIntAppend(f, a, b);
    assert [x][..0] == [];
  }

  lemma SumRealWithout<T>(f: T -> real, s: seq<T>, i: nat)
    requires i < |s|
    ensures SumReal(f, s) == SumReal(f, s[..i] + s[i + 1..]) + f(s[i])
  {
    assert s == s[..i] + ([s[i]] + s[i + 1..]);
    SumRealBetween(f, s[..i], s[i], s[i + 1..]);
  }

  lemma SumRealBetween<T>(f: T -> real, a: seq<T>, x: T, b: seq<T>)
    ensures SumReal(f, a + ([x] + b)) == SumReal(f, a + b) + f(x)
  {
    SumRealAppend(f, a, [x] + b);
    SumRealAppend(f, [x], b);
    SumRealAppend(f, a, b);
    assert [x][..0] == [];
  }

  lemma {:induction false} SameBagSameSumInt<T>(f: T -> int, s: seq<T>, t: seq<T>)
    requires multiset(s) == multiset(t)
    ensures SumInt(f, s) == SumInt(f, t)
    decreases |s|
  {
    assert |s| == |multiset(s)| == |t|;
    if s != [] {
      var last := s[|s| - 1];
      WithoutLast(s);
      assert last in multiset(s);
      var i := FindIn(t, last);
      SameBagSameSumInt(f, s[..|s| - 1], t[..i] + t[i + 1..]);
      SumIntWithout(f, t, i);
    }
  }

  lemma {:induction false} SameBagSameSumReal<T>(f: T -> real, s: seq<T>, t: seq<T>)
    requires multiset(s) == multiset(t)
    ensures SumReal(f, s) == SumReal(f, t)
    decreases |s|
  {
    assert |s| == |multiset(s)| == |t|;
    if s != [] {
      var last := s[|s| - 1];
      WithoutLast(s);
      assert last in multiset(s);
      var i := FindIn(t, last);
      SameBagSameSumReal(f, s[..|s| - 1], t[..i] + t[i + 1..]);
      SumRealWithout(f, t, i);
    }
  }

  // ----------------------------------------------------------------------- buckets

  function AddTo(m: map<string, real>, key: string, amount: real): map<string, real> {
    m[key := (if key in m then m[key] else 0.0) + amount]
  }

  /** Amounts added up per key; elements without a key are passed over. */
  function SumBy<T>(key: T -> Option<string>, amount: T -> real, s: seq<T>): map<string, real>
    decreases |s|
  {
    if s == [] then map[]
    else
      var before, x := SumBy(key, amount, s[..|s| - 1]), s[|s| - 1];
      if key(x).None? then before else AddTo(before, key(x).value, amount(x))
  }

  /** What belongs in one bucket. */
  function InBucket<T>(key: T -> Option<string>, amount: T -> real, k: string, s: seq<T>): real
    decreases |s|
  {
    if s == [] then 0.0
    else InBucket(key, amount, k, s[..|s| - 1]) + (if key(s[|s| - 1]) == Some(k) then amount(s[|s| - 1]) else 0.0)
  }

  /** What belongs in some bucket. */
  function InBuckets<T>(key: T -> Option<string>, amount: T -> real, s: seq<T>): real
    decreases |s|
  {
    if s == [] then 0.0
    else InBuckets(key, amount, s[..|s| - 1]) + (if key(s[|s| - 1]).Some? then amount(s[|s| - 1]) else 0.0)
  }

  ghost function Total(m: map<string, real>): real
    decreases |m|
  {
    if m == map[] then 0.0 else var k :| k in m; m[k] + Total(m - {k})
  }

  lemma {:induction false} TotalWithout(m: map<string, real>, k: string)
    requires k in m
    ensures Total(m) == m[k] + Total(m - {k})
    decreases |m|
  {
    var j :| j in m && Total(m) == m[j] + Total(m - {j});
    if j != k {
      TotalWithout(m - {j}, k);
      TotalWithout(m - {k}, j);
      assert m - {j} - {k} == m - {k} - {j};
    }
  }

  lemma TotalAddTo(m: map<string, real>, key: string, amount: real)
    ensures Total(AddTo(m, key, amount)) == Total(m) + amount
  {
    var m' := AddTo(m, key, amount);
    TotalWithout(m', key);
    if key in m {
      TotalWithout(m, key);
      assert m' - {key} == m - {key};
    } else {
      assert m' - {key} == m;
    }
  }

  /** The buckets hold what belongs in them, each and together. */
  lemma {:induction false} BucketsHoldTheirSums<T>(key: T -> Option<string>, amount: T -> real, s: seq<T>, k: string)
    ensures var m := SumBy(key, amount, s);
            (k in m <==> exists x :: x in s && key(x) == Some(k)) &&
            (if k in m then m[k] else 0.0) == InBucket(key, amount, k, s)
    ensures Total(SumBy(key, amount, s)) == InBuckets(key, amount, s)
    decreases |s|
  {
    if s != [] {
      var rest, x := s[..|s| - 1], s[|s| - 1];
      assert s == rest + [x];
      BucketsHoldTheirSums(key, amount, rest, k);
      if key(x).Some? {
        TotalAddTo(SumBy(key, amount, rest), key(x).value, amount(x));
      }
    }
  }

  // ------------------------------------------------------------------------ counts

  function Bump(m: map<string, nat>, key: string): map<string, nat> {
    m[key := (if key in m then m[key] else 0) + 1]
  }

  function CountBy<T>(key: T -> Option<string>, s: seq<T>): map<string, nat>
    decreases |s|
  {
    if s == [] then map[]
    else
      var before, x := CountBy(key, s[..|s| - 1]), s[|s| - 1];
      if key(x).None? then before else Bump(before, key(x).value)
  }

  /** How many elements have the key. */
  function CountOf<T>(key: T -> Option<string>, k: string, s: seq<T>): nat
    decreases |s|
  {
    if s == [] then 0 else CountOf(key, k, s[..|s| - 1]) + (if key(s[|s| - 1]) == Some(k) then 1 else 0)
  }

  lemma {:induction false} CountsAreExact<T>(key: T -> Option<string>, s: seq<T>, k: string)
    ensures var m := CountBy(key, s);
            (k in m <==> CountOf(key, k, s) > 0) && (k in m ==> m[k] == CountOf(key, k, s))
    decreases |s|
  {
    if s != [] {
      CountsAreExact(key, s[..|s| - 1], k);
    }
  }

  /** How many elements have any key. */
  function CountKeyed<T>(key: T -> Option<string>, s: seq<T>): nat
    decreases |s|
  {
    if s == [] then 0 else CountKeyed(key, s[..|s| - 1]) + (if key(s[|s| - 1]).Some? then 1 else 0)
  }

  ghost function TotalCount(m: map<string, nat>): nat
    decreases |m|
  {
    if m == map[] then 0 else var k :| k in m; m[k] + TotalCount(m - {k})
  }

  lemma {:induction false} TotalCountWithout(m: map<string, nat>, k: string)
    requires k in m
    ensures TotalCount(m) == m[k] + TotalCount(m - {k})
    decreases |m|
  {
    var j :| j in m && TotalCount(m) == m[j] + TotalCount(m - {j});
    if j != k {
      TotalCountWithout(m - {j}, k);
      TotalCountWithout(m - {k}, j);
      assert m - {j} - {k} == m - {k} - {j};
    }
  }

  lemma TotalBump(m: map<string, nat>, key: string)
    ensures TotalCount(Bump(m, key)) == TotalCount(m) + 1
  {
    var m' := Bump(m, key);
    TotalCountWithout(m', key);
    if key in m {
      TotalCountWithout(m, key);
      assert m' - {key} == m - {key};
    } else {
      assert m' - {key} == m;
    }
  }

  /** The counts of all keys together are the elements that have one. */
  lemma {:induction false} CountsAddUp<T>(key: T -> Option<string>, s: seq<T>)
    ensures TotalCount(CountBy(key, s)) == CountKeyed(key, s)
    decreases |s|
  {
    if s != [] {
      CountsAddUp(key, s[..|s| - 1]);
      if key(s[|s| - 1]).Some? {
        TotalBump(CountBy(key, s[..|s| - 1]), key(s[|s| - 1]).value);
      }
    }
  }
}
