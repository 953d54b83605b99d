/** Python's `collections.Counter(values).most_common()`: each distinct
    value with its number of occurrences, most frequent first (ties in the
    order values were first seen), and the slice `[:rows]` the pipeline
    takes of it. */
module Counting {
  import opened Seqs

  /** Number of occurrences of `v` in `s`. */
  function Count<T(==,!new)>(s: seq<T>, v: T): nat
    decreases |s|
  {
    if s == [] then 0 else (if s[0] == v then 1 else 0) + Count(s[1..], v)
  }

  lemma {:induction false} CountPositive<T(!new)>(s: seq<T>, v: T)
    ensures v in s <==> Count(s, v) > 0
    decreases |s|
  {
    if s != [] {
      CountPositive(s[1..], v);
      assert v in s <==> v == s[0] || v in s[1..];
    }
  }

  /** The distinct values of `s` in the order of their first occurrence
      (the key order of a Counter). */
  function Distinct<T(==,!new)>(s: seq<T>): (r: seq<T>)
    ensures NoDup(r)
    ensures forall x :: x in r <==> x in s
    decreases |s|
  {
    if s == [] then []
    else
      var init := s[..|s| - 1];
      var d := Distinct(init);
      assert forall x :: x in s <==> x in init || x == s[|s| - 1] by {
        assert s == init + [s[|s| - 1]];
      }
      if s[|s| - 1] in d then d else d + [s[|s| - 1]]
  }

  /** The values of a list of (value, count) pairs. */
  function Keys<T>(ps: seq<(T, nat)>): (r: seq<T>)
    ensures |r| == |ps| && forall i :: 0 <= i < |ps| ==> r[i] == ps[i].0
  {
    seq(|ps|, i requires 0 <= i < |ps| => ps[i].0)
  }

  /** Counts never increase along the list. */
  predicate NonIncreasing<T>(ps: seq<(T, nat)>)
  {
    forall i, j :: 0 <= i < j < |ps| ==> ps[i].1 >= ps[j].1
  }

  /** Counter's items: each distinct value paired with its count. */
  function Tally<T(==,!new)>(s: seq<T>): (r: seq<(T, nat)>)
    ensures NoDup(Keys(r))
    ensures forall v :: v in Keys(r) <==> v in s
    ensures forall p :: p in r ==> p.1 == Count(s, p.0)
  {
    var d := Distinct(s);
    var r := seq(|d|, i requires 0 <= i < |d| => (d[i], Count(s, d[i])));
    assert Keys(r) == d;
    r
  }

  /** Inserts `x` before the first pair with a smaller count; the stable
      step of a descending sort when `x` was seen before the rest. */
  function InsertDesc<T>(x: (T, nat), ps: seq<(T, nat)>): (r: seq<(T, nat)>)
    requires NonIncreasing(ps)
    ensures |r| == |ps| + 1
    ensures NonIncreasing(r)
    ensures r[0] == x || (ps != [] && r[0] == ps[0])
    decreases |ps|
  {
    if ps == [] || x.1 >= ps[0].1 then [x] + ps
    else [ps[0]] + InsertDesc(x, ps[1..])
  }

  lemma {:induction false} InsertDescElems<T(!new)>(x: (T, nat), ps: seq<(T, nat)>)
    requires NonIncreasing(ps)
    ensures forall p :: p in InsertDesc(x, ps) <==> p == x || p in ps
    ensures forall v :: v in Keys(InsertDesc(x, ps)) <==> v == x.0 || v in Keys(ps)
    ensures NoDup(Keys(ps)) && x.0 !in Keys(ps) ==> NoDup(Keys(InsertDesc(x, ps)))
    decreases |ps|
  {
    var r := InsertDesc(x, ps);
    if ps == [] || x.1 >= ps[0].1 {
      assert Keys(r) == [x.0] + Keys(ps);
    } else {
      var rest := InsertDesc(x, ps[1..]);
      InsertDescElems(x, ps[1..]);
      assert Keys(r) == [ps[0].0] + Keys(rest);
      assert Keys(ps) == [ps[0].0] + Keys(ps[1..]);
      assert forall p :: p in ps <==> p == ps[0] || p in ps[1..];
      if NoDup(Keys(ps)) && x.0 !in Keys(ps) {
        assert NoDup(Keys(ps[1..]));
        assert x.0 !in Keys(ps[1..]);
        assert ps[0].0 != x.0;
        assert ps[0].0 !in Keys(ps[1..]);
        assert ps[0].0 !in Keys(rest);
      }
    }
  }

  /** A descending sort by count that keeps equal counts in their order. */
  function SortDesc<T>(ps: seq<(T, nat)>): (r: seq<(T, nat)>)
    ensures |r| == |ps|
    ensures NonIncreasing(r)
    decreases |ps|
  {
    if ps == [] then [] else InsertDesc(ps[0], SortDesc(ps[1..]))
  }

  /** Sorting neither adds nor loses a pair or a value. */
  lemma {:induction false} SortDescElems<T(!new)>(ps: seq<(T, nat)>)
    ensures forall p :: p in SortDesc(ps) <==> p in ps
    ensures forall v :: v in Keys(SortDesc(ps)) <==> v in Keys(ps)
    ensures NoDup(Keys(ps)) ==> NoDup(Keys(SortDesc(ps)))
    decreases |ps|
  {
    if ps != [] {
      SortDescElems(ps[1..]);
      InsertDescElems(ps[0], SortDesc(ps[1..]));
      assert Keys(ps) == [ps[0].0] + Keys(ps[1..]);
      assert forall p :: p in ps <==> p == ps[0] || p in ps[1..];
      assert NoDup(Keys(ps)) ==> NoDup(Keys(ps[1..]));
    }
  }

  /** `Counter(s).most_common()`. */
  function MostCommon<T(==,!new)>(s: seq<T>): seq<(T, nat)>
  {
    SortDesc(Tally(s))
  }

  /** most_common lists every value of `s` exactly once with its true count,
      most frequent first. */
  lemma MostCommonSpec<T(!new)>(s: seq<T>)
    ensures var m := MostCommon(s);
      && NonIncreasing(m)
      && NoDup(Keys(m))
      && (forall v :: v in Keys(m) <==> v in s)
      && (forall i :: 0 <= i < |m| ==> m[i].1 == Count(s, m[i].0) && m[i].1 >= 1)
  {
    var m := MostCommon(s);
    SortDescElems(Tally(s));
    forall i | 0 <= i < |m| ensures m[i].1 == Count(s, m[i].0) && m[i].1 >= 1 {
      assert m[i] in m;
      assert m[i].0 in Keys(m);
      CountPositive(s, m[i].0);
    }
  }

  /** Every value of `s` left out of the first `k` entries occurs no more
      often than the `k`-th entry. */
  lemma MostCommonTop<T(!new)>(s: seq<T>, k: nat, v: T)
    requires 0 < k <= |MostCommon(s)|
    requires v in s && v !in Keys(MostCommon(s)[..k])
    ensures Count(s, v) <= MostCommon(s)[k - 1].1
  {
    var m := MostCommon(s);
    MostCommonSpec(s);
    var j :| 0 <= j < |m| && Keys(m)[j] == v;
    assert j >= k by {
      assert forall i :: 0 <= i < k ==> Keys(m[..k])[i] == Keys(m)[i];
    }
  }

  /** The values of `q` appear most frequent (in `s`) first. */
  predicate ByFrequency<T(==,!new)>(q: seq<T>, s: seq<T>)
  {
    forall i, j :: 0 <= i < j < |q| ==> Count(s, q[i]) >= Count(s, q[j])
  }

  /** The values of most_common are listed most frequent first. */
  lemma MostCommonByFrequency<T(!new)>(s: seq<T>)
    ensures ByFrequency(Keys(MostCommon(s)), s)
  {
    MostCommonSpec(s);
  }

  /** Deleting entries keeps the frequency order. */
  lemma {:induction false} SubsequenceByFrequency<T(!new)>(a: seq<T>, b: seq<T>, s: seq<T>)
    requires IsSubsequence(a, b) && ByFrequency(b, s)
    ensures ByFrequency(a, s)
    decreases |b|
  {
    if a != [] && b != [] {
      assert ByFrequency(b[1..], s) by {
        forall i, j | 0 <= i < j < |b[1..]| ensures Count(s, b[1..][i]) >= Count(s, b[1..][j]) {
          assert b[1..][i] == b[i + 1] && b[1..][j] == b[j + 1];
        }
      }
      if a[0] == b[0] {
        SubsequenceByFrequency(a[1..], b[1..], s);
        SubsequenceElems(a[1..], b[1..]);
        forall i, j | 0 <= i < j < |a| ensures Count(s, a[i]) >= Count(s, a[j]) {
          assert a[j] == a[1..][j - 1];
          assert a[j] in b[1..];
          var m :| 0 <= m < |b[1..]| && b[1..][m] == a[j];
          if i == 0 {
            assert b[m + 1] == a[j];
          } else {
            assert a[i] == a[1..][i - 1];
          }
        }
      } else {
        SubsequenceByFrequency(a, b[1..], s);
      }
    }
  }

  /** Python's slice `ps[:n]`, including a negative `n`. */
  function Take<T>(ps: seq<T>, n: int): (r: seq<T>)
    ensures r <= ps
    ensures n >= 0 ==> |r| == if n < |ps| then n else |ps|
    ensures n < 0 ==> |r| == if |ps| + n > 0 then |ps| + n else 0
  {
    if n >= 0 then (if n < |ps| then ps[..n] else ps)
    else if |ps| + n > 0 then ps[..|ps| + n] else []
  }
}
