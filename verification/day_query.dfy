/** The day filter of the readings query: the readings whose UTC calendar
    day equals the requested one, in history order. */
module DayQuery {

  import opened Common
  import opened UserModel

  /** `a` can be obtained from `b` by deleting elements, keeping the order. */
  predicate IsSubsequence<T(==)>(a: seq<T>, b: seq<T>)
    decreases |b|
  {
    a == [] || (b != [] && ((a[0] == b[0] && IsSubsequence(a[1..], b[1..])) || IsSubsequence(a, b[1..])))
  }

  /** The readings of `h` whose day is `d`, in history order. */
  function OnDay(h: seq<Reading>, d: int): (r: seq<Reading>)
    ensures forall i :: 0 <= i < |r| ==> Day(r[i].date) == d
    ensures |r| <= |h|
    decreases |h|
  {
    if h == [] then []
    else if Day(h[0].date) == d then [h[0]] + OnDay(h[1..], d)
    else OnDay(h[1..], d)
  }

  /** The result keeps the order of the history: it is a subsequence. */
  lemma {:induction false} OnDaySubsequence(h: seq<Reading>, d: int)
    ensures IsSubsequence(OnDay(h, d), h)
    decreases |h|
  {
    if h != [] {
      OnDaySubsequence(h[1..], d);
      var rest := OnDay(h[1..], d);
      if Day(h[0].date) == d {
        assert ([h[0]] + rest)[1..] == rest;
      }
    }
  }

  /** The result holds each reading of day `d` exactly as often as the
      history does, and no other reading. */
  lemma {:induction false} OnDayCounts(h: seq<Reading>, d: int)
    ensures forall x: Reading :: multiset(OnDay(h, d))[x] == if Day(x.date) == d then multiset(h)[x] else 0
    decreases |h|
  {
    if h != [] {
      OnDayCounts(h[1..], d);
      assert h == [h[0]] + h[1..];
    }
  }

  /** The filter distributes over concatenation of histories. */
  lemma {:induction false} OnDayConcat(a: seq<Reading>, b: seq<Reading>, d: int)
    ensures OnDay(a + b, d) == OnDay(a, d) + OnDay(b, d)
    decreases |a|
  {
    if a == [] {
      assert a + b == b;
    } else {
      assert (a + b)[0] == a[0];
      assert (a + b)[1..] == a[1..] + b;
      OnDayConcat(a[1..], b, d);
    }
  }

  /** Appending one reading adds it to the result for its own day only. */
  lemma OnDayAppend(h: seq<Reading>, x: Reading, d: int)
    ensures OnDay(h + [x], d) == OnDay(h, d) + (if Day(x.date) == d then [x] else [])
  {
    OnDayConcat(h, [x], d);
    assert [x][1..] == [];
  }

  /** The result is empty exactly when no reading of the history falls on
      the day; an empty result is a normal answer, not an error. */
  lemma OnDayEmpty(h: seq<Reading>, d: int)
    ensures OnDay(h, d) == [] <==> forall i :: 0 <= i < |h| ==> Day(h[i].date) != d
  {
    var r := OnDay(h, d);
    OnDayCounts(h, d);
    if r == [] {
      forall i | 0 <= i < |h|
        ensures Day(h[i].date) != d
      {
        assert h[i] in multiset(h);
        assert multiset(r)[h[i]] == 0;
      }
    } else {
      assert r[0] in multiset(r);
      assert r[0] in multiset(h);
      assert r[0] in h;
    }
  }

  /** Deleting elements never adds occurrences. */
  lemma {:induction false} SubsequenceMultiset<T>(a: seq<T>, b: seq<T>)
    requires IsSubsequence(a, b)
    ensures multiset(a) <= multiset(b)
    decreases |b|
  {
    if a == [] {
    } else {
      assert b == [b[0]] + b[1..];
      if a[0] == b[0] && IsSubsequence(a[1..], b[1..]) {
        SubsequenceMultiset(a[1..], b[1..]);
        assert a == [a[0]] + a[1..];
      } else {
        SubsequenceMultiset(a, b[1..]);
      }
    }
  }

  /** The filter is the only order-preserving subsequence of the history
      that holds readings of day `d` only and each matching reading as often
      as the history does. */
  lemma {:induction false} OnDayUnique(h: seq<Reading>, d: int, r: seq<Reading>)
    requires IsSubsequence(r, h)
    requires forall i :: 0 <= i < |r| ==> Day(r[i].date) == d
    requires forall x: Reading :: Day(x.date) == d ==> multiset(r)[x] == multiset(h)[x]
    ensures r == OnDay(h, d)
    decreases |h|
  {
    if h == [] {
      assert r == [];
    } else if r == [] {
      OnDayEmpty(h, d);
      forall i | 0 <= i < |h|
        ensures Day(h[i].date) != d
      {
        assert h[i] in multiset(h);
      }
    } else {
      var t := h[1..];
      assert h == [h[0]] + t;
      assert r == [r[0]] + r[1..];
      if Day(h[0].date) == d {
        if r[0] == h[0] && IsSubsequence(r[1..], t) {
          forall i | 0 <= i < |r[1..]|
            ensures Day(r[1..][i].date) == d
          {
            assert r[1..][i] == r[i + 1];
          }
          OnDayUnique(t, d, r[1..]);
        } else {
          assert IsSubsequence(r, t);
          SubsequenceMultiset(r, t);
          assert false;
        }
      } else {
        assert r[0] != h[0];
        assert IsSubsequence(r, t);
        OnDayUnique(t, d, r);
      }
    }
  }
}
