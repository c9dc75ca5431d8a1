/** The ranking step of stock selection: a list of (stock, return) pairs, built in
    universe order, sorted by return with Python's stable `list.sort`, either
    descending (momentum) or ascending (reversal).

    A stable sort of a list built in universe order places two stocks with equal
    returns in universe order, so its result is the list ordered by return first and
    universe position second. `Sort` computes that order by insertion; `SortSpec` and
    `OrderedUnique` show it is the only permutation so ordered. */
module Ranking {

  /** One stock's score: its position in the universe and its trailing return. */
  datatype Entry = Entry(pos: nat, ret: real)

  /** `a` is ranked ahead of `b`: a better return (higher when descending, lower when
      ascending), or an equal return and an earlier universe position. */
  predicate Precedes(a: Entry, b: Entry, descending: bool) {
    if a.ret == b.ret then a.pos < b.pos
    else if descending then a.ret > b.ret
    else a.ret < b.ret
  }

  /** Every entry is ranked ahead of every later one. */
  predicate Ordered(s: seq<Entry>, descending: bool) {
    forall i, j :: 0 <= i < j < |s| ==> Precedes(s[i], s[j], descending)
  }

  /** No universe position occurs twice. */
  predicate DistinctPositions(s: seq<Entry>) {
    forall i, j :: 0 <= i < j < |s| ==> s[i].pos != s[j].pos
  }

  function Insert(x: Entry, s: seq<Entry>, descending: bool): (r: seq<Entry>)
    ensures multiset(r) == multiset(s) + multiset{x}
    ensures |r| == |s| + 1
  {
    if s == [] then [x]
    else if Precedes(x, s[0], descending) then [x] + s
    else
      assert s == [s[0]] + s[1..];
      [s[0]] + Insert(x, s[1..], descending)
  }

  /** stocks_returns.sort(key=return, reverse=descending) */
  function Sort(s: seq<Entry>, descending: bool): (r: seq<Entry>)
    ensures |r| == |s|
  {
    if s == [] then [] else Insert(s[0], Sort(s[1..], descending), descending)
  }

  lemma PrecedesTransitive(a: Entry, b: Entry, c: Entry, descending: bool)
    requires Precedes(a, b, descending) && Precedes(b, c, descending)
    ensures Precedes(a, c, descending)
  {
  }

  lemma {:induction false} InsertOrdered(x: Entry, s: seq<Entry>, descending: bool)
    requires Ordered(s, descending)
    requires forall k :: 0 <= k < |s| ==> s[k].pos != x.pos
    ensures Ordered(Insert(x, s, descending), descending)
  {
    if s != [] {
      if Precedes(x, s[0], descending) {
        PrependOrdered(x, s, descending);
      } else {
        InsertOrdered(x, s[1..], descending);
        HeadPrecedesInsert(x, s, descending);
        var tail := Insert(x, s[1..], descending);
        var r := [s[0]] + tail;
        forall i, j | 0 <= i < j < |r| ensures Precedes(r[i], r[j], descending) {
          if i > 0 {
            assert r[i] == tail[i - 1] && r[j] == tail[j - 1];
          } else {
            assert r[i] == s[0] && r[j] == tail[j - 1];
          }
        }
      }
    }
  }

  lemma PrependOrdered(x: Entry, s: seq<Entry>, descending: bool)
    requires Ordered(s, descending) && s != [] && Precedes(x, s[0], descending)
    ensures Ordered([x] + s, descending)
  {
    var r := [x] + s;
    forall i, j | 0 <= i < j < |r| ensures Precedes(r[i], r[j], descending) {
      if i == 0 && j > 1 {
        PrecedesTransitive(x, s[0], s[j - 1], descending);
      }
    }
  }

  /** The head of an ordered list ranks ahead of everything its tail becomes when an
      entry ranked after it is inserted. */
  lemma HeadPrecedesInsert(x: Entry, s: seq<Entry>, descending: bool)
    requires Ordered(s, descending) && s != [] && !Precedes(x, s[0], descending)
    requires s[0].pos != x.pos
    ensures forall j :: 0 <= j < |Insert(x, s[1..], descending)| ==>
      Precedes(s[0], Insert(x, s[1..], descending)[j], descending)
  {
    var tail := Insert(x, s[1..], descending);
    forall j | 0 <= j < |tail| ensures Precedes(s[0], tail[j], descending) {
      assert tail[j] in multiset(tail);
      if tail[j] != x {
        assert tail[j] in multiset(s[1..]);
        var m :| 0 <= m < |s[1..]| && s[1..][m] == tail[j];
        assert s[m + 1] == tail[j];
      }
    }
  }

  /** The sort returns a permutation of its input, ordered by rank. */
  lemma {:induction false} SortSpec(s: seq<Entry>, descending: bool)
    requires DistinctPositions(s)
    ensures multiset(Sort(s, descending)) == multiset(s)
    ensures Ordered(Sort(s, descending), descending)
  {
    if s != [] {
      SortSpec(s[1..], descending);
      var t := Sort(s[1..], descending);
      assert s == [s[0]] + s[1..];
      forall k | 0 <= k < |t| ensures t[k].pos != s[0].pos {
        assert t[k] in multiset(s[1..]);
        var m :| 0 <= m < |s[1..]| && s[1..][m] == t[k];
        assert s[m + 1] == t[k];
      }
      InsertOrdered(s[0], t, descending);
    }
  }

  /** Rank order is strict, so two ordered permutations of one list are equal: every
      stable sort of the list gives the result of `Sort`. */
  lemma {:induction false} OrderedUnique(a: seq<Entry>, b: seq<Entry>, descending: bool)
    requires Ordered(a, descending) && Ordered(b, descending)
    requires multiset(a) == multiset(b)
    ensures a == b
    decreases |a|
  {
    if a != [] {
      assert a[0] in multiset(b);
      assert b != [];
      assert b[0] in multiset(a);
      if a[0] != b[0] {
        HeadPrecedes(a, b[0], descending);
        HeadPrecedes(b, a[0], descending);
        assert false;
      }
      MultisetTail(a);
      MultisetTail(b);
      OrderedUnique(a[1..], b[1..], descending);
    }
  }

  /** The head of an ordered list is ranked ahead of every other element of it. */
  lemma HeadPrecedes(s: seq<Entry>, x: Entry, descending: bool)
    requires Ordered(s, descending) && s != []
    requires x in multiset(s) && x != s[0]
    ensures Precedes(s[0], x, descending)
  {
    var i :| 0 <= i < |s| && s[i] == x;
  }

  lemma MultisetTail(s: seq<Entry>)
    requires s != []
    ensures multiset(s[1..]) == multiset(s) - multiset{s[0]}
  {
    assert s == [s[0]] + s[1..];
  }

  /** The list is built in universe order: entry `i` belongs to position `i`. */
  predicate Indexed(sc: seq<Entry>) {
    forall i :: 0 <= i < |sc| ==> sc[i].pos == i
  }

  /** Sorting a list built in universe order ranks every position exactly once, each
      with its own entry. */
  lemma SortIndexed(sc: seq<Entry>, descending: bool)
    requires Indexed(sc)
    ensures Ordered(Sort(sc, descending), descending)
    ensures |Sort(sc, descending)| == |sc|
    ensures forall m :: 0 <= m < |Sort(sc, descending)| ==>
      Sort(sc, descending)[m].pos < |sc| && Sort(sc, descending)[m] == sc[Sort(sc, descending)[m].pos]
    ensures forall j :: 0 <= j < |sc| ==> sc[j] in Sort(sc, descending)
  {
    var rk := Sort(sc, descending);
    SortSpec(sc, descending);
    assert |rk| == |multiset(rk)| == |multiset(sc)| == |sc|;
    forall m | 0 <= m < |rk| ensures rk[m].pos < |sc| && rk[m] == sc[rk[m].pos] {
      assert rk[m] in multiset(sc);
    }
    forall j | 0 <= j < |sc| ensures sc[j] in rk {
      assert sc[j] in multiset(rk);
    }
  }

  /** The positions of the first `k` entries of the sorted list. */
  function Top(sc: seq<Entry>, descending: bool, k: nat): (r: seq<nat>)
    requires Indexed(sc) && k <= |sc|
    ensures |r| == k
  {
    SortIndexed(sc, descending);
    var rk := Sort(sc, descending);
    seq(k, i requires 0 <= i < k => rk[i].pos)
  }

  /** The top `k` positions are distinct positions of the list, and each is ranked
      ahead of every position left out. */
  lemma {:induction false} TopSpec(sc: seq<Entry>, descending: bool, k: nat)
    requires Indexed(sc) && k <= |sc|
    ensures forall i :: 0 <= i < k ==> Top(sc, descending, k)[i] < |sc|
    ensures forall i, j :: 0 <= i < j < k ==> Top(sc, descending, k)[i] != Top(sc, descending, k)[j]
    ensures forall i, j :: 0 <= i < k && 0 <= j < |sc| && j !in Top(sc, descending, k) ==>
      Precedes(sc[Top(sc, descending, k)[i]], sc[j], descending)
  {
    var rk, top := Sort(sc, descending), Top(sc, descending, k);
    SortIndexed(sc, descending);
    forall i, j | 0 <= i < j < k ensures top[i] != top[j] {
      assert Precedes(rk[i], rk[j], descending);
    }
    forall i, j | 0 <= i < k && 0 <= j < |sc| && j !in top
      ensures Precedes(sc[top[i]], sc[j], descending)
    {
      assert forall i :: 0 <= i < k ==> rk[i].pos == top[i] != j;
      var m :| 0 <= m < |rk| && rk[m] == sc[j];
      assert rk[i] == sc[top[i]];
    }
  }
}
