/** The two places the page reasons about `sortOrder ?? 0` over the whole list: the
    ordering applied to a freshly fetched list, and the number proposed for a new row. */
module Ordering {
  import opened Workouts

  /** The rows of `s` whose sort key is `k`, in their original order. */
  function WithKey(s: seq<Workout>, k: int): seq<Workout> {
    if s == [] then [] else (if SortKey(s[0]) == k then [s[0]] else []) + WithKey(s[1..], k)
  }

  /** Places `w` in front of the first row whose key is not smaller than its own: the place
      a stable sort gives an element that came before every row of `s`. */
  function Insert(w: Workout, s: seq<Workout>): (r: seq<Workout>)
    ensures multiset(r) == multiset(s) + multiset{w}
    ensures |r| == |s| + 1
  {
    if s == [] then [w]
    else if SortKey(w) <= SortKey(s[0]) then [w] + s
    else
      assert s == [s[0]] + s[1..];
      [s[0]] + Insert(w, s[1..])
  }

  /** Inserting into a sorted list keeps it sorted; the first row is `w` or the old first row. */
  lemma {:induction false} InsertKeepsSorted(w: Workout, s: seq<Workout>)
    requires SortedByKey(s)
    ensures SortedByKey(Insert(w, s))
    ensures Insert(w, s)[0] == w || (|s| > 0 && Insert(w, s)[0] == s[0])
  {
    if s == [] {
      assert Insert(w, s) == [w];
    } else if SortKey(w) <= SortKey(s[0]) {
      assert Insert(w, s) == [w] + s;
      ConsSorted(w, s);
    } else {
      TailProperties(s);
      var tail := Insert(w, s[1..]);
      assert Insert(w, s) == [s[0]] + tail;
      InsertKeepsSorted(w, s[1..]);
      assert SortKey(s[0]) <= SortKey(tail[0]);
      ConsSorted(s[0], tail);
    }
  }

  /** The list sorted by `(a, b) => (a.sortOrder ?? 0) - (b.sortOrder ?? 0)` with a stable
      sort, as `Array.prototype.sort` is. */
  function SortByKey(s: seq<Workout>): (r: seq<Workout>)
    ensures SortedByKey(r)
    ensures multiset(r) == multiset(s)
    ensures |r| == |s|
  {
    if s == [] then []
    else
      assert s == [s[0]] + s[1..];
      var rest := SortByKey(s[1..]);
      InsertKeepsSorted(s[0], rest);
      Insert(s[0], rest)
  }

  /** Inserting `w` adds it at the front of its own key group and leaves every other key
      group as it was. */
  lemma {:induction false} InsertWithKey(w: Workout, s: seq<Workout>, k: int)
    ensures WithKey(Insert(w, s), k) == if SortKey(w) == k then [w] + WithKey(s, k) else WithKey(s, k)
  {
    if s == [] {
      assert Insert(w, s) == [w];
      WithKeyCons(w, [], k);
      assert [w] + [] == [w];
    } else if SortKey(w) <= SortKey(s[0]) {
      assert Insert(w, s) == [w] + s;
      WithKeyCons(w, s, k);
    } else {
      var tail := Insert(w, s[1..]);
      assert Insert(w, s) == [s[0]] + tail;
      WithKeyCons(s[0], tail, k);
      WithKeyCons(s[0], s[1..], k);
      assert [s[0]] + s[1..] == s;
      InsertWithKey(w, s[1..], k);
    }
  }

  /** Filtering a row placed in front of a list. */
  lemma WithKeyCons(x: Workout, s: seq<Workout>, k: int)
    ensures WithKey([x] + s, k) == (if SortKey(x) == k then [x] else []) + WithKey(s, k)
  {
    assert ([x] + s)[0] == x;
    assert ([x] + s)[1..] == s;
  }

  /** The fetch-time sort is stable: rows sharing a sort key keep their relative order. */
  lemma {:induction false} SortByKeyStable(s: seq<Workout>, k: int)
    ensures WithKey(SortByKey(s), k) == WithKey(s, k)
  {
    if s != [] {
      var rest := SortByKey(s[1..]);
      assert SortByKey(s) == Insert(s[0], rest);
      SortByKeyStable(s[1..], k);
      InsertWithKey(s[0], rest, k);
      assert WithKey(s, k) == (if SortKey(s[0]) == k then [s[0]] else []) + WithKey(s[1..], k);
    }
  }

  /** The largest sort key in a non-empty list: `Math.max(...workouts.map(w => w.sortOrder ?? 0))`. */
  function MaxKey(ws: seq<Workout>): (m: int)
    requires |ws| > 0
    ensures forall i :: 0 <= i < |ws| ==> SortKey(ws[i]) <= m
    ensures exists i :: 0 <= i < |ws| && SortKey(ws[i]) == m
  {
    if |ws| == 1 then SortKey(ws[0])
    else
      var rest := MaxKey(ws[1..]);
      assert forall i :: 1 <= i < |ws| ==> ws[i] == ws[1..][i - 1];
      if SortKey(ws[0]) >= rest then SortKey(ws[0])
      else
        var j :| 0 <= j < |ws[1..]| && SortKey(ws[1..][j]) == rest;
        assert SortKey(ws[j + 1]) == rest;
        rest
  }

  /** The sortOrder the page proposes for a new workout: one more than the largest key, or
      0 when there are no rows. */
  function NextSortOrder(ws: seq<Workout>): (n: int)
    ensures |ws| == 0 ==> n == 0
    ensures forall i :: 0 <= i < |ws| ==> SortKey(ws[i]) < n
    ensures |ws| > 0 ==> exists i :: 0 <= i < |ws| && n == SortKey(ws[i]) + 1
  {
    if |ws| > 0 then MaxKey(ws) + 1 else 0
  }

  /** The proposed number depends only on which rows exist, not on their order, so a
      reorder never changes it. */
  lemma NextSortOrderIgnoresOrder(a: seq<Workout>, b: seq<Workout>)
    requires multiset(a) == multiset(b)
    ensures NextSortOrder(a) == NextSortOrder(b)
  {
    assert |a| == |multiset(a)| == |multiset(b)| == |b|;
    if |a| > 0 {
      forall x | x in multiset(a) ensures SortKey(x) < NextSortOrder(b) {
        assert x in b;
      }
      forall x | x in multiset(b) ensures SortKey(x) < NextSortOrder(a) {
        assert x in a;
      }
      var i :| 0 <= i < |a| && NextSortOrder(a) == SortKey(a[i]) + 1;
      var j :| 0 <= j < |b| && NextSortOrder(b) == SortKey(b[j]) + 1;
      assert a[i] in multiset(a) && b[j] in multiset(b);
    }
  }

  /** Two lists with the same key at every position get the same proposal. */
  lemma NextSortOrderFollowsKeys(a: seq<Workout>, b: seq<Workout>)
    requires |a| == |b|
    requires forall k :: 0 <= k < |a| ==> SortKey(a[k]) == SortKey(b[k])
    ensures NextSortOrder(a) == NextSortOrder(b)
  {
    if |a| > 0 {
      var i :| 0 <= i < |a| && NextSortOrder(a) == SortKey(a[i]) + 1;
      var j :| 0 <= j < |b| && NextSortOrder(b) == SortKey(b[j]) + 1;
      assert SortKey(b[i]) < NextSortOrder(b);
      assert SortKey(a[j]) < NextSortOrder(a);
    }
  }

  /** A row numbered with the proposed sortOrder and appended at the end keeps a sorted list
      sorted, and the next proposal moves one further. */
  lemma AppendAtNextSortOrder(ws: seq<Workout>, w: Workout)
    requires SortedByKey(ws)
    requires SortKey(w) == NextSortOrder(ws)
    ensures SortedByKey(ws + [w])
    ensures NextSortOrder(ws + [w]) == NextSortOrder(ws) + 1
  {
    var r := ws + [w];
    assert forall i :: 0 <= i < |ws| ==> r[i] == ws[i];
    assert r[|ws|] == w;
  }
}
