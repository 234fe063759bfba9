/**
 * Ordering by creation time, newest first. Both the store's
 * `.sort({ createdAt: -1 })` and the client's comparator
 * `(a, b) => b.createdAt - a.createdAt` order posts this way; the client's
 * `Array.prototype.sort` is stable, and so is this insertion sort.
 */
module NewestFirst {
  import opened Types
  import opened Seqs

  /** Creation times never increase along the sequence. */
  predicate Sorted(s: seq<PostView>) {
    forall i, j :: 0 <= i < j < |s| ==> s[i].createdAt >= s[j].createdAt
  }

  /** Puts `p` after every strictly newer entry and before the rest, ties included. */
  function Insert(p: PostView, s: seq<PostView>): (r: seq<PostView>)
    ensures multiset(r) == multiset(s) + multiset{p}
  {
    if s == [] || p.createdAt >= s[0].createdAt then [p] + s
    else
      assert s == [s[0]] + s[1..];
      [s[0]] + Insert(p, s[1..])
  }

  /** Every entry of `Insert(p, s)` is `p` or an entry of `s`. */
  lemma InsertMembers(p: PostView, s: seq<PostView>, x: PostView)
    requires x in Insert(p, s)
    ensures x == p || x in s
  {
    assert x in multiset(Insert(p, s));
  }

  lemma {:induction false} InsertSorted(p: PostView, s: seq<PostView>)
    requires Sorted(s)
    ensures Sorted(Insert(p, s))
  {
    if s != [] && p.createdAt < s[0].createdAt {
      var rest := Insert(p, s[1..]);
      InsertSorted(p, s[1..]);
      forall x | x in rest ensures s[0].createdAt >= x.createdAt {
        InsertMembers(p, s[1..], x);
      }
      assert Insert(p, s) == [s[0]] + rest;
    }
  }

  /** The newest-first permutation of `s`. */
  function Sort(s: seq<PostView>): (r: seq<PostView>)
    ensures Sorted(r)
    ensures multiset(r) == multiset(s)
  {
    if s == [] then []
    else
      assert s == [s[0]] + s[1..];
      InsertSorted(s[0], Sort(s[1..]));
      Insert(s[0], Sort(s[1..]))
  }

  /** Same entries, same membership. */
  lemma SortMembers(s: seq<PostView>)
    ensures forall x :: x in Sort(s) <==> x in s
  {
    forall x ensures x in Sort(s) <==> x in s {
      assert x in Sort(s) <==> x in multiset(Sort(s));
      assert x in s <==> x in multiset(s);
    }
  }

  /**
   * Re-sorting a list that is already newest first changes nothing: the
   * client's defensive sort of the server's ordered list is the identity.
   */
  lemma {:induction false} SortSortedIsIdentity(s: seq<PostView>)
    requires Sorted(s)
    ensures Sort(s) == s
  {
    if s != [] {
      SortSortedIsIdentity(s[1..]);
    }
  }

  /** A permutation of a duplicate-free sequence is duplicate-free. */
  lemma PermutationNoDup(a: seq<PostView>, b: seq<PostView>)
    requires multiset(a) == multiset(b)
    requires NoDup(b)
    ensures NoDup(a)
  {
    forall i, j | 0 <= i < j < |a| ensures a[i] != a[j] {
      if a[i] == a[j] {
        TwiceCounted(a, i, j);
        NoDupCountedOnce(b, a[i]);
      }
    }
  }

  lemma TwiceCounted(s: seq<PostView>, i: int, j: int)
    requires 0 <= i < j < |s| && s[i] == s[j]
    ensures multiset(s)[s[i]] >= 2
  {
    assert s == s[..j] + [s[j]] + s[j + 1..];
    assert s[i] in s[..j];
  }

  lemma {:induction false} NoDupCountedOnce(s: seq<PostView>, x: PostView)
    requires NoDup(s)
    ensures multiset(s)[x] <= 1
  {
    if s != [] {
      assert s == [s[0]] + s[1..];
      NoDupCountedOnce(s[1..], x);
      if x == s[0] {
        assert x !in s[1..];
      }
    }
  }

  /** Dropping posts from a newest-first list leaves it newest first. */
  lemma {:induction false} FilterKeepsSorted(s: seq<PostView>, keep: PostView -> bool)
    requires Sorted(s)
    ensures Sorted(Filter(s, keep))
  {
    if s != [] {
      FilterKeepsSorted(s[1..], keep);
      FilterMembers(s[1..], keep);
      var rest := Filter(s[1..], keep);
      if keep(s[0]) {
        var r := [s[0]] + rest;
        forall i, j | 0 <= i < j < |r| ensures r[i].createdAt >= r[j].createdAt {
          assert r[j] == rest[j - 1];
          if i == 0 {
            assert r[j] in s[1..];
            var k :| 0 <= k < |s[1..]| && s[1..][k] == r[j];
            assert s[k + 1] == r[j];
          } else {
            assert r[i] == rest[i - 1];
          }
        }
      }
    }
  }

  /** Sorting a list with a known first element. */
  lemma SortCons(x: PostView, s: seq<PostView>)
    ensures Sort([x] + s) == Insert(x, Sort(s))
  {
    var r := [x] + s;
    assert r[0] == x && r[1..] == s;
  }

  /** An entry newer than `p` at the front stays in front of it. */
  lemma InsertBehindNewer(p: PostView, h: seq<PostView>, s: seq<PostView>)
    requires |h| <= 1 && (h != [] ==> p.createdAt < h[0].createdAt)
    ensures h + Insert(p, s) == Insert(p, h + s)
  {
    if h == [] {
      assert h + s == s;
    } else {
      var hs := h + s;
      assert hs[0] == h[0] && hs[1..] == s;
    }
  }

  /** `p` goes in front: filtering keeps it in front exactly when it passes. */
  lemma FilterInsertFront(p: PostView, s: seq<PostView>, keep: PostView -> bool)
    requires Sorted(s) && (s == [] || p.createdAt >= s[0].createdAt)
    ensures Filter(Insert(p, s), keep) == if keep(p) then Insert(p, Filter(s, keep)) else Filter(s, keep)
  {
    var f := Filter(s, keep);
    assert Insert(p, s) == [p] + s;
    FilterCons(p, s, keep);
    if keep(p) {
      if f != [] {
        FilterMembers(s, keep);
        assert f[0] in s;
        var k :| 0 <= k < |s| && s[k] == f[0];
        assert s[0].createdAt >= s[k].createdAt;
      }
      assert Insert(p, f) == [p] + f;
    } else {
      assert [] + f == f;
    }
  }

  /** Inserting into a sorted list, then filtering, is filtering, then inserting if `p` passes. */
  lemma {:induction false} FilterInsert(p: PostView, s: seq<PostView>, keep: PostView -> bool)
    requires Sorted(s)
    ensures Filter(Insert(p, s), keep) == if keep(p) then Insert(p, Filter(s, keep)) else Filter(s, keep)
  {
    if s == [] || p.createdAt >= s[0].createdAt {
      FilterInsertFront(p, s, keep);
    } else {
      var rest := s[1..];
      var h := if keep(s[0]) then [s[0]] else [];
      assert s == [s[0]] + rest;
      assert Sorted(rest);
      FilterInsert(p, rest, keep);
      FilterCons(s[0], Insert(p, rest), keep);
      FilterCons(s[0], rest, keep);
      assert Insert(p, s) == [s[0]] + Insert(p, rest);
      assert Filter(Insert(p, s), keep) == h + Filter(Insert(p, rest), keep);
      if keep(p) {
        InsertBehindNewer(p, h, Filter(rest, keep));
      } else {
        assert h + Filter(rest, keep) == Filter(s, keep);
      }
    }
  }

  /** Sorting and filtering commute: the sort is stable. */
  lemma {:induction false} FilterSort(s: seq<PostView>, keep: PostView -> bool)
    ensures Filter(Sort(s), keep) == Sort(Filter(s, keep))
  {
    if s != [] {
      var rest := s[1..];
      var f := Filter(s, keep);
      FilterSort(rest, keep);
      FilterInsert(s[0], Sort(rest), keep);
      FilterCons(s[0], rest, keep);
      assert s == [s[0]] + rest;
      if keep(s[0]) {
        assert f == [s[0]] + Filter(rest, keep);
        assert f[0] == s[0] && f[1..] == Filter(rest, keep);
        calc {
          Filter(Sort(s), keep);
          Filter(Insert(s[0], Sort(rest)), keep);
          Insert(s[0], Filter(Sort(rest), keep));
          Insert(s[0], Sort(Filter(rest, keep)));
          { SortCons(s[0], Filter(rest, keep)); }
          Sort([s[0]] + Filter(rest, keep));
          Sort(f);
        }
      } else {
        calc {
          Filter(Sort(s), keep);
          Filter(Insert(s[0], Sort(rest)), keep);
          Filter(Sort(rest), keep);
          Sort(Filter(rest, keep));
          { assert [] + Filter(rest, keep) == Filter(rest, keep); }
          Sort(f);
        }
      }
    }
  }
}
