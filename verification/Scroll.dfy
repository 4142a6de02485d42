/** Following cursors: each page takes up where the one before ended, until a page that is not full. */
module Scroll {
  import opened Basics
  import opened Traces
  import opened Visibility

  predicate Descending(ps: seq<Cursor>) {
    forall i, j :: 0 <= i < j < |ps| ==> Below(ps[j], ps[i])
  }

  /** Where a client is once it has received some positions: at the last of them. */
  function At(seen: seq<Cursor>): Option<Cursor> {
    if seen == [] then None else Some(seen[|seen| - 1])
  }

  /** The positions received so far: strictly descending, all of the set, and none skipped. */
  ghost predicate Covers(seen: seq<Cursor>, all: set<Cursor>) {
    && Descending(seen)
    && (forall c :: c in seen ==> c in all)
    && (forall c :: c in all && c !in seen ==> After(At(seen), c))
  }

  /** The positions still to come: the measure of a scroll. */
  ghost function Remaining(all: set<Cursor>, seen: seq<Cursor>): set<Cursor> {
    set c | c in all && c !in seen
  }

  lemma NothingSeen(all: set<Cursor>)
    ensures Covers([], all) && Remaining(all, []) == all
  {
  }

  /** A page extends what was received without gap, overlap or disorder, and brings the end closer if it is
      not empty. */
  lemma PageExtends(seen: seq<Cursor>, all: set<Cursor>, page: seq<Cursor>, limit: nat)
    requires Covers(seen, all) && IsPage(page, all, At(seen), limit)
    ensures Covers(seen + page, all)
    ensures page != [] ==> |Remaining(all, seen + page)| < |Remaining(all, seen)|
    ensures page != [] ==> At(seen + page) == Some(page[|page| - 1])
  {
    hide Below;
    AllBelow(seen);
    forall i, j | 0 <= i < j < |seen + page| ensures Below((seen + page)[j], (seen + page)[i]) {
      if i < |seen| <= j {
        assert page[j - |seen|] in page;
        BelowOrder(page[j - |seen|], seen[|seen| - 1], seen[i]);
      }
    }
    forall c | c in all && c !in seen + page ensures After(At(seen + page), c) {
      if page != [] { assert page[|page| - 1] in page; }
    }
    assert Remaining(all, seen + page) <= Remaining(all, seen);
    if page != [] {
      NotSeen(seen, page[0]);
      assert page[0] in page && page[0] in Remaining(all, seen) && page[0] !in Remaining(all, seen + page);
      Shrinks(Remaining(all, seen + page), Remaining(all, seen), page[0]);
    }
  }

  lemma Shrinks(s: set<Cursor>, t: set<Cursor>, c: Cursor)
    requires s <= t && c in t && c !in s
    ensures |s| < |t|
  {
    assert s <= t - {c};
    Subset(s, t - {c});
  }

  lemma {:induction false} Subset(s: set<Cursor>, t: set<Cursor>)
    requires s <= t
    ensures |s| <= |t|
  {
    if s != {} {
      var c :| c in s;
      Subset(s - {c}, t - {c});
    }
  }

  lemma AllBelow(seen: seq<Cursor>)
    requires Descending(seen)
    ensures forall i :: 0 <= i < |seen| - 1 ==> Below(seen[|seen| - 1], seen[i])
  {
  }

  lemma NotSeen(seen: seq<Cursor>, c: Cursor)
    requires Descending(seen) && After(At(seen), c)
    ensures c !in seen
  {
    hide Below;
    if c in seen {
      var i :| 0 <= i < |seen| && seen[i] == c;
      BelowOrder(c, seen[|seen| - 1], c);
      BelowOrder(c, c, c);
      assert false;
    }
  }

  /** A page that is not full is the last: everything has been received. */
  lemma ShortPageEnds(seen: seq<Cursor>, all: set<Cursor>, page: seq<Cursor>, limit: nat)
    requires Covers(seen, all) && IsPage(page, all, At(seen), limit) && |page| < limit
    ensures forall c :: c in all <==> c in seen + page
  {
    PageExtends(seen, all, page, limit);
  }

  // ---- a whole scroll ------------------------------------------------------------------------------------

  function Flatten(pages: seq<seq<Cursor>>): seq<Cursor> {
    if pages == [] then [] else Flatten(pages[..|pages| - 1]) + pages[|pages| - 1]
  }

  /** The pages a client gets that starts without a cursor and always sends the last position it received:
      all of them full but the last. */
  ghost predicate Follows(pages: seq<seq<Cursor>>, all: set<Cursor>, limit: nat) {
    && (forall i :: 0 <= i < |pages| ==> IsPage(pages[i], all, At(Flatten(pages[..i])), limit))
    && (forall i :: 0 <= i < |pages| - 1 ==> |pages[i]| == limit)
  }

  lemma {:induction false} FollowsCovers(pages: seq<seq<Cursor>>, all: set<Cursor>, limit: nat)
    requires Follows(pages, all, limit)
    ensures Covers(Flatten(pages), all)
  {
    if pages == [] {
      NothingSeen(all);
    } else {
      var n := |pages| - 1;
      forall i | 0 <= i < n ensures pages[..n][..i] == pages[..i] && pages[..n][i] == pages[i] {}
      FollowsCovers(pages[..n], all, limit);
      PageExtends(Flatten(pages[..n]), all, pages[n], limit);
    }
  }

  /** Following cursors from the empty one until a page that is not full visits every position exactly once,
      in strictly descending order. */
  lemma ScrollVisitsAll(pages: seq<seq<Cursor>>, all: set<Cursor>, limit: nat)
    requires Follows(pages, all, limit) && pages != [] && |pages[|pages| - 1]| < limit
    ensures Descending(Flatten(pages))
    ensures forall c :: c in Flatten(pages) <==> c in all
    ensures |Flatten(pages)| == |all|
  {
    var n := |pages| - 1;
    forall i | 0 <= i < n ensures pages[..n][..i] == pages[..i] && pages[..n][i] == pages[i] {}
    FollowsCovers(pages, all, limit);
    FollowsCovers(pages[..n], all, limit);
    ShortPageEnds(Flatten(pages[..n]), all, pages[n], limit);
    OnceEach(Flatten(pages), all);
  }

  lemma {:induction false} OnceEach(ps: seq<Cursor>, all: set<Cursor>)
    requires Descending(ps) && forall c :: c in ps <==> c in all
    ensures |ps| == |all|
  {
    hide Below;
    if ps == [] {
      assert all == {};
    } else {
      var n := |ps| - 1;
      var last := ps[n];
      assert ps == ps[..n] + [last];
      BelowOrder(last, last, last);
      assert last !in ps[..n];
      OnceEach(ps[..n], all - {last});
    }
  }

  lemma OneMore(n: nat, m: nat)
    ensures (n + 1) * m == n * m + m
  {
  }

  lemma {:induction false} FlattenLength(pages: seq<seq<Cursor>>, limit: nat)
    requires forall i :: 0 <= i < |pages| ==> |pages[i]| == limit
    ensures |Flatten(pages)| == |pages| * limit
  {
    if pages != [] {
      FlattenLength(pages[..|pages| - 1], limit);
      OneMore(|pages| - 1, limit);
    }
  }

  /** A scroll ends: with a limit of at least one there are no more full pages than positions. */
  lemma ScrollEnds(pages: seq<seq<Cursor>>, all: set<Cursor>, limit: nat)
    requires Follows(pages, all, limit) && limit >= 1 && forall i :: 0 <= i < |pages| ==> |pages[i]| == limit
    ensures |pages| * limit <= |all|
  {
    FollowsCovers(pages, all, limit);
    FlattenLength(pages, limit);
    var seen := set c | c in Flatten(pages);
    OnceEach(Flatten(pages), seen);
    Subset(seen, all);
  }

  /** There is only one page after a cursor: two requests in the same place get the same positions. */
  lemma PagesAreUnique(page: seq<Cursor>, other: seq<Cursor>, all: set<Cursor>, cur: Option<Cursor>, limit: nat)
    requires IsPage(page, all, cur, limit) && IsPage(other, all, cur, limit)
    ensures page == other
  {
    PageContains(page, other, all, cur, limit);
    PageContains(other, page, all, cur, limit);
    OnceEach(page, set c | c in page);
    OnceEach(other, set c | c in page);
    DescendingOnce(page, other);
  }

  lemma PageContains(page: seq<Cursor>, other: seq<Cursor>, all: set<Cursor>, cur: Option<Cursor>, limit: nat)
    requires IsPage(page, all, cur, limit) && IsPage(other, all, cur, limit)
    ensures forall c :: c in page ==> c in other
  {
    hide Below, After;
    forall c | c in page ensures c in other {
      if c !in other {
        // A full page of positions above c, all of them on the first page too: one too many.
        forall d | d in other ensures d in page && d != c {
          BelowOrder(c, d, c);
          BelowOrder(c, c, c);
        }
        var few, many := set d | d in other, set d | d in page;
        OnceEach(other, few);
        OnceEach(page, many);
        assert few <= many - {c};
        Subset(few, many - {c});
      }
    }
  }

  lemma {:induction false} DescendingOnce(ps: seq<Cursor>, qs: seq<Cursor>)
    requires |ps| == |qs| && Descending(ps) && Descending(qs) && forall c :: c in ps <==> c in qs
    ensures ps == qs
  {
    hide Below;
    if ps != [] {
      var m, n := |ps| - 1, |qs| - 1;
      SameLast(ps, qs);
      WithoutLast(ps);
      WithoutLast(qs);
      DescendingOnce(ps[..m], qs[..n]);
      assert ps == ps[..m] + [ps[m]] && qs == qs[..n] + [qs[n]];
    }
  }

  lemma WithoutLast(ps: seq<Cursor>)
    requires ps != [] && Descending(ps)
    ensures var m := |ps| - 1; forall c :: c in ps[..m] <==> c in ps && c != ps[m]
  {
    var m := |ps| - 1;
    assert ps == ps[..m] + [ps[m]];
    BelowOrder(ps[m], ps[m], ps[m]);
  }

  lemma SameLast(ps: seq<Cursor>, qs: seq<Cursor>)
    requires ps != [] && qs != [] && Descending(ps) && Descending(qs) && forall c :: c in ps <==> c in qs
    ensures ps[|ps| - 1] == qs[|qs| - 1]
  {
    hide Below;
    var c, d := ps[|ps| - 1], qs[|qs| - 1];
    assert c in ps && d in qs;
    LastIsLowest(ps, d);
    LastIsLowest(qs, c);
    BelowOrder(c, d, c);
    BelowOrder(c, c, c);
  }

  lemma LastIsLowest(ps: seq<Cursor>, c: Cursor)
    requires Descending(ps) && c in ps
    ensures c == ps[|ps| - 1] || Below(ps[|ps| - 1], c)
  {
  }
}
