/**
 The "Top Nads" leaderboard (src/components/PixelCanvas.tsx:775-778): the
 users view's values with a positive count, sorted by count, highest first,
 with the stable sort JavaScript's `Array.prototype.sort` performs, cut to
 the first five.
 */
module Leaderboard {
  import opened OrderedMap
  import opened CanvasTypes

  const TOP := 5

  /** No entry has a higher count than an earlier one. */
  ghost predicate Descending(s: seq<UserData>) {
    forall i, j | 0 <= i < j < |s| :: s[i].pixelsPlaced >= s[j].pixelsPlaced
  }

  /** `filter(user => user.pixelsPlaced > 0)`: the same entries, as often as
      they occur, provided their count is positive. */
  function Positives(s: seq<UserData>): (r: seq<UserData>)
    ensures forall i | 0 <= i < |r| :: r[i].pixelsPlaced > 0
    ensures forall u :: multiset(r)[u] == if u.pixelsPlaced > 0 then multiset(s)[u] else 0
  {
    if |s| == 0 then []
    else
      var init := s[..|s| - 1];
      var last := s[|s| - 1];
      assert s == init + [last];
      if last.pixelsPlaced > 0 then Positives(init) + [last] else Positives(init)
  }

  /** Places `u` in front of the first entry whose count it reaches, so that
      it stays ahead of entries with an equal count that came after it in the
      input. */
  function Insert(u: UserData, s: seq<UserData>): (r: seq<UserData>)
    ensures multiset(r) == multiset(s) + multiset{u}
    ensures |r| == |s| + 1
    ensures r[0] == u || (|s| > 0 && r[0] == s[0])
  {
    if |s| == 0 || u.pixelsPlaced >= s[0].pixelsPlaced then
      [u] + s
    else
      assert s == [s[0]] + s[1..];
      [s[0]] + Insert(u, s[1..])
  }

  /** Inserting into a descending sequence keeps it descending. */
  lemma {:induction false} InsertDescending(u: UserData, s: seq<UserData>)
    requires Descending(s)
    ensures Descending(Insert(u, s))
  {
    if |s| > 0 && u.pixelsPlaced < s[0].pixelsPlaced {
      var rest := Insert(u, s[1..]);
      InsertDescending(u, s[1..]);
      assert Insert(u, s) == [s[0]] + rest;
      assert rest[0].pixelsPlaced <= s[0].pixelsPlaced;
    }
  }

  /** `sort((a, b) => b.pixelsPlaced - a.pixelsPlaced)`: a stable sort by
      decreasing count. */
  function SortByCount(s: seq<UserData>): (r: seq<UserData>)
    ensures multiset(r) == multiset(s)
    ensures |r| == |s|
    ensures Descending(r)
  {
    if |s| == 0 then []
    else
      assert s == [s[0]] + s[1..];
      InsertDescending(s[0], SortByCount(s[1..]));
      Insert(s[0], SortByCount(s[1..]))
  }

  /** The rendered list for a users view. */
  function Top(view: OMap<string, UserData>): (r: seq<UserData>)
    requires Valid(view)
    ensures |r| <= TOP
    ensures Descending(r)
  {
    var sorted := SortByCount(Positives(Values(view)));
    if |sorted| <= TOP then sorted
    else
      DescendingPrefix(sorted, TOP);
      sorted[..TOP]
  }

  /** The leaderboard shows at most five entries (fewer only when fewer
      rows have a positive count), each with a positive count, highest first. */
  lemma TopSpec(view: OMap<string, UserData>)
    requires Valid(view)
    ensures var r := Top(view);
      var candidates := Positives(Values(view));
      && |r| == (if |candidates| <= TOP then |candidates| else TOP)
      && (forall i | 0 <= i < |r| :: r[i].pixelsPlaced > 0)
      && Descending(r)
  {
    var sorted := SortByCount(Positives(Values(view)));
    SortedCandidatesArePositive(Values(view));
    if |sorted| > TOP {
      DescendingPrefix(sorted, TOP);
    }
  }

  /** Sorting the positive rows keeps every count positive. */
  lemma SortedCandidatesArePositive(s: seq<UserData>)
    ensures forall i | 0 <= i < |SortByCount(Positives(s))| :: SortByCount(Positives(s))[i].pixelsPlaced > 0
  {
    var candidates := Positives(s);
    var sorted := SortByCount(candidates);
    forall i | 0 <= i < |sorted|
      ensures sorted[i].pixelsPlaced > 0
    {
      assert sorted[i] in multiset(candidates);
    }
  }

  /** A prefix of a descending sequence is descending. */
  lemma DescendingPrefix(s: seq<UserData>, n: nat)
    requires n <= |s| && Descending(s)
    ensures Descending(s[..n])
  {
    assert forall i | 0 <= i < n :: s[..n][i] == s[i];
  }

  /** The first `n` entries and the rest split the multiset of a sequence. */
  lemma SplitMultiset(s: seq<UserData>, n: nat)
    requires n <= |s|
    ensures multiset(s) == multiset(s[..n]) + multiset(s[n..])
  {
    assert s == s[..n] + s[n..];
  }

  /** Each shown entry is drawn from the view's positive rows, no more often
      than it occurs there. */
  lemma TopSubMultiset(view: OMap<string, UserData>)
    requires Valid(view)
    ensures multiset(Top(view)) <= multiset(Positives(Values(view)))
  {
    var sorted := SortByCount(Positives(Values(view)));
    if |sorted| > TOP {
      SplitMultiset(sorted, TOP);
    }
  }

  /** An entry the first `n` of a descending sequence leave out has a count no
      higher than any of them. */
  lemma LeftOutIsLower(s: seq<UserData>, n: nat, u: UserData)
    requires n <= |s| && Descending(s)
    requires multiset(s[..n])[u] < multiset(s)[u]
    ensures forall i | 0 <= i < n :: s[i].pixelsPlaced >= u.pixelsPlaced
  {
    SplitMultiset(s, n);
    assert u in s[n..];
    var j :| 0 <= j < |s[n..]| && s[n..][j] == u;
    assert s[n + j] == u;
  }

  /** The leaderboard is the top: a row left out has a count no higher than
      any shown, and a row is only left out when all five places are taken. */
  lemma TopIsComplete(view: OMap<string, UserData>, u: UserData)
    requires Valid(view)
    requires multiset(Top(view))[u] < multiset(Positives(Values(view)))[u]
    ensures |Top(view)| == TOP
    ensures forall i | 0 <= i < TOP :: Top(view)[i].pixelsPlaced >= u.pixelsPlaced
  {
    var sorted := SortByCount(Positives(Values(view)));
    assert |sorted| > TOP;
    LeftOutIsLower(sorted, TOP, u);
  }

  /** Every shown entry is a row of the view with a positive count. */
  lemma TopDrawnFromView(view: OMap<string, UserData>)
    requires Valid(view)
    ensures forall i | 0 <= i < |Top(view)| :: Top(view)[i] in Values(view)
  {
    var candidates := Positives(Values(view));
    TopSubMultiset(view);
    forall i | 0 <= i < |Top(view)|
      ensures Top(view)[i] in Values(view)
    {
      var u := Top(view)[i];
      assert u in multiset(Top(view));
      assert multiset(candidates)[u] > 0;
    }
  }
}
