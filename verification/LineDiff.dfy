// The line diff: a longest-common-subsequence table filled backwards, then
// walked greedily into hunks (internal/semdiff/semdiff.go).
module LineDiff {

  type Line = string

  // before[oldStart..oldEnd] became after[newStart..newEnd].
  datatype Change = Change(oldStart: nat, oldEnd: nat, newStart: nat, newEnd: nat)

  ghost function Max(x: int, y: int): int {
    if x >= y then x else y
  }

  // ---- the optimum -----------------------------------------------------------

  // What the table cell (i, j) holds: the recurrence on the suffixes a[i..], b[j..].
  ghost function Lcs(a: seq<Line>, b: seq<Line>, i: nat, j: nat): nat
    requires i <= |a| && j <= |b|
    decreases |a| - i, |b| - j
  {
    if i == |a| || j == |b| then 0
    else if a[i] == b[j] then 1 + Lcs(a, b, i + 1, j + 1)
    else Max(Lcs(a, b, i + 1, j), Lcs(a, b, i, j + 1))
  }

  // A common subsequence of a[i..] and b[j..], given by the index pairs it uses.
  ghost predicate CommonSubsequence(a: seq<Line>, b: seq<Line>, i: nat, j: nat, ps: seq<(nat, nat)>) {
    && (forall k :: 0 <= k < |ps| ==>
          i <= ps[k].0 < |a| && j <= ps[k].1 < |b| && a[ps[k].0] == b[ps[k].1])
    && (forall k, l :: 0 <= k < l < |ps| ==> ps[k].0 < ps[l].0 && ps[k].1 < ps[l].1)
  }

  lemma {:induction false} LcsIsAnUpperBound(a: seq<Line>, b: seq<Line>, i: nat, j: nat, ps: seq<(nat, nat)>)
    requires i <= |a| && j <= |b|
    requires CommonSubsequence(a, b, i, j, ps)
    ensures |ps| <= Lcs(a, b, i, j)
    decreases |a| - i, |b| - j
  {
    if ps != [] {
      assert i <= ps[0].0 < |a| && j <= ps[0].1 < |b|;
      if a[i] == b[j] {
        var rest := ps[1..];
        assert forall k :: 0 <= k < |rest| ==> ps[0].0 < ps[k + 1].0 && ps[0].1 < ps[k + 1].1 && rest[k] == ps[k + 1];
        LcsIsAnUpperBound(a, b, i + 1, j + 1, rest);
      } else if ps[0].0 > i {
        LcsIsAnUpperBound(a, b, i + 1, j, ps);
      } else {
        LcsIsAnUpperBound(a, b, i, j + 1, ps);
      }
    }
  }

  lemma {:induction false} LcsIsReached(a: seq<Line>, b: seq<Line>, i: nat, j: nat) returns (ps: seq<(nat, nat)>)
    requires i <= |a| && j <= |b|
    ensures CommonSubsequence(a, b, i, j, ps) && |ps| == Lcs(a, b, i, j)
    decreases |a| - i, |b| - j
  {
    if i == |a| || j == |b| {
      ps := [];
    } else if a[i] == b[j] {
      var rest := LcsIsReached(a, b, i + 1, j + 1);
      ps := [(i, j)] + rest;
    } else if Lcs(a, b, i + 1, j) >= Lcs(a, b, i, j + 1) {
      ps := LcsIsReached(a, b, i + 1, j);
    } else {
      ps := LcsIsReached(a, b, i, j + 1);
    }
  }

  // Every cell holds the greatest length of any common subsequence of its suffixes.
  lemma CellIsTheOptimum(a: seq<Line>, b: seq<Line>, i: nat, j: nat)
    requires i <= |a| && j <= |b|
    ensures exists ps :: CommonSubsequence(a, b, i, j, ps) && |ps| == Lcs(a, b, i, j)
    ensures forall ps :: CommonSubsequence(a, b, i, j, ps) ==> |ps| <= Lcs(a, b, i, j)
  {
    var ps := LcsIsReached(a, b, i, j);
    forall qs | CommonSubsequence(a, b, i, j, qs) ensures |qs| <= Lcs(a, b, i, j) {
      LcsIsAnUpperBound(a, b, i, j, qs);
    }
  }

  // Shrinking either suffix never raises the optimum.
  lemma LcsShrinks(a: seq<Line>, b: seq<Line>, i: nat, j: nat, i': nat, j': nat)
    requires i <= i' <= |a| && j <= j' <= |b|
    ensures Lcs(a, b, i', j') <= Lcs(a, b, i, j)
  {
    var ps := LcsIsReached(a, b, i', j');
    assert CommonSubsequence(a, b, i, j, ps);
    LcsIsAnUpperBound(a, b, i, j, ps);
  }

  // ---- the walk --------------------------------------------------------------

  // Where the inner loop stops when it starts at (i, j).
  ghost function HunkEnd(a: seq<Line>, b: seq<Line>, i: nat, j: nat): (e: (nat, nat))
    requires i <= |a| && j <= |b|
    ensures i <= e.0 <= |a| && j <= e.1 <= |b|
    ensures i < |a| && j < |b| && a[i] != b[j] ==> e != (i, j)
    decreases |a| - i, |b| - j
  {
    if i < |a| && j < |b| && a[i] != b[j] then
      if Lcs(a, b, i + 1, j) >= Lcs(a, b, i, j + 1) then HunkEnd(a, b, i + 1, j) else HunkEnd(a, b, i, j + 1)
    else (i, j)
  }

  ghost function HunksFrom(a: seq<Line>, b: seq<Line>, i: nat, j: nat): seq<Change>
    requires i <= |a| && j <= |b|
    decreases |a| - i, |b| - j
  {
    if i < |a| && j < |b| then
      if a[i] == b[j] then HunksFrom(a, b, i + 1, j + 1)
      else
        var e := HunkEnd(a, b, i, j);
        [Change(i, e.0, j, e.1)] + HunksFrom(a, b, e.0, e.1)
    else if i < |a| || j < |b| then [Change(i, |a|, j, |b|)]
    else []
  }

  ghost function Hunks(a: seq<Line>, b: seq<Line>): seq<Change> {
    HunksFrom(a, b, 0, 0)
  }

  ghost predicate Cells(dp: array2<nat>, a: seq<Line>, b: seq<Line>) {
    dp.Length0 == |a| + 1 && dp.Length1 == |b| + 1
  }

  // Rows i and below hold the optimum.
  ghost predicate RowsFrom(dp: array2<nat>, a: seq<Line>, b: seq<Line>, i: nat)
    requires Cells(dp, a, b)
    reads dp
  {
    forall p, q :: i <= p <= |a| && 0 <= q <= |b| ==> dp[p, q] == Lcs(a, b, p, q)
  }

  // The inner loop of the fill: row i, from the row below it.
  method FillRow(dp: array2<nat>, before: seq<Line>, after: seq<Line>, i: nat)
    requires i < |before| && Cells(dp, before, after) && RowsFrom(dp, before, after, i + 1)
    requires dp[i, |after|] == 0
    modifies dp
    ensures RowsFrom(dp, before, after, i)
    ensures forall p, q :: 0 <= p < i && 0 <= q <= |after| ==> dp[p, q] == old(dp[p, q])
  {
    var j := |after|;
    while j > 0
      invariant 0 <= j <= |after|
      invariant forall q :: j <= q <= |after| ==> dp[i, q] == Lcs(before, after, i, q)
      invariant forall p, q :: 0 <= p <= |before| && p != i && 0 <= q <= |after| ==> dp[p, q] == old(dp[p, q])
    {
      j := j - 1;
      var below, diagonal := dp[i + 1, j], dp[i + 1, j + 1];
      assert below == Lcs(before, after, i + 1, j) && diagonal == Lcs(before, after, i + 1, j + 1);
      if before[i] == after[j] {
        dp[i, j] := diagonal + 1;
      } else {
        dp[i, j] := if below >= dp[i, j + 1] then below else dp[i, j + 1];
      }
    }
  }

  // The table, filled row by row from the bottom right corner.
  method FillTable(before: seq<Line>, after: seq<Line>) returns (dp: array2<nat>)
    ensures Cells(dp, before, after) && RowsFrom(dp, before, after, 0)
  {
    var n, m := |before|, |after|;
    dp := new nat[n + 1, m + 1]((_, _) => 0);
    var i := n;
    while i > 0
      invariant 0 <= i <= n
      invariant RowsFrom(dp, before, after, i)
      invariant forall p :: 0 <= p < i ==> dp[p, m] == 0
    {
      i := i - 1;
      FillRow(dp, before, after, i);
    }
  }

  // The forward walk: equal lines are skipped, and at each mismatch the side whose
  // cell keeps more of the optimum is advanced until the lines agree again.
  method Changes(before: seq<Line>, after: seq<Line>) returns (out: seq<Change>)
    ensures out == Hunks(before, after)
  {
    var n, m := |before|, |after|;
    var dp := FillTable(before, after);
    out := [];
    var k, l := 0, 0;
    while k < n && l < m
      invariant 0 <= k <= n && 0 <= l <= m
      invariant out + HunksFrom(before, after, k, l) == Hunks(before, after)
      decreases n - k, m - l
    {
      if before[k] == after[l] {
        k, l := k + 1, l + 1;
        continue;
      }
      var oldStart, newStart := k, l;
      while k < n && l < m && before[k] != after[l]
        invariant oldStart <= k <= n && newStart <= l <= m
        invariant HunkEnd(before, after, k, l) == HunkEnd(before, after, oldStart, newStart)
        decreases n - k, m - l
      {
        if dp[k + 1, l] >= dp[k, l + 1] {
          k := k + 1;
        } else {
          l := l + 1;
        }
      }
      ghost var rest := HunksFrom(before, after, k, l);
      assert HunksFrom(before, after, oldStart, newStart) == [Change(oldStart, k, newStart, l)] + rest;
      assert out + ([Change(oldStart, k, newStart, l)] + rest) == (out + [Change(oldStart, k, newStart, l)]) + rest;
      out := out + [Change(oldStart, k, newStart, l)];
    }
    if k < n || l < m {
      out := out + [Change(k, n, l, m)];
    }
  }

  // ---- the walk is optimal ---------------------------------------------------

  lemma {:induction false} WalkKeepsTheOptimum(a: seq<Line>, b: seq<Line>, i: nat, j: nat)
    requires i <= |a| && j <= |b|
    ensures var e := HunkEnd(a, b, i, j); Lcs(a, b, e.0, e.1) == Lcs(a, b, i, j)
    decreases |a| - i, |b| - j
  {
    if i < |a| && j < |b| && a[i] != b[j] {
      if Lcs(a, b, i + 1, j) >= Lcs(a, b, i, j + 1) {
        WalkKeepsTheOptimum(a, b, i + 1, j);
      } else {
        WalkKeepsTheOptimum(a, b, i, j + 1);
      }
    }
  }

  // Lines deleted plus lines inserted.
  ghost function Edits(hs: seq<Change>): int {
    if hs == [] then 0
    else hs[0].oldEnd - hs[0].oldStart + hs[0].newEnd - hs[0].newStart + Edits(hs[1..])
  }

  lemma {:induction false} EditCountFrom(a: seq<Line>, b: seq<Line>, i: nat, j: nat)
    requires i <= |a| && j <= |b|
    ensures Edits(HunksFrom(a, b, i, j)) == |a| - i + |b| - j - 2 * Lcs(a, b, i, j)
    decreases |a| - i, |b| - j
  {
    if i < |a| && j < |b| {
      if a[i] == b[j] {
        EditCountFrom(a, b, i + 1, j + 1);
      } else {
        var e := HunkEnd(a, b, i, j);
        WalkKeepsTheOptimum(a, b, i, j);
        EditCountFrom(a, b, e.0, e.1);
      }
    }
  }

  // ---- hunks as an edit script -----------------------------------------------

  // From (i, j) on, hs is in bounds and ordered, and the lines between its hunks
  // (and after the last one) are the same on both sides.
  ghost predicate Aligned(a: seq<Line>, b: seq<Line>, i: nat, j: nat, hs: seq<Change>)
    decreases |hs|
  {
    if hs == [] then i <= |a| && j <= |b| && a[i..] == b[j..]
    else
      var h := hs[0];
      && i <= h.oldStart <= h.oldEnd <= |a|
      && j <= h.newStart <= h.newEnd <= |b|
      && a[i..h.oldStart] == b[j..h.newStart]
      && Aligned(a, b, h.oldEnd, h.newEnd, hs[1..])
  }

  lemma {:induction false} AlignedFromAnEarlierLine(a: seq<Line>, b: seq<Line>, i: nat, j: nat, hs: seq<Change>)
    requires i < |a| && j < |b| && a[i] == b[j] && Aligned(a, b, i + 1, j + 1, hs)
    ensures Aligned(a, b, i, j, hs)
  {
  }

  lemma {:induction false} HunksAreAligned(a: seq<Line>, b: seq<Line>, i: nat, j: nat)
    requires i <= |a| && j <= |b|
    ensures Aligned(a, b, i, j, HunksFrom(a, b, i, j))
    decreases |a| - i, |b| - j
  {
    if i < |a| && j < |b| {
      if a[i] == b[j] {
        HunksAreAligned(a, b, i + 1, j + 1);
        AlignedFromAnEarlierLine(a, b, i, j, HunksFrom(a, b, i + 1, j + 1));
      } else {
        var e := HunkEnd(a, b, i, j);
        HunksAreAligned(a, b, e.0, e.1);
        assert HunksFrom(a, b, i, j)[1..] == HunksFrom(a, b, e.0, e.1);
      }
    }
  }

  // An aligned script keeps a common subsequence, so it cannot beat the optimum.
  lemma {:induction false} NoScriptIsShorter(a: seq<Line>, b: seq<Line>, i: nat, j: nat, hs: seq<Change>)
    requires i <= |a| && j <= |b| && Aligned(a, b, i, j, hs)
    ensures Edits(hs) >= |a| - i + |b| - j - 2 * Lcs(a, b, i, j)
    decreases |hs|
  {
    if hs == [] {
      MatchedRun(a, b, i, j, |a| - i);
    } else {
      var h := hs[0];
      assert |a[i..h.oldStart]| == |b[j..h.newStart]|;
      MatchedRun(a, b, i, j, h.oldStart - i);
      LcsShrinks(a, b, h.oldStart, h.newStart, h.oldEnd, h.newEnd);
      NoScriptIsShorter(a, b, h.oldEnd, h.newEnd, hs[1..]);
    }
  }

  lemma {:induction false} MatchedRun(a: seq<Line>, b: seq<Line>, i: nat, j: nat, g: nat)
    requires i + g <= |a| && j + g <= |b| && a[i..i + g] == b[j..j + g]
    ensures Lcs(a, b, i, j) == g + Lcs(a, b, i + g, j + g)
    decreases g
  {
    if g > 0 {
      assert a[i] == a[i..i + g][0] && b[j] == b[j..j + g][0];
      assert a[i + 1..i + g] == a[i..i + g][1..] && b[j + 1..j + g] == b[j..j + g][1..];
      MatchedRun(a, b, i + 1, j + 1, g - 1);
    }
  }

  // The number of changed lines, and its minimality among all edit scripts.
  lemma ChangesAreMinimal(a: seq<Line>, b: seq<Line>)
    ensures Edits(Hunks(a, b)) == |a| + |b| - 2 * Lcs(a, b, 0, 0)
    ensures Aligned(a, b, 0, 0, Hunks(a, b))
    ensures forall hs :: Aligned(a, b, 0, 0, hs) ==> Edits(Hunks(a, b)) <= Edits(hs)
  {
    EditCountFrom(a, b, 0, 0);
    HunksAreAligned(a, b, 0, 0);
    forall hs | Aligned(a, b, 0, 0, hs) ensures Edits(Hunks(a, b)) <= Edits(hs) {
      NoScriptIsShorter(a, b, 0, 0, hs);
    }
  }

  // ---- patching --------------------------------------------------------------

  // a[i..] with each hunk's old slice replaced by the slice of b it names.
  ghost function Patch(a: seq<Line>, b: seq<Line>, i: nat, hs: seq<Change>): seq<Line>
    requires exists j: nat :: Aligned(a, b, i, j, hs)
    decreases |hs|
  {
    if hs == [] then a[i..]
    else
      var h := hs[0];
      assert Aligned(a, b, h.oldEnd, h.newEnd, hs[1..]) by {
        var j: nat :| Aligned(a, b, i, j, hs);
      }
      a[i..h.oldStart] + b[h.newStart..h.newEnd] + Patch(a, b, h.oldEnd, hs[1..])
  }

  ghost function Flip(hs: seq<Change>): (r: seq<Change>)
    ensures |r| == |hs|
  {
    if hs == [] then []
    else [Change(hs[0].newStart, hs[0].newEnd, hs[0].oldStart, hs[0].oldEnd)] + Flip(hs[1..])
  }

  lemma {:induction false} FlipIsAligned(a: seq<Line>, b: seq<Line>, i: nat, j: nat, hs: seq<Change>)
    requires Aligned(a, b, i, j, hs)
    ensures Aligned(b, a, j, i, Flip(hs))
    decreases |hs|
  {
    if hs != [] {
      FlipIsAligned(a, b, hs[0].oldEnd, hs[0].newEnd, hs[1..]);
      assert Flip(hs)[1..] == Flip(hs[1..]);
    }
  }

  lemma {:induction false} PatchRebuilds(a: seq<Line>, b: seq<Line>, i: nat, j: nat, hs: seq<Change>)
    requires Aligned(a, b, i, j, hs)
    ensures Patch(a, b, i, hs) == b[j..]
    decreases |hs|
  {
    if hs != [] {
      var h := hs[0];
      PatchRebuilds(a, b, h.oldEnd, h.newEnd, hs[1..]);
      assert b[j..] == b[j..h.newStart] + b[h.newStart..h.newEnd] + b[h.newEnd..];
    }
  }

  // Replacing old slices by new ones rebuilds b, the reverse rebuilds a.
  lemma DiffRoundTrip(a: seq<Line>, b: seq<Line>)
    ensures Aligned(a, b, 0, 0, Hunks(a, b)) && Patch(a, b, 0, Hunks(a, b)) == b
    ensures Aligned(b, a, 0, 0, Flip(Hunks(a, b))) && Patch(b, a, 0, Flip(Hunks(a, b))) == a
    ensures Hunks(a, b) == [] <==> a == b
  {
    HunksAreAligned(a, b, 0, 0);
    FlipIsAligned(a, b, 0, 0, Hunks(a, b));
    PatchRebuilds(a, b, 0, 0, Hunks(a, b));
    PatchRebuilds(b, a, 0, 0, Flip(Hunks(a, b)));
    assert a[0..] == a && b[0..] == b;
    if a == b {
      NoHunksWhenEqual(a, 0);
    }
  }

  lemma {:induction false} NoHunksWhenEqual(a: seq<Line>, i: nat)
    requires i <= |a|
    ensures HunksFrom(a, a, i, i) == []
    decreases |a| - i
  {
    if i < |a| {
      NoHunksWhenEqual(a, i + 1);
    }
  }

  // ---- what optimality buys --------------------------------------------------

  // No line text occurs both in a[i..i'] and in b[j..j'].
  ghost predicate NoCommonLine(a: seq<Line>, b: seq<Line>, i: nat, i': nat, j: nat, j': nat)
    requires i' <= |a| && j' <= |b|
  {
    forall p, q :: i <= p < i' && j <= q < j' ==> a[p] != b[q]
  }

  // A common line would have lengthened the common subsequence.
  lemma OptimalMeansNoCommonLine(a: seq<Line>, b: seq<Line>, i: nat, i': nat, j: nat, j': nat)
    requires i <= i' <= |a| && j <= j' <= |b|
    requires Lcs(a, b, i, j) == Lcs(a, b, i', j')
    ensures NoCommonLine(a, b, i, i', j, j')
  {
    forall p, q | i <= p < i' && j <= q < j' ensures a[p] != b[q] {
      LcsShrinks(a, b, i, j, p, q);
      LcsShrinks(a, b, p + 1, q + 1, i', j');
    }
  }

  ghost predicate Touching(g: Change, h: Change) {
    g.oldEnd == h.oldStart && g.newEnd == h.newStart
  }

  // A non-empty hunk that keeps the optimum from its start to its end.
  ghost predicate TightHunk(a: seq<Line>, b: seq<Line>, h: Change) {
    && h.oldStart <= h.oldEnd <= |a| && h.newStart <= h.newEnd <= |b|
    && (h.oldStart < h.oldEnd || h.newStart < h.newEnd)
    && Lcs(a, b, h.oldStart, h.newStart) == Lcs(a, b, h.oldEnd, h.newEnd)
  }

  // Every hunk is tight, and of consecutive hunks only the last two can touch.
  ghost predicate Tight(a: seq<Line>, b: seq<Line>, hs: seq<Change>) {
    && (forall k :: 0 <= k < |hs| ==> TightHunk(a, b, hs[k]))
    && (forall k, l {:trigger Touching(hs[k], hs[l])} :: 0 <= k && l == k + 1 < |hs| - 1 ==> !Touching(hs[k], hs[l]))
  }

  lemma NextHunkIsApart(a: seq<Line>, b: seq<Line>, i: nat, j: nat)
    requires i < |a| && j < |b| && a[i] == b[j]
    ensures HunksFrom(a, b, i, j) != [] ==> HunksFrom(a, b, i, j)[0].oldStart > i
  {
    HunksAreAligned(a, b, i + 1, j + 1);
  }

  lemma {:induction false} HunksAreTight(a: seq<Line>, b: seq<Line>, i: nat, j: nat)
    requires i <= |a| && j <= |b|
    ensures Tight(a, b, HunksFrom(a, b, i, j))
    decreases |a| - i, |b| - j
  {
    if i < |a| && j < |b| {
      if a[i] == b[j] {
        HunksAreTight(a, b, i + 1, j + 1);
      } else {
        var e := HunkEnd(a, b, i, j);
        WalkKeepsTheOptimum(a, b, i, j);
        HunkEndStops(a, b, i, j);
        HunksAreTight(a, b, e.0, e.1);
        if e.0 < |a| && e.1 < |b| {
          NextHunkIsApart(a, b, e.0, e.1);
        }
        TightGrows(a, b, Change(i, e.0, j, e.1), HunksFrom(a, b, e.0, e.1));
      }
    }
  }

  lemma TightGrows(a: seq<Line>, b: seq<Line>, h: Change, rest: seq<Change>)
    requires TightHunk(a, b, h) && Tight(a, b, rest)
    requires |rest| > 1 ==> !Touching(h, rest[0])
    ensures Tight(a, b, [h] + rest)
  {
  }

  lemma {:induction false} HunkEndStops(a: seq<Line>, b: seq<Line>, i: nat, j: nat)
    requires i <= |a| && j <= |b|
    ensures var e := HunkEnd(a, b, i, j); e.0 == |a| || e.1 == |b| || a[e.0] == b[e.1]
    decreases |a| - i, |b| - j
  {
    if i < |a| && j < |b| && a[i] != b[j] {
      HunkEndStops(a, b, i + 1, j);
      HunkEndStops(a, b, i, j + 1);
    }
  }

  // No line occurs on both sides of a hunk, nor of two hunks that touch.
  lemma HunkSidesShareNoLine(a: seq<Line>, b: seq<Line>)
    ensures var hs := Hunks(a, b);
      && Tight(a, b, hs)
      && (forall k :: 0 <= k < |hs| ==>
            NoCommonLine(a, b, hs[k].oldStart, hs[k].oldEnd, hs[k].newStart, hs[k].newEnd))
      && (forall k, l {:trigger Touching(hs[k], hs[l])} :: 0 <= k && l == k + 1 < |hs| && Touching(hs[k], hs[l]) ==>
            NoCommonLine(a, b, hs[k].oldStart, hs[l].oldEnd, hs[k].newStart, hs[l].newEnd))
  {
    HunksAreTight(a, b, 0, 0);
    var hs := Hunks(a, b);
    forall k | 0 <= k < |hs|
      ensures NoCommonLine(a, b, hs[k].oldStart, hs[k].oldEnd, hs[k].newStart, hs[k].newEnd)
    {
      OptimalMeansNoCommonLine(a, b, hs[k].oldStart, hs[k].oldEnd, hs[k].newStart, hs[k].newEnd);
    }
    forall k, l {:trigger Touching(hs[k], hs[l])} | 0 <= k && l == k + 1 < |hs| && Touching(hs[k], hs[l])
      ensures NoCommonLine(a, b, hs[k].oldStart, hs[l].oldEnd, hs[k].newStart, hs[l].newEnd)
    {
      assert TightHunk(a, b, hs[k]) && TightHunk(a, b, hs[l]);
      OptimalMeansNoCommonLine(a, b, hs[k].oldStart, hs[l].oldEnd, hs[k].newStart, hs[l].newEnd);
    }
  }

  // ---- the matched runs around a hunk ----------------------------------------

  // Lines between hunk k and the hunk (or the top of the file) above it.
  ghost function RunAbove(i: nat, hs: seq<Change>, k: nat): int
    requires k < |hs|
  {
    hs[k].oldStart - (if k == 0 then i else hs[k - 1].oldEnd)
  }

  // Lines between hunk k and the hunk (or the end of the file) below it.
  ghost function RunBelow(a: seq<Line>, hs: seq<Change>, k: nat): int
    requires k < |hs|
  {
    (if k + 1 == |hs| then |a| else hs[k + 1].oldStart) - hs[k].oldEnd
  }

  // run lines up to p and q are pairwise equal.
  ghost predicate MatchedAbove(a: seq<Line>, b: seq<Line>, p: nat, q: nat, run: int) {
    0 <= run <= p <= |a| && run <= q <= |b| && a[p - run..p] == b[q - run..q]
  }

  // run lines from p and q on are pairwise equal.
  ghost predicate MatchedBelow(a: seq<Line>, b: seq<Line>, p: nat, q: nat, run: int) {
    0 <= run && p + run <= |a| && q + run <= |b| && a[p..p + run] == b[q..q + run]
  }

  lemma EqualSlices(a: seq<Line>, b: seq<Line>, i: nat, i': nat, j: nat, j': nat)
    requires i <= i' <= |a| && j <= j' <= |b| && a[i..i'] == b[j..j']
    ensures i' - i == j' - j && MatchedAbove(a, b, i', j', i' - i) && MatchedBelow(a, b, i, j, i' - i)
  {
    assert |a[i..i']| == |b[j..j']|;
  }

  lemma FirstRunMatches(a: seq<Line>, b: seq<Line>, i: nat, j: nat, hs: seq<Change>)
    requires hs != [] && Aligned(a, b, i, j, hs)
    ensures MatchedAbove(a, b, hs[0].oldStart, hs[0].newStart, RunAbove(i, hs, 0))
  {
    EqualSlices(a, b, i, hs[0].oldStart, j, hs[0].newStart);
  }

  lemma LastRunMatches(a: seq<Line>, b: seq<Line>, i: nat, j: nat, h: Change)
    requires Aligned(a, b, i, j, [h])
    ensures MatchedBelow(a, b, h.oldEnd, h.newEnd, RunBelow(a, [h], 0))
  {
    assert [h][1..] == [];
    assert a[h.oldEnd..] == a[h.oldEnd..|a|] && b[h.newEnd..] == b[h.newEnd..|b|];
    EqualSlices(a, b, h.oldEnd, |a|, h.newEnd, |b|);
  }

  lemma NextRunMatches(a: seq<Line>, b: seq<Line>, i: nat, j: nat, hs: seq<Change>)
    requires |hs| > 1 && Aligned(a, b, i, j, hs)
    ensures MatchedBelow(a, b, hs[0].oldEnd, hs[0].newEnd, RunBelow(a, hs, 0))
  {
    var rest := hs[1..];
    assert rest[0] == hs[1];
    EqualSlices(a, b, hs[0].oldEnd, rest[0].oldStart, hs[0].newEnd, rest[0].newStart);
  }

  lemma RunsInTail(a: seq<Line>, i: nat, hs: seq<Change>, k: nat)
    requires 0 < k < |hs|
    ensures hs[k] == hs[1..][k - 1]
    ensures RunAbove(i, hs, k) == RunAbove(hs[0].oldEnd, hs[1..], k - 1)
    ensures RunBelow(a, hs, k) == RunBelow(a, hs[1..], k - 1)
  {
  }

  // The lines between a hunk and its neighbours, or the file edges, match pairwise.
  lemma {:induction false} RunsMatch(a: seq<Line>, b: seq<Line>, i: nat, j: nat, hs: seq<Change>, k: nat)
    requires k < |hs| && Aligned(a, b, i, j, hs)
    ensures hs[k].oldStart <= hs[k].oldEnd && hs[k].newStart <= hs[k].newEnd
    ensures MatchedAbove(a, b, hs[k].oldStart, hs[k].newStart, RunAbove(i, hs, k))
    ensures MatchedBelow(a, b, hs[k].oldEnd, hs[k].newEnd, RunBelow(a, hs, k))
    decreases k
  {
    if k > 0 {
      RunsInTail(a, i, hs, k);
      RunsMatch(a, b, hs[0].oldEnd, hs[0].newEnd, hs[1..], k - 1);
    } else {
      FirstRunMatches(a, b, i, j, hs);
      if |hs| > 1 {
        NextRunMatches(a, b, i, j, hs);
      } else {
        LastRunMatches(a, b, i, j, hs[0]);
      }
    }
  }
}
