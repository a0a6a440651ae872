// What windows, deltas and reports hold, said without running the analysis
// (internal/semdiff/semdiff.go).
module Windowing {
  import opened Outcomes
  import opened Text
  import opened LineDiff
  import opened Propagation

  // ---- window texts ----------------------------------------------------------

  // Line p of a file is in the window of radius r around lines start to end.
  predicate InWindow(start: nat, end: nat, side: Side, r: nat, p: nat) {
    || start <= p < end
    || (side == Up && p < start && start - p <= r)
    || (side == Down && p >= end && p - end < r)
  }

  // The lines of a file at the positions kept, in file order.
  function Kept(lines: seq<Line>, keep: nat -> bool): seq<Line> {
    if lines == [] then []
    else
      var n := |lines| - 1;
      Kept(lines[..n], keep) + if keep(n) then [lines[n]] else []
  }

  lemma SliceOfPrefix(lines: seq<Line>, n: nat, lo: nat, hi: nat)
    requires lo <= hi <= n <= |lines|
    ensures lines[..n][lo..hi] == lines[lo..hi]
  {
    var x, y := lines[..n][lo..hi], lines[lo..hi];
    assert |x| == |y|;
    forall k | 0 <= k < |x| ensures x[k] == y[k] {
      assert x[k] == lines[..n][lo + k] == lines[lo + k];
    }
  }

  lemma SliceAndLast(lines: seq<Line>, n: nat, lo: nat)
    requires lo <= n < |lines|
    ensures lines[lo..n] + [lines[n]] == lines[lo..n + 1]
  {
  }

  lemma {:induction false} KeptInterval(lines: seq<Line>, keep: nat -> bool, lo: nat, hi: nat)
    requires lo <= hi <= |lines| && forall p: nat :: p < |lines| ==> (keep(p) <==> lo <= p < hi)
    ensures Kept(lines, keep) == lines[lo..hi]
    decreases |lines|
  {
    if lines != [] {
      var n := |lines| - 1;
      KeptInterval(lines[..n], keep, Cap(lo, n), Cap(hi, n));
      if hi <= n {
        SliceOfPrefix(lines, n, lo, hi);
      } else if lo <= n {
        SliceOfPrefix(lines, n, lo, n);
        SliceAndLast(lines, n, lo);
      }
    }
  }

  function Inside(start: nat, end: nat, side: Side, r: nat): nat -> bool {
    (p: nat) => InWindow(start, end, side, r, p)
  }

  function WindowText(lines: seq<Line>, start: nat, end: nat, side: Side, r: nat): string {
    Join(Kept(lines, Inside(start, end, side, r)), "\n")
  }

  lemma SideText(lines: seq<Line>, start: nat, end: nat, side: Side, r: nat, lo: nat, hi: nat)
    requires start <= end <= |lines| && lo <= hi <= |lines|
    requires forall p: nat :: p < |lines| ==> (InWindow(start, end, side, r, p) <==> lo <= p < hi)
    ensures WindowText(lines, start, end, side, r) == Core(lines, lo, hi)
  {
    KeptInterval(lines, Inside(start, end, side, r), lo, hi);
  }

  // For every hunk, side and radius, past the matched run and the file edges too, each
  // text holds exactly the lines of the hunk and those within r lines of it on that side.
  lemma WindowHoldsItsLines(a: seq<Line>, b: seq<Line>, ch: Change, side: Side, r: nat)
    requires InFiles(a, b, ch)
    ensures Windows(a, b, ch, side)(r).oldText == WindowText(a, ch.oldStart, ch.oldEnd, side, r)
    ensures Windows(a, b, ch, side)(r).newText == WindowText(b, ch.newStart, ch.newEnd, side, r)
  {
    match side {
      case Up =>
        SideText(a, ch.oldStart, ch.oldEnd, Up, r, Floor(ch.oldStart - r), ch.oldEnd);
        SideText(b, ch.newStart, ch.newEnd, Up, r, Floor(ch.newStart - r), ch.newEnd);
      case Down =>
        SideText(a, ch.oldStart, ch.oldEnd, Down, r, ch.oldStart, Cap(ch.oldEnd + r, |a|));
        SideText(b, ch.newStart, ch.newEnd, Down, r, ch.newStart, Cap(ch.newEnd + r, |b|));
    }
  }

  // From the radius that reaches the farther edge on, the texts are the whole of that
  // side and the changed region.
  lemma WindowIsWholeSide(a: seq<Line>, b: seq<Line>, ch: Change, side: Side, r: nat)
    requires InFiles(a, b, ch) && r >= Reach(a, b, ch, side)
    ensures var w := Windows(a, b, ch, side)(r);
      && w.atBoundary
      && match side
      case Up => w.oldText == Join(a[..ch.oldEnd], "\n") && w.newText == Join(b[..ch.newEnd], "\n")
      case Down => w.oldText == Join(a[ch.oldStart..], "\n") && w.newText == Join(b[ch.newStart..], "\n")
  {
    assert a[ch.oldStart..] == a[ch.oldStart..|a|] && b[ch.newStart..] == b[ch.newStart..|b|];
  }

  // ---- deltas ----------------------------------------------------------------

  // Equal texts are at delta 0 without being embedded. Of others the delta is what the
  // similarity lacks to 1, at least 0 and at most 1, and the first text that cannot be
  // embedded gives the error.
  lemma DeltaMeasures(emb: Embedder, x: string, y: string)
    ensures x == y ==> Delta(emb, x, y) == Ok(0.0)
    ensures x != y && emb.embed(x).Err? ==> Delta(emb, x, y) == Err(emb.embed(x).message)
    ensures x != y && emb.embed(x).Ok? && emb.embed(y).Err? ==> Delta(emb, x, y) == Err(emb.embed(y).message)
    ensures x != y && emb.embed(x).Ok? && emb.embed(y).Ok? ==>
      var sim := emb.similarity(emb.embed(x).value, emb.embed(y).value);
      && (0.0 <= sim <= 1.0 ==> Delta(emb, x, y) == Ok(1.0 - sim))
      && (sim > 1.0 ==> Delta(emb, x, y) == Ok(0.0))
      && (sim < 0.0 ==> Delta(emb, x, y) == Ok(1.0))
  {
  }

  // ---- reports ---------------------------------------------------------------

  // The report of a hunk: the delta of its two sides' lines, the curve of the windows on
  // each side from radius 2, and the verdict these carry at the bar pf.
  ghost predicate IsReport(emb: Embedder, a: seq<Line>, b: seq<Line>, ch: Change, pf: real, r: Report)
    requires InFiles(a, b, ch)
  {
    && r.change == ch
    && Delta(emb, Join(a[ch.oldStart..ch.oldEnd], "\n"), Join(b[ch.newStart..ch.newEnd], "\n")) == Ok(r.signal2)
    && IsCurve(emb, Windows(a, b, ch, Up), Reach(a, b, ch, Up), r.signal2, 2, r.up)
    && IsCurve(emb, Windows(a, b, ch, Down), Reach(a, b, ch, Down), r.signal2, 2, r.down)
    && r.verdict != NoChange
    && (r.verdict == Structural <==> Carried(a, b, r, pf))
    && (r.verdict == LocalizedTweak <==> !Carried(a, b, r, pf) && r.signal2 >= 0.15)
  }

  lemma HunkReportIs(emb: Embedder, a: seq<Line>, b: seq<Line>, ch: Change, pf: real)
    requires InFiles(a, b, ch) && HunkReport(emb, a, b, ch, pf).Ok?
    ensures IsReport(emb, a, b, ch, pf, HunkReport(emb, a, b, ch, pf).value)
  {
    var s2 := HunkReport(emb, a, b, ch, pf).value.signal2;
    RippleIsCurve(emb, Windows(a, b, ch, Up), Reach(a, b, ch, Up), s2, 2);
    RippleIsCurve(emb, Windows(a, b, ch, Down), Reach(a, b, ch, Down), s2, 2);
    StructuralMeansCarried(emb, a, b, ch, pf);
  }

  // An analysis that succeeds reports each hunk, in order, at the embedder's own bar or
  // at six tenths of the point delta.
  lemma AnalysisReportsEachHunk(emb: Embedder, a: seq<Line>, b: seq<Line>)
    requires Analysis(emb, a, b).Ok?
    ensures var rs, hs := Analysis(emb, a, b).value, Hunks(a, b);
      var pf := match emb.persistFrac case Some(f) => f case None => 0.60;
      |rs| == |hs| && forall k :: 0 <= k < |hs| ==> InFiles(a, b, hs[k]) && IsReport(emb, a, b, hs[k], pf, rs[k])
  {
    var hs, pf := Hunks(a, b), PersistFracFor(emb);
    HunksAreInFiles(a, b);
    forall k | 0 <= k < |hs|
      ensures |Analysis(emb, a, b).value| == |hs| && IsReport(emb, a, b, hs[k], pf, Analysis(emb, a, b).value[k])
    {
      ReportsAt(emb, a, b, hs, pf, k);
      HunkReportIs(emb, a, b, hs[k], pf);
    }
  }

  // ---- failures --------------------------------------------------------------

  // Every text but the last was embedded, and the last one failed with that error.
  ghost predicate FailsWith(emb: Embedder, trace: seq<string>, message: string) {
    && trace != [] && emb.embed(trace[|trace| - 1]) == Err(message)
    && forall k :: 0 <= k < |trace| - 1 ==> emb.embed(trace[k]).Ok?
  }

  ghost predicate AllEmbed(emb: Embedder, trace: seq<string>) {
    forall k :: 0 <= k < |trace| ==> emb.embed(trace[k]).Ok?
  }

  // A result together with the texts that were embedded for it.
  ghost predicate Accounts<T>(emb: Embedder, r: Result<T>, trace: seq<string>) {
    match r
    case Ok(_) => AllEmbed(emb, trace)
    case Err(m) => FailsWith(emb, trace, m)
  }

  lemma AccountsAfter<T>(emb: Embedder, x: seq<string>, r: Result<T>, y: seq<string>)
    requires AllEmbed(emb, x) && Accounts(emb, r, y)
    ensures Accounts(emb, r, x + y)
  {
  }

  lemma DeltaAccounts(emb: Embedder, x: string, y: string)
    ensures Accounts(emb, Delta(emb, x, y), DeltaTrace(emb, x, y))
  {
  }

  lemma {:induction false} RippleAccounts(emb: Embedder, w: nat -> Window, reach: nat, prev: real, r: nat)
    requires ReachesEdgesAt(w, reach)
    ensures Accounts(emb, Ripple(emb, w, reach, prev, r), RippleTrace(emb, w, reach, prev, r))
    decreases Floor(reach - r)
  {
    DeltaAccounts(emb, w(r).oldText, w(r).newText);
    if GoesOn(emb, w, prev, r) {
      var delta := DeltaAt(emb, w, r).value;
      RippleAccounts(emb, w, reach, delta, r + 2);
      AccountsAfter(emb, WindowTrace(emb, w, r), Ripple(emb, w, reach, delta, r + 2), RippleTrace(emb, w, reach, delta, r + 2));
    }
  }

  lemma HunkAccounts(emb: Embedder, a: seq<Line>, b: seq<Line>, ch: Change, pf: real)
    requires InFiles(a, b, ch)
    ensures Accounts(emb, HunkReport(emb, a, b, ch, pf), HunkTrace(emb, a, b, ch))
  {
    DeltaAccounts(emb, Core(a, ch.oldStart, ch.oldEnd), Core(b, ch.newStart, ch.newEnd));
    var core, s2 := CoreTrace(emb, a, b, ch), CoreDelta(emb, a, b, ch);
    if s2.Ok? {
      var up := SideTrace(emb, a, b, ch, Up, s2.value);
      RippleAccounts(emb, Windows(a, b, ch, Up), Reach(a, b, ch, Up), s2.value, 2);
      AccountsAfter(emb, core, SideCurve(emb, a, b, ch, Up, s2.value), up);
      if SideCurve(emb, a, b, ch, Up, s2.value).Ok? {
        RippleAccounts(emb, Windows(a, b, ch, Down), Reach(a, b, ch, Down), s2.value, 2);
        AccountsAfter(emb, core + up, SideCurve(emb, a, b, ch, Down, s2.value), SideTrace(emb, a, b, ch, Down, s2.value));
      }
    }
  }

  lemma {:induction false} ReportsAccount(emb: Embedder, a: seq<Line>, b: seq<Line>, hs: seq<Change>, pf: real)
    requires forall k :: 0 <= k < |hs| ==> InFiles(a, b, hs[k])
    ensures Accounts(emb, Reports(emb, a, b, hs, pf), ReportsTrace(emb, a, b, hs, pf))
  {
    if hs != [] {
      HunkAccounts(emb, a, b, hs[0], pf);
      ReportsAccount(emb, a, b, hs[1..], pf);
      if HunkReport(emb, a, b, hs[0], pf).Ok? {
        AccountsAfter(emb, HunkTrace(emb, a, b, hs[0]), Reports(emb, a, b, hs[1..], pf), ReportsTrace(emb, a, b, hs[1..], pf));
      }
    }
  }

  // An analysis fails exactly at the first text that cannot be embedded, with its error:
  // nothing is embedded after it.
  lemma AnalysisFailsAtTheFirstError(emb: Embedder, a: seq<Line>, b: seq<Line>)
    ensures Accounts(emb, Analysis(emb, a, b), AnalysisTrace(emb, a, b))
  {
    HunksAreInFiles(a, b);
    ReportsAccount(emb, a, b, Hunks(a, b), PersistFracFor(emb));
  }
}
