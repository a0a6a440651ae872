// The propagation analysis around each hunk, and the memo shared by all its
// windows (internal/semdiff/semdiff.go). Floats are modelled as reals.
module Propagation {
  import opened Outcomes
  import opened Text
  import opened LineDiff

  type Vector = seq<real>

  // A deterministic embedder. similarity stands for the cosine of two vectors;
  // persistFrac is present when the embedder is calibrated.
  datatype Embedder = Embedder(
    embed: string -> Result<Vector>,
    similarity: (Vector, Vector) -> real,
    persistFrac: Option<real>)

  datatype Side = Up | Down

  datatype Sample = Sample(radius: nat, delta: real)

  datatype Direction = Direction(curve: seq<Sample>, stoppedAtBoundary: bool)

  // NoChange is the empty classification.
  datatype Verdict = NoChange | MinorEdit | LocalizedTweak | Structural

  datatype Report = Report(change: Change, signal2: real, up: Direction, down: Direction, verdict: Verdict)

  const FLATTEN_EPS: real := 0.02
  const LOCAL_THRESH: real := 0.15
  const STRUCT_MIN_DELTA: real := 0.15
  const PERSIST_FRAC: real := 0.60

  function PersistFracFor(emb: Embedder): real {
    if emb.persistFrac.Some? then emb.persistFrac.value else PERSIST_FRAC
  }

  function Abs(x: real): real {
    if x < 0.0 then -x else x
  }

  // ---- the delta of two texts ------------------------------------------------

  function Clamp(d: real): (r: real)
    ensures 0.0 <= r <= 1.0
  {
    if d < 0.0 then 0.0 else if d > 1.0 then 1.0 else d
  }

  function Delta(emb: Embedder, x: string, y: string): (r: Result<real>)
    ensures r.Ok? ==> 0.0 <= r.value <= 1.0
  {
    if x == y then Ok(0.0)
    else
      var vx :- emb.embed(x);
      var vy :- emb.embed(y);
      Ok(Clamp(1.0 - emb.similarity(vx, vy)))
  }

  // The embedder as an object: every text handed to it is logged.
  class Service {
    const emb: Embedder
    ghost var calls: seq<string>

    constructor (emb: Embedder)
      ensures this.emb == emb && calls == []
    {
      this.emb, calls := emb, [];
    }

    method Embed(t: string) returns (r: Result<Vector>)
      modifies this`calls
      ensures r == emb.embed(t)
      ensures calls == old(calls) + [t]
    {
      calls := calls + [t];
      r := emb.embed(t);
    }
  }

  // The memo from text to vector that every hunk and window of one analysis shares.
  class Memo {
    const service: Service
    var vectors: map<string, Vector>
    ghost const earlier: seq<string>
    // The texts handed to the embedder since the memo was made.
    ghost var asked: seq<string>

    // Each stored vector is the embedder's own, and what is stored is what was
    // embedded without an error.
    ghost predicate Sound()
      reads this, service
    {
      && service.calls == earlier + asked
      && (forall t :: t in vectors ==> service.emb.embed(t) == Ok(vectors[t]))
      && (forall t :: t in vectors <==> t in asked && service.emb.embed(t).Ok?)
    }

    // Every call so far succeeded.
    ghost predicate Clean()
      reads this
    {
      forall t :: t in asked ==> t in vectors
    }

    constructor (service: Service)
      ensures this.service == service && earlier == service.calls && asked == []
      ensures Sound() && Clean()
    {
      this.service, vectors, earlier, asked := service, map[], service.calls, [];
    }

    method EmbedOne(t: string) returns (r: Result<Vector>)
      requires Sound() && Clean()
      modifies this, service`calls
      ensures r == service.emb.embed(t)
      ensures Sound() && (r.Ok? ==> Clean())
      ensures asked == OneMore(old(asked), t)
    {
      if t in vectors {
        return Ok(vectors[t]);
      }
      r := service.Embed(t);
      asked := asked + [t];
      if r.Ok? {
        vectors := vectors[t := r.value];
      }
    }

    method DeltaText(x: string, y: string) returns (r: Result<real>)
      requires Sound() && Clean()
      modifies this, service`calls
      ensures r == Delta(service.emb, x, y)
      ensures Sound() && (r.Ok? ==> Clean())
      ensures asked == WithFirsts(old(asked), DeltaTrace(service.emb, x, y))
    {
      if x == y {
        return Ok(0.0);
      }
      FirstsOfOne(asked, x);
      FirstsOfTwo(asked, x, y);
      var vx := EmbedOne(x);
      if vx.Err? {
        return Err(vx.message);
      }
      var vy := EmbedOne(y);
      if vy.Err? {
        return Err(vy.message);
      }
      r := Ok(Clamp(1.0 - service.emb.similarity(vx.value, vy.value)));
    }

    // Grows the window by two lines at a time until the curve flattens or both
    // file edges are reached.
    method Expand(s2: real, w: nat -> Window, ghost reach: nat) returns (r: Result<Direction>)
      requires ReachesEdgesAt(w, reach)
      requires Sound() && Clean()
      modifies this, service`calls
      ensures r == Ripple(service.emb, w, reach, s2, 2)
      ensures Sound() && (r.Ok? ==> Clean())
      ensures asked == WithFirsts(old(asked), RippleTrace(service.emb, w, reach, s2, 2))
    {
      ghost var emb := service.emb;
      ghost var trace := RippleTrace(emb, w, reach, s2, 2);
      var prev, curve, radius := s2, [], 2;
      AfterNothing(Ripple(emb, w, reach, s2, 2));
      while true
        invariant radius >= 2
        invariant Sound() && Clean()
        invariant Ripple(emb, w, reach, s2, 2) == After(curve, Ripple(emb, w, reach, prev, radius))
        invariant WithFirsts(old(asked), trace) == WithFirsts(asked, RippleTrace(emb, w, reach, prev, radius))
        decreases reach - radius
      {
        var window := w(radius);
        ghost var before := asked;
        var delta := DeltaText(window.oldText, window.newText);
        RippleStep(emb, w, reach, prev, radius, curve);
        RippleTraceStep(emb, w, reach, prev, radius, before);
        if delta.Err? {
          return Err(delta.message);
        }
        curve := curve + [Sample(radius, delta.value)];
        if Abs(delta.value - prev) < FLATTEN_EPS {
          return Ok(Direction(curve, false));
        }
        if window.atBoundary {
          return Ok(Direction(curve, true));
        }
        prev, radius := delta.value, radius + 2;
      }
    }

    method AnalyzeChange(a: seq<Line>, b: seq<Line>, ch: Change, pf: real) returns (r: Result<Report>)
      requires InFiles(a, b, ch)
      requires Sound() && Clean()
      modifies this, service`calls
      ensures r == HunkReport(service.emb, a, b, ch, pf)
      ensures Sound() && (r.Ok? ==> Clean())
      ensures asked == WithFirsts(old(asked), HunkTrace(service.emb, a, b, ch))
    {
      ghost var before := asked;
      var s2 := DeltaText(Core(a, ch.oldStart, ch.oldEnd), Core(b, ch.newStart, ch.newEnd));
      HunkTraceSteps(service.emb, a, b, ch, before);
      if s2.Err? {
        return Err(s2.message);
      }
      var up := Expand(s2.value, Windows(a, b, ch, Up), Reach(a, b, ch, Up));
      if up.Err? {
        return Err(up.message);
      }
      var down := Expand(s2.value, Windows(a, b, ch, Down), Reach(a, b, ch, Down));
      if down.Err? {
        return Err(down.message);
      }
      r := Ok(Report(ch, s2.value, up.value, down.value, Classify(s2.value, up.value, down.value, pf)));
    }
  }

  // ---- windows ---------------------------------------------------------------

  predicate InFiles(a: seq<Line>, b: seq<Line>, ch: Change) {
    ch.oldStart <= ch.oldEnd <= |a| && ch.newStart <= ch.newEnd <= |b|
  }

  function Core(lines: seq<Line>, from: nat, to: nat): string
    requires from <= to <= |lines|
  {
    Join(lines[from..to], "\n")
  }

  datatype Window = Window(oldText: string, newText: string, atBoundary: bool)

  function Floor(x: int): nat {
    if x < 0 then 0 else x
  }

  function Cap(x: nat, cap: nat): nat {
    if x < cap then x else cap
  }

  // The changed region grown by r lines toward one edge, on both sides.
  function WindowAt(a: seq<Line>, b: seq<Line>, ch: Change, side: Side, r: nat): Window
    requires InFiles(a, b, ch)
  {
    match side
    case Up =>
      var oS, nS := Floor(ch.oldStart - r), Floor(ch.newStart - r);
      Window(Core(a, oS, ch.oldEnd), Core(b, nS, ch.newEnd), oS == 0 && nS == 0)
    case Down =>
      var oE, nE := Cap(ch.oldEnd + r, |a|), Cap(ch.newEnd + r, |b|);
      Window(Core(a, ch.oldStart, oE), Core(b, ch.newStart, nE), oE == |a| && nE == |b|)
  }

  function Windows(a: seq<Line>, b: seq<Line>, ch: Change, side: Side): nat -> Window
    requires InFiles(a, b, ch)
  {
    (r: nat) => WindowAt(a, b, ch, side, r)
  }

  // The windows first report the boundary at radius reach, and do so ever after.
  ghost predicate ReachesEdgesAt(w: nat -> Window, reach: nat) {
    forall r: nat :: w(r).atBoundary <==> r >= reach
  }

  // Distance to the farther of the two file edges on one side of the hunk.
  ghost function Reach(a: seq<Line>, b: seq<Line>, ch: Change, side: Side): (d: nat)
    requires InFiles(a, b, ch)
    ensures ReachesEdgesAt(Windows(a, b, ch, side), d)
  {
    match side
    case Up => Max(ch.oldStart, ch.newStart)
    case Down => Max(|a| - ch.oldEnd, |b| - ch.newEnd)
  }

  // ---- cache-free evaluation -------------------------------------------------

  ghost function After(head: seq<Sample>, tail: Result<Direction>): Result<Direction> {
    match tail
    case Ok(d) => Ok(Direction(head + d.curve, d.stoppedAtBoundary))
    case Err(m) => Err(m)
  }

  lemma AfterNothing(d: Result<Direction>)
    ensures After([], d) == d
  {
    if d.Ok? {
      assert [] + d.value.curve == d.value.curve;
    }
  }

  lemma AfterTwice(x: seq<Sample>, y: seq<Sample>, d: Result<Direction>)
    ensures After(x, After(y, d)) == After(x + y, d)
  {
    if d.Ok? {
      assert x + (y + d.value.curve) == (x + y) + d.value.curve;
    }
  }

  function DeltaAt(emb: Embedder, w: nat -> Window, r: nat): Result<real> {
    Delta(emb, w(r).oldText, w(r).newText)
  }

  // The curve from radius r on, when the previous delta was prev.
  ghost function Ripple(emb: Embedder, w: nat -> Window, reach: nat, prev: real, r: nat): Result<Direction>
    requires ReachesEdgesAt(w, reach)
    decreases Floor(reach - r)
  {
    var delta :- DeltaAt(emb, w, r);
    var here := [Sample(r, delta)];
    if Abs(delta - prev) < FLATTEN_EPS then Ok(Direction(here, false))
    else if w(r).atBoundary then Ok(Direction(here, true))
    else After(here, Ripple(emb, w, reach, delta, r + 2))
  }

  function Persists(s2: real, d: Direction, pf: real): bool {
    && d.stoppedAtBoundary && d.curve != []
    && var last := d.curve[|d.curve| - 1].delta;
       last >= STRUCT_MIN_DELTA && last >= s2 * pf
  }

  function Classify(s2: real, up: Direction, down: Direction, pf: real): Verdict {
    if Persists(s2, up, pf) || Persists(s2, down, pf) then Structural
    else if s2 >= LOCAL_THRESH then LocalizedTweak
    else MinorEdit
  }

  ghost function SideCurve(emb: Embedder, a: seq<Line>, b: seq<Line>, ch: Change, side: Side, s2: real): Result<Direction>
    requires InFiles(a, b, ch)
  {
    Ripple(emb, Windows(a, b, ch, side), Reach(a, b, ch, side), s2, 2)
  }

  ghost function HunkReport(emb: Embedder, a: seq<Line>, b: seq<Line>, ch: Change, pf: real): Result<Report>
    requires InFiles(a, b, ch)
  {
    var s2 :- Delta(emb, Core(a, ch.oldStart, ch.oldEnd), Core(b, ch.newStart, ch.newEnd));
    var up :- SideCurve(emb, a, b, ch, Up, s2);
    var down :- SideCurve(emb, a, b, ch, Down, s2);
    Ok(Report(ch, s2, up, down, Classify(s2, up, down, pf)))
  }

  ghost function Reports(emb: Embedder, a: seq<Line>, b: seq<Line>, hs: seq<Change>, pf: real): Result<seq<Report>>
    requires forall k :: 0 <= k < |hs| ==> InFiles(a, b, hs[k])
  {
    if hs == [] then Ok([])
    else
      var first :- HunkReport(emb, a, b, hs[0], pf);
      var rest :- Reports(emb, a, b, hs[1..], pf);
      Ok([first] + rest)
  }

  // ---- the texts that cache-free evaluation embeds, in order ------------------

  ghost function DeltaTrace(emb: Embedder, x: string, y: string): seq<string> {
    if x == y then [] else if emb.embed(x).Err? then [x] else [x, y]
  }

  ghost function WindowTrace(emb: Embedder, w: nat -> Window, r: nat): seq<string> {
    DeltaTrace(emb, w(r).oldText, w(r).newText)
  }

  // Whether the loop goes on after radius r.
  ghost predicate GoesOn(emb: Embedder, w: nat -> Window, prev: real, r: nat) {
    var delta := DeltaAt(emb, w, r);
    delta.Ok? && Abs(delta.value - prev) >= FLATTEN_EPS && !w(r).atBoundary
  }

  ghost function RippleTrace(emb: Embedder, w: nat -> Window, reach: nat, prev: real, r: nat): seq<string>
    requires ReachesEdgesAt(w, reach)
    decreases Floor(reach - r)
  {
    if GoesOn(emb, w, prev, r) then
      WindowTrace(emb, w, r) + RippleTrace(emb, w, reach, DeltaAt(emb, w, r).value, r + 2)
    else WindowTrace(emb, w, r)
  }

  ghost function SideTrace(emb: Embedder, a: seq<Line>, b: seq<Line>, ch: Change, side: Side, s2: real): seq<string>
    requires InFiles(a, b, ch)
  {
    RippleTrace(emb, Windows(a, b, ch, side), Reach(a, b, ch, side), s2, 2)
  }

  ghost function CoreDelta(emb: Embedder, a: seq<Line>, b: seq<Line>, ch: Change): Result<real>
    requires InFiles(a, b, ch)
  {
    Delta(emb, Core(a, ch.oldStart, ch.oldEnd), Core(b, ch.newStart, ch.newEnd))
  }

  ghost function CoreTrace(emb: Embedder, a: seq<Line>, b: seq<Line>, ch: Change): seq<string>
    requires InFiles(a, b, ch)
  {
    DeltaTrace(emb, Core(a, ch.oldStart, ch.oldEnd), Core(b, ch.newStart, ch.newEnd))
  }

  ghost function HunkTrace(emb: Embedder, a: seq<Line>, b: seq<Line>, ch: Change): seq<string>
    requires InFiles(a, b, ch)
  {
    var s2 := CoreDelta(emb, a, b, ch);
    if s2.Err? then CoreTrace(emb, a, b, ch)
    else if SideCurve(emb, a, b, ch, Up, s2.value).Err? then
      CoreTrace(emb, a, b, ch) + SideTrace(emb, a, b, ch, Up, s2.value)
    else
      CoreTrace(emb, a, b, ch) + SideTrace(emb, a, b, ch, Up, s2.value) + SideTrace(emb, a, b, ch, Down, s2.value)
  }

  ghost function ReportsTrace(emb: Embedder, a: seq<Line>, b: seq<Line>, hs: seq<Change>, pf: real): seq<string>
    requires forall k :: 0 <= k < |hs| ==> InFiles(a, b, hs[k])
  {
    if hs == [] then []
    else if HunkReport(emb, a, b, hs[0], pf).Err? then HunkTrace(emb, a, b, hs[0])
    else HunkTrace(emb, a, b, hs[0]) + ReportsTrace(emb, a, b, hs[1..], pf)
  }

  ghost function AnalysisTrace(emb: Embedder, a: seq<Line>, b: seq<Line>): seq<string> {
    HunksAreInFiles(a, b);
    ReportsTrace(emb, a, b, Hunks(a, b), PersistFracFor(emb))
  }

  // seen followed by each text of more that is new, at its first occurrence.
  ghost function WithFirsts(seen: seq<string>, more: seq<string>): seq<string>
    decreases |more|
  {
    if more == [] then seen
    else WithFirsts(OneMore(seen, more[0]), more[1..])
  }

  function OneMore(seen: seq<string>, t: string): seq<string> {
    if t in seen then seen else seen + [t]
  }

  lemma FirstsOfOne(seen: seq<string>, x: string)
    ensures WithFirsts(seen, [x]) == OneMore(seen, x)
  {
  }

  lemma FirstsOfTwo(seen: seq<string>, x: string, y: string)
    ensures WithFirsts(seen, [x, y]) == OneMore(OneMore(seen, x), y)
  {
    assert [x, y][1..] == [y];
    FirstsOfOne(OneMore(seen, x), y);
  }

  lemma {:induction false} FirstsTwice(seen: seq<string>, x: seq<string>, y: seq<string>)
    ensures WithFirsts(WithFirsts(seen, x), y) == WithFirsts(seen, x + y)
    decreases |x|
  {
    if x == [] {
      assert x + y == y;
    } else {
      assert (x + y)[1..] == x[1..] + y;
      FirstsTwice(OneMore(seen, x[0]), x[1..], y);
    }
  }

  lemma {:induction false} FirstsAreDistinct(seen: seq<string>, more: seq<string>)
    requires Distinct(seen)
    ensures Distinct(WithFirsts(seen, more))
    ensures forall t :: t in WithFirsts(seen, more) <==> t in seen || t in more
    decreases |more|
  {
    if more != [] {
      FirstsAreDistinct(OneMore(seen, more[0]), more[1..]);
      assert forall t :: t in more <==> t == more[0] || t in more[1..];
    }
  }

  lemma RippleStep(emb: Embedder, w: nat -> Window, reach: nat, prev: real, r: nat, curve: seq<Sample>)
    requires ReachesEdgesAt(w, reach)
    ensures var delta := DeltaAt(emb, w, r);
      After(curve, Ripple(emb, w, reach, prev, r)) ==
        if delta.Err? then Err(delta.message)
        else
          var longer := curve + [Sample(r, delta.value)];
          if GoesOn(emb, w, prev, r) then After(longer, Ripple(emb, w, reach, delta.value, r + 2))
          else Ok(Direction(longer, Abs(delta.value - prev) >= FLATTEN_EPS))
    ensures GoesOn(emb, w, prev, r) ==> r < reach
  {
    if GoesOn(emb, w, prev, r) {
      var delta := DeltaAt(emb, w, r).value;
      AfterTwice(curve, [Sample(r, delta)], Ripple(emb, w, reach, delta, r + 2));
    }
  }

  lemma RippleTraceStep(emb: Embedder, w: nat -> Window, reach: nat, prev: real, r: nat, asked: seq<string>)
    requires ReachesEdgesAt(w, reach)
    ensures var more := WithFirsts(asked, WindowTrace(emb, w, r));
      WithFirsts(asked, RippleTrace(emb, w, reach, prev, r))
        == if GoesOn(emb, w, prev, r) then WithFirsts(more, RippleTrace(emb, w, reach, DeltaAt(emb, w, r).value, r + 2)) else more
  {
    if GoesOn(emb, w, prev, r) {
      FirstsTwice(asked, WindowTrace(emb, w, r), RippleTrace(emb, w, reach, DeltaAt(emb, w, r).value, r + 2));
    }
  }

  lemma HunkTraceSteps(emb: Embedder, a: seq<Line>, b: seq<Line>, ch: Change, asked: seq<string>)
    requires InFiles(a, b, ch)
    ensures var core, s2 := WithFirsts(asked, CoreTrace(emb, a, b, ch)), CoreDelta(emb, a, b, ch);
      WithFirsts(asked, HunkTrace(emb, a, b, ch)) ==
        if s2.Err? then core
        else
          var up := WithFirsts(core, SideTrace(emb, a, b, ch, Up, s2.value));
          if SideCurve(emb, a, b, ch, Up, s2.value).Err? then up
          else WithFirsts(up, SideTrace(emb, a, b, ch, Down, s2.value))
  {
    var core, s2 := CoreTrace(emb, a, b, ch), CoreDelta(emb, a, b, ch);
    if s2.Ok? {
      var up := SideTrace(emb, a, b, ch, Up, s2.value);
      FirstsTwice(asked, core, up);
      if SideCurve(emb, a, b, ch, Up, s2.value).Ok? {
        FirstsTwice(asked, core + up, SideTrace(emb, a, b, ch, Down, s2.value));
      }
    }
  }

  lemma HunksAreInFiles(a: seq<Line>, b: seq<Line>)
    ensures forall k :: 0 <= k < |Hunks(a, b)| ==> InFiles(a, b, Hunks(a, b)[k])
  {
    HunksAreTight(a, b, 0, 0);
  }

  ghost function Analysis(emb: Embedder, a: seq<Line>, b: seq<Line>): Result<seq<Report>> {
    HunksAreInFiles(a, b);
    Reports(emb, a, b, Hunks(a, b), PersistFracFor(emb))
  }

  ghost function Extended(out: seq<Report>, rest: Result<seq<Report>>): Result<seq<Report>> {
    match rest
    case Ok(more) => Ok(out + more)
    case Err(m) => Err(m)
  }

  lemma ExtendedByNothing(r: Result<seq<Report>>)
    ensures Extended([], r) == r
  {
    if r.Ok? {
      assert [] + r.value == r.value;
    }
  }

  lemma ExtendedTwice(out: seq<Report>, next: Report, rest: Result<seq<Report>>)
    ensures Extended(out, Extended([next], rest)) == Extended(out + [next], rest)
  {
    if rest.Ok? {
      assert out + ([next] + rest.value) == (out + [next]) + rest.value;
    }
  }

  // What is left to report and to embed from hunk k on, one hunk later.
  lemma ReportsStep(emb: Embedder, a: seq<Line>, b: seq<Line>, hs: seq<Change>, k: nat, pf: real, out: seq<Report>)
    requires k < |hs| && forall i :: 0 <= i < |hs| ==> InFiles(a, b, hs[i])
    ensures var here := HunkReport(emb, a, b, hs[k], pf);
      Extended(out, Reports(emb, a, b, hs[k..], pf)) ==
        if here.Err? then Err(here.message) else Extended(out + [here.value], Reports(emb, a, b, hs[k + 1..], pf))
  {
    var here := HunkReport(emb, a, b, hs[k], pf);
    assert hs[k..][0] == hs[k] && hs[k..][1..] == hs[k + 1..];
    if here.Ok? {
      ExtendedTwice(out, here.value, Reports(emb, a, b, hs[k + 1..], pf));
    }
  }

  lemma ReportsTraceStep(emb: Embedder, a: seq<Line>, b: seq<Line>, hs: seq<Change>, k: nat, pf: real, asked: seq<string>)
    requires k < |hs| && forall i :: 0 <= i < |hs| ==> InFiles(a, b, hs[i])
    ensures var more := WithFirsts(asked, HunkTrace(emb, a, b, hs[k]));
      WithFirsts(asked, ReportsTrace(emb, a, b, hs[k..], pf)) ==
        if HunkReport(emb, a, b, hs[k], pf).Err? then more else WithFirsts(more, ReportsTrace(emb, a, b, hs[k + 1..], pf))
  {
    assert hs[k..][0] == hs[k] && hs[k..][1..] == hs[k + 1..];
    if HunkReport(emb, a, b, hs[k], pf).Ok? {
      FirstsTwice(asked, HunkTrace(emb, a, b, hs[k]), ReportsTrace(emb, a, b, hs[k + 1..], pf));
    }
  }

  // The memoised analysis equals the cache-free one, whatever the embedder, and
  // embeds the texts that one embeds, each the first time only.
  method Analyze(service: Service, a: seq<Line>, b: seq<Line>) returns (r: Result<seq<Report>>)
    modifies service`calls
    ensures r == Analysis(service.emb, a, b)
    ensures service.calls == old(service.calls) + WithFirsts([], AnalysisTrace(service.emb, a, b))
  {
    var memo := new Memo(service);
    var pf := PersistFracFor(service.emb);
    var hs := Changes(a, b);
    HunksAreInFiles(a, b);
    var out := [];
    assert hs[0..] == hs;
    ghost var emb := service.emb;
    ExtendedByNothing(Analysis(emb, a, b));
    for k := 0 to |hs|
      invariant memo.service == service && memo.earlier == old(service.calls)
      invariant memo.Sound() && memo.Clean()
      invariant Analysis(emb, a, b) == Extended(out, Reports(emb, a, b, hs[k..], pf))
      invariant WithFirsts([], AnalysisTrace(emb, a, b)) == WithFirsts(memo.asked, ReportsTrace(emb, a, b, hs[k..], pf))
    {
      ReportsStep(emb, a, b, hs, k, pf, out);
      ReportsTraceStep(emb, a, b, hs, k, pf, memo.asked);
      var report := memo.AnalyzeChange(a, b, hs[k], pf);
      if report.Err? {
        return Err(report.message);
      }
      out := out + [report.value];
    }
    assert hs[|hs|..] == [] && out + [] == out;
    return Ok(out);
  }

  // ---- which texts are embedded ----------------------------------------------

  // t is one of two texts that differ.
  ghost predicate Differing(x: string, y: string, t: string) {
    x != y && (t == x || t == y)
  }

  ghost predicate DiffersAt(w: nat -> Window, r: nat, t: string) {
    Differing(w(r).oldText, w(r).newText, t)
  }

  // t is one of the two differing texts of a window the curve sampled.
  ghost predicate SampledText(w: nat -> Window, curve: seq<Sample>, t: string) {
    exists k :: 0 <= k < |curve| && DiffersAt(w, curve[k].radius, t)
  }

  // t is a differing text of the changed region or of a window sampled around it.
  ghost predicate AskedFor(a: seq<Line>, b: seq<Line>, rep: Report, t: string)
    requires InFiles(a, b, rep.change)
  {
    var ch := rep.change;
    || Differing(Core(a, ch.oldStart, ch.oldEnd), Core(b, ch.newStart, ch.newEnd), t)
    || SampledText(Windows(a, b, ch, Up), rep.up.curve, t)
    || SampledText(Windows(a, b, ch, Down), rep.down.curve, t)
  }

  lemma DeltaTraceTexts(emb: Embedder, x: string, y: string, t: string)
    requires Delta(emb, x, y).Ok?
    ensures t in DeltaTrace(emb, x, y) <==> Differing(x, y, t)
  {
  }

  lemma SampledTextInFront(w: nat -> Window, here: Sample, rest: seq<Sample>, t: string)
    ensures SampledText(w, [here] + rest, t) <==> DiffersAt(w, here.radius, t) || SampledText(w, rest, t)
  {
    var curve := [here] + rest;
    assert curve[0] == here;
    assert forall k :: 0 <= k < |rest| ==> curve[k + 1] == rest[k];
    if SampledText(w, curve, t) && !DiffersAt(w, here.radius, t) {
      var k :| 0 <= k < |curve| && DiffersAt(w, curve[k].radius, t);
      assert rest[k - 1] == curve[k];
    }
  }

  lemma {:induction false} RippleTraceTexts(emb: Embedder, w: nat -> Window, reach: nat, prev: real, r: nat, t: string)
    requires ReachesEdgesAt(w, reach) && Ripple(emb, w, reach, prev, r).Ok?
    ensures t in RippleTrace(emb, w, reach, prev, r) <==> SampledText(w, Ripple(emb, w, reach, prev, r).value.curve, t)
    decreases Floor(reach - r)
  {
    var delta := DeltaAt(emb, w, r).value;
    DeltaTraceTexts(emb, w(r).oldText, w(r).newText, t);
    if GoesOn(emb, w, prev, r) {
      RippleTraceTexts(emb, w, reach, delta, r + 2, t);
      SampledTextInFront(w, Sample(r, delta), Ripple(emb, w, reach, delta, r + 2).value.curve, t);
    } else {
      SampledTextInFront(w, Sample(r, delta), [], t);
      assert [Sample(r, delta)] + [] == [Sample(r, delta)];
    }
  }

  lemma HunkTraceTexts(emb: Embedder, a: seq<Line>, b: seq<Line>, ch: Change, pf: real, t: string)
    requires InFiles(a, b, ch) && HunkReport(emb, a, b, ch, pf).Ok?
    ensures t in HunkTrace(emb, a, b, ch) <==> AskedFor(a, b, HunkReport(emb, a, b, ch, pf).value, t)
  {
    var s2 := CoreDelta(emb, a, b, ch).value;
    DeltaTraceTexts(emb, Core(a, ch.oldStart, ch.oldEnd), Core(b, ch.newStart, ch.newEnd), t);
    RippleTraceTexts(emb, Windows(a, b, ch, Up), Reach(a, b, ch, Up), s2, 2, t);
    RippleTraceTexts(emb, Windows(a, b, ch, Down), Reach(a, b, ch, Down), s2, 2, t);
  }

  ghost predicate AskedForIn(a: seq<Line>, b: seq<Line>, reports: seq<Report>, t: string) {
    exists k :: 0 <= k < |reports| && InFiles(a, b, reports[k].change) && AskedFor(a, b, reports[k], t)
  }

  lemma AskedForInFront(a: seq<Line>, b: seq<Line>, rep: Report, rest: seq<Report>, t: string)
    requires InFiles(a, b, rep.change)
    ensures AskedForIn(a, b, [rep] + rest, t) <==> AskedFor(a, b, rep, t) || AskedForIn(a, b, rest, t)
  {
    var reports := [rep] + rest;
    assert reports[0] == rep;
    assert forall k :: 0 <= k < |rest| ==> reports[k + 1] == rest[k];
    if AskedForIn(a, b, reports, t) && !AskedFor(a, b, rep, t) {
      var k :| 0 <= k < |reports| && InFiles(a, b, reports[k].change) && AskedFor(a, b, reports[k], t);
      assert rest[k - 1] == reports[k];
    }
  }

  lemma {:induction false} ReportsTraceTexts(emb: Embedder, a: seq<Line>, b: seq<Line>, hs: seq<Change>, pf: real, t: string)
    requires forall k :: 0 <= k < |hs| ==> InFiles(a, b, hs[k])
    requires Reports(emb, a, b, hs, pf).Ok?
    ensures t in ReportsTrace(emb, a, b, hs, pf) <==> AskedForIn(a, b, Reports(emb, a, b, hs, pf).value, t)
  {
    if hs != [] {
      var first, rest := HunkReport(emb, a, b, hs[0], pf).value, Reports(emb, a, b, hs[1..], pf).value;
      assert first.change == hs[0];
      HunkTraceTexts(emb, a, b, hs[0], pf, t);
      ReportsTraceTexts(emb, a, b, hs[1..], pf, t);
      AskedForInFront(a, b, first, rest, t);
    }
  }

  // No text is embedded twice, and an analysis that succeeds embeds exactly the
  // differing texts of its changed regions and of the windows it sampled.
  lemma EachTextIsEmbeddedOnce(emb: Embedder, a: seq<Line>, b: seq<Line>)
    ensures var calls := WithFirsts([], AnalysisTrace(emb, a, b));
      && Distinct(calls)
      && (Analysis(emb, a, b).Ok? ==> forall t :: t in calls <==> AskedForIn(a, b, Analysis(emb, a, b).value, t))
  {
    FirstsAreDistinct([], AnalysisTrace(emb, a, b));
    HunksAreInFiles(a, b);
    if Analysis(emb, a, b).Ok? {
      forall t {
        ReportsTraceTexts(emb, a, b, Hunks(a, b), PersistFracFor(emb), t);
      }
    }
  }

  // ---- what a curve is -------------------------------------------------------

  // How far sample k moved from the one before it (from prev for the first).
  ghost function Move(prev: real, curve: seq<Sample>, k: nat): real
    requires k < |curve|
  {
    var before := if k == 0 then prev else curve[k - 1].delta;
    if curve[k].delta >= before then curve[k].delta - before else before - curve[k].delta
  }

  // Radii two apart from r on, each delta that of its window.
  ghost predicate Sampled(emb: Embedder, w: nat -> Window, r: nat, curve: seq<Sample>) {
    forall k :: 0 <= k < |curve| ==>
      curve[k].radius == r + 2 * k && DeltaAt(emb, w, curve[k].radius) == Ok(curve[k].delta)
  }

  // Every sample but the last moved and fell short of the edges.
  ghost predicate KeptGoing(reach: nat, prev: real, curve: seq<Sample>) {
    && (forall k {:trigger Move(prev, curve, k)} :: 0 <= k < |curve| - 1 ==> Move(prev, curve, k) >= FLATTEN_EPS)
    && (forall k :: 0 <= k < |curve| - 1 ==> curve[k].radius < reach)
  }

  // The last sample stops at the boundary exactly when it moved.
  ghost predicate Stopped(reach: nat, prev: real, d: Direction)
    requires d.curve != []
  {
    && (d.stoppedAtBoundary <==> Move(prev, d.curve, |d.curve| - 1) >= FLATTEN_EPS)
    && (d.stoppedAtBoundary ==> d.curve[|d.curve| - 1].radius >= reach)
  }

  // A curve starting at radius r, described without running the loop.
  ghost predicate IsCurve(emb: Embedder, w: nat -> Window, reach: nat, prev: real, r: nat, d: Direction) {
    d.curve != [] && Sampled(emb, w, r, d.curve) && KeptGoing(reach, prev, d.curve) && Stopped(reach, prev, d)
  }

  // Move does not see what comes before its predecessor.
  lemma MoveInTail(prev: real, curve: seq<Sample>, k: nat)
    requires 0 < k < |curve|
    ensures Move(prev, curve, k) == Move(curve[0].delta, curve[1..], k - 1)
  {
  }

  lemma {:induction false} RippleIsCurve(emb: Embedder, w: nat -> Window, reach: nat, prev: real, r: nat)
    requires ReachesEdgesAt(w, reach) && Ripple(emb, w, reach, prev, r).Ok?
    ensures IsCurve(emb, w, reach, prev, r, Ripple(emb, w, reach, prev, r).value)
    decreases Floor(reach - r)
  {
    var delta := DeltaAt(emb, w, r).value;
    var d := Ripple(emb, w, reach, prev, r).value;
    if Abs(delta - prev) < FLATTEN_EPS || w(r).atBoundary {
      assert d.curve == [Sample(r, delta)] && Move(prev, d.curve, 0) == Abs(delta - prev);
    } else {
      RippleIsCurve(emb, w, reach, delta, r + 2);
      CurveGrows(emb, w, reach, prev, r, delta, Ripple(emb, w, reach, delta, r + 2).value, d);
    }
  }

  // One more moved sample in front of a curve is a curve from two lines earlier.
  lemma CurveGrows(emb: Embedder, w: nat -> Window, reach: nat, prev: real, r: nat, delta: real, rest: Direction, d: Direction)
    requires d == Direction([Sample(r, delta)] + rest.curve, rest.stoppedAtBoundary) && rest.curve != []
    requires DeltaAt(emb, w, r) == Ok(delta) && Abs(delta - prev) >= FLATTEN_EPS && r < reach
    ensures IsCurve(emb, w, reach, prev, r, d) <==> IsCurve(emb, w, reach, delta, r + 2, rest)
  {
    assert d.curve[1..] == rest.curve;
    SampledGrows(emb, w, r, d.curve);
    KeptGoingGrows(reach, prev, d.curve);
    MoveInTail(prev, d.curve, |rest.curve|);
  }

  lemma SampledGrows(emb: Embedder, w: nat -> Window, r: nat, curve: seq<Sample>)
    requires curve != [] && curve[0].radius == r && DeltaAt(emb, w, r) == Ok(curve[0].delta)
    ensures Sampled(emb, w, r, curve) <==> Sampled(emb, w, r + 2, curve[1..])
  {
  }

  lemma KeptGoingGrows(reach: nat, prev: real, curve: seq<Sample>)
    requires |curve| > 1 && Move(prev, curve, 0) >= FLATTEN_EPS && curve[0].radius < reach
    ensures KeptGoing(reach, prev, curve) <==> KeptGoing(reach, curve[0].delta, curve[1..])
  {
    var rest := curve[1..];
    assert forall k :: 0 < k < |curve| ==> curve[k] == rest[k - 1];
    forall k {:trigger Move(curve[0].delta, rest, k)} | 0 <= k < |rest|
      ensures Move(curve[0].delta, rest, k) == Move(prev, curve, k + 1)
    {
      MoveInTail(prev, curve, k + 1);
    }
    forall k {:trigger Move(prev, curve, k)} | 0 < k < |curve|
      ensures Move(prev, curve, k) == Move(curve[0].delta, rest, k - 1)
    {
      MoveInTail(prev, curve, k);
    }
  }

  lemma FirstOfCurve(emb: Embedder, w: nat -> Window, reach: nat, prev: real, r: nat, d: Direction)
    requires IsCurve(emb, w, reach, prev, r, d)
    ensures d.curve[0].radius == r && DeltaAt(emb, w, r) == Ok(d.curve[0].delta)
    ensures var moved := Abs(d.curve[0].delta - prev) >= FLATTEN_EPS;
      if |d.curve| == 1 then (d.stoppedAtBoundary <==> moved) && (moved ==> r >= reach) else moved && r < reach
  {
    assert Move(prev, d.curve, 0) == Abs(d.curve[0].delta - prev);
  }

  lemma OneSampleIsRipple(emb: Embedder, w: nat -> Window, reach: nat, prev: real, r: nat, d: Direction)
    requires ReachesEdgesAt(w, reach) && |d.curve| == 1
    requires d.curve[0].radius == r && DeltaAt(emb, w, r) == Ok(d.curve[0].delta)
    requires var moved := Abs(d.curve[0].delta - prev) >= FLATTEN_EPS;
      (d.stoppedAtBoundary <==> moved) && (moved ==> r >= reach)
    ensures Ripple(emb, w, reach, prev, r) == Ok(d)
  {
    assert d.curve == [Sample(r, d.curve[0].delta)];
  }

  // The loop's outcome when its first sample moved short of the edges.
  lemma RippleGoesOn(emb: Embedder, w: nat -> Window, reach: nat, prev: real, r: nat, delta: real, rest: Direction)
    requires ReachesEdgesAt(w, reach) && DeltaAt(emb, w, r) == Ok(delta) && Abs(delta - prev) >= FLATTEN_EPS && r < reach
    requires Ripple(emb, w, reach, delta, r + 2) == Ok(rest)
    ensures Ripple(emb, w, reach, prev, r) == Ok(Direction([Sample(r, delta)] + rest.curve, rest.stoppedAtBoundary))
  {
    assert !w(r).atBoundary;
  }

  // A longer curve is a moved sample in front of a curve.
  lemma TailOfCurve(emb: Embedder, w: nat -> Window, reach: nat, prev: real, r: nat, d: Direction)
    returns (delta: real, rest: Direction)
    requires |d.curve| > 1 && IsCurve(emb, w, reach, prev, r, d)
    ensures d == Direction([Sample(r, delta)] + rest.curve, rest.stoppedAtBoundary)
    ensures DeltaAt(emb, w, r) == Ok(delta) && Abs(delta - prev) >= FLATTEN_EPS && r < reach
    ensures IsCurve(emb, w, reach, delta, r + 2, rest)
  {
    FirstOfCurve(emb, w, reach, prev, r, d);
    delta, rest := d.curve[0].delta, Direction(d.curve[1..], d.stoppedAtBoundary);
    assert d.curve == [Sample(r, delta)] + rest.curve;
    CurveGrows(emb, w, reach, prev, r, delta, rest, d);
  }

  lemma {:induction false} CurveIsRipple(emb: Embedder, w: nat -> Window, reach: nat, prev: real, r: nat, d: Direction)
    requires ReachesEdgesAt(w, reach) && IsCurve(emb, w, reach, prev, r, d)
    ensures Ripple(emb, w, reach, prev, r) == Ok(d)
    decreases |d.curve|
  {
    if |d.curve| == 1 {
      FirstOfCurve(emb, w, reach, prev, r, d);
      OneSampleIsRipple(emb, w, reach, prev, r, d);
    } else {
      var delta, rest := TailOfCurve(emb, w, reach, prev, r, d);
      CurveIsRipple(emb, w, reach, delta, r + 2, rest);
      RippleGoesOn(emb, w, reach, prev, r, delta, rest);
    }
  }

  // The loop's outcome is the one and only curve, and it takes at most
  // max(1, ceil(reach / 2)) windows.
  lemma ExpandYieldsTheCurve(emb: Embedder, w: nat -> Window, reach: nat, s2: real, d: Direction)
    requires ReachesEdgesAt(w, reach)
    ensures Ripple(emb, w, reach, s2, 2) == Ok(d) <==> IsCurve(emb, w, reach, s2, 2, d)
    ensures Ripple(emb, w, reach, s2, 2) == Ok(d) ==> 1 <= |d.curve| <= Max(1, (reach + 1) / 2)
  {
    if Ripple(emb, w, reach, s2, 2) == Ok(d) {
      RippleIsCurve(emb, w, reach, s2, 2);
      var n := |d.curve|;
      assert n > 1 ==> d.curve[n - 2].radius < reach;
    } else if IsCurve(emb, w, reach, s2, 2, d) {
      CurveIsRipple(emb, w, reach, s2, 2, d);
    }
  }

  // ---- what the verdict means ------------------------------------------------

  // The last window reaches both edges, still moved, and carries enough of the
  // point delta.
  ghost predicate CarriesToTheEdge(a: seq<Line>, b: seq<Line>, ch: Change, side: Side, s2: real, d: Direction, pf: real)
    requires InFiles(a, b, ch)
  {
    var n := |d.curve|;
    && n >= 1
    && WindowAt(a, b, ch, side, d.curve[n - 1].radius).atBoundary
    && Move(s2, d.curve, n - 1) >= 0.02
    && d.curve[n - 1].delta >= 0.15
    && d.curve[n - 1].delta >= pf * s2
  }

  lemma SidePersistsIffCarried(emb: Embedder, a: seq<Line>, b: seq<Line>, ch: Change, side: Side, s2: real, pf: real)
    requires InFiles(a, b, ch) && SideCurve(emb, a, b, ch, side, s2).Ok?
    requires Delta(emb, Core(a, ch.oldStart, ch.oldEnd), Core(b, ch.newStart, ch.newEnd)) == Ok(s2)
    ensures var d := SideCurve(emb, a, b, ch, side, s2).value;
      && (Persists(s2, d, pf) <==> CarriesToTheEdge(a, b, ch, side, s2, d, pf))
      && (CarriesToTheEdge(a, b, ch, side, s2, d, pf) ==> Reach(a, b, ch, side) > 0)
  {
    var w, reach := Windows(a, b, ch, side), Reach(a, b, ch, side);
    var d := SideCurve(emb, a, b, ch, side, s2).value;
    RippleIsCurve(emb, w, reach, s2, 2);
    assert w(d.curve[|d.curve| - 1].radius).atBoundary <==> d.curve[|d.curve| - 1].radius >= reach;
    if reach == 0 {
      TouchedEdgeStaysFlat(emb, a, b, ch, side, s2);
    }
  }

  // Some side with lines left carries the shift to both file edges.
  ghost predicate Carried(a: seq<Line>, b: seq<Line>, r: Report, pf: real)
    requires InFiles(a, b, r.change)
  {
    || (Reach(a, b, r.change, Up) > 0 && CarriesToTheEdge(a, b, r.change, Up, r.signal2, r.up, pf))
    || (Reach(a, b, r.change, Down) > 0 && CarriesToTheEdge(a, b, r.change, Down, r.signal2, r.down, pf))
  }

  // A verdict is structural exactly when some side carries the shift to both file
  // edges, and never through an edge that the hunk already touches.
  lemma StructuralMeansCarried(emb: Embedder, a: seq<Line>, b: seq<Line>, ch: Change, pf: real)
    requires InFiles(a, b, ch) && HunkReport(emb, a, b, ch, pf).Ok?
    ensures var r := HunkReport(emb, a, b, ch, pf).value;
      && r.change == ch && r.verdict != NoChange
      && (r.verdict == Structural <==> Carried(a, b, r, pf))
      && (r.verdict == LocalizedTweak ==> r.signal2 >= 0.15)
      && (r.verdict == MinorEdit ==> r.signal2 < 0.15)
  {
    var s2 := HunkReport(emb, a, b, ch, pf).value.signal2;
    SidePersistsIffCarried(emb, a, b, ch, Up, s2, pf);
    SidePersistsIffCarried(emb, a, b, ch, Down, s2, pf);
  }

  // A hunk that already touches both file edges on one side grows no window there:
  // the curve is the point delta again, and reads as flat.
  lemma TouchedEdgeStaysFlat(emb: Embedder, a: seq<Line>, b: seq<Line>, ch: Change, side: Side, s2: real)
    requires InFiles(a, b, ch) && Reach(a, b, ch, side) == 0
    requires Delta(emb, Core(a, ch.oldStart, ch.oldEnd), Core(b, ch.newStart, ch.newEnd)) == Ok(s2)
    ensures SideCurve(emb, a, b, ch, side, s2) == Ok(Direction([Sample(2, s2)], false))
  {
  }

  // ---- an embedder that never fails ------------------------------------------

  ghost predicate NeverFails(emb: Embedder) {
    forall t :: emb.embed(t).Ok?
  }

  lemma {:induction false} RippleSucceeds(emb: Embedder, w: nat -> Window, reach: nat, prev: real, r: nat)
    requires NeverFails(emb) && ReachesEdgesAt(w, reach)
    ensures Ripple(emb, w, reach, prev, r).Ok?
    decreases Floor(reach - r)
  {
    if GoesOn(emb, w, prev, r) {
      RippleSucceeds(emb, w, reach, DeltaAt(emb, w, r).value, r + 2);
    }
  }

  lemma {:induction false} ReportsSucceed(emb: Embedder, a: seq<Line>, b: seq<Line>, hs: seq<Change>, pf: real)
    requires NeverFails(emb) && forall k :: 0 <= k < |hs| ==> InFiles(a, b, hs[k])
    ensures Reports(emb, a, b, hs, pf).Ok?
  {
    if hs != [] {
      var s2 := CoreDelta(emb, a, b, hs[0]).value;
      RippleSucceeds(emb, Windows(a, b, hs[0], Up), Reach(a, b, hs[0], Up), s2, 2);
      RippleSucceeds(emb, Windows(a, b, hs[0], Down), Reach(a, b, hs[0], Down), s2, 2);
      ReportsSucceed(emb, a, b, hs[1..], pf);
    }
  }

  lemma ReportsSplit(emb: Embedder, a: seq<Line>, b: seq<Line>, hs: seq<Change>, pf: real)
    requires hs != [] && forall i :: 0 <= i < |hs| ==> InFiles(a, b, hs[i])
    requires Reports(emb, a, b, hs, pf).Ok?
    ensures var rs := Reports(emb, a, b, hs, pf).value;
      rs != [] && HunkReport(emb, a, b, hs[0], pf) == Ok(rs[0]) && Reports(emb, a, b, hs[1..], pf) == Ok(rs[1..])
  {
    var rest := Reports(emb, a, b, hs[1..], pf).value;
    assert ([HunkReport(emb, a, b, hs[0], pf).value] + rest)[1..] == rest;
  }

  lemma {:induction false} ReportsAt(emb: Embedder, a: seq<Line>, b: seq<Line>, hs: seq<Change>, pf: real, k: nat)
    requires k < |hs| && forall i :: 0 <= i < |hs| ==> InFiles(a, b, hs[i])
    requires Reports(emb, a, b, hs, pf).Ok?
    ensures var rs := Reports(emb, a, b, hs, pf).value; |rs| == |hs| && HunkReport(emb, a, b, hs[k], pf) == Ok(rs[k])
  {
    ReportsSplit(emb, a, b, hs, pf);
    if |hs| > 1 {
      ReportsAt(emb, a, b, hs[1..], pf, if k > 0 then k - 1 else 0);
    }
  }

  // ---- the single verdict ----------------------------------------------------

  function Rank(v: Verdict): nat {
    match v
    case NoChange => 0
    case MinorEdit => 1
    case LocalizedTweak => 2
    case Structural => 3
  }

  ghost predicate Has(rs: seq<Report>, v: Verdict) {
    exists k :: 0 <= k < |rs| && rs[k].verdict == v
  }

  // Structural if some hunk is, else a localized tweak if some hunk is, else a minor
  // edit if some hunk is, else nothing.
  ghost predicate IsWorst(rs: seq<Report>, v: Verdict) {
    && (v == Structural <==> Has(rs, Structural))
    && (v == LocalizedTweak <==> !Has(rs, Structural) && Has(rs, LocalizedTweak))
    && (v == MinorEdit <==> !Has(rs, Structural) && !Has(rs, LocalizedTweak) && Has(rs, MinorEdit))
  }

  lemma HasOneMore(rs: seq<Report>, r: Report, v: Verdict)
    ensures Has(rs + [r], v) <==> Has(rs, v) || r.verdict == v
  {
    assert (rs + [r])[|rs|] == r;
    assert forall k :: 0 <= k < |rs| ==> (rs + [r])[k] == rs[k];
  }

  method Worst(rs: seq<Report>) returns (v: Verdict)
    ensures IsWorst(rs, v)
  {
    v := NoChange;
    for k := 0 to |rs|
      invariant IsWorst(rs[..k], v)
    {
      assert rs[..k + 1] == rs[..k] + [rs[k]];
      HasOneMore(rs[..k], rs[k], Structural);
      HasOneMore(rs[..k], rs[k], LocalizedTweak);
      HasOneMore(rs[..k], rs[k], MinorEdit);
      if Rank(rs[k].verdict) > Rank(v) {
        v := rs[k].verdict;
      }
    }
    assert rs[..|rs|] == rs;
  }

  // An analysis that succeeds gives the empty verdict exactly to unchanged files.
  lemma VerdictIsEmptyIffUnchanged(emb: Embedder, a: seq<Line>, b: seq<Line>, v: Verdict)
    requires Analysis(emb, a, b).Ok? && IsWorst(Analysis(emb, a, b).value, v)
    ensures v == NoChange <==> a == b
  {
    DiffRoundTrip(a, b);
    HunksAreInFiles(a, b);
    if a != b {
      var first := HunkReport(emb, a, b, Hunks(a, b)[0], PersistFracFor(emb)).value;
      assert Analysis(emb, a, b).value[0] == first;
      assert first.verdict != NoChange;
      assert Has(Analysis(emb, a, b).value, first.verdict);
    }
  }

  function SplitLines(s: string): seq<Line> {
    Split(NormalizeNewlines(s), '\n')
  }

  // The lines of a text once its breaks are "\n": none holds a break, and joined they are
  // that text.
  lemma LinesOf(s: string)
    ensures Join(SplitLines(s), "\n") == NormalizeNewlines(s)
    ensures SplitLines(s) != [] && forall k :: 0 <= k < |SplitLines(s)| ==> '\n' !in SplitLines(s)[k]
  {
    JoinUndoesSplit(NormalizeNewlines(s), '\n');
  }

  // The verdict attached to a change notification: empty without an embedder, without
  // a previous template, or when the embedder fails; otherwise the worst of all
  // hunks, which is empty exactly when only line endings differ.
  method ClassifyEdit(service: Service?, before: string, after: string) returns (v: Verdict)
    modifies service
    ensures service == null || before == "" ==> v == NoChange
    ensures service != null && before != "" ==>
      match Analysis(service.emb, SplitLines(before), SplitLines(after))
      case Err(_) => v == NoChange
      case Ok(rs) => IsWorst(rs, v) && (v == NoChange <==> NormalizeNewlines(before) == NormalizeNewlines(after))
  {
    if service == null || before == "" {
      return NoChange;
    }
    var a, b := SplitLines(before), SplitLines(after);
    var rs := Analyze(service, a, b);
    if rs.Err? {
      return NoChange;
    }
    v := Worst(rs.value);
    VerdictIsEmptyIffUnchanged(service.emb, a, b, v);
    LinesOf(before);
    LinesOf(after);
  }
}
