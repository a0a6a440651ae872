// The offline embedder: a hashed bag of words (internal/semdiff/semdiff.go).
module Lexical {
  import opened Outcomes
  import opened Text
  import opened LineDiff
  import opened Propagation

  // Lower-casing, the letter-or-digit test and the token hash come from Go's
  // library; a line break lower-cases to a character that is no part of a token.
  datatype Lexicon = Lexicon(lower: char -> char, isToken: char -> bool, hash: string -> nat, dim: nat) {
    ghost predicate Valid() {
      !isToken(lower('\n'))
    }

    function Buckets(): (d: nat)
      ensures d > 0
    {
      if dim == 0 then 256 else dim
    }
  }

  // ---- tokens ----------------------------------------------------------------

  function Lower(lex: Lexicon, s: string): (r: string)
    ensures |r| == |s|
  {
    seq(|s|, i requires 0 <= i < |s| => lex.lower(s[i]))
  }

  function Flush(cur: string): seq<string> {
    if cur == "" then [] else [cur]
  }

  // Maximal runs of token characters (strings.FieldsFunc); cur is the run so far.
  function Fields(lex: Lexicon, s: string, cur: string): seq<string>
    decreases |s|
  {
    if s == "" then Flush(cur)
    else if lex.isToken(s[0]) then Fields(lex, s[1..], cur + [s[0]])
    else Flush(cur) + Fields(lex, s[1..], "")
  }

  function Tokens(lex: Lexicon, t: string): seq<string> {
    Fields(lex, Lower(lex, t), "")
  }

  lemma {:induction false} FieldsSplitAtSeparator(lex: Lexicon, x: string, sep: char, y: string, cur: string)
    requires !lex.isToken(sep)
    ensures Fields(lex, x + [sep] + y, cur) == Fields(lex, x, cur) + Fields(lex, y, "")
    decreases |x|
  {
    var s := x + [sep] + y;
    if x == "" {
      assert s[1..] == y;
    } else {
      assert s[1..] == x[1..] + [sep] + y;
      if lex.isToken(x[0]) {
        FieldsSplitAtSeparator(lex, x[1..], sep, y, cur + [x[0]]);
      } else {
        FieldsSplitAtSeparator(lex, x[1..], sep, y, "");
      }
    }
  }

  // Tokenising distributes over any character that is no part of a token.
  lemma TokensSplitAtSeparator(lex: Lexicon, x: string, sep: char, y: string)
    requires !lex.isToken(lex.lower(sep))
    ensures Tokens(lex, x + [sep] + y) == Tokens(lex, x) + Tokens(lex, y)
  {
    assert Lower(lex, x + [sep] + y) == Lower(lex, x) + [lex.lower(sep)] + Lower(lex, y);
    FieldsSplitAtSeparator(lex, Lower(lex, x), lex.lower(sep), Lower(lex, y), "");
  }

  lemma {:induction false} FieldsOfWord(lex: Lexicon, s: string, cur: string)
    requires forall k :: 0 <= k < |s| ==> lex.isToken(s[k])
    ensures Fields(lex, s, cur) == Flush(cur + s)
    decreases |s|
  {
    if s == "" {
      assert cur + s == cur;
    } else {
      FieldsOfWord(lex, s[1..], cur + [s[0]]);
      assert cur + [s[0]] + s[1..] == cur + s;
    }
  }

  // A text of token characters alone is one token, its lower-case form; an empty text
  // has none. With the law above this fixes the tokens of every text.
  lemma TokensOfWord(lex: Lexicon, x: string)
    requires forall k :: 0 <= k < |x| ==> lex.isToken(lex.lower(x[k]))
    ensures x == "" ==> Tokens(lex, x) == []
    ensures x != "" ==>
      |Tokens(lex, x)| == 1 && |Tokens(lex, x)[0]| == |x| && forall k :: 0 <= k < |x| ==> Tokens(lex, x)[0][k] == lex.lower(x[k])
  {
    FieldsOfWord(lex, Lower(lex, x), "");
    assert "" + Lower(lex, x) == Lower(lex, x);
  }

  // Tokenising distributes over a line break.
  lemma TokensSplitAtNewline(lex: Lexicon, x: string, y: string)
    requires lex.Valid()
    ensures Tokens(lex, x + "\n" + y) == Tokens(lex, x) + Tokens(lex, y)
  {
    TokensSplitAtSeparator(lex, x, '\n', y);
  }

  lemma {:induction false} TokensOfJoin(lex: Lexicon, ls: seq<Line>, ms: seq<Line>)
    requires lex.Valid()
    ensures Tokens(lex, Join(ls + ms, "\n")) == Tokens(lex, Join(ls, "\n")) + Tokens(lex, Join(ms, "\n"))
    decreases |ls|
  {
    if ls == [] {
      assert ls + ms == ms;
    } else if ms == [] {
      assert ls + ms == ls;
    } else {
      assert (ls + ms)[1..] == ls[1..] + ms;
      TokensSplitAtNewline(lex, ls[0], Join(ls[1..] + ms, "\n"));
      TokensOfJoin(lex, ls[1..], ms);
      if |ls| == 1 {
        assert ls[1..] + ms == ms;
      } else {
        TokensSplitAtNewline(lex, ls[0], Join(ls[1..], "\n"));
      }
    }
  }

  // ---- vectors ---------------------------------------------------------------

  // Tokens that land in bucket b.
  function Count(lex: Lexicon, toks: seq<string>, b: nat): nat {
    if toks == [] then 0
    else Count(lex, toks[..|toks| - 1], b) + if lex.hash(toks[|toks| - 1]) % lex.Buckets() == b then 1 else 0
  }

  lemma {:induction false} CountOfConcat(lex: Lexicon, x: seq<string>, y: seq<string>, b: nat)
    ensures Count(lex, x + y, b) == Count(lex, x, b) + Count(lex, y, b)
    decreases |y|
  {
    if y == [] {
      assert x + y == x;
    } else {
      assert (x + y)[..|x + y| - 1] == x + y[..|y| - 1];
      CountOfConcat(lex, x, y[..|y| - 1], b);
    }
  }

  function BagOfWords(lex: Lexicon, t: string): seq<nat> {
    seq(lex.Buckets(), b requires 0 <= b => Count(lex, Tokens(lex, t), b))
  }

  ghost function Occurrences(lex: Lexicon, toks: seq<string>, d: nat, b: nat): set<nat>
    requires d > 0
  {
    set k: nat | k < |toks| && lex.hash(toks[k]) % d == b
  }

  lemma {:induction false} CountIsOccurrences(lex: Lexicon, toks: seq<string>, b: nat)
    ensures Count(lex, toks, b) == |Occurrences(lex, toks, lex.Buckets(), b)|
    decreases |toks|
  {
    if toks == [] {
      assert Occurrences(lex, toks, lex.Buckets(), b) == {};
    } else {
      var n, d := |toks| - 1, lex.Buckets();
      CountIsOccurrences(lex, toks[..n], b);
      var here := if lex.hash(toks[n]) % d == b then {n} else {};
      assert Occurrences(lex, toks, d, b) == Occurrences(lex, toks[..n], d, b) + here;
    }
  }

  // A vector has 256 entries unless a dimension is set; each entry is the number of
  // tokens whose hash falls into it.
  lemma BagCountsTokens(lex: Lexicon, t: string)
    ensures var d := if lex.dim == 0 then 256 else lex.dim;
      |BagOfWords(lex, t)| == d && forall b: nat :: b < d ==> BagOfWords(lex, t)[b] == |Occurrences(lex, Tokens(lex, t), d, b)|
  {
    forall b: nat {
      CountIsOccurrences(lex, Tokens(lex, t), b);
    }
  }

  method EmbedText(lex: Lexicon, t: string) returns (v: array<nat>)
    ensures v[..] == BagOfWords(lex, t)
  {
    var d := lex.Buckets();
    v := new nat[d](_ => 0);
    var toks := Tokens(lex, t);
    for k := 0 to |toks|
      invariant forall b :: 0 <= b < d ==> v[b] == Count(lex, toks[..k], b)
    {
      assert toks[..k + 1][..k] == toks[..k];
      var h := lex.hash(toks[k]) % d;
      v[h] := v[h] + 1;
    }
    assert toks[..|toks|] == toks;
  }

  method Embed(lex: Lexicon, texts: seq<string>) returns (out: seq<seq<nat>>)
    ensures |out| == |texts|
    ensures forall i :: 0 <= i < |texts| ==> out[i] == BagOfWords(lex, texts[i])
  {
    out := [];
    for i := 0 to |texts|
      invariant |out| == i
      invariant forall k :: 0 <= k < i ==> out[k] == BagOfWords(lex, texts[k])
    {
      var v := EmbedText(lex, texts[i]);
      out := out + [v[..]];
    }
  }

  // The lower persistence bar of this embedder.
  const LEXICAL_PERSIST_FRAC: real := 0.40

  function Vectorized(bag: seq<nat>): Vector {
    seq(|bag|, i requires 0 <= i < |bag| => bag[i] as real)
  }

  function LexicalEmbedder(lex: Lexicon, similarity: (Vector, Vector) -> real): Embedder {
    Embedder(t => Ok(Vectorized(BagOfWords(lex, t))), similarity, Some(LEXICAL_PERSIST_FRAC))
  }

  // The offline embedder never fails, and its vectors are those counts as reals.
  lemma OfflineVectors(lex: Lexicon, similarity: (Vector, Vector) -> real, t: string)
    ensures var v, d := LexicalEmbedder(lex, similarity).embed(t), if lex.dim == 0 then 256 else lex.dim;
      && v.Ok? && |v.value| == d
      && forall b: nat :: b < d ==> v.value[b] == |Occurrences(lex, Tokens(lex, t), d, b)| as real
  {
    BagCountsTokens(lex, t);
  }

  // Offline, every analysis succeeds with one report per hunk, structural exactly when
  // some side carries 0.15 and four tenths of the point delta to both file edges.
  lemma OfflineAnalysis(lex: Lexicon, similarity: (Vector, Vector) -> real, a: seq<Line>, b: seq<Line>)
    ensures var r, hs := Analysis(LexicalEmbedder(lex, similarity), a, b), Hunks(a, b);
      && r.Ok? && |r.value| == |hs|
      && forall k :: 0 <= k < |hs| ==>
        && r.value[k].change == hs[k] && InFiles(a, b, hs[k])
        && (r.value[k].verdict == Structural <==> Carried(a, b, r.value[k], 0.40))
  {
    var emb, hs := LexicalEmbedder(lex, similarity), Hunks(a, b);
    HunksAreInFiles(a, b);
    ReportsSucceed(emb, a, b, hs, LEXICAL_PERSIST_FRAC);
    forall k | 0 <= k < |hs|
      ensures var rs := Analysis(emb, a, b).value;
        |rs| == |hs| && rs[k].change == hs[k] && (rs[k].verdict == Structural <==> Carried(a, b, rs[k], 0.40))
    {
      ReportsAt(emb, a, b, hs, LEXICAL_PERSIST_FRAC, k);
      StructuralMeansCarried(emb, a, b, hs[k], LEXICAL_PERSIST_FRAC);
    }
  }

  ghost predicate IsSum(x: seq<nat>, y: seq<nat>, z: seq<nat>) {
    |x| == |y| == |z| && forall b :: 0 <= b < |x| ==> x[b] == y[b] + z[b]
  }

  lemma BagOfJoin(lex: Lexicon, ls: seq<Line>, ms: seq<Line>)
    requires lex.Valid()
    ensures IsSum(BagOfWords(lex, Join(ls + ms, "\n")), BagOfWords(lex, Join(ls, "\n")), BagOfWords(lex, Join(ms, "\n")))
  {
    TokensOfJoin(lex, ls, ms);
    forall b: nat {
      CountOfConcat(lex, Tokens(lex, Join(ls, "\n")), Tokens(lex, Join(ms, "\n")), b);
    }
  }

  // ---- windows inside the matched run ----------------------------------------

  // The lines a window of radius r adds to one side of lines[from..to].
  ghost function Context(lines: seq<Line>, from: nat, to: nat, side: Side, r: nat): seq<Line>
    requires from <= to <= |lines| && Fits(lines, from, to, side, r)
  {
    match side
    case Up => lines[from - r..from]
    case Down => lines[to..to + r]
  }

  ghost predicate Fits(lines: seq<Line>, from: nat, to: nat, side: Side, r: nat) {
    match side
    case Up => r <= from
    case Down => to + r <= |lines|
  }

  // Both files gain the same r lines.
  ghost predicate SameContext(a: seq<Line>, b: seq<Line>, h: Change, side: Side, r: nat)
    requires InFiles(a, b, h)
  {
    && Fits(a, h.oldStart, h.oldEnd, side, r) && Fits(b, h.newStart, h.newEnd, side, r)
    && Context(a, h.oldStart, h.oldEnd, side, r) == Context(b, h.newStart, h.newEnd, side, r)
  }

  // The matched lines between hunk k and its neighbour (or the file edge).
  ghost function Run(a: seq<Line>, hs: seq<Change>, k: nat, side: Side): int
    requires k < |hs|
  {
    match side
    case Up => RunAbove(0, hs, k)
    case Down => RunBelow(a, hs, k)
  }

  lemma RunAboveGivesContext(a: seq<Line>, b: seq<Line>, h: Change, run: int, r: nat)
    requires InFiles(a, b, h) && MatchedAbove(a, b, h.oldStart, h.newStart, run) && r <= run
    ensures SameContext(a, b, h, Up, r)
  {
    assert a[h.oldStart - r..h.oldStart] == a[h.oldStart - run..h.oldStart][run - r..];
    assert b[h.newStart - r..h.newStart] == b[h.newStart - run..h.newStart][run - r..];
  }

  lemma RunBelowGivesContext(a: seq<Line>, b: seq<Line>, h: Change, run: int, r: nat)
    requires InFiles(a, b, h) && MatchedBelow(a, b, h.oldEnd, h.newEnd, run) && r <= run
    ensures SameContext(a, b, h, Down, r)
  {
    assert a[h.oldEnd..h.oldEnd + r] == a[h.oldEnd..h.oldEnd + run][..r];
    assert b[h.newEnd..h.newEnd + r] == b[h.newEnd..h.newEnd + run][..r];
  }

  lemma RunGivesContext(a: seq<Line>, b: seq<Line>, hs: seq<Change>, k: nat, side: Side, r: nat)
    requires Aligned(a, b, 0, 0, hs) && k < |hs| && InFiles(a, b, hs[k]) && r <= Run(a, hs, k, side)
    ensures SameContext(a, b, hs[k], side, r)
  {
    RunsMatch(a, b, 0, 0, hs, k);
    match side {
      case Up => RunAboveGivesContext(a, b, hs[k], RunAbove(0, hs, k), r);
      case Down => RunBelowGivesContext(a, b, hs[k], RunBelow(a, hs, k), r);
    }
  }

  ghost function Grown(lines: seq<Line>, from: nat, to: nat, side: Side, r: nat): string
    requires from <= to <= |lines| && Fits(lines, from, to, side, r)
  {
    match side
    case Up => Core(lines, from - r, to)
    case Down => Core(lines, from, to + r)
  }

  lemma WindowIsGrown(a: seq<Line>, b: seq<Line>, h: Change, side: Side, r: nat)
    requires InFiles(a, b, h) && Fits(a, h.oldStart, h.oldEnd, side, r) && Fits(b, h.newStart, h.newEnd, side, r)
    ensures WindowAt(a, b, h, side, r).oldText == Grown(a, h.oldStart, h.oldEnd, side, r)
    ensures WindowAt(a, b, h, side, r).newText == Grown(b, h.newStart, h.newEnd, side, r)
  {
  }

  // A grown slice is its context and its core, joined by line breaks.
  lemma BagOfGrown(lex: Lexicon, lines: seq<Line>, from: nat, to: nat, side: Side, r: nat)
    requires lex.Valid() && from <= to <= |lines| && Fits(lines, from, to, side, r)
    ensures IsSum(BagOfWords(lex, Grown(lines, from, to, side, r)),
                  BagOfWords(lex, Join(Context(lines, from, to, side, r), "\n")),
                  BagOfWords(lex, Core(lines, from, to)))
  {
    var context, core := Context(lines, from, to, side, r), lines[from..to];
    match side {
      case Up =>
        assert lines[from - r..to] == context + core;
        BagOfJoin(lex, context, core);
      case Down =>
        assert lines[from..to + r] == core + context;
        BagOfJoin(lex, core, context);
    }
  }

  // As long as a window stays inside the matched run next to its hunk, both of its
  // texts gain the same context lines, and the vector of each is the context's
  // vector plus the vector of the changed region.
  lemma WindowIsContextPlusCore(lex: Lexicon, a: seq<Line>, b: seq<Line>, k: nat, side: Side, r: nat)
    requires lex.Valid() && k < |Hunks(a, b)| && r <= Run(a, Hunks(a, b), k, side)
    ensures var h := Hunks(a, b)[k];
      && InFiles(a, b, h)
      && SameContext(a, b, h, side, r)
      && var context := BagOfWords(lex, Join(Context(a, h.oldStart, h.oldEnd, side, r), "\n"));
         var w := WindowAt(a, b, h, side, r);
         && IsSum(BagOfWords(lex, w.oldText), context, BagOfWords(lex, Core(a, h.oldStart, h.oldEnd)))
         && IsSum(BagOfWords(lex, w.newText), context, BagOfWords(lex, Core(b, h.newStart, h.newEnd)))
  {
    var h := Hunks(a, b)[k];
    HunksAreInFiles(a, b);
    HunksAreAligned(a, b, 0, 0);
    RunGivesContext(a, b, Hunks(a, b), k, side, r);
    WindowIsGrown(a, b, h, side, r);
    BagOfGrown(lex, a, h.oldStart, h.oldEnd, side, r);
    BagOfGrown(lex, b, h.newStart, h.newEnd, side, r);
  }
}
