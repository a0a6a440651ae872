// The byte strings that version and commit hashes digest (internal/store/store.go).
module Encodings {
  import opened Text
  import opened Placeholders

  const NUL: string := "\0"

  predicate NulFree(s: string) {
    '\0' !in s
  }

  // What Hash digests.
  function HashInput(t: string, slots: seq<string>): string {
    t + NUL + Join(slots, NUL)
  }

  // What CommitHash digests.
  function CommitInput(versionHash: string, parent: string, parent2: string, author: string, message: string): string {
    versionHash + NUL + (parent + NUL + (parent2 + NUL + (author + NUL + (message + NUL))))
  }

  // ---- commit inputs ---------------------------------------------------------

  lemma NulFreeFieldIsDetermined(x: string, y: string, x': string, y': string)
    requires NulFree(x) && NulFree(x') && x + NUL + y == x' + NUL + y'
    ensures x == x' && y == y'
  {
    var s := x + NUL + y;
    assert s[|x|] == '\0' && s[|x'|] == '\0';
    assert forall k :: 0 <= k < |x| ==> s[k] == x[k] && x[k] in x;
    assert forall k :: 0 <= k < |x'| ==> s[k] == x'[k] && x'[k] in x';
    assert |x| == |x'|;
    assert x == s[..|x|] && x' == s[..|x'|] && y == s[|x| + 1..] && y' == s[|x'| + 1..];
  }

  // Whatever author and message hold, the input determines the version and the parents.
  lemma CommitInputDeterminesLinks(v: string, p: string, q: string, a: string, m: string,
                                   v': string, p': string, q': string, a': string, m': string)
    requires NulFree(v) && NulFree(p) && NulFree(q) && NulFree(v') && NulFree(p') && NulFree(q')
    requires CommitInput(v, p, q, a, m) == CommitInput(v', p', q', a', m')
    ensures v == v' && p == p' && q == q' && a + NUL + (m + NUL) == a' + NUL + (m' + NUL)
  {
    var r3, r3' := a + NUL + (m + NUL), a' + NUL + (m' + NUL);
    var r2, r2' := q + NUL + r3, q' + NUL + r3';
    NulFreeFieldIsDetermined(v, p + NUL + r2, v', p' + NUL + r2');
    NulFreeFieldIsDetermined(p, r2, p', r2');
    NulFreeFieldIsDetermined(q, r3, q', r3');
  }

  // The input determines all five fields as long as only the message can hold NUL.
  lemma CommitInputDetermines(v: string, p: string, q: string, a: string, m: string,
                              v': string, p': string, q': string, a': string, m': string)
    requires NulFree(v) && NulFree(p) && NulFree(q) && NulFree(a)
    requires NulFree(v') && NulFree(p') && NulFree(q') && NulFree(a')
    requires CommitInput(v, p, q, a, m) == CommitInput(v', p', q', a', m')
    ensures v == v' && p == p' && q == q' && a == a' && m == m'
  {
    CommitInputDeterminesLinks(v, p, q, a, m, v', p', q', a', m');
    NulFreeFieldIsDetermined(a, m + NUL, a', m' + NUL);
    assert m == (m + NUL)[..|m|] && m' == (m' + NUL)[..|m'|];
  }

  // ---- joins of words --------------------------------------------------------

  ghost predicate Words(s: seq<string>) {
    forall k :: 0 <= k < |s| ==> IsWord(s[k])
  }

  lemma WordIsNulFree(w: string)
    requires IsWord(w)
    ensures NulFree(w) && w != ""
  {
  }

  lemma {:induction false} JoinIsInjective(x: seq<string>, y: seq<string>)
    requires Words(x) && Words(y) && Join(x, NUL) == Join(y, NUL)
    ensures x == y
    decreases |x|
  {
    if x != [] {
      WordIsNulFree(x[0]);
      assert Join(x, NUL)[..|x[0]|] == x[0];
    }
    if y != [] {
      WordIsNulFree(y[0]);
      assert Join(y, NUL)[..|y[0]|] == y[0];
    }
    if x != [] && y != [] {
      if |x| > 1 && |y| > 1 {
        NulFreeFieldIsDetermined(x[0], Join(x[1..], NUL), y[0], Join(y[1..], NUL));
        JoinIsInjective(x[1..], y[1..]);
        assert x == [x[0]] + x[1..] && y == [y[0]] + y[1..];
      }
    }
  }

  // A NUL inside a join of words is one of its separators.
  lemma {:induction false} NulSplitsJoin(x: seq<string>, d: nat) returns (k: nat)
    requires Words(x) && d < |Join(x, NUL)| && Join(x, NUL)[d] == '\0'
    ensures 0 < k < |x| && Join(x[..k], NUL) == Join(x, NUL)[..d] && Join(x[k..], NUL) == Join(x, NUL)[d + 1..]
    decreases |x|
  {
    var j, n := Join(x, NUL), |x[0]|;
    WordIsNulFree(x[0]);
    assert j[..n] == x[0];
    assert d >= n by {
      assert forall i :: 0 <= i < n ==> j[i] == x[0][i];
    }
    assert |x| > 1 && j == x[0] + NUL + Join(x[1..], NUL);
    if d == n {
      k := 1;
      assert x[..1] == [x[0]];
    } else {
      var rest := Join(x[1..], NUL);
      assert rest == j[n + 1..];
      assert rest[d - n - 1] == j[d];
      var l := NulSplitsJoin(x[1..], d - n - 1);
      k := l + 1;
      assert x[..k] == [x[0]] + x[1..][..l] && x[k..] == x[1..][l..];
      JoinOfParts([x[0]], x[1..][..l], NUL);
      assert j[..d] == x[0] + NUL + rest[..d - n - 1];
    }
  }

  // ---- what the inputs list --------------------------------------------------

  lemma LastFieldsList(q: string, a: string, m: string)
    requires NulFree(q) && NulFree(a) && NulFree(m)
    ensures Split(q + NUL + (a + NUL + (m + NUL)), '\0') == [q] + ([a] + [m, ""])
  {
    assert Split(m + NUL, '\0') == [m, ""] by {
      SplitOfParts(m, "", '\0');
      assert m + NUL + "" == m + NUL;
    }
    SplitOfParts(a, m + NUL, '\0');
    SplitOfParts(q, a + NUL + (m + NUL), '\0');
  }

  // Cut at NUL, the input of a commit lists its five fields in order.
  lemma CommitInputLists(v: string, p: string, q: string, a: string, m: string)
    requires NulFree(v) && NulFree(p) && NulFree(q) && NulFree(a) && NulFree(m)
    ensures Split(CommitInput(v, p, q, a, m), '\0') == [v, p, q, a, m, ""]
  {
    var rest := q + NUL + (a + NUL + (m + NUL));
    LastFieldsList(q, a, m);
    SplitOfParts(p, rest, '\0');
    SplitOfParts(v, p + NUL + rest, '\0');
    assert [v] + ([p] + ([q] + ([a] + [m, ""]))) == [v, p, q, a, m, ""];
  }

  // Cut at NUL, the input of a version lists the template and then its slots.
  lemma HashInputLists(t: string, slots: seq<string>)
    requires NulFree(t) && Words(slots)
    ensures Split(HashInput(t, slots), '\0') == [t] + if slots == [] then [""] else slots
  {
    SplitOfParts(t, Join(slots, NUL), '\0');
    if slots != [] {
      forall k | 0 <= k < |slots| ensures '\0' !in slots[k] {
        WordIsNulFree(slots[k]);
      }
      SplitUndoesJoin(slots, '\0');
    }
  }

  // ---- version inputs --------------------------------------------------------

  // The first slot is declared again later on.
  predicate RepeatsFirst(slots: seq<string>) {
    slots != [] && slots[0] in slots[1..]
  }

  // The template ends in NUL followed by one of its slots' names.
  predicate EndsInSlot(t: string, slots: seq<string>) {
    exists w | w in slots :: |w| < |t| && t[|t| - |w| - 1] == '\0' && t[|t| - |w|..] == w
  }

  lemma MatchedSlotsAreWords(t: string, slots: seq<string>)
    requires Matched(t, slots)
    ensures Words(slots)
  {
    forall k | 0 <= k < |slots| ensures IsWord(slots[k]) {
      assert slots[k] in slots;
    }
  }

  // Text without braces places nothing.
  lemma UsesAfterAppend(t: string, x: string, w: string)
    requires '}' !in x
    ensures Uses(t + x, w) <==> Uses(t, w)
  {
    if IsWord(w) {
      forall p: nat ensures Placed(t + x, p, w) <==> Placed(t, p, w) {
        if p + |w| + 2 <= |t| {
          assert (t + x)[p + 1..p + 1 + |w|] == t[p + 1..p + 1 + |w|];
        } else if p + |w| + 2 <= |t + x| {
          assert (t + x)[p + 1 + |w|] == x[p + 1 + |w| - |t|];
        }
      }
    }
  }

  lemma JoinHasNoBrace(x: seq<string>)
    requires Words(x)
    ensures '}' !in Join(x, NUL)
  {
  }

  // Two validated prompts with one input: the shorter slot list is a tail of the
  // longer one, and the slots before it moved into the template.
  lemma WhereInputsSplit(t: string, slots: seq<string>, t': string, slots': seq<string>) returns (k: nat)
    requires Words(slots) && Words(slots') && HashInput(t, slots) == HashInput(t', slots')
    requires |Join(slots, NUL)| < |Join(slots', NUL)|
    ensures 0 < k < |slots'| && slots == slots'[k..] && t == t' + (NUL + Join(slots'[..k], NUL))
  {
    var s, j, j' := HashInput(t, slots), Join(slots, NUL), Join(slots', NUL);
    var d := |j'| - |j|;
    assert |s| == |t| + 1 + |j| == |t'| + 1 + |j'|;
    assert j == s[|t| + 1..] && j' == s[|t'| + 1..];
    assert j'[d - 1] == s[|t|] == '\0';
    assert j'[d..] == j;
    k := NulSplitsJoin(slots', d - 1);
    JoinIsInjective(slots, slots'[k..]);
    assert t == s[..|t|] && j'[..d - 1] == s[|t'| + 1..|t|];
    assert s[..|t|] == t' + (NUL + j'[..d - 1]);
  }

  lemma CollisionShape(t: string, slots: seq<string>, t': string, slots': seq<string>)
    requires Matched(t, slots) && Matched(t', slots') && HashInput(t, slots) == HashInput(t', slots')
    requires |Join(slots, NUL)| < |Join(slots', NUL)|
    ensures RepeatsFirst(slots') && EndsInSlot(t, slots)
  {
    MatchedSlotsAreWords(t, slots);
    MatchedSlotsAreWords(t', slots');
    var k := WhereInputsSplit(t, slots, t', slots');
    var moved := slots'[..k];
    MovedSlotIsKept(t, slots, t', slots', moved, slots'[0]);
    FirstSlotInTail(slots', k);
    MovedSlotIsKept(t, slots, t', slots', moved, moved[k - 1]);
    LastMovedEndsTemplate(t', moved, slots);
  }

  lemma FirstSlotInTail(slots: seq<string>, k: nat)
    requires 0 < k < |slots| && slots[0] in slots[k..]
    ensures RepeatsFirst(slots)
  {
  }

  lemma LastMovedEndsTemplate(t: string, x: seq<string>, slots: seq<string>)
    requires Words(x) && x != [] && x[|x| - 1] in slots
    ensures EndsInSlot(t + (NUL + Join(x, NUL)), slots)
  {
    TextEndsInLastWord(t, x);
  }

  lemma MovedSlotIsKept(t: string, slots: seq<string>, t': string, slots': seq<string>, moved: seq<string>, w: string)
    requires Matched(t, slots) && Matched(t', slots') && Words(moved)
    requires t == t' + (NUL + Join(moved, NUL)) && w in slots'
    ensures w in slots
  {
    JoinHasNoBrace(moved);
    UsesAfterAppend(t', NUL + Join(moved, NUL), w);
  }

  lemma TextEndsInLastWord(t: string, x: seq<string>)
    requires Words(x) && x != []
    ensures var s, w := t + (NUL + Join(x, NUL)), x[|x| - 1];
      |w| < |s| && s[|s| - |w| - 1] == '\0' && s[|s| - |w|..] == w
  {
    var w := x[|x| - 1];
    if |x| > 1 {
      assert x == x[..|x| - 1] + [w];
      JoinOfParts(x[..|x| - 1], [w], NUL);
      assert t + (NUL + Join(x, NUL)) == (t + NUL + Join(x[..|x| - 1], NUL)) + NUL + w;
    } else {
      assert t + (NUL + Join(x, NUL)) == t + NUL + w;
    }
  }

  lemma SameJoinSameContent(t: string, slots: seq<string>, t': string, slots': seq<string>)
    requires Matched(t, slots) && Matched(t', slots') && HashInput(t, slots) == HashInput(t', slots')
    requires |Join(slots, NUL)| == |Join(slots', NUL)|
    ensures t == t' && slots == slots'
  {
    var s := HashInput(t, slots);
    assert t == s[..|t|] && t' == s[..|t'|];
    assert Join(slots, NUL) == s[|t| + 1..] && Join(slots', NUL) == s[|t'| + 1..];
    MatchedSlotsAreWords(t, slots);
    MatchedSlotsAreWords(t', slots');
    JoinIsInjective(slots, slots');
  }

  lemma CollisionCases(t: string, slots: seq<string>, t': string, slots': seq<string>)
    requires Matched(t, slots) && Matched(t', slots') && HashInput(t, slots) == HashInput(t', slots')
    ensures || (t == t' && slots == slots')
            || (RepeatsFirst(slots') && EndsInSlot(t, slots))
            || (RepeatsFirst(slots) && EndsInSlot(t', slots'))
  {
    if |Join(slots, NUL)| < |Join(slots', NUL)| {
      CollisionShape(t, slots, t', slots');
    } else if |Join(slots', NUL)| < |Join(slots, NUL)| {
      CollisionShape(t', slots', t, slots);
    } else {
      SameJoinSameContent(t, slots, t', slots');
    }
  }

  // Among validated prompts none of which repeats its first slot (so among those
  // with distinct slots), the input determines template and slots.
  lemma HashInputDetermines(t: string, slots: seq<string>, t': string, slots': seq<string>)
    requires Matched(t, slots) && Matched(t', slots') && HashInput(t, slots) == HashInput(t', slots')
    requires !RepeatsFirst(slots) && !RepeatsFirst(slots')
    ensures t == t' && slots == slots'
  {
    CollisionCases(t, slots, t', slots');
  }

  ghost predicate Collides(t: string, slots: seq<string>, t': string, slots': seq<string>) {
    Matched(t', slots') && (t', slots') != (t, slots) && HashInput(t', slots') == HashInput(t, slots)
  }

  // A validated prompt shares its input with another validated prompt exactly when
  // it repeats its first slot or its template ends in NUL and one of its slots.
  lemma CollisionsExactly(t: string, slots: seq<string>)
    requires Matched(t, slots)
    ensures (exists t', slots' :: Collides(t, slots, t', slots')) <==> RepeatsFirst(slots) || EndsInSlot(t, slots)
  {
    forall t', slots' | Collides(t, slots, t', slots') ensures RepeatsFirst(slots) || EndsInSlot(t, slots) {
      CollisionCases(t, slots, t', slots');
    }
    if RepeatsFirst(slots) {
      MoveFirstSlotIntoTemplate(t, slots);
    } else if EndsInSlot(t, slots) {
      var w :| w in slots && |w| < |t| && t[|t| - |w| - 1] == '\0' && t[|t| - |w|..] == w;
      MoveTailIntoSlots(t, slots, w);
    }
  }

  lemma MoveFirstSlotIntoTemplate(t: string, slots: seq<string>)
    requires Matched(t, slots) && RepeatsFirst(slots)
    ensures Collides(t, slots, t + NUL + slots[0], slots[1..])
  {
    MatchedSlotsAreWords(t, slots);
    var t' := t + NUL + slots[0];
    assert t' == t + (NUL + slots[0]);
    forall w ensures w in slots[1..] <==> Uses(t', w) {
      UsesAfterAppend(t, NUL + slots[0], w);
      assert w in slots <==> w == slots[0] || w in slots[1..];
    }
    assert slots == [slots[0]] + slots[1..];
    JoinOfParts([slots[0]], slots[1..], NUL);
    assert HashInput(t', slots[1..]) == HashInput(t, slots);
    assert |slots[1..]| != |slots|;
  }

  lemma MoveTailIntoSlots(t: string, slots: seq<string>, w: string)
    requires Matched(t, slots) && w in slots
    requires |w| < |t| && t[|t| - |w| - 1] == '\0' && t[|t| - |w|..] == w
    ensures Collides(t, slots, t[..|t| - |w| - 1], [w] + slots)
  {
    MatchedSlotsAreWords(t, slots);
    var t' := t[..|t| - |w| - 1];
    assert IsWord(w);
    assert t == t' + (NUL + w);
    forall u ensures u in [w] + slots <==> Uses(t', u) {
      UsesAfterAppend(t', NUL + w, u);
    }
    JoinOfParts([w], slots, NUL);
    assert HashInput(t', [w] + slots) == HashInput(t, slots);
    assert |[w] + slots| != |slots|;
  }

  // The smallest collision: both prompts validate.
  lemma RepeatedSlotCollides()
    ensures Matched("{a}", ["a", "a"]) && Collides("{a}", ["a", "a"], "{a}\0a", ["a"])
  {
    var t := "{a}";
    forall w ensures w in ["a", "a"] <==> Uses(t, w) {
      if Uses(t, w) {
        var p: nat :| Placed(t, p, w);
        assert p == 0 && w == t[1..2] == "a";
      }
      assert Placed(t, 0, "a");
    }
    MoveFirstSlotIntoTemplate(t, ["a", "a"]);
    assert t + NUL + "a" == "{a}\0a" && ["a", "a"][1..] == ["a"];
  }

  // ---- the digest ------------------------------------------------------------

  // What the store needs of the digest on every run: a non-empty text without NUL,
  // as hexadecimal is.
  ghost predicate IsDigest(sha: string -> string) {
    forall x :: sha(x) != "" && NulFree(sha(x))
  }

  // The idealisation used only where a property names it: no two inputs share a digest.
  ghost predicate CollisionFree(sha: string -> string) {
    forall x, y :: sha(x) == sha(y) ==> x == y
  }

  function Escape(s: string): (r: string)
    ensures NulFree(r)
  {
    if s == "" then ""
    else (if s[0] == '\0' then "e0" else if s[0] == 'e' then "ee" else [s[0]]) + Escape(s[1..])
  }

  lemma {:induction false} EscapeIsInjective(x: string, y: string)
    requires Escape(x) == Escape(y)
    ensures x == y
    decreases |x|
  {
    if x != "" && y != "" {
      var ex, ey := Escape(x), Escape(y);
      var n := if x[0] == '\0' || x[0] == 'e' then 2 else 1;
      assert ex[0] == ey[0] && (n == 2 ==> ex[1] == ey[1]);
      assert x[0] == y[0];
      assert ex[n..] == Escape(x[1..]) && ey[n..] == Escape(y[1..]);
      EscapeIsInjective(x[1..], y[1..]);
      assert x == [x[0]] + x[1..] && y == [y[0]] + y[1..];
    } else {
      assert x != "" ==> |Escape(x)| > 0;
      assert y != "" ==> |Escape(y)| > 0;
    }
  }

  // The two assumptions can be met together.
  lemma IdealDigestExists()
    ensures exists sha :: IsDigest(sha) && CollisionFree(sha)
  {
    var sha := (s: string) => "h" + Escape(s);
    forall x, y | sha(x) == sha(y) ensures x == y {
      assert Escape(x) == sha(x)[1..] && Escape(y) == sha(y)[1..];
      EscapeIsInjective(x, y);
    }
    assert IsDigest(sha) && CollisionFree(sha);
  }
}
