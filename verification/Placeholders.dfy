// Placeholder scanning, slot derivation and prompt validation
// (internal/validate/validate.go and cmd/promptctl/main.go).
module Placeholders {
  import opened Text

  // ---- words and where they are placed ---------------------------------------

  predicate IsWordChar(c: char) {
    '0' <= c <= '9' || 'A' <= c <= 'Z' || 'a' <= c <= 'z' || c == '_'
  }

  // The characters of a word are the ASCII digits, letters and underscore.
  lemma WordCharsAre(c: char)
    ensures var n := c as int; IsWordChar(c) <==> 48 <= n <= 57 || 65 <= n <= 90 || 97 <= n <= 122 || n == 95
  {
  }

  predicate IsWord(w: string) {
    w != "" && forall k :: 0 <= k < |w| ==> IsWordChar(w[k])
  }

  // "{w}" stands at position p of t.
  predicate Placed(t: string, p: nat, w: string) {
    && p + |w| + 2 <= |t|
    && t[p] == '{' && t[p + 1..p + 1 + |w|] == w && t[p + 1 + |w|] == '}'
  }

  // The template uses slot w: w is a word and "{w}" is a substring of t.
  ghost predicate Uses(t: string, w: string) {
    IsWord(w) && exists p: nat :: Placed(t, p, w)
  }

  // ---- the left-to-right scan ------------------------------------------------

  datatype Match = Match(at: nat, word: string)

  // The first position from j on that holds no word character.
  function WordEnd(t: string, j: nat): (e: nat)
    requires j <= |t|
    ensures j <= e <= |t|
    ensures forall k :: j <= k < e ==> IsWordChar(t[k])
    ensures e < |t| ==> !IsWordChar(t[e])
    decreases |t| - j
  {
    if j < |t| && IsWordChar(t[j]) then WordEnd(t, j + 1) else j
  }

  // A placeholder starts at position i.
  predicate Opens(t: string, i: nat)
    requires i < |t|
  {
    var e := WordEnd(t, i + 1);
    t[i] == '{' && i + 1 < e < |t| && t[e] == '}'
  }

  function MatchesFrom(t: string, i: nat): seq<Match>
    requires i <= |t|
    decreases |t| - i
  {
    if i == |t| then []
    else if Opens(t, i) then
      var e := WordEnd(t, i + 1);
      [Match(i, t[i + 1..e])] + MatchesFrom(t, e + 1)
    else MatchesFrom(t, i + 1)
  }

  method FindAll(t: string) returns (ms: seq<Match>)
    ensures ms == MatchesFrom(t, 0)
  {
    ms := [];
    var i := 0;
    while i < |t|
      invariant 0 <= i <= |t|
      invariant ms + MatchesFrom(t, i) == MatchesFrom(t, 0)
    {
      if t[i] != '{' {
        i := i + 1;
        continue;
      }
      var e := i + 1;
      while e < |t| && IsWordChar(t[e])
        invariant i < e <= |t|
        invariant WordEnd(t, e) == WordEnd(t, i + 1)
      {
        e := e + 1;
      }
      if e > i + 1 && e < |t| && t[e] == '}' {
        assert ms + ([Match(i, t[i + 1..e])] + MatchesFrom(t, e + 1)) == ms + [Match(i, t[i + 1..e])] + MatchesFrom(t, e + 1);
        ms := ms + [Match(i, t[i + 1..e])];
        i := e + 1;
      } else {
        i := i + 1;
      }
    }
  }

  // ms lists every placed word from position i on, in order, once per position.
  ghost predicate Lists(t: string, i: nat, ms: seq<Match>) {
    && (forall k :: 0 <= k < |ms| ==> i <= ms[k].at && IsWord(ms[k].word) && Placed(t, ms[k].at, ms[k].word))
    && (forall k, l :: 0 <= k < l < |ms| ==> ms[k].at < ms[l].at)
    && (forall p: nat, w :: i <= p && IsWord(w) && Placed(t, p, w) ==> Match(p, w) in ms)
  }

  // The word placed at a brace is the one the scan reads there.
  lemma PlacedWordEnds(t: string, p: nat, w: string)
    requires IsWord(w) && Placed(t, p, w)
    ensures WordEnd(t, p + 1) == p + 1 + |w|
  {
  }

  lemma NothingAtTheEnd(t: string)
    ensures Lists(t, |t|, [])
  {
  }

  lemma NothingPlacedHere(t: string, i: nat, ms: seq<Match>)
    requires i < |t| && !Opens(t, i) && Lists(t, i + 1, ms)
    ensures Lists(t, i, ms)
  {
  }

  lemma PlacedHere(t: string, i: nat, e: nat, rest: seq<Match>)
    requires i < |t| && Opens(t, i) && e == WordEnd(t, i + 1)
    requires Lists(t, e + 1, rest)
    ensures Lists(t, i, [Match(i, t[i + 1..e])] + rest)
  {
    var here := Match(i, t[i + 1..e]);
    var ms := [here] + rest;
    assert IsWord(here.word) && Placed(t, i, here.word);
    assert forall k :: 0 < k < |ms| ==> ms[k] == rest[k - 1];
    forall p: nat, w | i <= p && IsWord(w) && Placed(t, p, w) ensures Match(p, w) in ms {
      PlacedWordEnds(t, p, w);
      if p > e {
        assert Match(p, w) in rest;
      } else {
        assert p == i;
        assert ms[0] == Match(p, w);
      }
    }
  }

  lemma {:induction false} ScanListsEverything(t: string, i: nat)
    requires i <= |t|
    ensures Lists(t, i, MatchesFrom(t, i))
    decreases |t| - i
  {
    if i == |t| {
      NothingAtTheEnd(t);
    } else if Opens(t, i) {
      var e := WordEnd(t, i + 1);
      var here, rest := Match(i, t[i + 1..e]), MatchesFrom(t, e + 1);
      assert MatchesFrom(t, i) == [here] + rest;
      assert Lists(t, i, [here] + rest) by {
        ScanListsEverything(t, e + 1);
        PlacedHere(t, i, e, rest);
      }
    } else {
      var rest := MatchesFrom(t, i + 1);
      assert MatchesFrom(t, i) == rest;
      assert Lists(t, i, rest) by {
        ScanListsEverything(t, i + 1);
        NothingPlacedHere(t, i, rest);
      }
    }
  }

  ghost predicate Found(ms: seq<Match>, w: string) {
    exists k :: 0 <= k < |ms| && ms[k].word == w
  }

  lemma ListedWords(t: string, ms: seq<Match>, w: string)
    requires Lists(t, 0, ms)
    ensures Uses(t, w) <==> Found(ms, w)
  {
  }

  // The non-overlapping scan misses nothing: it finds exactly the words w for
  // which "{w}" is a substring.
  lemma ScanFindsExactlyTheSlots(t: string, w: string)
    ensures Found(MatchesFrom(t, 0), w) <==> Uses(t, w)
  {
    ScanListsEverything(t, 0);
    ListedWords(t, MatchesFrom(t, 0), w);
  }

  // ---- deriving slots --------------------------------------------------------

  ghost predicate FirstPlace(t: string, w: string, p: nat) {
    Placed(t, p, w) && forall q: nat :: q < p ==> !Placed(t, q, w)
  }

  // The slots a template uses, each once, by first occurrence.
  ghost predicate IsDerived(t: string, slots: seq<string>) {
    && Distinct(slots)
    && (forall w :: w in slots <==> Uses(t, w))
    && (forall k, l, p, q :: 0 <= k < l < |slots| && FirstPlace(t, slots[k], p) && FirstPlace(t, slots[l], q) ==> p < q)
  }

  // Which words the matches so far hold, when each was first placed, and that the
  // list has them in that order.
  ghost predicate DerivedSoFar(t: string, ms: seq<Match>, k: nat, out: seq<string>, firsts: seq<nat>)
    requires k <= |ms|
  {
    && Distinct(out) && |firsts| == |out|
    && (forall w :: w in out <==> Found(ms[..k], w))
    && (forall i :: 0 <= i < |out| ==> FirstPlace(t, out[i], firsts[i]))
    && (forall i, j :: 0 <= i < j < |firsts| ==> firsts[i] < firsts[j])
    && (k < |ms| ==> forall i :: 0 <= i < |firsts| ==> firsts[i] < ms[k].at)
  }

  method DeriveSlots(t: string) returns (out: seq<string>)
    ensures IsDerived(t, out)
  {
    var ms := FindAll(t);
    ScanListsEverything(t, 0);
    var seen: set<string> := {};
    out := [];
    ghost var firsts: seq<nat> := [];
    for k := 0 to |ms|
      invariant DerivedSoFar(t, ms, k, out, firsts)
      invariant forall w :: w in seen <==> w in out
    {
      var w := ms[k].word;
      DerivedStep(t, ms, k, out, firsts);
      if w !in seen {
        seen := seen + {w};
        out := out + [w];
        firsts := firsts + [ms[k].at];
      }
    }
    assert ms[..|ms|] == ms;
    forall w ensures w in out <==> Uses(t, w) {
      ScanFindsExactlyTheSlots(t, w);
    }
    FirstPlacesDecideOrder(t, out, firsts);
  }

  lemma DerivedStep(t: string, ms: seq<Match>, k: nat, out: seq<string>, firsts: seq<nat>)
    requires Lists(t, 0, ms) && k < |ms| && DerivedSoFar(t, ms, k, out, firsts)
    ensures ms[k].word in out ==> DerivedSoFar(t, ms, k + 1, out, firsts)
    ensures ms[k].word !in out ==> DerivedSoFar(t, ms, k + 1, out + [ms[k].word], firsts + [ms[k].at])
  {
    assert ms[..k + 1] == ms[..k] + [ms[k]];
    forall w ensures Found(ms[..k + 1], w) <==> Found(ms[..k], w) || w == ms[k].word {
      FoundOneMore(ms[..k], ms[k], w);
    }
    if ms[k].word !in out {
      assert forall i :: 0 <= i < k ==> ms[..k][i] == ms[i];
      FirstUnseenIsFirst(t, ms, k);
    }
  }

  lemma FoundOneMore(ms: seq<Match>, m: Match, w: string)
    ensures Found(ms + [m], w) <==> Found(ms, w) || w == m.word
  {
    if Found(ms, w) {
      var k :| 0 <= k < |ms| && ms[k].word == w;
      assert (ms + [m])[k].word == w;
    } else if w == m.word {
      assert (ms + [m])[|ms|].word == w;
    }
  }

  lemma FirstUnseenIsFirst(t: string, ms: seq<Match>, k: nat)
    requires Lists(t, 0, ms) && k < |ms| && forall i :: 0 <= i < k ==> ms[i].word != ms[k].word
    ensures FirstPlace(t, ms[k].word, ms[k].at)
  {
  }

  lemma FirstPlacesDecideOrder(t: string, out: seq<string>, firsts: seq<nat>)
    requires |firsts| == |out|
    requires forall i :: 0 <= i < |out| ==> FirstPlace(t, out[i], firsts[i])
    requires forall i, j :: 0 <= i < j < |firsts| ==> firsts[i] < firsts[j]
    ensures forall k, l, p, q :: 0 <= k < l < |out| && FirstPlace(t, out[k], p) && FirstPlace(t, out[l], q) ==> p < q
  {
  }

  // ---- validation ------------------------------------------------------------

  // unicode.IsSpace
  predicate IsSpace(c: char) {
    var n := c as int;
    || 9 <= n <= 13 || n == 32 || n == 0x85 || n == 0xA0 || n == 0x1680 || 0x2000 <= n <= 0x200A
    || n == 0x2028 || n == 0x2029 || n == 0x202F || n == 0x205F || n == 0x3000
  }

  // The white space of Unicode.
  lemma SpacesAre(c: char)
    ensures IsSpace(c) <==> c as int in {9, 10, 11, 12, 13, 32, 133, 160, 5760, 8192, 8193, 8194, 8195, 8196, 8197, 8198,
                                         8199, 8200, 8201, 8202, 8232, 8233, 8239, 8287, 12288}
  {
  }

  predicate Blank(s: string) {
    forall k :: 0 <= k < |s| ==> IsSpace(s[k])
  }

  // Declared slots are exactly the slots the template uses.
  ghost predicate Matched(t: string, slots: seq<string>) {
    forall w :: w in slots <==> Uses(t, w)
  }

  ghost predicate Acceptable(uri: string, t: string, slots: seq<string>) {
    !Blank(uri) && !Blank(t) && Matched(t, slots)
  }

  // The errors carry the offending slot names; listing them sorted is display.
  datatype Check = Valid | UriEmpty | TemplateEmpty | SlotEmpty | Undeclared(names: set<string>) | Unused(names: set<string>)

  method Prompt(uri: string, t: string, slots: seq<string>) returns (r: Check)
    ensures r.Valid? <==> Acceptable(uri, t, slots)
    ensures r.UriEmpty? <==> Blank(uri)
    ensures r.TemplateEmpty? <==> !Blank(uri) && Blank(t)
    ensures r.SlotEmpty? <==> !Blank(uri) && !Blank(t) && exists k :: 0 <= k < |slots| && Blank(slots[k])
    ensures r.Undeclared? ==> r.names != {} && forall w :: w in r.names <==> Uses(t, w) && w !in slots
    ensures r.Unused? ==> r.names != {} && forall w :: w in r.names <==> w in slots && !Uses(t, w)
    ensures r.Unused? ==> forall w :: Uses(t, w) ==> w in slots
  {
    if Blank(uri) {
      return UriEmpty;
    }
    if Blank(t) {
      return TemplateEmpty;
    }
    var found := UsedWords(t);
    var declared: set<string> := {};
    for k := 0 to |slots|
      invariant forall w :: w in declared <==> w in slots[..k]
      invariant forall i :: 0 <= i < k ==> !Blank(slots[i])
    {
      if Blank(slots[k]) {
        BlankIsNoWord(slots[k]);
        assert slots[k] in slots && !Uses(t, slots[k]);
        return SlotEmpty;
      }
      declared := declared + {slots[k]};
    }
    assert slots[..|slots|] == slots;
    var missing := Without(found, declared);
    var extra := Without(declared, found);
    assert Matched(t, slots) <==> missing == {} && extra == {} by {
      assert Matched(t, slots) <==> forall w :: w in declared <==> w in found;
    }
    if missing != {} {
      return Undeclared(missing);
    }
    if extra != {} {
      return Unused(extra);
    }
    r := Valid;
  }

  method UsedWords(t: string) returns (found: set<string>)
    ensures forall w :: w in found <==> Uses(t, w)
  {
    var ms := FindAll(t);
    found := {};
    for k := 0 to |ms|
      invariant forall w :: w in found <==> Found(ms[..k], w)
    {
      assert ms[..k + 1] == ms[..k] + [ms[k]];
      forall w ensures Found(ms[..k + 1], w) <==> Found(ms[..k], w) || w == ms[k].word {
        FoundOneMore(ms[..k], ms[k], w);
      }
      found := found + {ms[k].word};
    }
    assert ms[..|ms|] == ms;
    forall w ensures w in found <==> Uses(t, w) {
      ScanFindsExactlyTheSlots(t, w);
    }
  }

  // The members of xs that are not in ys, collected one by one.
  method Without(xs: set<string>, ys: set<string>) returns (out: set<string>)
    ensures out == xs - ys && (out == {} <==> xs <= ys)
  {
    out := {};
    var rest := xs;
    while rest != {}
      invariant rest <= xs && out == (xs - rest) - ys
      decreases rest
    {
      var s :| s in rest;
      if s !in ys {
        out := out + {s};
      }
      rest := rest - {s};
    }
    assert forall s :: s in xs && s !in ys ==> s in out;
  }

  lemma BlankIsNoWord(s: string)
    requires Blank(s)
    ensures !IsWord(s)
  {
    if s != "" {
      assert IsSpace(s[0]);
    }
  }

  // Validating a prompt file against its own derived slots can only fail on blank text.
  method ValidateDerived(uri: string, t: string) returns (r: Check)
    ensures r == if Blank(uri) then UriEmpty else if Blank(t) then TemplateEmpty else Valid
  {
    var slots := DeriveSlots(t);
    r := Prompt(uri, t, slots);
  }
}
