// Small text helpers.
module Text {

  // strings.Join
  function Join(parts: seq<string>, sep: string): string {
    if parts == [] then ""
    else if |parts| == 1 then parts[0]
    else parts[0] + sep + Join(parts[1..], sep)
  }

  lemma {:induction false} JoinOfParts(x: seq<string>, y: seq<string>, sep: string)
    requires x != [] && y != []
    ensures Join(x + y, sep) == Join(x, sep) + sep + Join(y, sep)
    decreases |x|
  {
    assert (x + y)[1..] == x[1..] + y;
    if |x| == 1 {
      assert x[1..] + y == y;
    } else {
      JoinOfParts(x[1..], y, sep);
    }
  }

  predicate Distinct<T(==)>(s: seq<T>) {
    forall k, l :: 0 <= k < l < |s| ==> s[k] != s[l]
  }

  predicate HasPrefix(s: string, p: string) {
    |p| <= |s| && s[..|p|] == p
  }

  // strings.Split at one character.
  function Split(s: string, c: char): (r: seq<string>)
    ensures r != []
    ensures forall k :: 0 <= k < |r| ==> c !in r[k]
  {
    if s == "" then [""]
    else
      var rest := Split(s[1..], c);
      if s[0] == c then [""] + rest else [[s[0]] + rest[0]] + rest[1..]
  }

  lemma SplitHere(s: string, c: char)
    requires s != "" && s[0] == c && Join(Split(s[1..], c), [c]) == s[1..]
    ensures Join(Split(s, c), [c]) == s
  {
    var rest := Split(s[1..], c);
    assert ([""] + rest)[1..] == rest;
    assert Join([""] + rest, [c]) == [c] + Join(rest, [c]);
    assert s == [c] + s[1..];
  }

  // Text put in front of the first part is in front of the join.
  lemma JoinAfterPrefix(x: string, parts: seq<string>, sep: string)
    requires parts != []
    ensures Join([x + parts[0]] + parts[1..], sep) == x + Join(parts, sep)
  {
    var longer := [x + parts[0]] + parts[1..];
    assert longer[1..] == parts[1..];
    if |parts| > 1 {
      assert (x + parts[0]) + sep + Join(parts[1..], sep) == x + (parts[0] + sep + Join(parts[1..], sep));
    }
  }

  lemma {:induction false} JoinUndoesSplit(s: string, c: char)
    ensures Join(Split(s, c), [c]) == s
    decreases |s|
  {
    if s != "" {
      JoinUndoesSplit(s[1..], c);
      if s[0] == c {
        SplitHere(s, c);
      } else {
        JoinAfterPrefix([s[0]], Split(s[1..], c), [c]);
        assert s == [s[0]] + s[1..];
      }
    }
  }

  lemma {:induction false} SplitOfParts(x: string, y: string, c: char)
    requires c !in x
    ensures Split(x, c) == [x] && Split(x + [c] + y, c) == [x] + Split(y, c)
    decreases |x|
  {
    var s := x + [c] + y;
    if x == "" {
      assert s[1..] == y;
    } else {
      assert s[1..] == x[1..] + [c] + y && s[0] == x[0] && x[0] in x;
      SplitOfParts(x[1..], y, c);
      assert x == [x[0]] + x[1..];
    }
  }

  // Parts without the separator come back from their join.
  lemma {:induction false} SplitUndoesJoin(parts: seq<string>, c: char)
    requires parts != [] && forall k :: 0 <= k < |parts| ==> c !in parts[k]
    ensures Split(Join(parts, [c]), c) == parts
    decreases |parts|
  {
    if |parts| == 1 {
      SplitOfParts(parts[0], "", c);
    } else {
      SplitOfParts(parts[0], Join(parts[1..], [c]), c);
      SplitUndoesJoin(parts[1..], c);
      assert parts == [parts[0]] + parts[1..];
    }
  }

  // strings.ReplaceAll of "\r\n" by "\n".
  function NormalizeNewlines(s: string): string {
    if s == "" then ""
    else if |s| > 1 && s[0] == '\r' && s[1] == '\n' then "\n" + NormalizeNewlines(s[2..])
    else [s[0]] + NormalizeNewlines(s[1..])
  }

  // "\r\n" stands at position k.
  predicate BreakAt(s: string, k: nat) {
    k + 1 < |s| && s[k] == '\r' && s[k + 1] == '\n'
  }

  lemma {:induction false} NoBreakNoChange(s: string)
    requires forall k: nat :: !BreakAt(s, k)
    ensures NormalizeNewlines(s) == s
    decreases |s|
  {
    if s != "" {
      assert !BreakAt(s, 0);
      forall k: nat ensures !BreakAt(s[1..], k) {
        assert !BreakAt(s, k + 1);
      }
      NoBreakNoChange(s[1..]);
      assert s == [s[0]] + s[1..];
    }
  }

  // Each "\r\n" becomes "\n" and nothing else changes.
  lemma {:induction false} BreakIsReplaced(x: string, y: string)
    ensures NormalizeNewlines(x + "\r\n" + y) == NormalizeNewlines(x) + "\n" + NormalizeNewlines(y)
    decreases |x|
  {
    var s := x + "\r\n" + y;
    if x == "" {
      assert s[2..] == y;
    } else if |x| > 1 && x[0] == '\r' && x[1] == '\n' {
      assert s[2..] == x[2..] + "\r\n" + y;
      BreakIsReplaced(x[2..], y);
    } else {
      assert s[1..] == x[1..] + "\r\n" + y;
      BreakIsReplaced(x[1..], y);
    }
  }
}
