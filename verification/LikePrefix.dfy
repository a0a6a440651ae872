// Prefix listing through LIKE (internal/store/store.go).
module LikePrefix {

  // LIKE with ESCAPE '\' (section 8.5 of ISO/IEC 9075-2); same is the engine's
  // character equality, which SQLite folds for ASCII letters. A trailing escape
  // matches nothing.
  ghost predicate Like(same: (char, char) -> bool, pattern: string, s: string)
    decreases |pattern|
  {
    if pattern == "" then s == ""
    else if pattern[0] == '\\' then
      |pattern| > 1 && s != "" && same(pattern[1], s[0]) && Like(same, pattern[2..], s[1..])
    else if pattern[0] == '%' then exists k :: 0 <= k <= |s| && Like(same, pattern[1..], s[k..])
    else if pattern[0] == '_' then s != "" && Like(same, pattern[1..], s[1..])
    else s != "" && same(pattern[0], s[0]) && Like(same, pattern[1..], s[1..])
  }

  function EscapeLike(s: string): string {
    if s == "" then ""
    else (if s[0] == '\\' || s[0] == '%' || s[0] == '_' then ['\\', s[0]] else [s[0]]) + EscapeLike(s[1..])
  }

  ghost predicate StartsWith(same: (char, char) -> bool, s: string, prefix: string) {
    |prefix| <= |s| && forall k :: 0 <= k < |prefix| ==> same(prefix[k], s[k])
  }

  // The escaped prefix followed by a wildcard matches exactly the texts that start
  // with the prefix, whatever metacharacters it holds.
  lemma {:induction false} EscapedPrefixMatchesExactly(same: (char, char) -> bool, prefix: string, s: string)
    ensures Like(same, EscapeLike(prefix) + "%", s) <==> StartsWith(same, s, prefix)
    decreases |prefix|
  {
    var pattern := EscapeLike(prefix) + "%";
    if prefix == "" {
      assert pattern[1..] == "" && s[|s|..] == "";
      assert Like(same, pattern[1..], s[|s|..]);
    } else {
      var rest := EscapeLike(prefix[1..]) + "%";
      assert pattern[2..] == rest || pattern[1..] == rest;
      if s != "" {
        EscapedPrefixMatchesExactly(same, prefix[1..], s[1..]);
        assert StartsWith(same, s, prefix) <==> same(prefix[0], s[0]) && StartsWith(same, s[1..], prefix[1..]) by {
          assert forall k :: 0 < k < |prefix| ==> prefix[k] == prefix[1..][k - 1];
          assert forall k :: 0 < k < |s| ==> s[k] == s[1..][k - 1];
          assert forall k :: 0 <= k < |prefix| - 1 ==> prefix[1..][k] == prefix[k + 1];
          assert forall k :: 0 <= k < |s| - 1 ==> s[1..][k] == s[k + 1];
        }
      }
    }
  }
}
