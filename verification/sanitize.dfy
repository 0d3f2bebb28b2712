/** The markup neutraliser `sanitizeHtml` (components/browser.tsx:25-27):
    `html?.replace(/script/gi, 'span') || ''`.

    A global, case-insensitive regular expression without the `u` flag folds
    case by upper-casing and never maps a non-ASCII character onto an ASCII
    one, so for the all-ASCII pattern "script" it matches exactly the
    six-character windows whose ASCII lowering is "script". The scan is the
    one of String.prototype.replace: leftmost match first, resuming after the
    end of each match. */
module Sanitize {
  import opened Model
  import opened Ascii

  const Pattern := "script"
  const Replacement := "span"

  /** `/script/i` matches `s` at index `i`, stated character by character. */
  predicate ScriptAt(s: string, i: int) {
    0 <= i && i + 6 <= |s| && forall k :: 0 <= k < 6 ==> Lower(s[i + k]) == Pattern[k]
  }

  predicate HasScript(s: string) {
    exists i :: 0 <= i < |s| && ScriptAt(s, i)
  }

  /** `s.replace(/script/gi, 'span')`. */
  function ReplaceAll(s: string): string
    decreases |s|
  {
    if |s| == 0 then ""
    else if ScriptAt(s, 0) then Replacement + ReplaceAll(s[6..])
    else [s[0]] + ReplaceAll(s[1..])
  }

  /** The number of positions where `/script/i` matches, counted independently
      of the left-to-right scan (overlapping matches would count twice). */
  function Occurrences(s: string): nat
    decreases |s|
  {
    if |s| == 0 then 0
    else (if ScriptAt(s, 0) then 1 else 0) + Occurrences(s[1..])
  }

  /** `sanitizeHtml`: undefined gives the empty string; otherwise every
      case-insensitive "script" becomes "span". */
  function SanitizeHtml(html: Option<string>): (r: string)
    ensures !Includes(LowerStr(r), Pattern)
    ensures html.None? ==> r == ""
    ensures html.Some? ==> |r| + 2 * Occurrences(html.value) == |html.value|
    ensures html.Some? ==> (r == html.value <==> !Includes(LowerStr(html.value), Pattern))
  {
    match html
    case None => ""
    case Some(h) =>
      ReplaceAllRemovesScript(h);
      ReplaceAllLength(h);
      ReplaceAllUnchangedIff(h);
      HasScriptIffIncludes(ReplaceAll(h));
      HasScriptIffIncludes(h);
      var replaced := ReplaceAll(h);
      // `|| ''` only rewrites a falsy string, and the only falsy string is "".
      if replaced == "" then "" else replaced
  }

  /** Applying the neutraliser to its own output changes nothing. */
  lemma SanitizeIdempotent(html: Option<string>)
    ensures SanitizeHtml(Some(SanitizeHtml(html))) == SanitizeHtml(html)
  {
    var once := SanitizeHtml(html);
    var twice := SanitizeHtml(Some(once));
    assert !Includes(LowerStr(once), Pattern);
  }

  /** The window-wise match is the substring test on the lowered string. */
  lemma ScriptAtIffOccurs(s: string, i: int)
    requires 0 <= i
    ensures ScriptAt(s, i) <==> OccursAt(LowerStr(s), Pattern, i)
  {
    if i + 6 <= |s| {
      var w := LowerStr(s)[i..i + 6];
      assert forall k :: 0 <= k < 6 ==> w[k] == Lower(s[i + k]);
      if ScriptAt(s, i) {
        assert w == Pattern;
      }
    }
  }

  lemma HasScriptIffIncludes(s: string)
    ensures HasScript(s) <==> Includes(LowerStr(s), Pattern)
  {
    if HasScript(s) {
      var i :| 0 <= i < |s| && ScriptAt(s, i);
      ScriptAtIffOccurs(s, i);
    }
    if Includes(LowerStr(s), Pattern) {
      var i :| 0 <= i <= |s| - 6 && OccursAt(LowerStr(s), Pattern, i);
      ScriptAtIffOccurs(s, i);
    }
  }

  /** A match in a suffix is a match in the whole string, shifted. */
  lemma ScriptAtSuffix(s: string, j: nat, i: int)
    requires j <= |s| && 0 <= i
    ensures ScriptAt(s[j..], i) <==> ScriptAt(s, i + j)
  {
  }

  /** A match in `a + b` that starts inside `b` is a match in `b`. */
  lemma ScriptAtAppend(a: string, b: string, i: int)
    requires |a| <= i
    ensures ScriptAt(a + b, i) <==> ScriptAt(b, i - |a|)
  {
  }

  /** The characters of a match are the pattern's, and only the first is an
      's': the pattern cannot overlap itself. */
  lemma NoMatchInsideMatch(s: string, j: int)
    requires ScriptAt(s, 0) && 1 <= j < 6
    ensures !ScriptAt(s, j)
  {
    assert Lower(s[0 + j]) == Pattern[j];
    assert Pattern[j] != Pattern[0];
  }

  /** No match can start inside the replacement text: "span" has no 'c'
      after its 's' and no other 's'. */
  lemma ReplacementNoMatch(rest: string, i: int)
    requires 0 <= i < 4
    ensures !ScriptAt(Replacement + rest, i)
  {
    var r := Replacement + rest;
    if i + 6 <= |r| {
      assert r[0] == 's' && r[1] == 'p' && r[2] == 'a' && r[3] == 'n';
      assert Lower(r[i + 0]) != Pattern[0] || Lower(r[i + 1]) != Pattern[1];
    }
  }

  /** A scan that replaces at the front starts its output with an 's'. */
  lemma ReplacementStartsWithS(t: string)
    ensures ScriptAt(t, 0) ==> ReplaceAll(t)[0] == 's'
  {
  }

  /** As long as the output shows no 's' (in either case), the scan has only
      copied characters: the output's prefix is the input's prefix. */
  lemma {:induction false} CopiedPrefix(t: string, n: nat)
    requires n <= |ReplaceAll(t)|
    requires forall m :: 0 <= m < n ==> Lower(ReplaceAll(t)[m]) != 's'
    ensures n <= |t| && forall m :: 0 <= m < n ==> t[m] == ReplaceAll(t)[m]
    decreases |t|
  {
    if n > 0 {
      assert Lower(ReplaceAll(t)[0]) != 's';
      ReplacementStartsWithS(t);
      assert !ScriptAt(t, 0);
      {
        var rest := ReplaceAll(t[1..]);
        assert ReplaceAll(t) == [t[0]] + rest;
        assert forall m :: 0 <= m < n - 1 ==> Lower(rest[m]) != 's' by {
          forall m | 0 <= m < n - 1
            ensures Lower(rest[m]) != 's'
          {
            assert rest[m] == ReplaceAll(t)[m + 1];
          }
        }
        CopiedPrefix(t[1..], n - 1);
      }
    }
  }

  /** The output of the replacement holds no case-insensitive "script". */
  lemma {:induction false} ReplaceAllRemovesScript(s: string)
    ensures !HasScript(ReplaceAll(s))
    decreases |s|
  {
    if |s| > 0 {
      if ScriptAt(s, 0) {
        var rest := ReplaceAll(s[6..]);
        ReplaceAllRemovesScript(s[6..]);
        var r := Replacement + rest;
        forall i | 0 <= i < |r|
          ensures !ScriptAt(r, i)
        {
          if i >= 4 {
            ScriptAtAppend(Replacement, rest, i);
          } else {
            ReplacementNoMatch(rest, i);
          }
        }
      } else {
        var rest := ReplaceAll(s[1..]);
        ReplaceAllRemovesScript(s[1..]);
        var r := [s[0]] + rest;
        assert ReplaceAll(s) == r;
        forall i | 0 <= i < |r|
          ensures !ScriptAt(r, i)
        {
          if i >= 1 {
            ScriptAtAppend([s[0]], rest, i);
          } else if ScriptAt(r, 0) {
            // r[1..6] spells "cript": no 's', so those characters were copied
            // from s[1..6], which would make s match at 0.
            forall m | 0 <= m < 5
              ensures Lower(rest[m]) != 's'
            {
              assert rest[m] == r[m + 1];
              assert Lower(r[m + 1]) == Pattern[m + 1];
            }
            CopiedPrefix(s[1..], 5);
            assert false;
          }
        }
      }
    }
  }

  /** Each replacement shortens the string by exactly two characters, and the
      scan finds every match there is. */
  lemma {:induction false} ReplaceAllLength(s: string)
    ensures |ReplaceAll(s)| + 2 * Occurrences(s) == |s|
    decreases |s|
  {
    if |s| > 0 {
      if ScriptAt(s, 0) {
        ReplaceAllLength(s[6..]);
        OccurrencesAfterMatch(s);
      } else {
        ReplaceAllLength(s[1..]);
      }
    }
  }

  /** After a match at 0, the next possible match starts at 6 or later. */
  lemma OccurrencesAfterMatch(s: string)
    requires ScriptAt(s, 0)
    ensures Occurrences(s) == 1 + Occurrences(s[6..])
  {
    var j := 5;
    while j >= 1
      invariant 0 <= j <= 5
      invariant Occurrences(s[j + 1..]) == Occurrences(s[6..])
      decreases j
    {
      NoMatchInsideMatch(s, j);
      ScriptAtSuffix(s, j, 0);
      assert s[j..][1..] == s[j + 1..];
      j := j - 1;
    }
    assert s[1..] == s[0 + 1..];
  }

  /** The scan copies the text before the leftmost match, writes "span" for
      the match and carries on after it. Together with
      `ReplaceAllUnchangedIff` this determines the output completely. */
  lemma {:induction false} ReplaceAllSplice(x: string, w: string, y: string)
    requires |w| == 6 && ScriptAt(w, 0)
    requires forall i :: 0 <= i < |x| ==> !ScriptAt(x + w + y, i)
    ensures ReplaceAll(x + w + y) == x + Replacement + ReplaceAll(y)
    decreases |x|
  {
    var s := x + w + y;
    if |x| == 0 {
      assert s == w + y;
      assert ScriptAt(s, 0);
      assert s[6..] == y;
    } else {
      assert !ScriptAt(s, 0);
      assert s[1..] == x[1..] + w + y;
      forall i | 0 <= i < |x| - 1
        ensures !ScriptAt(x[1..] + w + y, i)
      {
        ScriptAtSuffix(s, 1, i);
      }
      ReplaceAllSplice(x[1..], w, y);
      assert x == [x[0]] + x[1..];
    }
  }

  /** `sanitizeHtml` keeps the text before the first match, turns the match
      into "span" and neutralises the rest in the same way. */
  lemma SanitizeSplice(x: string, w: string, y: string)
    requires |w| == 6 && ScriptAt(w, 0)
    requires forall i :: 0 <= i < |x| ==> !ScriptAt(x + w + y, i)
    ensures SanitizeHtml(Some(x + w + y)) == x + Replacement + ReplaceAll(y)
  {
    ReplaceAllSplice(x, w, y);
  }

  /** A string with a match has at least one occurrence. */
  lemma {:induction false} OccurrencesPositive(s: string)
    requires HasScript(s)
    ensures Occurrences(s) > 0
    decreases |s|
  {
    if !ScriptAt(s, 0) {
      var i :| 0 <= i < |s| && ScriptAt(s, i);
      ScriptAtSuffix(s, 1, i - 1);
      OccurrencesPositive(s[1..]);
    }
  }

  /** The replacement leaves a string alone exactly when it holds no match. */
  lemma {:induction false} ReplaceAllUnchangedIff(s: string)
    ensures ReplaceAll(s) == s <==> !HasScript(s)
    decreases |s|
  {
    ReplaceAllLength(s);
    if HasScript(s) {
      OccurrencesPositive(s);
    } else if |s| > 0 {
      assert !ScriptAt(s, 0);
      forall i | 0 <= i < |s| - 1
        ensures !ScriptAt(s[1..], i)
      {
        ScriptAtSuffix(s, 1, i);
      }
      ReplaceAllUnchangedIff(s[1..]);
    }
  }
}
