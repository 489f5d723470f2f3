/** The log scrubber: three leftmost, greedy, non-overlapping regular-expression replacements,
    one after the other. */
module LogScrubber {
  import opened Prelude

  datatype Pattern = CanvasPath | Query | HexRun

  // ---------------------------------------------------------------- the patterns

  predicate IsSpace(c: char) {
    c == ' ' || c == '\t' || c == '\n' || c == '\r' || c == '\U{000C}'
  }

  predicate IsHex(c: char) {
    '0' <= c <= '9' || 'a' <= c <= 'f' || 'A' <= c <= 'F'
  }

  predicate IsWord(c: char) {
    '0' <= c <= '9' || 'a' <= c <= 'z' || 'A' <= c <= 'Z' || c == '_'
  }

  predicate WordAt(s: string, i: int) {
    0 <= i < |s| && IsWord(s[i])
  }

  /** A \b position: exactly one of the two neighbours is a word character. */
  predicate Boundary(s: string, i: int) {
    WordAt(s, i - 1) != WordAt(s, i)
  }

  predicate NoSpace(s: string, i: nat, j: nat)
    requires i <= j <= |s|
  {
    forall k :: i <= k < j ==> !IsSpace(s[k])
  }

  predicate AllHex(s: string, i: nat, j: nat)
    requires i <= j <= |s|
  {
    forall k :: i <= k < j ==> IsHex(s[k])
  }

  predicate SlashCSlash(s: string, i: nat) {
    i + 3 <= |s| && s[i] == '/' && s[i + 1] == 'c' && s[i + 2] == '/'
  }

  /** The stretch from i to j is a match of the pattern (of /c/\S*, \?\S* or \b[0-9a-fA-F]{24,}\b). */
  predicate Spans(p: Pattern, s: string, i: nat, j: nat) {
    match p
    case CanvasPath => i + 3 <= j <= |s| && SlashCSlash(s, i) && NoSpace(s, i + 3, j)
    case Query => i + 1 <= j <= |s| && s[i] == '?' && NoSpace(s, i + 1, j)
    case HexRun => i + 24 <= j <= |s| && Boundary(s, i) && AllHex(s, i, j) && Boundary(s, j)
  }

  /** Nothing in s matches the pattern. */
  ghost predicate Free(p: Pattern, s: string) {
    forall i: nat, j: nat :: !Spans(p, s, i, j)
  }

  ghost predicate Clean(s: string) {
    Free(CanvasPath, s) && Free(Query, s) && Free(HexRun, s)
  }

  // ---------------------------------------------------------------- replacing

  function Placeholder(p: Pattern): string {
    match p
    case CanvasPath => "<redacted-canvas-path>"
    case Query => "<redacted-query>"
    case HexRun => "<redacted-token>"
  }

  /** Greedy: of the matches from i ending at or before j, the longest. */
  function LongestMatch(p: Pattern, s: string, i: nat, j: nat): (r: Option<nat>)
    ensures r.Some? ==> i < r.value <= j && Spans(p, s, i, r.value)
    ensures r.Some? ==> forall k :: r.value < k <= j ==> !Spans(p, s, i, k)
    ensures r.None? ==> forall k :: 0 <= k <= j ==> !Spans(p, s, i, k)
  {
    if Spans(p, s, i, j) then Some(j) else if j == 0 then None else LongestMatch(p, s, i, j - 1)
  }

  function MatchFrom(p: Pattern, s: string, i: nat): Option<nat> {
    LongestMatch(p, s, i, |s|)
  }

  /** ReplaceAllString from position i: leftmost matches first, never overlapping. */
  function Replace(p: Pattern, s: string, i: nat): string
    decreases |s| - i
  {
    if i >= |s| then ""
    else
      match MatchFrom(p, s, i)
      case Some(j) => Placeholder(p) + Replace(p, s, j)
      case None => [s[i]] + Replace(p, s, i + 1)
  }

  function Scrub(s: string): string {
    Replace(HexRun, Replace(Query, Replace(CanvasPath, s, 0), 0), 0)
  }

  // ---------------------------------------------------------------- what is kept

  /** A stretch from begin up to end. */
  datatype Match = Match(begin: nat, end: nat)

  /** From position i on, these are the matches of the pattern: each the longest at the leftmost place
      where one begins, after the one before; and behind the last there is none. */
  ghost predicate LeftmostLongest(p: Pattern, s: string, i: nat, matches: seq<Match>)
    decreases |matches|
  {
    if matches == [] then forall a: nat, b: nat :: i <= a ==> !Spans(p, s, a, b)
    else
      var m := matches[0];
      && i <= m.begin < m.end <= |s| && Spans(p, s, m.begin, m.end)
      && (forall a: nat, b: nat :: i <= a < m.begin ==> !Spans(p, s, a, b))
      && (forall b: nat :: m.end < b ==> !Spans(p, s, m.begin, b))
      && LeftmostLongest(p, s, m.end, matches[1..])
  }

  /** The text from i on with one mark in the place of each of these stretches, and all else kept. */
  function Cut(s: string, i: nat, matches: seq<Match>, mark: string): string
    decreases |matches|
  {
    if i > |s| then ""
    else if matches == [] then s[i..]
    else if i <= matches[0].begin <= |s| then
      s[i..matches[0].begin] + mark + Cut(s, matches[0].end, matches[1..], mark)
    else ""
  }

  lemma SpansWithin(p: Pattern, s: string, i: nat, j: nat)
    requires Spans(p, s, i, j)
    ensures i < j <= |s|
  {
  }

  lemma KeptIsCopied(p: Pattern, s: string, i: nat)
    requires i < |s| && MatchFrom(p, s, i).None?
    ensures Replace(p, s, i) == [s[i]] + Replace(p, s, i + 1)
  {
  }

  lemma Regroup(s: string, i: nat, e: nat, rest: string)
    requires i < e <= |s|
    ensures [s[i]] + (s[i + 1..e] + rest) == s[i..e] + rest
  {
    assert [s[i]] + s[i + 1..e] == s[i..e];
  }

  lemma NoSpanNoMatch(p: Pattern, s: string, i: nat)
    requires forall b: nat :: !Spans(p, s, i, b)
    ensures MatchFrom(p, s, i).None?
  {
  }

  /** Up to where the next match begins everything is copied. */
  lemma {:induction false} CopiedUpTo(p: Pattern, s: string, i: nat, begin: nat)
    requires i <= begin <= |s| && forall a: nat, b: nat :: i <= a < begin ==> !Spans(p, s, a, b)
    ensures Replace(p, s, i) == s[i..begin] + Replace(p, s, begin)
    decreases begin - i
  {
    if i < begin {
      NoSpanNoMatch(p, s, i);
      KeptIsCopied(p, s, i);
      CopiedUpTo(p, s, i + 1, begin);
      Regroup(s, i, begin, Replace(p, s, begin));
    }
  }

  lemma LongestIsIt(p: Pattern, s: string, m: Match)
    requires Spans(p, s, m.begin, m.end) && forall b: nat :: m.end < b ==> !Spans(p, s, m.begin, b)
    ensures MatchFrom(p, s, m.begin) == Some(m.end)
  {
    SpansWithin(p, s, m.begin, m.end);
  }

  /** The output is the input with just its leftmost longest matches cut out, one placeholder in the place
      of each, and every character outside them kept in its order. */
  lemma {:induction false} OnlyMatchesAreCut(p: Pattern, s: string, i: nat, matches: seq<Match>)
    requires i <= |s| && LeftmostLongest(p, s, i, matches)
    ensures Replace(p, s, i) == Cut(s, i, matches, Placeholder(p))
    decreases |matches|
  {
    if matches == [] {
      CopiedUpTo(p, s, i, |s|);
    } else {
      var m := matches[0];
      CopiedUpTo(p, s, i, m.begin);
      LongestIsIt(p, s, m);
      OnlyMatchesAreCut(p, s, m.end, matches[1..]);
    }
  }

  /** And every input has such matches. */
  lemma {:induction false} MatchesExist(p: Pattern, s: string, i: nat) returns (matches: seq<Match>)
    requires i <= |s|
    ensures LeftmostLongest(p, s, i, matches)
    decreases |s| - i
  {
    if i == |s| {
      matches := [];
    } else {
      var m := MatchFrom(p, s, i);
      if m.Some? {
        var rest := MatchesExist(p, s, m.value);
        matches := [Match(i, m.value)] + rest;
        assert matches[1..] == rest;
        NothingLonger(p, s, i);
      } else {
        matches := MatchesExist(p, s, i + 1);
        NothingHere(p, s, i);
      }
    }
  }

  lemma NothingLonger(p: Pattern, s: string, i: nat)
    requires MatchFrom(p, s, i).Some?
    ensures forall b: nat :: MatchFrom(p, s, i).value < b ==> !Spans(p, s, i, b)
  {
  }

  lemma NothingHere(p: Pattern, s: string, i: nat)
    requires MatchFrom(p, s, i).None?
    ensures forall b: nat :: !Spans(p, s, i, b)
  {
  }

  // ---------------------------------------------------------------- what has nothing to hide

  lemma {:induction false} FreeIsUnchanged(p: Pattern, s: string, i: nat)
    requires Free(p, s) && i <= |s|
    ensures Replace(p, s, i) == s[i..]
    decreases |s| - i
  {
    if i < |s| {
      FreeIsUnchanged(p, s, i + 1);
    }
  }

  lemma CleanIsUnchanged(s: string)
    requires Clean(s)
    ensures Scrub(s) == s
  {
    FreeIsUnchanged(CanvasPath, s, 0);
    FreeIsUnchanged(Query, s, 0);
    FreeIsUnchanged(HexRun, s, 0);
  }

  // ---------------------------------------------------------------- paths and queries

  lemma FreeOfPaths(s: string)
    ensures Free(CanvasPath, s) <==> forall i: nat :: !SlashCSlash(s, i)
  {
    forall i: nat | SlashCSlash(s, i) ensures !Free(CanvasPath, s) {
      assert Spans(CanvasPath, s, i, i + 3);
    }
  }

  lemma FreeOfQueries(s: string)
    ensures Free(Query, s) <==> '?' !in s
  {
    if '?' in s {
      var i :| 0 <= i < |s| && s[i] == '?';
      assert Spans(Query, s, i, i + 1);
    }
  }

  /** Output that does not begin with a placeholder begins with the next input character. */
  lemma HeadIsKept(p: Pattern, s: string, i: nat)
    requires i <= |s| && Replace(p, s, i) != "" && Replace(p, s, i)[0] != '<'
    ensures i < |s| && Replace(p, s, i) == [s[i]] + Replace(p, s, i + 1)
  {
  }

  /** No pass leaves or makes a "/c/" unless its input had one that it does not replace. */
  lemma {:induction false} NoPathOut(p: Pattern, s: string, i: nat)
    requires i <= |s| && (p.CanvasPath? || Free(CanvasPath, s))
    ensures forall k: nat :: !SlashCSlash(Replace(p, s, i), k)
    decreases |s| - i
  {
    if i < |s| {
      var m := MatchFrom(p, s, i);
      if m.Some? {
        NoPathOut(p, s, m.value);
        var rest := Replace(p, s, m.value);
        forall k: nat ensures !SlashCSlash(Placeholder(p) + rest, k) {
          if k >= |Placeholder(p)| {
            assert !SlashCSlash(rest, k - |Placeholder(p)|);
          }
        }
      } else {
        NoPathOut(p, s, i + 1);
        var rest := Replace(p, s, i + 1);
        forall k: nat ensures !SlashCSlash([s[i]] + rest, k) {
          if k > 0 {
            assert !SlashCSlash(rest, k - 1);
          } else if SlashCSlash([s[i]] + rest, 0) {
            HeadIsKept(p, s, i + 1);
            HeadIsKept(p, s, i + 2);
            assert SlashCSlash(s, i);
            assert Spans(CanvasPath, s, i, i + 3);
          }
        }
      }
    }
  }

  lemma {:induction false} NoQueryOut(p: Pattern, s: string, i: nat)
    requires i <= |s| && (p.Query? || Free(Query, s))
    ensures '?' !in Replace(p, s, i)
    decreases |s| - i
  {
    if i < |s| {
      var m := MatchFrom(p, s, i);
      if m.Some? {
        NoQueryOut(p, s, m.value);
      } else {
        NoQueryOut(p, s, i + 1);
        assert Spans(Query, s, i, i + 1) <==> s[i] == '?';
      }
    }
  }

  // ---------------------------------------------------------------- hex runs

  /** No hex run in t when the character before t is (not) a word character. */
  ghost predicate HexFree(afterWord: bool, t: string) {
    forall a: nat, b: nat :: !HexSpan(afterWord, t, a, b)
  }

  predicate HexSpan(afterWord: bool, t: string, a: nat, b: nat) {
    && a + 24 <= b <= |t| && AllHex(t, a, b)
    && (if a == 0 then !afterWord else !WordAt(t, a - 1))
    && !WordAt(t, b)
  }

  /** A run that starts after a prefix is a run of what follows it. */
  lemma RunAfterPrefix(afterWord: bool, pre: string, rest: string, a: nat, b: nat)
    requires 0 < |pre| <= a && HexSpan(afterWord, pre + rest, a, b)
    ensures HexSpan(WordAt(pre, |pre| - 1), rest, a - |pre|, b - |pre|)
  {
    var t := pre + rest;
    assert forall k :: 0 <= k < |rest| ==> rest[k] == t[k + |pre|];
    assert WordAt(t, |pre| - 1) == WordAt(pre, |pre| - 1);
  }

  lemma HexFreeIsFree(t: string)
    requires HexFree(false, t)
    ensures Free(HexRun, t)
  {
    forall i: nat, j: nat ensures !Spans(HexRun, t, i, j) {
      assert Spans(HexRun, t, i, j) ==> WordAt(t, i) && WordAt(t, j - 1);
      assert Spans(HexRun, t, i, j) ==> HexSpan(false, t, i, j);
    }
  }

  lemma NoMatchNoSpan(s: string, i: nat, e: nat)
    requires MatchFrom(HexRun, s, i).None? && e <= |s|
    ensures !Spans(HexRun, s, i, e)
  {
  }

  lemma InsideWordNoMatch(s: string, i: nat)
    requires WordAt(s, i - 1) && WordAt(s, i)
    ensures MatchFrom(HexRun, s, i).None?
  {
    assert !Boundary(s, i);
  }

  lemma HexIsWord(s: string, i: nat)
    requires MatchFrom(HexRun, s, i).Some?
    ensures WordAt(s, i)
  {
    assert IsHex(s[i]);
  }

  /** Where no word begins, none begins in the output. */
  lemma NoWordFirst(s: string, e: nat)
    requires e <= |s| && !WordAt(s, e)
    ensures !WordAt(Replace(HexRun, s, e), 0)
  {
    if e < |s| && MatchFrom(HexRun, s, e).Some? {
      HexIsWord(s, e);
    }
  }

  /** Inside one word nothing can match, so it is copied whole; what follows begins with a
      character that is no part of a word. */
  lemma {:induction false} WordIsCopied(s: string, i: nat, e: nat)
    requires i <= e <= |s| && WordAt(s, i - 1) && forall k :: i <= k < e ==> WordAt(s, k)
    ensures Replace(HexRun, s, i) == s[i..e] + Replace(HexRun, s, e)
    decreases e - i
  {
    if i < e {
      InsideWordNoMatch(s, i);
      KeptIsCopied(HexRun, s, i);
      WordIsCopied(s, i + 1, e);
      Regroup(s, i, e, Replace(HexRun, s, e));
    }
  }

  function WordEnd(s: string, i: nat): (e: nat)
    requires i <= |s|
    ensures i <= e <= |s| && !WordAt(s, e) && forall k :: i <= k < e ==> WordAt(s, k)
    decreases |s| - i
  {
    if WordAt(s, i) then WordEnd(s, i + 1) else i
  }

  /** A hex run at the start of the output is exactly the first word of the input. */
  lemma RunIsTheWord(s: string, i: nat, e: nat, rest: string, b: nat)
    requires i <= e <= |s| && (forall k :: i <= k < e ==> WordAt(s, k)) && !WordAt(rest, 0)
    requires HexSpan(false, s[i..e] + rest, 0, b)
    ensures b == e - i && AllHex(s, i, e)
  {
    var out := s[i..e] + rest;
    forall k | 0 <= k < e - i ensures WordAt(out, k) {
      assert WordAt(s, i + k) && out[k] == s[i + k];
    }
    assert WordAt(out, e - i) == WordAt(rest, 0);
    forall k | 0 <= k < b ensures WordAt(out, k) {
      assert IsHex(out[k]);
    }
    assert b == e - i;
    forall k | i <= k < e ensures IsHex(s[k]) {
      assert out[k - i] == s[k];
    }
  }

  lemma FirstWordIsCopied(s: string, i: nat, e: nat)
    requires i < e <= |s| && MatchFrom(HexRun, s, i).None? && forall k :: i <= k < e ==> WordAt(s, k)
    ensures Replace(HexRun, s, i) == s[i..e] + Replace(HexRun, s, e)
  {
    WordIsCopied(s, i + 1, e);
    KeptIsCopied(HexRun, s, i);
    Regroup(s, i, e, Replace(HexRun, s, e));
  }

  /** A character kept at i does not start a hex run in the output. */
  lemma KeptStartsNoRun(s: string, i: nat, b: nat)
    requires i < |s| && MatchFrom(HexRun, s, i).None? && !WordAt(s, i - 1) && WordAt(s, i)
    ensures !HexSpan(false, Replace(HexRun, s, i), 0, b)
  {
    var e := WordEnd(s, i);
    FirstWordIsCopied(s, i, e);
    var rest := Replace(HexRun, s, e);
    NoWordFirst(s, e);
    NoMatchNoSpan(s, i, e);
    if HexSpan(false, s[i..e] + rest, 0, b) {
      RunIsTheWord(s, i, e, rest, b);
      assert false;
    }
  }

  lemma {:induction false} NoHexRunOut(s: string, i: nat, afterWord: bool)
    requires i <= |s| && (afterWord == WordAt(s, i - 1) || (!afterWord && !WordAt(s, i)))
    ensures HexFree(afterWord, Replace(HexRun, s, i))
    decreases |s| - i
  {
    if i < |s| {
      var out := Replace(HexRun, s, i);
      var m := MatchFrom(HexRun, s, i);
      if m.Some? {
        var j := m.value;
        NoHexRunOut(s, j, false);
        var rest := Replace(HexRun, s, j);
        var n := |Placeholder(HexRun)|;
        assert out == Placeholder(HexRun) + rest;
        forall a: nat, b: nat ensures !HexSpan(afterWord, out, a, b) {
          if HexSpan(afterWord, out, a, b) {
            assert out[n - 1] == '>' && out[0] == '<';
            assert a >= n;
            RunAfterPrefix(afterWord, Placeholder(HexRun), rest, a, b);
          }
        }
      } else {
        NoHexRunOut(s, i + 1, WordAt(s, i));
        var rest := Replace(HexRun, s, i + 1);
        forall a: nat, b: nat ensures !HexSpan(afterWord, out, a, b) {
          if HexSpan(afterWord, out, a, b) {
            if a == 0 {
              assert IsHex(out[0]) && out[0] == s[i] && WordAt(s, i);
              KeptStartsNoRun(s, i, b);
            } else {
              RunAfterPrefix(afterWord, [s[i]], rest, a, b);
            }
          }
        }
      }
    }
  }

  // ---------------------------------------------------------------- main results

  /** Whatever goes in, no "/c/", no "?" and no word-delimited run of 24 or more hex digits
      comes out: no later pass or placeholder brings back what an earlier pass removed. */
  lemma ScrubbedIsClean(s: string)
    ensures Clean(Scrub(s))
    ensures '?' !in Scrub(s) && forall i: nat :: !SlashCSlash(Scrub(s), i)
  {
    var s1 := Replace(CanvasPath, s, 0);
    var s2 := Replace(Query, s1, 0);
    var s3 := Replace(HexRun, s2, 0);
    NoPathOut(CanvasPath, s, 0);
    FreeOfPaths(s1);
    NoPathOut(Query, s1, 0);
    FreeOfPaths(s2);
    NoPathOut(HexRun, s2, 0);
    FreeOfPaths(s3);
    NoQueryOut(Query, s1, 0);
    FreeOfQueries(s2);
    NoQueryOut(HexRun, s2, 0);
    FreeOfQueries(s3);
    NoHexRunOut(s2, 0, false);
    HexFreeIsFree(s3);
  }

  /** Scrubbing twice is scrubbing once, and an input is left alone exactly when it was clean. */
  lemma ScrubIsIdempotent(s: string)
    ensures Scrub(Scrub(s)) == Scrub(s)
    ensures Scrub(s) == s <==> Clean(s)
  {
    ScrubbedIsClean(s);
    CleanIsUnchanged(Scrub(s));
    if Clean(s) {
      CleanIsUnchanged(s);
    }
  }

  // ---------------------------------------------------------------- a path takes its query with it

  lemma {:induction false} PathToTheEnd(s: string, i: nat, n: nat)
    requires i <= n && SlashCSlash(s, n) && NoSpace(s, n, |s|)
    requires forall k: nat :: k < n ==> !SlashCSlash(s, k)
    ensures Replace(CanvasPath, s, i) == s[i..n] + Placeholder(CanvasPath)
    decreases n - i
  {
    if i < n {
      PathToTheEnd(s, i + 1, n);
    } else {
      assert Spans(CanvasPath, s, n, |s|);
      assert Replace(CanvasPath, s, |s|) == "";
    }
  }

  /** A placeholder added at the end makes no new run, and ends no old one. */
  lemma RunBeforePlaceholder(pre: string, mark: string, i: nat, j: nat)
    requires 0 < |mark| < 24 && mark[0] == '<'
    requires Spans(HexRun, pre + mark, i, j)
    ensures Spans(HexRun, pre, i, j)
  {
    var s := pre + mark;
    assert s[|pre|] == '<';
    assert i < |pre| && j <= |pre|;
    assert forall k :: 0 <= k < |pre| ==> s[k] == pre[k];
  }

  /** A capability token in the query of a canvas path goes with the path: clean text followed
      by "/c/" and anything without white space comes out as the text and one placeholder. */
  lemma PathTakesItsQuery(pre: string, w: string)
    requires Clean(pre) && NoSpace(w, 0, |w|)
    requires forall k: nat :: k < |pre| ==> !SlashCSlash(pre + "/c/" + w, k)
    ensures Scrub(pre + "/c/" + w) == pre + Placeholder(CanvasPath)
  {
    var s := pre + "/c/" + w;
    var s1 := pre + Placeholder(CanvasPath);
    forall k | |pre| <= k < |s| ensures !IsSpace(s[k]) {
      assert k >= |pre| + 3 ==> s[k] == w[k - |pre| - 3];
    }
    PathToTheEnd(s, 0, |pre|);
    assert s[0..|pre|] == pre;
    FreeOfQueries(pre);
    FreeOfQueries(s1);
    forall i: nat, j: nat ensures !Spans(HexRun, s1, i, j) {
      if Spans(HexRun, s1, i, j) {
        RunBeforePlaceholder(pre, Placeholder(CanvasPath), i, j);
      }
    }
    FreeIsUnchanged(Query, s1, 0);
    FreeIsUnchanged(HexRun, s1, 0);
  }
}
