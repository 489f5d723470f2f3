/** Exact-string edits: one replacement, and a batch applied in order or not at all. */
module FileEdit {
  import opened Prelude

  type Text = string

  datatype Edit = Edit(oldStr: Text, newStr: Text, replaceAll: bool)

  datatype Cause = OldStringEmpty | NoChange | NotFound | MultipleMatches(count: nat) | TooLarge(size: int, max: int)

  datatype BatchError = NoEdits | Failed(index: nat, cause: Cause)

  datatype Edited = Edited(text: Text, count: nat)

  // ---------------------------------------------------------------- leftmost matches

  predicate MatchAt(s: Text, i: int, pat: Text) {
    0 <= i <= |s| - |pat| && s[i..i + |pat|] == pat
  }

  /** The first match at or after i, or |s| if there is none. */
  function Find(s: Text, i: nat, pat: Text): (j: nat)
    requires i <= |s| && pat != ""
    ensures i <= j <= |s| && (j < |s| ==> MatchAt(s, j, pat))
    ensures forall k :: i <= k < j ==> !MatchAt(s, k, pat)
    decreases |s| - i
  {
    if i == |s| || MatchAt(s, i, pat) then i else Find(s, i + 1, pat)
  }

  /** bytes.Count from position i: matches are found left to right and do not overlap. */
  function CountFrom(s: Text, i: nat, pat: Text): nat
    requires i <= |s| && pat != ""
    decreases |s| - i
  {
    var j := Find(s, i, pat);
    if j == |s| then 0 else 1 + CountFrom(s, j + |pat|, pat)
  }

  /** bytes.ReplaceAll from position i. */
  function ReplaceFrom(s: Text, i: nat, pat: Text, sub: Text): Text
    requires i <= |s| && pat != ""
    decreases |s| - i
  {
    var j := Find(s, i, pat);
    if j == |s| then s[i..] else s[i..j] + sub + ReplaceFrom(s, j + |pat|, pat, sub)
  }

  // ---------------------------------------------------------------- what they mean

  /** ps are the leftmost non-overlapping matches of pat in s from i on: each one is a match,
      each begins at or after the end of the one before, and no match begins in a gap. */
  ghost predicate Leftmost(s: Text, i: nat, pat: Text, ps: seq<nat>)
    decreases |ps|
  {
    if ps == [] then forall k :: i <= k < |s| ==> !MatchAt(s, k, pat)
    else
      && i <= ps[0] && MatchAt(s, ps[0], pat) && (forall k :: i <= k < ps[0] ==> !MatchAt(s, k, pat))
      && Leftmost(s, ps[0] + |pat|, pat, ps[1..])
  }

  /** s from i on with the stretches of length n at ps cut out and sub put in their place. */
  function Spliced(s: Text, i: nat, n: nat, ps: seq<nat>, sub: Text): Text
    requires i <= |s|
    decreases |ps|
  {
    if ps == [] || ps[0] < i || ps[0] + n > |s| then s[i..]
    else s[i..ps[0]] + sub + Spliced(s, ps[0] + n, n, ps[1..], sub)
  }

  /** A match at i is an occurrence there: the text is i characters, pat, and some more. */
  lemma MatchesAreOccurrences(s: Text, i: nat, pat: Text)
    ensures MatchAt(s, i, pat) <==> exists before: Text, after: Text :: |before| == i && s == before + pat + after
  {
    if MatchAt(s, i, pat) {
      assert s == s[..i] + pat + s[i + |pat|..];
    }
    forall before: Text, after: Text | |before| == i && s == before + pat + after ensures MatchAt(s, i, pat) {
      assert s[i..i + |pat|] == pat;
    }
  }

  lemma FirstIsFound(s: Text, i: nat, pat: Text, p: nat)
    requires i <= p <= |s| && pat != "" && (p < |s| ==> MatchAt(s, p, pat))
    requires forall k :: i <= k < p ==> !MatchAt(s, k, pat)
    ensures Find(s, i, pat) == p
  {
  }

  /** Count and ReplaceAll are determined by the leftmost matches, whichever way those are found. */
  lemma {:induction false} LeftmostDetermines(s: Text, i: nat, pat: Text, sub: Text, ps: seq<nat>)
    requires i <= |s| && pat != "" && Leftmost(s, i, pat, ps)
    ensures CountFrom(s, i, pat) == |ps|
    ensures ReplaceFrom(s, i, pat, sub) == Spliced(s, i, |pat|, ps, sub)
    decreases |ps|
  {
    if ps == [] {
      FirstIsFound(s, i, pat, |s|);
    } else {
      FirstIsFound(s, i, pat, ps[0]);
      LeftmostDetermines(s, ps[0] + |pat|, pat, sub, ps[1..]);
    }
  }

  /** Every text has such a list of matches. */
  lemma {:induction false} LeftmostExists(s: Text, i: nat, pat: Text) returns (ps: seq<nat>)
    requires i <= |s| && pat != ""
    ensures Leftmost(s, i, pat, ps)
    decreases |s| - i
  {
    var j := Find(s, i, pat);
    if j == |s| {
      ps := [];
    } else {
      var rest := LeftmostExists(s, j + |pat|, pat);
      ps := [j] + rest;
    }
  }

  lemma SplicedOne(s: Text, i: nat, n: nat, ps: seq<nat>, sub: Text)
    requires ps != [] && i <= ps[0] && ps[0] + n <= |s|
    ensures Spliced(s, i, n, ps, sub) == s[i..ps[0]] + sub + Spliced(s, ps[0] + n, n, ps[1..], sub)
  {
  }

  lemma CutInThree(s: Text, i: nat, j: nat, k: nat)
    requires i <= j <= k <= |s|
    ensures s[i..] == s[i..j] + s[j..k] + s[k..]
  {
  }

  /** Putting the old text back into the gaps gives back the original. */
  lemma {:induction false} SplicingBack(s: Text, i: nat, pat: Text, ps: seq<nat>)
    requires i <= |s| && pat != "" && Leftmost(s, i, pat, ps)
    ensures Spliced(s, i, |pat|, ps, pat) == s[i..]
    decreases |ps|
  {
    if ps != [] {
      SplicingBack(s, ps[0] + |pat|, pat, ps[1..]);
      var p := ps[0];
      assert MatchAt(s, p, pat) && s[p..p + |pat|] == pat;
      SplicedOne(s, i, |pat|, ps, pat);
      CutInThree(s, i, p, p + |pat|);
    }
  }

  /** n times d. */
  function Gain(n: nat, d: int): (g: int)
    ensures n == 1 ==> g == d
  {
    if n == 0 then 0 else d + Gain(n - 1, d)
  }

  lemma {:induction false} GainIsProduct(n: nat, d: int)
    ensures Gain(n, d) == n * d
  {
    if n > 0 {
      GainIsProduct(n - 1, d);
      assert n * d == d + (n - 1) * d;
    }
  }

  lemma {:induction false} ReplacedLength(s: Text, i: nat, pat: Text, sub: Text)
    requires i <= |s| && pat != ""
    ensures |ReplaceFrom(s, i, pat, sub)| == |s| - i + Gain(CountFrom(s, i, pat), |sub| - |pat|)
    decreases |s| - i
  {
    var j := Find(s, i, pat);
    if j < |s| {
      ReplacedLength(s, j + |pat|, pat, sub);
    }
  }

  // ---------------------------------------------------------------- one edit

  function Apply(content: Text, e: Edit, maxBytes: int): Result<Edited, Cause> {
    if e.oldStr == "" then Err(OldStringEmpty)
    else if e.oldStr == e.newStr then Err(NoChange)
    else
      var count := CountFrom(content, 0, e.oldStr);
      if count == 0 then Err(NotFound)
      else if count > 1 && !e.replaceAll then Err(MultipleMatches(count))
      else
        var edited := ReplaceFrom(content, 0, e.oldStr, e.newStr);
        if |edited| > maxBytes then Err(TooLarge(|edited|, maxBytes)) else Ok(Edited(edited, count))
  }

  /** The whole contract of one edit in terms of the leftmost matches ps: when it succeeds, what
      it returns, and which of the five refusals it gives otherwise. */
  lemma ApplyMeaning(content: Text, e: Edit, maxBytes: int, ps: seq<nat>)
    requires e.oldStr != "" ==> Leftmost(content, 0, e.oldStr, ps)
    ensures var r := Apply(content, e, maxBytes);
            var size := |content| + Gain(|ps|, |e.newStr| - |e.oldStr|);
            if e.oldStr == "" then r == Err(OldStringEmpty)
            else if e.oldStr == e.newStr then r == Err(NoChange)
            else if ps == [] then r == Err(NotFound)
            else if |ps| > 1 && !e.replaceAll then r == Err(MultipleMatches(|ps|))
            else if size > maxBytes then r == Err(TooLarge(size, maxBytes))
            else r == Ok(Edited(Spliced(content, 0, |e.oldStr|, ps, e.newStr), |ps|)) && |r.value.text| == size
  {
    if e.oldStr != "" {
      LeftmostDetermines(content, 0, e.oldStr, e.newStr, ps);
      ReplacedLength(content, 0, e.oldStr, e.newStr);
    }
  }

  // ---------------------------------------------------------------- batches

  /** What a batch does with each edit. */
  type Step = (Text, Edit) -> Result<Edited, Cause>

  function Within(maxBytes: int): Step {
    (text: Text, e: Edit) => Apply(text, e, maxBytes)
  }

  /** What happened first, and after it a further run whose edits come shift places later. */
  function Then(first: Edited, rest: Result<Edited, BatchError>, shift: nat): Result<Edited, BatchError> {
    match rest
    case Ok(r) => Ok(Edited(r.text, first.count + r.count))
    case Err(Failed(index, cause)) => Err(Failed(index + shift, cause))
    case Err(NoEdits) => rest
  }

  /** Each edit applied to the result of the one before; the first failure is the answer. */
  function Fold(content: Text, edits: seq<Edit>, step: Step): Result<Edited, BatchError>
    decreases |edits|
  {
    if edits == [] then Ok(Edited(content, 0))
    else
      match step(content, edits[0])
      case Err(cause) => Err(Failed(0, cause))
      case Ok(first) => Then(first, Fold(first.text, edits[1..], step), 1)
  }

  /** Running a batch is running its first part and then the rest on what that produced: counts
      add, and a failure in the rest keeps its place in the whole. */
  lemma {:induction false} FoldSplits(content: Text, a: seq<Edit>, b: seq<Edit>, step: Step)
    ensures Fold(content, a + b, step) ==
            match Fold(content, a, step)
            case Err(error) => Err(error)
            case Ok(first) => Then(first, Fold(first.text, b, step), |a|)
    decreases |a|
  {
    if a == [] {
      assert a + b == b;
    } else {
      assert (a + b)[1..] == a[1..] + b && (a + b)[0] == a[0];
      var r := step(content, a[0]);
      if r.Ok? {
        FoldSplits(r.value.text, a[1..], b, step);
      }
    }
  }

  /** One more edit after the first i: the fold goes on, or ends there. */
  lemma FoldOneMore(content: Text, edits: seq<Edit>, step: Step, i: nat, buf: Text, total: nat)
    requires i < |edits| && Fold(content, edits[..i], step) == Ok(Edited(buf, total))
    ensures match step(buf, edits[i])
      case Ok(next) => Fold(content, edits[..i + 1], step) == Ok(Edited(next.text, total + next.count))
      case Err(cause) => Fold(content, edits, step) == Err(Failed(i, cause))
  {
    assert edits[..i + 1] == edits[..i] + [edits[i]];
    FoldSplits(content, edits[..i], [edits[i]], step);
    assert edits == edits[..i + 1] + edits[i + 1..];
    FoldSplits(content, edits[..i + 1], edits[i + 1..], step);
  }

  /** ApplyBatch, as the loop it is. */
  method ApplyBatch(content: Text, edits: seq<Edit>, maxBytes: int) returns (r: Result<Edited, BatchError>)
    ensures r == if edits == [] then Err(NoEdits) else Fold(content, edits, Within(maxBytes))
  {
    if |edits| == 0 {
      return Err(NoEdits);
    }
    ghost var step := Within(maxBytes);
    var buf := content;
    var total: nat := 0;
    for i := 0 to |edits|
      invariant Fold(content, edits[..i], step) == Ok(Edited(buf, total))
    {
      var applied := Apply(buf, edits[i], maxBytes);
      assert step(buf, edits[i]) == applied;
      FoldOneMore(content, edits, step, i, buf, total);
      if applied.Err? {
        return Err(Failed(i, applied.error));
      }
      buf := applied.value.text;
      total := total + applied.value.count;
    }
    assert edits[..|edits|] == edits;
    return Ok(Edited(buf, total));
  }

  /** The text after the first n edits, when they all apply. */
  ghost predicate Stage(content: Text, edits: seq<Edit>, step: Step, n: nat, text: Text, count: nat)
    requires n <= |edits|
  {
    Fold(content, edits[..n], step) == Ok(Edited(text, count))
  }

  /** A batch fails at i for a cause exactly when the first i edits apply and edit i, on what they
      produced, fails for that cause. */
  lemma FirstFailureIsNamed(content: Text, edits: seq<Edit>, step: Step, i: nat, cause: Cause)
    requires edits != []
    ensures Fold(content, edits, step) == Err(Failed(i, cause)) <==>
            i < |edits| && exists text, count ::
              Stage(content, edits, step, i, text, count) && step(text, edits[i]) == Err(cause)
  {
    if Fold(content, edits, step) == Err(Failed(i, cause)) {
      FailureHasStage(content, edits, step, i, cause);
    }
    if i < |edits| {
      forall text, count | Stage(content, edits, step, i, text, count) && step(text, edits[i]) == Err(cause)
        ensures Fold(content, edits, step) == Err(Failed(i, cause))
      {
        assert edits == edits[..i] + edits[i..];
        FoldSplits(content, edits[..i], edits[i..], step);
      }
    }
  }

  lemma {:induction false} FailureHasStage(content: Text, edits: seq<Edit>, step: Step, i: nat, cause: Cause)
    requires Fold(content, edits, step) == Err(Failed(i, cause))
    ensures i < |edits| && exists text, count ::
              Stage(content, edits, step, i, text, count) && step(text, edits[i]) == Err(cause)
    decreases |edits|
  {
    if i == 0 {
      assert edits[..0] == [];
      assert Stage(content, edits, step, 0, content, 0);
      match step(content, edits[0]) {
        case Err(_) =>
        case Ok(first) => NeverNoEdits(first.text, edits[1..], step);
      }
    } else {
      var first := step(content, edits[0]).value;
      FailureHasStage(first.text, edits[1..], step, i - 1, cause);
      var text, count :| Stage(first.text, edits[1..], step, i - 1, text, count)
                         && step(text, edits[1..][i - 1]) == Err(cause);
      assert edits[..i][1..] == edits[1..][..i - 1];
      assert Stage(content, edits, step, i, text, first.count + count);
    }
  }

  lemma {:induction false} NeverNoEdits(content: Text, edits: seq<Edit>, step: Step)
    ensures Fold(content, edits, step) != Err(NoEdits)
    decreases |edits|
  {
    if edits != [] && step(content, edits[0]).Ok? {
      NeverNoEdits(step(content, edits[0]).value.text, edits[1..], step);
    }
  }

  /** What a batch of edits, with n_i replacements each, adds to the length. */
  function Growth(counts: seq<nat>, edits: seq<Edit>): int
    requires |counts| == |edits|
  {
    if edits == [] then 0
    else Gain(counts[0], |edits[0].newStr| - |edits[0].oldStr|) + Growth(counts[1..], edits[1..])
  }

  function Sum(counts: seq<nat>): nat {
    if counts == [] then 0 else counts[0] + Sum(counts[1..])
  }

  /** texts and counts are the stages of a batch that applies throughout. */
  ghost predicate Chain(texts: seq<Text>, counts: seq<nat>, edits: seq<Edit>, step: Step) {
    && |texts| == |edits| + 1 && |counts| == |edits|
    && forall i :: 0 <= i < |edits| ==> step(texts[i], edits[i]) == Ok(Edited(texts[i + 1], counts[i]))
  }

  lemma {:induction false} BatchHasChain(content: Text, edits: seq<Edit>, step: Step)
    returns (texts: seq<Text>, counts: seq<nat>)
    requires Fold(content, edits, step).Ok?
    ensures Chain(texts, counts, edits, step) && texts[0] == content
    ensures Fold(content, edits, step) == Ok(Edited(texts[|edits|], Sum(counts)))
    decreases |edits|
  {
    if edits == [] {
      texts, counts := [content], [];
    } else {
      var first := step(content, edits[0]).value;
      var ts, cs := BatchHasChain(first.text, edits[1..], step);
      texts, counts := [content] + ts, [first.count] + cs;
      forall i | 0 <= i < |edits|
        ensures step(texts[i], edits[i]) == Ok(Edited(texts[i + 1], counts[i]))
      {
        if i > 0 {
          assert edits[i] == edits[1..][i - 1] && texts[i] == ts[i - 1] && counts[i] == cs[i - 1];
        }
      }
      assert counts[1..] == cs;
    }
  }

  lemma AppliedLength(content: Text, e: Edit, maxBytes: int)
    requires Apply(content, e, maxBytes).Ok?
    ensures var r := Apply(content, e, maxBytes).value;
            r.count > 0 && |r.text| == |content| + Gain(r.count, |e.newStr| - |e.oldStr|) <= maxBytes
  {
    ReplacedLength(content, 0, e.oldStr, e.newStr);
  }

  lemma {:induction false} ChainLength(texts: seq<Text>, counts: seq<nat>, edits: seq<Edit>, maxBytes: int)
    requires Chain(texts, counts, edits, Within(maxBytes))
    ensures |texts[|edits|]| == |texts[0]| + Growth(counts, edits)
    ensures forall i :: 0 < i <= |edits| ==> |texts[i]| <= maxBytes
    decreases |edits|
  {
    if edits != [] {
      var step := Within(maxBytes);
      assert step(texts[0], edits[0]) == Ok(Edited(texts[1], counts[0]));
      AppliedLength(texts[0], edits[0], maxBytes);
      forall i | 0 <= i < |edits[1..]|
        ensures step(texts[1..][i], edits[1..][i]) == Ok(Edited(texts[1..][i + 1], counts[1..][i]))
      {
        assert step(texts[i + 1], edits[i + 1]) == Ok(Edited(texts[i + 2], counts[i + 1]));
      }
      ChainLength(texts[1..], counts[1..], edits[1..], maxBytes);
      forall i | 0 < i <= |edits| ensures |texts[i]| <= maxBytes {
        if i > 1 {
          assert texts[i] == texts[1..][i - 1];
        }
      }
    }
  }

  /** A batch that succeeds: every text on the way fits in maxBytes, the total is the sum of the
      edits' own counts, and the length has changed by count times difference, edit by edit. */
  lemma BatchAccounts(content: Text, edits: seq<Edit>, maxBytes: int) returns (texts: seq<Text>, counts: seq<nat>)
    requires Fold(content, edits, Within(maxBytes)).Ok?
    ensures Chain(texts, counts, edits, Within(maxBytes)) && texts[0] == content
    ensures forall i :: 0 < i <= |edits| ==> |texts[i]| <= maxBytes
    ensures Fold(content, edits, Within(maxBytes)) == Ok(Edited(texts[|edits|], Sum(counts)))
    ensures |texts[|edits|]| == |content| + Growth(counts, edits)
  {
    texts, counts := BatchHasChain(content, edits, Within(maxBytes));
    ChainLength(texts, counts, edits, maxBytes);
  }
}
