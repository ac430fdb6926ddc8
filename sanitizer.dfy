/**
 * `sanitize_response`: removes a boolean the model sometimes echoes before
 * its answer, by two anchored, case-insensitive substitutions applied in turn:
 *
 *   pass 1  ^\s*["']?(?:true|false)["']?\s*[:\-]*\s*(?:\r?\n)+
 *   pass 2  ^\s*["']?(?:true|false)["']?\s*[:\-]*\s+
 *
 * The pattern is written out below as a chain of predicates, one per regex
 * element, each saying that `t[i..k]` matches that element followed by the
 * rest of the pattern. A hand-rolled scanner (EchoEnd) then finds the end of
 * the longest matching prefix, and is proved to find it. For these two
 * patterns the match Python's backtracking engine reports is the longest
 * one: every quantifier is greedy and each run of one character class can
 * only be shortened by giving characters to a later element of the same
 * class.
 */
module Sanitizer {
  import opened Wrappers
  import opened Text

  /** How the prefix must end: pass 1 in line breaks `(?:\r?\n)+`, pass 2 in whitespace `\s+`. */
  datatype Terminator = LineBreaks | Blanks

  predicate IsQuote(c: char) { c == '"' || c == '\'' }

  predicate IsSeparator(c: char) { c == ':' || c == '-' }

  /** `true`, in any ASCII letter case, at position `i`. */
  predicate TrueAt(t: string, i: nat)
    requires i + 4 <= |t|
  {
    LowerChar(t[i]) == 't' && LowerChar(t[i + 1]) == 'r' && LowerChar(t[i + 2]) == 'u' && LowerChar(t[i + 3]) == 'e'
  }

  /** `false`, in any ASCII letter case, at position `i`. */
  predicate FalseAt(t: string, i: nat)
    requires i + 5 <= |t|
  {
    LowerChar(t[i]) == 'f' && LowerChar(t[i + 1]) == 'a' && LowerChar(t[i + 2]) == 'l' &&
    LowerChar(t[i + 3]) == 's' && LowerChar(t[i + 4]) == 'e'
  }

  // ---------------------------------------------------------------------
  // The pattern, element by element.
  // ---------------------------------------------------------------------

  /** `(?:\r?\n)+` matches `t[i..k]`. */
  predicate LineBreakRun(t: string, i: nat, k: nat)
    requires i <= k <= |t|
    decreases k - i
  {
    || (i < k && t[i] == '\n' && (i + 1 == k || LineBreakRun(t, i + 1, k)))
    || (i + 1 < k && t[i] == '\r' && t[i + 1] == '\n' && (i + 2 == k || LineBreakRun(t, i + 2, k)))
  }

  /** `\s+` matches `t[i..k]`. */
  predicate SpaceRun(t: string, i: nat, k: nat)
    requires i <= k <= |t|
    decreases k - i
  {
    i < k && IsSpace(t[i]) && (i + 1 == k || SpaceRun(t, i + 1, k))
  }

  /** The last element of the pattern matches `t[i..k]`. */
  predicate Terminal(t: string, i: nat, k: nat, term: Terminator)
    requires i <= k <= |t|
  {
    match term
    case LineBreaks => LineBreakRun(t, i, k)
    case Blanks => SpaceRun(t, i, k)
  }

  /** `\s*` then the terminal element match `t[i..k]`. */
  predicate Spacing(t: string, i: nat, k: nat, term: Terminator)
    requires i <= k <= |t|
    decreases k - i
  {
    (i < k && IsSpace(t[i]) && Spacing(t, i + 1, k, term)) || Terminal(t, i, k, term)
  }

  /** `[:\-]*` and the rest match `t[i..k]`. */
  predicate Separators(t: string, i: nat, k: nat, term: Terminator)
    requires i <= k <= |t|
    decreases k - i
  {
    (i < k && IsSeparator(t[i]) && Separators(t, i + 1, k, term)) || Spacing(t, i, k, term)
  }

  /** `\s*` after the boolean and the rest match `t[i..k]`. */
  predicate Gap(t: string, i: nat, k: nat, term: Terminator)
    requires i <= k <= |t|
    decreases k - i
  {
    (i < k && IsSpace(t[i]) && Gap(t, i + 1, k, term)) || Separators(t, i, k, term)
  }

  /** `["']?` after the boolean and the rest match `t[i..k]`. */
  predicate ClosingQuote(t: string, i: nat, k: nat, term: Terminator)
    requires i <= k <= |t|
  {
    (i < k && IsQuote(t[i]) && Gap(t, i + 1, k, term)) || Gap(t, i, k, term)
  }

  /** `(?:true|false)` and the rest match `t[i..k]`. */
  predicate Word(t: string, i: nat, k: nat, term: Terminator)
    requires i <= k <= |t|
  {
    || (i + 4 <= k && TrueAt(t, i) && ClosingQuote(t, i + 4, k, term))
    || (i + 5 <= k && FalseAt(t, i) && ClosingQuote(t, i + 5, k, term))
  }

  /** `["']?` before the boolean and the rest match `t[i..k]`. */
  predicate OpeningQuote(t: string, i: nat, k: nat, term: Terminator)
    requires i <= k <= |t|
  {
    (i < k && IsQuote(t[i]) && Word(t, i + 1, k, term)) || Word(t, i, k, term)
  }

  /** `\s*` at the start and the rest match `t[i..k]`. */
  predicate LeadingSpace(t: string, i: nat, k: nat, term: Terminator)
    requires i <= k <= |t|
    decreases k - i
  {
    (i < k && IsSpace(t[i]) && LeadingSpace(t, i + 1, k, term)) || OpeningQuote(t, i, k, term)
  }

  /** The whole pattern, anchored at the start, matches the prefix `t[..k]`. */
  predicate Matches(t: string, k: nat, term: Terminator)
    requires k <= |t|
  {
    LeadingSpace(t, 0, k, term)
  }

  // ---------------------------------------------------------------------
  // The scanner.
  // ---------------------------------------------------------------------

  /** The end of the run of `:` and `-` that starts at `i`. */
  function SeparatorRunEnd(t: string, i: nat): (j: nat)
    requires i <= |t|
    ensures i <= j <= |t|
    ensures forall q :: i <= q < j ==> IsSeparator(t[q])
    ensures j == |t| || !IsSeparator(t[j])
    decreases |t| - i
  {
    if i < |t| && IsSeparator(t[i]) then SeparatorRunEnd(t, i + 1) else i
  }

  /** The position of the last line feed in `t[i..j]`, if there is one. */
  function LastLineFeed(t: string, i: nat, j: nat): (r: Option<nat>)
    requires i <= j <= |t|
    ensures r.Some? ==> i <= r.value < j && t[r.value] == '\n' && forall q :: r.value < q < j ==> t[q] != '\n'
    ensures r.None? ==> forall q :: i <= q < j ==> t[q] != '\n'
    decreases j
  {
    if j == i then None else if t[j - 1] == '\n' then Some(j - 1) else LastLineFeed(t, i, j - 1)
  }

  /** Steps over one quote character at `i`, if there is one. */
  function OptionalQuote(t: string, i: nat): (j: nat)
    requires i <= |t|
    ensures j <= |t|
  {
    if i < |t| && IsQuote(t[i]) then i + 1 else i
  }

  /** The end of `true` or `false` at `i`, if one of them is there. */
  function WordEnd(t: string, i: nat): Option<nat> {
    if i + 4 <= |t| && TrueAt(t, i) then Some(i + 4)
    else if i + 5 <= |t| && FalseAt(t, i) then Some(i + 5)
    else None
  }

  /**
   * The end of the longest match of `\s*[:\-]*` and the terminal element from
   * `c`. With `g1` the end of the first whitespace run, `s` the end of the
   * separators after it and `g2` the end of the whitespace after those, a
   * match ends inside the first run or, when there are separators, inside the
   * second run.
   */
  function TailEnd(t: string, c: nat, term: Terminator): (e: Option<nat>)
    requires c <= |t|
    ensures e.Some? ==> c < e.value <= |t|
  {
    var g1 := SpaceRunEnd(t, c);
    var s := SeparatorRunEnd(t, g1);
    var g2 := SpaceRunEnd(t, s);
    match term
    case LineBreaks =>
      if s > g1 && LastLineFeed(t, s, g2).Some? then Some(LastLineFeed(t, s, g2).value + 1)
      else if LastLineFeed(t, c, g1).Some? then Some(LastLineFeed(t, c, g1).value + 1)
      else None
    case Blanks =>
      if s > g1 && g2 > s then Some(g2)
      else if g1 > c then Some(g1)
      else None
  }

  /** Where the echoed boolean (with everything the pattern removes) ends, if the text opens with one. */
  function EchoEnd(t: string, term: Terminator): (e: Option<nat>)
    ensures e.Some? ==> 0 < e.value <= |t|
  {
    var b := OptionalQuote(t, SpaceRunEnd(t, 0));
    match WordEnd(t, b)
    case None => None
    case Some(w) => TailEnd(t, OptionalQuote(t, w), term)
  }

  // ---------------------------------------------------------------------
  // What the scanner finds matches the pattern.
  // ---------------------------------------------------------------------

  lemma {:induction false} SpaceRunFrom(t: string, i: nat, k: nat)
    requires i < k <= |t| && AllSpaceIn(t, i, k)
    ensures SpaceRun(t, i, k)
    decreases k - i
  {
    if i + 1 < k {
      SpaceRunFrom(t, i + 1, k);
    }
  }

  lemma {:induction false} SpacingFrom(t: string, i: nat, j: nat, k: nat, term: Terminator)
    requires i <= j <= k <= |t| && AllSpaceIn(t, i, j) && Terminal(t, j, k, term)
    ensures Spacing(t, i, k, term)
    decreases j - i
  {
    if i < j {
      SpacingFrom(t, i + 1, j, k, term);
    }
  }

  lemma {:induction false} SeparatorsFrom(t: string, i: nat, j: nat, k: nat, term: Terminator)
    requires i <= j <= k <= |t| && (forall q :: i <= q < j ==> IsSeparator(t[q])) && Spacing(t, j, k, term)
    ensures Separators(t, i, k, term)
    decreases j - i
  {
    if i < j {
      SeparatorsFrom(t, i + 1, j, k, term);
    }
  }

  lemma {:induction false} GapFrom(t: string, i: nat, j: nat, k: nat, term: Terminator)
    requires i <= j <= k <= |t| && AllSpaceIn(t, i, j) && Separators(t, j, k, term)
    ensures Gap(t, i, k, term)
    decreases j - i
  {
    if i < j {
      GapFrom(t, i + 1, j, k, term);
    }
  }

  lemma {:induction false} LeadingSpaceFrom(t: string, i: nat, j: nat, k: nat, term: Terminator)
    requires i <= j <= k <= |t| && AllSpaceIn(t, i, j) && OpeningQuote(t, j, k, term)
    ensures LeadingSpace(t, i, k, term)
    decreases j - i
  {
    if i < j {
      LeadingSpaceFrom(t, i + 1, j, k, term);
    }
  }

  /** A match ending at a line feed at `p` inside `t[j..]`, all whitespace up to it. */
  lemma SpacingToLineFeed(t: string, j: nat, p: nat)
    requires j <= p < |t| && t[p] == '\n' && AllSpaceIn(t, j, p)
    ensures Spacing(t, j, p + 1, LineBreaks)
  {
    assert LineBreakRun(t, p, p + 1);
    SpacingFrom(t, j, p, p + 1, LineBreaks);
  }

  lemma TailEndSound(t: string, c: nat, term: Terminator)
    requires c <= |t| && TailEnd(t, c, term).Some?
    ensures Gap(t, c, TailEnd(t, c, term).value, term)
  {
    var g1 := SpaceRunEnd(t, c);
    var s := SeparatorRunEnd(t, g1);
    var g2 := SpaceRunEnd(t, s);
    var e := TailEnd(t, c, term).value;
    if s > g1 && (if term == LineBreaks then LastLineFeed(t, s, g2).Some? else g2 > s) {
      if term == LineBreaks {
        SpacingToLineFeed(t, s, e - 1);
      } else {
        SpaceRunFrom(t, s, g2);
        SpacingFrom(t, s, s, g2, term);
      }
      SeparatorsFrom(t, g1, s, e, term);
      GapFrom(t, c, g1, e, term);
    } else {
      if term == LineBreaks {
        SpacingToLineFeed(t, c, e - 1);
      } else {
        SpaceRunFrom(t, c, g1);
        SpacingFrom(t, c, c, g1, term);
      }
      SeparatorsFrom(t, c, c, e, term);
      GapFrom(t, c, c, e, term);
    }
  }

  lemma EchoEndSound(t: string, term: Terminator)
    requires EchoEnd(t, term).Some?
    ensures Matches(t, EchoEnd(t, term).value, term)
  {
    var a := SpaceRunEnd(t, 0);
    var b := OptionalQuote(t, a);
    var w := WordEnd(t, b).value;
    var c := OptionalQuote(t, w);
    var e := EchoEnd(t, term).value;
    TailEndSound(t, c, term);
    assert ClosingQuote(t, w, e, term);
    assert Word(t, b, e, term);
    assert OpeningQuote(t, a, e, term);
    LeadingSpaceFrom(t, 0, a, e, term);
  }

  // ---------------------------------------------------------------------
  // Every match ends no later than what the scanner finds.
  // ---------------------------------------------------------------------

  lemma {:induction false} TerminalShape(t: string, i: nat, k: nat, term: Terminator)
    requires i <= k <= |t| && Terminal(t, i, k, term)
    ensures i < k && AllSpaceIn(t, i, k) && (term == LineBreaks ==> t[k - 1] == '\n')
    decreases k - i
  {
    match term
    case LineBreaks =>
      if t[i] == '\n' {
        if i + 1 < k {
          TerminalShape(t, i + 1, k, term);
        }
      } else {
        if i + 2 < k {
          TerminalShape(t, i + 2, k, term);
        }
      }
    case Blanks =>
      if i + 1 < k {
        TerminalShape(t, i + 1, k, term);
      }
  }

  lemma {:induction false} SpacingShape(t: string, i: nat, k: nat, term: Terminator)
    requires i <= k <= |t| && Spacing(t, i, k, term)
    ensures i < k && AllSpaceIn(t, i, k) && (term == LineBreaks ==> t[k - 1] == '\n')
    decreases k - i
  {
    if i < k && IsSpace(t[i]) && Spacing(t, i + 1, k, term) {
      SpacingShape(t, i + 1, k, term);
    } else {
      TerminalShape(t, i, k, term);
    }
  }

  /** Separators are not whitespace, so a match walks the whole separator run. */
  lemma {:induction false} SeparatorsShape(t: string, i: nat, k: nat, term: Terminator)
    requires i <= k <= |t| && Separators(t, i, k, term)
    ensures SeparatorRunEnd(t, i) <= k && Spacing(t, SeparatorRunEnd(t, i), k, term)
    decreases k - i
  {
    if i < k && IsSeparator(t[i]) && Separators(t, i + 1, k, term) {
      SeparatorsShape(t, i + 1, k, term);
    } else {
      SpacingShape(t, i, k, term);
    }
  }

  /**
   * A match of the tail from `i` starts with whitespace or a separator, and
   * ends inside the first whitespace run or, after separators, inside the
   * second.
   */
  lemma {:induction false} GapShape(t: string, i: nat, k: nat, term: Terminator)
    requires i <= k <= |t| && Gap(t, i, k, term)
    ensures i < k && (IsSpace(t[i]) || IsSeparator(t[i]))
    ensures term == LineBreaks ==> t[k - 1] == '\n'
    ensures var g1 := SpaceRunEnd(t, i);
      var s := SeparatorRunEnd(t, g1);
      k <= g1 || (g1 < s < k <= SpaceRunEnd(t, s))
    decreases k - i
  {
    if i < k && IsSpace(t[i]) && Gap(t, i + 1, k, term) {
      GapShape(t, i + 1, k, term);
    } else {
      SeparatorsShape(t, i, k, term);
      var s := SeparatorRunEnd(t, i);
      SpacingShape(t, s, k, term);
      if !IsSpace(t[i]) {
        SpaceRunEndUnique(t, i, i);
      }
    }
  }

  lemma TailEndMaximal(t: string, c: nat, k: nat, term: Terminator)
    requires c <= k <= |t| && Gap(t, c, k, term)
    ensures TailEnd(t, c, term).Some? && k <= TailEnd(t, c, term).value
  {
    GapShape(t, c, k, term);
  }

  lemma {:induction false} LeadingSpaceShape(t: string, i: nat, k: nat, term: Terminator)
    requires i <= k <= |t| && LeadingSpace(t, i, k, term)
    ensures SpaceRunEnd(t, i) <= k && OpeningQuote(t, SpaceRunEnd(t, i), k, term)
    decreases k - i
  {
    if i < k && IsSpace(t[i]) && LeadingSpace(t, i + 1, k, term) {
      LeadingSpaceShape(t, i + 1, k, term);
    }
  }

  lemma ClosingQuoteShape(t: string, w: nat, k: nat, term: Terminator)
    requires w <= k <= |t| && ClosingQuote(t, w, k, term)
    ensures OptionalQuote(t, w) <= k && Gap(t, OptionalQuote(t, w), k, term)
  {
    if Gap(t, w, k, term) {
      GapShape(t, w, k, term);
    }
  }

  /** Whatever matches, the scanner finds the same boolean and a match at least as long. */
  lemma EchoEndMaximal(t: string, k: nat, term: Terminator)
    requires k <= |t| && Matches(t, k, term)
    ensures EchoEnd(t, term).Some? && k <= EchoEnd(t, term).value
  {
    LeadingSpaceShape(t, 0, k, term);
    var b := OptionalQuote(t, SpaceRunEnd(t, 0));
    assert Word(t, b, k, term);
    var w := WordEnd(t, b).value;
    ClosingQuoteShape(t, w, k, term);
    TailEndMaximal(t, OptionalQuote(t, w), k, term);
  }

  // ---------------------------------------------------------------------
  // The two passes.
  // ---------------------------------------------------------------------

  /** No prefix of `t` matches the pattern. */
  predicate NoMatch(t: string, term: Terminator) {
    forall k :: 0 <= k <= |t| ==> !Matches(t, k, term)
  }

  /** `t[..e]` matches the pattern and no longer prefix does. */
  predicate LongestMatch(t: string, e: nat, term: Terminator)
    requires e <= |t|
  {
    Matches(t, e, term) && forall k :: e < k <= |t| ==> !Matches(t, k, term)
  }

  /** One `re.sub` pass: cuts the prefix the scanner finds, if it finds one. */
  function StripEcho(t: string, term: Terminator): (r: string)
    ensures |r| <= |t| && r == t[|t| - |r|..]
  {
    match EchoEnd(t, term)
    case None => t
    case Some(e) => t[e..]
  }

  /**
   * What one pass does: it returns the text unchanged exactly when no prefix
   * matches the pattern, and otherwise removes the longest prefix that matches.
   */
  lemma StripEchoRemovesLongestMatch(t: string, term: Terminator)
    ensures var r := StripEcho(t, term);
      && (r == t <==> NoMatch(t, term))
      && (r != t ==> LongestMatch(t, |t| - |r|, term))
  {
    if EchoEnd(t, term).Some? {
      EchoEndSound(t, term);
      var e := EchoEnd(t, term).value;
      forall k | e < k <= |t| ensures !Matches(t, k, term) {
        if Matches(t, k, term) {
          EchoEndMaximal(t, k, term);
        }
      }
      assert |t[e..]| < |t|;
    } else {
      forall k | 0 <= k <= |t| ensures !Matches(t, k, term) {
        if Matches(t, k, term) {
          EchoEndMaximal(t, k, term);
        }
      }
    }
  }

  lemma SuffixOfSuffix(t: string, u: string, r: string)
    requires |u| <= |t| && u == t[|t| - |u|..]
    requires |r| <= |u| && r == u[|u| - |r|..]
    ensures r == t[|t| - |r|..]
  {
  }

  /** `sanitize_response`: pass 1, then pass 2 on what pass 1 left. */
  function SanitizeResponse(text: string): (r: string)
    ensures |r| <= |text| && r == text[|text| - |r|..]
  {
    var once := StripEcho(text, LineBreaks);
    var r := StripEcho(once, Blanks);
    SuffixOfSuffix(text, once, r);
    r
  }

  // ---------------------------------------------------------------------
  // What the two passes leave alone, and what they do to sample replies.
  // ---------------------------------------------------------------------

  /** `true` or `false`, in any ASCII letter case, at position `b`. */
  predicate BooleanAt(t: string, b: nat)
    requires b <= |t|
  {
    (b + 4 <= |t| && TrueAt(t, b)) || (b + 5 <= |t| && FalseAt(t, b))
  }

  /** After leading whitespace and at most one quote, the text opens with a boolean. */
  predicate BeginsWithBoolean(t: string) {
    exists a: nat, b: nat :: a <= b <= |t| && AllSpaceIn(t, 0, a) && (b == a || (b == a + 1 && IsQuote(t[a]))) && BooleanAt(t, b)
  }

  /** Every prefix the pattern matches opens with a boolean. */
  lemma MatchBeginsWithBoolean(t: string, k: nat, term: Terminator)
    requires k <= |t| && Matches(t, k, term)
    ensures BeginsWithBoolean(t)
  {
    LeadingSpaceShape(t, 0, k, term);
    var a := SpaceRunEnd(t, 0);
    if a < k && IsQuote(t[a]) && Word(t, a + 1, k, term) {
      assert BooleanAt(t, a + 1);
    } else {
      assert BooleanAt(t, a);
    }
  }

  /** A reply that does not open with a boolean comes back unchanged. */
  lemma UnchangedWithoutBoolean(t: string)
    requires !BeginsWithBoolean(t)
    ensures SanitizeResponse(t) == t
  {
    forall k, term | 0 <= k <= |t| && Matches(t, k, term) ensures false {
      MatchBeginsWithBoolean(t, k, term);
    }
    StripEchoRemovesLongestMatch(t, LineBreaks);
    StripEchoRemovesLongestMatch(t, Blanks);
  }

  lemma StripEchoAt(t: string, term: Terminator, e: nat)
    requires EchoEnd(t, term) == Some(e)
    ensures StripEcho(t, term) == t[e..]
  {
  }

  lemma StripEchoNone(t: string, term: Terminator)
    requires EchoEnd(t, term).None?
    ensures StripEcho(t, term) == t
  {
  }

  /** Sanitising is pass 1 followed by pass 2, each removing the echo the scanner finds. */
  lemma TwoPasses(t: string, e1: nat, e2: nat)
    requires EchoEnd(t, LineBreaks) == Some(e1)
    requires EchoEnd(t[e1..], Blanks) == Some(e2)
    ensures SanitizeResponse(t) == t[e1..][e2..]
  {
    StripEchoAt(t, LineBreaks, e1);
    StripEchoAt(t[e1..], Blanks, e2);
  }

  /** A boolean inside the sentence is not an echo. */
  lemma BooleanInsideSentenceKept()
    ensures SanitizeResponse("It is true that it shipped") == "It is true that it shipped"
  {
    var t := "It is true that it shipped";
    assert SpaceRunEnd(t, 0) == 0 && OptionalQuote(t, 0) == 0;
    assert !TrueAt(t, 0) && !FalseAt(t, 0);
    StripEchoNone(t, LineBreaks);
    StripEchoNone(t, Blanks);
  }

  /** A bare boolean has nothing after it to end the match, and is kept. */
  lemma BareBooleanKept()
    ensures SanitizeResponse("true") == "true"
  {
    assert SpaceRunEnd("true", 4) == 4;
    StripEchoNone("true", LineBreaks);
    StripEchoNone("true", Blanks);
  }

  lemma TrueishHasNoEcho(term: Terminator)
    ensures EchoEnd("trueish", term).None?
  {
    var t := "trueish";
    assert SpaceRunEnd(t, 0) == 0 && OptionalQuote(t, 0) == 0;
    assert TrueAt(t, 0) && WordEnd(t, 0) == Some(4) && OptionalQuote(t, 4) == 4;
    assert SpaceRunEnd(t, 4) == 4 && SeparatorRunEnd(t, 4) == 4;
    assert LastLineFeed(t, 4, 4).None?;
    assert TailEnd(t, 4, term).None?;
  }

  /** A word that only begins with `true` is kept. */
  lemma LongerWordKept()
    ensures SanitizeResponse("trueish") == "trueish"
  {
    TrueishHasNoEcho(LineBreaks);
    TrueishHasNoEcho(Blanks);
    StripEchoNone("trueish", LineBreaks);
    StripEchoNone("trueish", Blanks);
  }

  lemma BooleanLineEcho()
    ensures EchoEnd("true\nfalse rest", LineBreaks) == Some(5)
  {
    var t := "true\nfalse rest";
    assert SpaceRunEnd(t, 0) == 0 && OptionalQuote(t, 0) == 0;
    assert TrueAt(t, 0) && WordEnd(t, 0) == Some(4) && OptionalQuote(t, 4) == 4;
    assert SpaceRunEnd(t, 4) == 5 && SeparatorRunEnd(t, 5) == 5 && SpaceRunEnd(t, 5) == 5;
    assert LastLineFeed(t, 4, 5) == Some(4);
    assert TailEnd(t, 4, LineBreaks) == Some(5);
  }

  lemma FalseWordEcho()
    ensures EchoEnd("false rest", Blanks) == Some(6)
  {
    var u := "false rest";
    assert SpaceRunEnd(u, 0) == 0 && OptionalQuote(u, 0) == 0;
    assert !TrueAt(u, 0) && FalseAt(u, 0) && WordEnd(u, 0) == Some(5) && OptionalQuote(u, 5) == 5;
    assert SpaceRunEnd(u, 5) == 6 && SeparatorRunEnd(u, 6) == 6 && SpaceRunEnd(u, 6) == 6;
    assert TailEnd(u, 5, Blanks) == Some(6);
  }

  /** Pass 1 removes a boolean on its own line; pass 2 then removes the next one. */
  lemma TwoLinesOfBooleans()
    ensures SanitizeResponse("true\nfalse rest") == "rest"
  {
    var t := "true\nfalse rest";
    var u := "false rest";
    assert t[5..] == u;
    assert u[6..] == "rest";
    BooleanLineEcho();
    FalseWordEcho();
    TwoPasses(t, 5, 6);
  }

  /** Quotes, a colon and the spacing after it all go with the boolean. */
  lemma QuotedBooleanWithColon()
    ensures SanitizeResponse("\"True\": yes") == "yes"
  {
    var t := "\"True\": yes";
    assert SpaceRunEnd(t, 0) == 0 && OptionalQuote(t, 0) == 1;
    assert WordEnd(t, 1) == Some(5) && OptionalQuote(t, 5) == 6;
    assert SpaceRunEnd(t, 6) == 6 && SeparatorRunEnd(t, 6) == 7 && SpaceRunEnd(t, 7) == 8;
    assert LastLineFeed(t, 7, 8).None? && LastLineFeed(t, 6, 6).None?;
    StripEchoNone(t, LineBreaks);
    StripEchoAt(t, Blanks, 8);
    assert t[8..] == "yes";
  }

  /** In a line of booleans separated by single spaces, pass 2 removes the first. */
  lemma SpacedBooleanEcho(rest: string)
    requires rest != [] && !IsSpace(rest[0]) && !IsSeparator(rest[0])
    ensures EchoEnd("true " + rest, LineBreaks).None?
    ensures EchoEnd("true " + rest, Blanks) == Some(5)
  {
    var t := "true " + rest;
    assert t[0] == 't' && t[1] == 'r' && t[2] == 'u' && t[3] == 'e' && t[4] == ' ';
    assert SpaceRunEnd(t, 0) == 0 && OptionalQuote(t, 0) == 0;
    assert TrueAt(t, 0) && WordEnd(t, 0) == Some(4) && OptionalQuote(t, 4) == 4;
    assert t[5] == rest[0];
    assert SpaceRunEnd(t, 4) == 5 && SeparatorRunEnd(t, 5) == 5 && SpaceRunEnd(t, 5) == 5;
    assert LastLineFeed(t, 4, 5).None?;
  }

  /** Each pass removes one boolean only, so the second call still changes the text. */
  lemma NotIdempotent()
    ensures SanitizeResponse("true true true x") == "true true x"
    ensures SanitizeResponse("true true x") == "true x"
  {
    var t := "true true true x";
    var u := "true true x";
    assert t == "true " + u;
    assert u == "true " + "true x";
    SpacedBooleanEcho(u);
    StripEchoNone(t, LineBreaks);
    StripEchoAt(t, Blanks, 5);
    assert t[5..] == u;
    SpacedBooleanEcho("true x");
    StripEchoNone(u, LineBreaks);
    StripEchoAt(u, Blanks, 5);
    assert u[5..] == "true x";
  }
}
