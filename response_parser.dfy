/**
 * `parseStickiesFromResponse` (js/services/gptService.js:95-116): the global
 * regular expression
 *
 *     Sticky Note \d+:\s*SOURCE: ([^\n]+)\s*CONTENT: ([^\n]+)\s*INSIGHT: ([^\n]+)
 *
 * applied repeatedly, each search starting where the previous match ended.
 * `MatchAt` gives the match a backtracking matcher finds at one position:
 * `\d+` and the three `\s*` can only take their longest run (the character
 * after them must be `:` or a capital letter), the two first groups try
 * their longest line remainder first and give back one character at a
 * time, and the last group takes the rest of its line.
 */
module ResponseParser {
  import opened Wrappers
  import opened JsText
  import opened Notes

  const NoteLabel: string := "Sticky Note "
  const SourceLabel: string := "SOURCE: "
  const ContentLabel: string := "CONTENT: "
  const InsightLabel: string := "INSIGHT: "

  /** `lit` occurs in `s` at position `p`. */
  predicate HasAt(s: string, p: nat, lit: string)
  {
    p + |lit| <= |s| && forall k {:trigger lit[k]} :: 0 <= k < |lit| ==> s[p + k] == lit[k]
  }

  /** Every character of `s[a..b]` is white space, as `\s` takes it. */
  predicate WhiteBetween(s: string, a: nat, b: nat)
  {
    a <= b <= |s| && forall k :: a <= k < b ==> IsWhiteSpace(s[k])
  }

  /**
   * After a group that ends at `e`, only white space and then `lit`, which
   * ends where the next group starts, at `c`: `\s*CONTENT: ` or
   * `\s*INSIGHT: `.
   */
  predicate LabelledAfter(s: string, e: nat, c: nat, lit: string)
  {
    e + |lit| <= c <= |s| && WhiteBetween(s, e, c - |lit|) && HasAt(s, c - |lit|, lit)
  }

  /**
   * `Sticky Note \d+:\s*SOURCE: ` lies between `p` and `c1`: the label,
   * one or more digits ending at some `d`, a colon, white space, and the
   * `SOURCE: ` label ending at `c1`.
   */
  predicate HeaderBetween(s: string, p: nat, c1: nat)
  {
    && HasAt(s, p, NoteLabel)
    && c1 <= |s| && |SourceLabel| <= c1 && HasAt(s, c1 - |SourceLabel|, SourceLabel)
    && exists d :: p + |NoteLabel| < d < c1 - |SourceLabel| && s[d] == ':'
                && (forall k :: p + |NoteLabel| <= k < d ==> IsDigit(s[k]))
                && WhiteBetween(s, d + 1, c1 - |SourceLabel|)
  }

  /** `s[a..b]` is a non-empty part of one line, as `([^\n]+)` captures it. */
  predicate LineBetween(s: string, a: nat, b: nat)
  {
    a < b <= |s| && forall k :: a <= k < b ==> s[k] != '\n'
  }

  /** A greedy `\s*` from `x` takes only white space. */
  lemma WhiteRun(s: string, x: nat)
    requires x <= |s|
    ensures WhiteBetween(s, x, RunEnd(s, x, IsWhiteSpace))
  {
    RunEndIsLongest(s, x, IsWhiteSpace);
  }

  /** A label right after a greedy `\s*` from `x` is a label after white space. */
  lemma LabelAfterRun(s: string, x: nat, lit: string)
    requires x <= |s| && HasAt(s, RunEnd(s, x, IsWhiteSpace), lit)
    ensures LabelledAfter(s, x, RunEnd(s, x, IsWhiteSpace) + |lit|, lit)
  {
    WhiteRun(s, x);
  }

  /** A greedy `\d+` from `x` takes only digits. */
  lemma DigitRun(s: string, x: nat)
    requires x <= |s|
    ensures forall k :: x <= k < RunEnd(s, x, IsDigit) ==> IsDigit(s[k])
  {
    RunEndIsLongest(s, x, IsDigit);
  }

  /** A prefix of a run of non-newline characters holds no newline. */
  lemma NoNewlineBefore(s: string, a: nat, b: nat)
    requires a <= |s| && a <= b <= RunEnd(s, a, NotNewline)
    ensures '\n' !in s[a..b]
  {
    RunEndIsLongest(s, a, NotNewline);
    forall k | a <= k < b ensures s[k] != '\n' {
      assert NotNewline(s[k]);
    }
  }

  /** The positions `lo..hi` of the response. */
  datatype Span = Span(lo: nat, hi: nat)

  /** One match: its range in the response and where its three groups lie. */
  datatype RegexMatch = RegexMatch(start: nat, end: nat, source: Span, content: Span, insight: Span)

  /**
   * The groups of `m` are non-empty, in order, after its start, and the
   * last one ends the match.
   */
  predicate InOrder(m: RegexMatch)
  {
    && m.start < m.source.lo < m.source.hi <= m.content.lo < m.content.hi
    && m.content.hi <= m.insight.lo < m.insight.hi == m.end
  }

  /** The text a group captured. */
  function Capture(s: string, g: Span): (t: string)
    requires g.lo <= g.hi <= |s|
    ensures |t| == g.hi - g.lo
  {
    s[g.lo..g.hi]
  }

  /** Where the groups of a match lie once the `SOURCE: ` label has matched. */
  datatype Groups = Groups(end1: nat, start2: nat, end2: nat, start3: nat, end3: nat)

  /**
   * `([^\n]+)\s*INSIGHT: ([^\n]+)` with the first group starting at `c2` and
   * ending at `x` or, after backtracking, earlier. Yields the end of that
   * group and the range of the last one.
   */
  function InsightFrom(s: string, c2: nat, x: nat): (r: Option<(nat, nat, nat)>)
    requires c2 < x <= |s|
    ensures r.Some? ==>
      var (x2, c3, e3) := r.value;
      && c2 < x2 <= x
      && x2 + |InsightLabel| <= c3 < e3 <= |s|
      && LabelledAfter(s, x2, c3, InsightLabel)
      && e3 == RunEnd(s, c3, NotNewline)
    decreases x
  {
    var w := RunEnd(s, x, IsWhiteSpace);
    var c3 := w + |InsightLabel|;
    WhiteRun(s, x);
    if HasAt(s, w, InsightLabel) && c3 < RunEnd(s, c3, NotNewline) then
      Some((x, c3, RunEnd(s, c3, NotNewline)))
    else if x == c2 + 1 then None
    else InsightFrom(s, c2, x - 1)
  }

  /**
   * `\s*CONTENT: ([^\n]+)\s*INSIGHT: ([^\n]+)` after a first group that
   * ends at `x`: where the remaining groups lie, if the rest matches.
   */
  function ContentAfter(s: string, x: nat): (r: Option<Groups>)
    requires x <= |s|
    ensures r.Some? ==>
      && r.value.end1 == x
      && x + |ContentLabel| <= r.value.start2 < r.value.end2
      && r.value.end2 + |InsightLabel| <= r.value.start3 < r.value.end3 <= |s|
      && r.value.end2 <= RunEnd(s, r.value.start2, NotNewline)
      && r.value.end3 == RunEnd(s, r.value.start3, NotNewline)
      && LabelledAfter(s, x, r.value.start2, ContentLabel)
      && LabelledAfter(s, r.value.end2, r.value.start3, InsightLabel)
  {
    var w := RunEnd(s, x, IsWhiteSpace);
    var c2 := w + |ContentLabel|;
    if HasAt(s, w, ContentLabel) && c2 < RunEnd(s, c2, NotNewline) then
      LabelAfterRun(s, x, ContentLabel);
      var found := InsightFrom(s, c2, RunEnd(s, c2, NotNewline));
      if found.Some? then Some(Groups(x, c2, found.value.0, found.value.1, found.value.2)) else None
    else None
  }

  /**
   * `([^\n]+)\s*CONTENT: ([^\n]+)\s*INSIGHT: ([^\n]+)` with the first group
   * starting at `c1` and ending at `x` or, after backtracking, earlier.
   */
  function ContentFrom(s: string, c1: nat, x: nat): (r: Option<Groups>)
    requires c1 < x <= |s|
    ensures r.Some? ==>
      && c1 < r.value.end1 <= x
      && r.value.end1 + |ContentLabel| <= r.value.start2 < r.value.end2
      && r.value.end2 + |InsightLabel| <= r.value.start3 < r.value.end3 <= |s|
      && r.value.end2 <= RunEnd(s, r.value.start2, NotNewline)
      && r.value.end3 == RunEnd(s, r.value.start3, NotNewline)
      && ContentAfter(s, r.value.end1) == r
    decreases x
  {
    var g := ContentAfter(s, x);
    if g.Some? then g
    else if x == c1 + 1 then None
    else ContentFrom(s, c1, x - 1)
  }

  /**
   * `Sticky Note \d+:\s*SOURCE: ` anchored at `p`: the position where the
   * first group starts, if this prefix matches.
   */
  function HeaderEnd(s: string, p: nat): (c1: Option<nat>)
    ensures c1.Some? ==> p + |NoteLabel| < c1.value && HeaderBetween(s, p, c1.value)
  {
    if !HasAt(s, p, NoteLabel) then None
    else
      var d := RunEnd(s, p + |NoteLabel|, IsDigit);
      if d == p + |NoteLabel| || !HasAt(s, d, ":") then None
      else
        var a := RunEnd(s, d + 1, IsWhiteSpace);
        if HasAt(s, a, SourceLabel) then
          DigitRun(s, p + |NoteLabel|);
          WhiteRun(s, d + 1);
          assert s[d] == ':' by { assert ":"[0] == ':'; }
          Some(a + |SourceLabel|)
        else None
  }

  /**
   * The match the regular expression finds when anchored at `p`, if any
   * (`MatchAtCaptures`).
   */
  function MatchAt(s: string, p: nat): (r: Option<RegexMatch>)
    ensures r.Some? ==> r.value.start == p && InOrder(r.value) && r.value.end <= |s| && HasAt(s, p, NoteLabel)
  {
    match HeaderEnd(s, p)
    case None => None
    case Some(c1) =>
      var l1 := RunEnd(s, c1, NotNewline);
      if l1 == c1 then None
      else
        match ContentFrom(s, c1, l1)
        case None => None
        case Some(g) => Some(RegexMatch(p, g.end3, Span(c1, g.end1), Span(g.start2, g.end2), Span(g.start3, g.end3)))
  }

  /** The three captured groups of a match are non-empty and hold no line break. */
  lemma MatchAtCaptures(s: string, p: nat)
    ensures var r := MatchAt(s, p);
      r.Some? ==>
        && Capture(s, r.value.source) != [] && '\n' !in Capture(s, r.value.source)
        && Capture(s, r.value.content) != [] && '\n' !in Capture(s, r.value.content)
        && Capture(s, r.value.insight) != [] && '\n' !in Capture(s, r.value.insight)
  {
    if HeaderEnd(s, p).Some? {
      var c1 := HeaderEnd(s, p).value;
      var l1 := RunEnd(s, c1, NotNewline);
      if l1 != c1 && ContentFrom(s, c1, l1).Some? {
        var g := ContentFrom(s, c1, l1).value;
        NoNewlineBefore(s, c1, g.end1);
        NoNewlineBefore(s, g.start2, g.end2);
        NoNewlineBefore(s, g.start3, g.end3);
      }
    }
  }

  /**
   * `m` is a block of the expression's grammar: `Sticky Note `, digits, a
   * colon, white space and `SOURCE: ` up to the first group; each group a
   * non-empty part of one line; only white space and the next label between
   * groups; and the last group running to the end of its line.
   */
  predicate IsBlock(s: string, m: RegexMatch)
  {
    && InOrder(m) && m.end <= |s|
    && HeaderBetween(s, m.start, m.source.lo)
    && LineBetween(s, m.source.lo, m.source.hi)
    && LabelledAfter(s, m.source.hi, m.content.lo, ContentLabel)
    && LineBetween(s, m.content.lo, m.content.hi)
    && LabelledAfter(s, m.content.hi, m.insight.lo, InsightLabel)
    && LineBetween(s, m.insight.lo, m.insight.hi)
    && (m.end == |s| || s[m.end] == '\n')
  }

  /** A non-empty greedy `[^\n]+` from `a` takes part of one line, up to its end. */
  lemma LineRun(s: string, a: nat, b: nat)
    requires a <= |s| && a < b <= RunEnd(s, a, NotNewline)
    ensures LineBetween(s, a, b)
    ensures b == RunEnd(s, a, NotNewline) ==> b == |s| || s[b] == '\n'
  {
    RunEndIsLongest(s, a, NotNewline);
  }

  /** Every match the expression finds is a block of its grammar. */
  lemma MatchAtShape(s: string, p: nat)
    ensures MatchAt(s, p).Some? ==> MatchAt(s, p).value.start == p && IsBlock(s, MatchAt(s, p).value)
  {
    if HeaderEnd(s, p).Some? {
      var c1 := HeaderEnd(s, p).value;
      var l1 := RunEnd(s, c1, NotNewline);
      if l1 != c1 && ContentFrom(s, c1, l1).Some? {
        var g := ContentFrom(s, c1, l1).value;
        LineRun(s, c1, g.end1);
        LineRun(s, g.start2, g.end2);
        LineRun(s, g.start3, g.end3);
      }
    }
  }

  /** The white space before a label is exactly what a greedy `\s*` takes. */
  lemma WhiteThenLabel(s: string, e: nat, c: nat, lit: string)
    requires LabelledAfter(s, e, c, lit) && lit != [] && !IsWhiteSpace(lit[0])
    ensures RunEnd(s, e, IsWhiteSpace) == c - |lit|
  {
    assert s[c - |lit|] == lit[0];
    RunEndIs(s, e, c - |lit|, IsWhiteSpace);
  }

  /** Group 2 ending at `e2`, followed by the insight part of a block, matches. */
  lemma InsightFoundAt(s: string, c2: nat, e2: nat, c3: nat, e3: nat)
    requires c2 < e2 && LabelledAfter(s, e2, c3, InsightLabel) && LineBetween(s, c3, e3)
    ensures InsightFrom(s, c2, e2).Some?
  {
    WhiteThenLabel(s, e2, c3, InsightLabel);
    RunEndIsLongest(s, c3, NotNewline);
  }

  /** A property that carries over from each `y - 1` to `y` holds from `e` up to `x`. */
  lemma {:induction false} CarriesUp(f: nat -> bool, e: nat, x: nat)
    requires e <= x && f(e)
    requires forall y :: e < y <= x && f(y - 1) ==> f(y)
    ensures f(x)
    decreases x
  {
    if x > e {
      CarriesUp(f, e, x - 1);
    }
  }

  /** Backtracking group 2 from `x` succeeds when it does from `x - 1`. */
  lemma InsightFromStep(s: string, c2: nat, x: nat)
    requires c2 + 1 < x <= |s|
    ensures InsightFrom(s, c2, x - 1).Some? ==> InsightFrom(s, c2, x).Some?
  {
  }

  /**
   * Backtracking group 2 from `x` down to `e` finds a match when one ending
   * group 2 at `e` exists.
   */
  lemma InsightFromReaches(s: string, c2: nat, e: nat, x: nat)
    requires c2 < e <= x <= |s| && InsightFrom(s, c2, e).Some?
    ensures InsightFrom(s, c2, x).Some?
  {
    var found := (y: nat) => c2 < y <= |s| && InsightFrom(s, c2, y).Some?;
    forall y | e < y <= x && found(y - 1)
      ensures found(y)
    {
      InsightFromStep(s, c2, y);
    }
    CarriesUp(found, e, x);
  }

  /** Group 1 ending at `e1`, followed by a content label whose rest matches, matches. */
  lemma ContentFoundAt(s: string, c1: nat, e1: nat, c2: nat)
    requires c1 < e1 && LabelledAfter(s, e1, c2, ContentLabel)
    requires c2 < RunEnd(s, c2, NotNewline) && InsightFrom(s, c2, RunEnd(s, c2, NotNewline)).Some?
    ensures ContentFrom(s, c1, e1).Some?
  {
    WhiteThenLabel(s, e1, c2, ContentLabel);
    assert ContentAfter(s, e1).Some?;
  }

  /** Backtracking group 1 from `x` succeeds when it does from `x - 1`. */
  lemma ContentFromStep(s: string, c1: nat, x: nat)
    requires c1 + 1 < x <= |s|
    ensures ContentFrom(s, c1, x - 1).Some? ==> ContentFrom(s, c1, x).Some?
  {
  }

  /**
   * Backtracking group 1 from `x` down to `e` finds a match when one ending
   * group 1 at `e` exists.
   */
  lemma ContentFromReaches(s: string, c1: nat, e: nat, x: nat)
    requires c1 < e <= x <= |s| && ContentFrom(s, c1, e).Some?
    ensures ContentFrom(s, c1, x).Some?
  {
    var found := (y: nat) => c1 < y <= |s| && ContentFrom(s, c1, y).Some?;
    forall y | e < y <= x && found(y - 1)
      ensures found(y)
    {
      ContentFromStep(s, c1, y);
    }
    CarriesUp(found, e, x);
  }

  /** The backtracking of group 1 finds the rest of a block after its first line. */
  lemma RestOfBlock(s: string, m: RegexMatch)
    requires IsBlock(s, m)
    ensures m.source.lo < RunEnd(s, m.source.lo, NotNewline)
    ensures ContentFrom(s, m.source.lo, RunEnd(s, m.source.lo, NotNewline)).Some?
  {
    var c2 := m.content.lo;
    InsightFoundAt(s, c2, m.content.hi, m.insight.lo, m.insight.hi);
    RunEndIsLongest(s, c2, NotNewline);
    InsightFromReaches(s, c2, m.content.hi, RunEnd(s, c2, NotNewline));
    ContentFoundAt(s, m.source.lo, m.source.hi, c2);
    RunEndIsLongest(s, m.source.lo, NotNewline);
    ContentFromReaches(s, m.source.lo, m.source.hi, RunEnd(s, m.source.lo, NotNewline));
  }

  /** The colon that ends the digits of a block's header. */
  lemma HeaderColon(s: string, p: nat, c1: nat) returns (d: nat)
    requires HeaderBetween(s, p, c1)
    ensures p + |NoteLabel| < d < c1 - |SourceLabel| && s[d] == ':'
    ensures forall k :: p + |NoteLabel| <= k < d ==> IsDigit(s[k])
    ensures WhiteBetween(s, d + 1, c1 - |SourceLabel|)
  {
    d :| p + |NoteLabel| < d < c1 - |SourceLabel| && s[d] == ':'
         && (forall k :: p + |NoteLabel| <= k < d ==> IsDigit(s[k]))
         && WhiteBetween(s, d + 1, c1 - |SourceLabel|);
  }

  /** Where the greedy runs of the header stop within a block's header. */
  lemma HeaderRuns(s: string, p: nat, c1: nat) returns (d: nat)
    requires HeaderBetween(s, p, c1)
    ensures p + |NoteLabel| < d && RunEnd(s, p + |NoteLabel|, IsDigit) == d && HasAt(s, d, ":")
    ensures RunEnd(s, d + 1, IsWhiteSpace) == c1 - |SourceLabel|
  {
    d := HeaderColon(s, p, c1);
    var a := c1 - |SourceLabel|;
    RunEndIs(s, p + |NoteLabel|, d, IsDigit);
    assert HasAt(s, d, ":");
    assert s[a] == SourceLabel[0];
    RunEndIs(s, d + 1, a, IsWhiteSpace);
  }

  /** The header of a block is what `Sticky Note \d+:\s*SOURCE: ` matches. */
  lemma HeaderOfBlockShape(s: string, p: nat, c1: nat)
    requires HeaderBetween(s, p, c1)
    ensures HeaderEnd(s, p) == Some(c1)
  {
    var d := HeaderRuns(s, p, c1);
  }

  /** Every block of the grammar is matched at its start. */
  lemma BlockHasMatch(s: string, m: RegexMatch)
    requires IsBlock(s, m)
    ensures MatchAt(s, m.start).Some?
  {
    HeaderOfBlockShape(s, m.start, m.source.lo);
    RestOfBlock(s, m);
  }

  /** The expression matches at `p` exactly when a block of its grammar starts there. */
  lemma MatchAtIffBlock(s: string, p: nat)
    ensures MatchAt(s, p).Some? <==> exists m: RegexMatch :: m.start == p && IsBlock(s, m)
  {
    MatchAtShape(s, p);
    if m: RegexMatch :| m.start == p && IsBlock(s, m) {
      BlockHasMatch(s, m);
    }
  }

  /**
   * Every attempt `a[p]` that succeeds is a match that starts at `p` and
   * ends after it, within the input (whose length is `|a| - 1`).
   */
  predicate Anchored(a: seq<Option<RegexMatch>>)
  {
    forall p :: 0 <= p < |a| && a[p].Some? ==> a[p].value.start == p && InOrder(a[p].value) && a[p].value.end < |a|
  }

  /** `f(0), f(1), ..., f(n - 1)`. */
  function Tabulate(f: nat -> Option<RegexMatch>, n: nat): (a: seq<Option<RegexMatch>>)
    ensures |a| == n
  {
    if n == 0 then [] else Tabulate(f, n - 1) + [f(n - 1)]
  }

  /** The `k`-th element of `Tabulate(f, n)` is `f(k)`. */
  lemma {:induction false} TabulateAt(f: nat -> Option<RegexMatch>, n: nat, k: nat)
    requires k < n
    ensures Tabulate(f, n)[k] == f(k)
  {
    if k < n - 1 {
      TabulateAt(f, n - 1, k);
    }
  }

  /** The attempt of the expression anchored at each position of `s`. */
  function AttemptAt(s: string): nat -> Option<RegexMatch>
  {
    (q: nat) => MatchAt(s, q)
  }

  /**
   * The anchored attempt at every position `0..|s|` of `s`, in order: what
   * the search loop of `RegExpBuiltinExec` (ECMA-262, section 22.2.7.2)
   * tries, one position after another (`AttemptIsMatchAt`).
   */
  function Attempts(s: string): (a: seq<Option<RegexMatch>>)
    ensures |a| == |s| + 1 && Anchored(a)
  {
    AttemptIsMatchAt(s);
    Tabulate(AttemptAt(s), |s| + 1)
  }

  /** The attempt at position `p` of `s` is the match of the expression anchored at `p`. */
  lemma AttemptIsMatchAt(s: string)
    ensures var a := Tabulate(AttemptAt(s), |s| + 1);
      forall p :: 0 <= p <= |s| ==> a[p] == MatchAt(s, p)
  {
    forall p | 0 <= p <= |s|
      ensures Tabulate(AttemptAt(s), |s| + 1)[p] == MatchAt(s, p)
    {
      TabulateAt(AttemptAt(s), |s| + 1, p);
    }
  }

  /** The search loop from `from`: the first attempt at or after `from` that succeeds. */
  function Search(a: seq<Option<RegexMatch>>, from: nat): (r: Option<RegexMatch>)
    requires Anchored(a) && from < |a|
    ensures r.Some? ==> from <= r.value.start && InOrder(r.value) && r.value.end < |a|
    decreases |a| - from
  {
    if a[from].Some? then a[from]
    else if from == |a| - 1 then None
    else Search(a, from + 1)
  }

  /** A match `Search` finds is the attempt at its start. */
  lemma {:induction false} SearchFindsAttempt(a: seq<Option<RegexMatch>>, from: nat)
    requires Anchored(a) && from < |a|
    ensures var r := Search(a, from); r.Some? ==> a[r.value.start] == r
    decreases |a| - from
  {
    if a[from].None? && from < |a| - 1 {
      SearchFindsAttempt(a, from + 1);
    }
  }

  /** No attempt between `from` and the match `Search` finds succeeds. */
  lemma {:induction false} SearchIsLeftmost(a: seq<Option<RegexMatch>>, from: nat)
    requires Anchored(a) && from < |a|
    ensures var r := Search(a, from);
      r.Some? ==> forall p :: from <= p < r.value.start ==> a[p].None?
    decreases |a| - from
  {
    if a[from].None? && from < |a| - 1 {
      SearchIsLeftmost(a, from + 1);
    }
  }

  /** `Search` finds nothing exactly when no attempt from `from` on succeeds. */
  lemma {:induction false} SearchNoneIffNoMatch(a: seq<Option<RegexMatch>>, from: nat)
    requires Anchored(a) && from < |a|
    ensures Search(a, from).None? <==> forall p :: from <= p < |a| ==> a[p].None?
    decreases |a| - from
  {
    if a[from].None? && from < |a| - 1 {
      SearchNoneIffNoMatch(a, from + 1);
    }
  }

  /**
   * One call of `exec` with `lastIndex == from`: the leftmost position at or
   * after `from` where the expression matches, and that match
   * (`ExecIsLeftmost`, `ExecNoneIffNoMatch`).
   */
  function Exec(s: string, from: nat): (r: Option<RegexMatch>)
    requires from <= |s|
    ensures r.Some? ==> from <= r.value.start && InOrder(r.value) && r.value.end <= |s|
  {
    Search(Attempts(s), from)
  }

  /**
   * When `exec` finds a match, it is the match of the expression at its
   * start, and no position between `from` and that start has one.
   */
  lemma ExecIsLeftmost(s: string, from: nat)
    requires from <= |s|
    ensures var r := Exec(s, from);
      r.Some? ==>
        && MatchAt(s, r.value.start) == r
        && forall p :: from <= p < r.value.start ==> MatchAt(s, p).None?
  {
    var a := Attempts(s);
    SearchFindsAttempt(a, from);
    SearchIsLeftmost(a, from);
    AttemptIsMatchAt(s);
  }

  /** `exec` finds nothing exactly when no position from `from` on starts a match. */
  lemma ExecNoneIffNoMatch(s: string, from: nat)
    requires from <= |s|
    ensures Exec(s, from).None? <==> forall p :: from <= p <= |s| ==> MatchAt(s, p).None?
  {
    var a := Attempts(s);
    SearchNoneIffNoMatch(a, from);
    AttemptIsMatchAt(s);
  }

  /**
   * Every match the global search yields from `from` on, over the attempts
   * `a`: each search resumes where the previous match ended
   * (`MatchesInOrder`).
   */
  function Matches(a: seq<Option<RegexMatch>>, from: nat): (ms: seq<RegexMatch>)
    requires Anchored(a) && from < |a|
    ensures forall k :: 0 <= k < |ms| ==> from <= ms[k].start && InOrder(ms[k]) && ms[k].end < |a|
    decreases |a| - from
  {
    match Search(a, from)
    case None => []
    case Some(m) =>
      var rest := Matches(a, m.end);
      var ms := [m] + rest;
      assert forall k :: 1 <= k < |ms| ==> ms[k] == rest[k - 1];
      ms
  }

  /** The `k`-th match is the attempt at its start. */
  lemma {:induction false} MatchesAreAttempts(a: seq<Option<RegexMatch>>, from: nat, k: nat)
    requires Anchored(a) && from < |a| && k < |Matches(a, from)|
    ensures var m := Matches(a, from)[k]; a[m.start] == Some(m)
    decreases k
  {
    var ms := Matches(a, from);
    var rest := Matches(a, ms[0].end);
    assert ms == [ms[0]] + rest;
    if k == 0 {
      SearchFindsAttempt(a, from);
    } else {
      MatchesAreAttempts(a, ms[0].end, k - 1);
      assert ms[k] == rest[k - 1];
    }
  }

  /** Each match of `ms` ends at or before the start of the next one. */
  predicate Ordered(ms: seq<RegexMatch>)
    decreases |ms|
  {
    |ms| <= 1 || (ms[0].end <= ms[1].start && Ordered(ms[1..]))
  }

  /** The matches come left to right and never overlap. */
  lemma {:induction false} MatchesInOrder(a: seq<Option<RegexMatch>>, from: nat)
    requires Anchored(a) && from < |a|
    ensures Ordered(Matches(a, from))
    decreases |a| - from
  {
    var ms := Matches(a, from);
    if ms != [] {
      var rest := Matches(a, ms[0].end);
      assert ms == [ms[0]] + rest;
      assert ms[1..] == rest;
      MatchesInOrder(a, ms[0].end);
    }
  }

  /**
   * Over the attempts `a`: no attempt before the first match, between two
   * consecutive matches, or after the last one succeeds; with no match at
   * all, none from `from` on does.
   */
  lemma {:induction false} MatchesSkipNothing(a: seq<Option<RegexMatch>>, from: nat)
    requires Anchored(a) && from < |a|
    ensures var ms := Matches(a, from);
      && (ms != [] ==> forall p :: from <= p < ms[0].start ==> a[p].None?)
      && (forall i, j {:trigger ms[i], ms[j]} :: 0 <= i && j == i + 1 < |ms| ==>
            forall p :: ms[i].end <= p < ms[j].start ==> a[p].None?)
      && (ms != [] ==> forall p :: ms[|ms| - 1].end <= p < |a| ==> a[p].None?)
      && (ms == [] ==> forall p :: from <= p < |a| ==> a[p].None?)
    decreases |a| - from
  {
    var ms := Matches(a, from);
    if ms == [] {
      SearchNoneIffNoMatch(a, from);
    } else {
      SearchIsLeftmost(a, from);
      var m := ms[0];
      var rest := Matches(a, m.end);
      assert ms == [m] + rest;
      MatchesSkipNothing(a, m.end);
      forall i, j | 0 <= i && j == i + 1 < |ms|
        ensures forall p :: ms[i].end <= p < ms[j].start ==> a[p].None?
      {
        assert ms[j] == rest[j - 1];
        if i > 0 { assert ms[i] == rest[i - 1]; }
      }
      if rest != [] { assert ms[|ms| - 1] == rest[|rest| - 1]; }
    }
  }

  /** The `k`-th match of the global expression is the expression's match at its start. */
  lemma AllMatchesAreMatches(s: string, from: nat, k: nat)
    requires from <= |s| && k < |Matches(Attempts(s), from)|
    ensures var m := Matches(Attempts(s), from)[k]; MatchAt(s, m.start) == Some(m)
  {
    var a := Attempts(s);
    var ms := Matches(a, from);
    MatchesAreAttempts(a, from, k);
    AttemptIsMatchAt(s);
  }

  /** The matches of the global expression come left to right without overlap. */
  lemma AllMatchesInOrder(s: string, from: nat)
    requires from <= |s|
    ensures Ordered(Matches(Attempts(s), from))
  {
    MatchesInOrder(Attempts(s), from);
  }

  /**
   * No position the global expression steps over starts a match: none
   * before the first match, between two consecutive ones or after the last
   * one, and none at all from `from` on when there is no match.
   */
  lemma AllMatchesSkipNothing(s: string, from: nat)
    requires from <= |s|
    ensures var ms := Matches(Attempts(s), from);
      && (ms != [] ==> forall p :: from <= p < ms[0].start ==> MatchAt(s, p).None?)
      && (forall i, j {:trigger ms[i], ms[j]} :: 0 <= i && j == i + 1 < |ms| ==>
            forall p :: ms[i].end <= p < ms[j].start ==> MatchAt(s, p).None?)
      && (ms != [] ==> forall p :: ms[|ms| - 1].end <= p <= |s| ==> MatchAt(s, p).None?)
      && (ms == [] ==> forall p :: from <= p <= |s| ==> MatchAt(s, p).None?)
  {
    MatchesSkipNothing(Attempts(s), from);
    AttemptIsMatchAt(s);
  }

  /** `m` is a match within `s`. */
  predicate Fits(s: string, m: RegexMatch)
  {
    InOrder(m) && m.end <= |s|
  }

  /** The note built from one match: trimmed groups, the document name, no document id yet. */
  function NoteOf(s: string, m: RegexMatch, documentName: string, stamp: Stamp): (note: NoteRecord)
    requires Fits(s, m)
    ensures Trimmed(note.source) && Trimmed(note.content) && Trimmed(note.insight)
    ensures note.documentName == documentName && note.documentId == None
    ensures note.id == stamp.id && note.timestamp == stamp.timestamp
  {
    NoteRecord(stamp.id, Trim(Capture(s, m.source)), Trim(Capture(s, m.content)), Trim(Capture(s, m.insight)),
      documentName, stamp.timestamp, None)
  }

  /**
   * The notes built from the matches `ms` within `s`, in order, the `k`-th
   * taking the `k`-th identifier and timestamp.
   */
  function NotesOf(s: string, ms: seq<RegexMatch>, documentName: string, stamps: nat -> Stamp): (notes: seq<NoteRecord>)
    requires forall k :: 0 <= k < |ms| ==> Fits(s, ms[k])
    ensures |notes| == |ms|
    decreases |ms|
  {
    if ms == [] then []
    else NotesOf(s, ms[..|ms| - 1], documentName, stamps) + [NoteOf(s, ms[|ms| - 1], documentName, stamps(|ms| - 1))]
  }

  /** The `k`-th note is built from the `k`-th match with the `k`-th stamp. */
  lemma {:induction false} NotesOfAt(s: string, ms: seq<RegexMatch>, documentName: string, stamps: nat -> Stamp, k: nat)
    requires forall k :: 0 <= k < |ms| ==> Fits(s, ms[k])
    requires k < |ms|
    ensures NotesOf(s, ms, documentName, stamps)[k] == NoteOf(s, ms[k], documentName, stamps(k))
    decreases |ms|
  {
    if k < |ms| - 1 {
      NotesOfAt(s, ms[..|ms| - 1], documentName, stamps, k);
      assert ms[..|ms| - 1][k] == ms[k];
    }
  }

  /**
   * What `parseStickiesFromResponse(response, documentName)` returns: one
   * note per match, in match order (`ParsedNotesFields`).
   */
  function ParsedNotes(response: string, documentName: string, stamps: nat -> Stamp): (notes: seq<NoteRecord>)
    ensures |notes| == |Matches(Attempts(response), 0)|
  {
    NotesOf(response, Matches(Attempts(response), 0), documentName, stamps)
  }

  /**
   * The `k`-th note holds the trimmed groups of the `k`-th match, the given
   * document name, no document id, and the `k`-th identifier and timestamp.
   */
  lemma ParsedNotesFields(response: string, documentName: string, stamps: nat -> Stamp, k: nat)
    requires k < |Matches(Attempts(response), 0)|
    ensures var m := Matches(Attempts(response), 0)[k];
      var note := ParsedNotes(response, documentName, stamps)[k];
      && note.source == Trim(Capture(response, m.source))
      && note.content == Trim(Capture(response, m.content))
      && note.insight == Trim(Capture(response, m.insight))
      && Trimmed(note.source) && Trimmed(note.content) && Trimmed(note.insight)
      && note.documentName == documentName && note.documentId == None
      && note.id == stamps(k).id && note.timestamp == stamps(k).timestamp
  {
    NotesOfAt(response, Matches(Attempts(response), 0), documentName, stamps, k);
  }

  /** Building the notes of one more match appends its note. */
  lemma NotesOfSnoc(s: string, ms: seq<RegexMatch>, m: RegexMatch, documentName: string, stamps: nat -> Stamp)
    requires forall k :: 0 <= k < |ms| ==> Fits(s, ms[k])
    requires Fits(s, m)
    ensures NotesOf(s, ms + [m], documentName, stamps)
         == NotesOf(s, ms, documentName, stamps) + [NoteOf(s, m, documentName, stamps(|ms|))]
  {
    assert (ms + [m])[..|ms|] == ms;
  }

  /**
   * A search that finds `m` from `from` moves `m` from the matches still to
   * come to the matches found.
   */
  lemma MatchesStep(a: seq<Option<RegexMatch>>, from: nat, done: seq<RegexMatch>)
    requires Anchored(a) && from < |a| && Search(a, from).Some?
    ensures var m := Search(a, from).value;
      done + Matches(a, from) == (done + [m]) + Matches(a, m.end)
  {
    var m := Search(a, from).value;
    assert Matches(a, from) == [m] + Matches(a, m.end);
  }

  /**
   * `parseStickiesFromResponse(response, documentName)`; its `exec` calls
   * search the attempts of the expression at each position of the response.
   */
  method ParseStickiesFromResponse(response: string, documentName: string, stamps: nat -> Stamp)
    returns (stickyNotes: seq<NoteRecord>)
    ensures stickyNotes == ParsedNotes(response, documentName, stamps)
  {
    stickyNotes := CollectNotes(response, Attempts(response), documentName, stamps);
  }

  /**
   * The loop of `parseStickiesFromResponse` over the attempts `a` at the
   * positions of `response`: search from `lastIndex`, push a note, resume at
   * the end of the match, until the search finds nothing. No match gives an
   * empty list (the source only logs a warning then).
   */
  method CollectNotes(response: string, a: seq<Option<RegexMatch>>, documentName: string, stamps: nat -> Stamp)
    returns (stickyNotes: seq<NoteRecord>)
    requires Anchored(a) && |a| == |response| + 1
    ensures stickyNotes == NotesOf(response, Matches(a, 0), documentName, stamps)
  {
    stickyNotes := [];
    var lastIndex := 0;
    ghost var done: seq<RegexMatch> := [];
    while true
      invariant lastIndex < |a|
      invariant Matches(a, 0) == done + Matches(a, lastIndex)
      invariant forall k :: 0 <= k < |done| ==> Fits(response, done[k])
      invariant stickyNotes == NotesOf(response, done, documentName, stamps)
      decreases |a| - lastIndex
    {
      var found := Search(a, lastIndex);
      if found.None? {
        assert done + [] == done;
        break;
      }
      var m := found.value;
      MatchesStep(a, lastIndex, done);
      NotesOfSnoc(response, done, m, documentName, stamps);
      stickyNotes := stickyNotes + [NoteOf(response, m, documentName, stamps(|stickyNotes|))];
      done := done + [m];
      lastIndex := m.end;
    }
  }

  /** An empty response yields no notes. */
  lemma EmptyResponseNoNotes(documentName: string, stamps: nat -> Stamp)
    ensures ParsedNotes("", documentName, stamps) == []
  {
  }

  /** A response in which the text "Sticky Note " never occurs yields no notes. */
  lemma NoLabelNoNotes(response: string, documentName: string, stamps: nat -> Stamp)
    requires forall p :: !HasAt(response, p, NoteLabel)
    ensures ParsedNotes(response, documentName, stamps) == []
  {
    var ms := Matches(Attempts(response), 0);
    if ms != [] {
      AllMatchesAreMatches(response, 0, 0);
    }
  }
}
