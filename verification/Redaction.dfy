/** The secret redactor, which splices matches right to left, and the integrity check that must accept its output. */
module Redaction {
  import opened Common
  import opened TextOps

  datatype Mode = Redact | Hash | Skip

  datatype Span = Span(start: nat, end: nat)

  /** A compiled pattern: its name and what `finditer` returns on a text. */
  datatype Pattern = Pattern(name: string, find: string -> seq<Span>)

  const PLACEHOLDER_REDACT := "[REDACTED_SECRET]"
  const PLACEHOLDER_PII := "[REDACTED_PII]"

  /** Everything a redaction depends on; `digest` is the shortened SHA-256 of a match. */
  datatype Config = Config(mode: Mode, patterns: seq<Pattern>, digest: string -> string)

  /** Matches are in bounds, in order and disjoint, starting no earlier than `from`. */
  ghost predicate Ordered(spans: seq<Span>, from: nat, size: nat) {
    && (forall i | 0 <= i < |spans| :: from <= spans[i].start <= spans[i].end <= size)
    && (forall i, j | 0 <= i < j < |spans| :: spans[i].end <= spans[j].start)
  }

  ghost predicate ValidPatterns(patterns: seq<Pattern>) {
    forall p, text | p in patterns :: Ordered(p.find(text), 0, |text|)
  }

  function Placeholder(name: string): string {
    if name == "email" || name == "phone" || name == "ssn" then PLACEHOLDER_PII else PLACEHOLDER_REDACT
  }

  function Replacement(c: Config, name: string, matched: string): string {
    if c.mode.Hash? then c.digest(matched) else Placeholder(name)
  }

  /** Left-to-right substitution of the spans in text[from..]. */
  function Substitute(c: Config, name: string, text: string, spans: seq<Span>, from: nat): string
    requires from <= |text| && Ordered(spans, from, |text|)
  {
    if spans == [] then text[from..]
    else
      var s := spans[0];
      text[from..s.start] + Replacement(c, name, text[s.start..s.end])
      + Substitute(c, name, text, spans[1..], s.end)
  }

  lemma ExtendSlice<T>(s: seq<T>, from: nat, mid: nat, to: nat)
    requires from <= mid <= to <= |s|
    ensures s[from..to] == s[from..mid] + s[mid..to]
  {
  }

  lemma SubstituteFrom(c: Config, name: string, text: string, spans: seq<Span>, from: nat, to: nat)
    requires from <= to <= |text| && Ordered(spans, from, |text|) && Ordered(spans, to, |text|)
    ensures Substitute(c, name, text, spans, from) == text[from..to] + Substitute(c, name, text, spans, to)
  {
    if spans == [] {
      ExtendSlice(text, from, to, |text|);
      assert text[from..] == text[from..|text|] && text[to..] == text[to..|text|];
    } else {
      var s := spans[0];
      var new_, rest := Replacement(c, name, text[s.start..s.end]), Substitute(c, name, text, spans[1..], s.end);
      ExtendSlice(text, from, to, s.start);
      Regroup(text[from..to], text[to..s.start], new_);
      Regroup(text[from..to], text[to..s.start] + new_, rest);
    }
  }

  /** Splicing the first span into a text whose later spans are substituted substitutes all of them. */
  lemma SpliceFirst(c: Config, name: string, text: string, spans: seq<Span>)
    requires spans != [] && Ordered(spans, 0, |text|)
    ensures Ordered(spans[1..], 0, |text|)
    ensures var s, done := spans[0], Substitute(c, name, text, spans[1..], 0);
            && s.start <= s.end <= |done|
            && done[..s.start] + Replacement(c, name, text[s.start..s.end]) + done[s.end..]
               == Substitute(c, name, text, spans, 0)
  {
    var s := spans[0];
    var rest := Substitute(c, name, text, spans[1..], s.end);
    SubstituteFrom(c, name, text, spans[1..], 0, s.end);
    var done := text[0..s.end] + rest;
    assert done[..s.start] == text[0..s.start];
    assert done[s.end..] == rest;
  }

  lemma SuffixHead<T>(s: seq<T>, i: nat)
    requires i < |s|
    ensures s[i..][1..] == s[i + 1..] && s[i..][0] == s[i]
  {
  }

  // -------------------------------------------------- what substitution does, by gaps and marks

  /** Gaps and marks in turn, beginning and ending with a gap. */
  ghost function Woven(gaps: seq<string>, marks: seq<string>): string
    requires |gaps| == |marks| + 1
  {
    if marks == [] then gaps[0] else gaps[0] + marks[0] + Woven(gaps[1..], marks[1..])
  }

  /** The text before, between and after the spans. */
  ghost function Gaps(text: string, spans: seq<Span>, from: nat): (r: seq<string>)
    requires from <= |text| && Ordered(spans, from, |text|)
    ensures |r| == |spans| + 1
    decreases |spans|
  {
    if spans == [] then [text[from..]]
    else
      OrderedTail(spans, from, |text|);
      [text[from..spans[0].start]] + Gaps(text, spans[1..], spans[0].end)
  }

  ghost function Matches(text: string, spans: seq<Span>): (r: seq<string>)
    requires Ordered(spans, 0, |text|)
    ensures |r| == |spans|
  {
    seq(|spans|, i requires 0 <= i < |spans| => text[spans[i].start..spans[i].end])
  }

  /** What stands for a match: its digest in hash mode, else the placeholder of the pattern's kind. */
  ghost predicate StandsFor(c: Config, name: string, match_: string, mark: string) {
    if c.mode.Hash? then mark == c.digest(match_)
    else if name == "email" || name == "phone" || name == "ssn" then mark == "[REDACTED_PII]"
    else mark == "[REDACTED_SECRET]"
  }

  /** One pattern's pass: every gap is kept and every match is replaced by what stands for it. */
  ghost predicate Rewrites(c: Config, p: Pattern, text: string, result: string) {
    && Ordered(p.find(text), 0, |text|)
    && RewritesSpans(c, p.name, text, p.find(text), result)
  }

  ghost predicate RewritesSpans(c: Config, name: string, text: string, spans: seq<Span>, result: string)
    requires Ordered(spans, 0, |text|)
  {
    exists marks: seq<string> ::
      Stand(c, name, Matches(text, spans), marks) && result == Woven(Gaps(text, spans, 0), marks)
  }

  ghost predicate Stand(c: Config, name: string, matches: seq<string>, marks: seq<string>) {
    |marks| == |matches| && forall i | 0 <= i < |marks| :: StandsFor(c, name, matches[i], marks[i])
  }

  ghost function Replacements(c: Config, name: string, text: string, spans: seq<Span>): (r: seq<string>)
    requires Ordered(spans, 0, |text|)
    ensures |r| == |spans|
  {
    seq(|spans|, i requires 0 <= i < |spans| => Replacement(c, name, text[spans[i].start..spans[i].end]))
  }

  lemma GapsUnfold(text: string, spans: seq<Span>, from: nat)
    requires from <= |text| && Ordered(spans, from, |text|) && spans != []
    ensures Ordered(spans[1..], spans[0].end, |text|) && Ordered(spans[1..], 0, |text|)
    ensures Gaps(text, spans, from)[0] == text[from..spans[0].start]
    ensures Gaps(text, spans, from)[1..] == Gaps(text, spans[1..], spans[0].end)
  {
    OrderedTail(spans, from, |text|);
  }

  lemma OrderedTail(spans: seq<Span>, from: nat, size: nat)
    requires Ordered(spans, from, size) && spans != []
    ensures Ordered(spans[1..], spans[0].end, size) && Ordered(spans[1..], 0, size)
  {
  }

  lemma MatchesUnfold(c: Config, name: string, text: string, spans: seq<Span>)
    requires Ordered(spans, 0, |text|) && spans != []
    ensures Ordered(spans[1..], 0, |text|)
    ensures Matches(text, spans)[0] == text[spans[0].start..spans[0].end]
    ensures Matches(text, spans)[1..] == Matches(text, spans[1..])
    ensures Replacements(c, name, text, spans)[0] == Replacement(c, name, text[spans[0].start..spans[0].end])
    ensures Replacements(c, name, text, spans)[1..] == Replacements(c, name, text, spans[1..])
  {
  }

  lemma WovenUnfolds(gaps: seq<string>, marks: seq<string>, gap: string, mark: string, rest: string)
    requires |gaps| == |marks| + 1 && marks != [] && gaps[0] == gap && marks[0] == mark
    requires rest == Woven(gaps[1..], marks[1..])
    ensures Woven(gaps, marks) == gap + mark + rest
  {
  }

  lemma {:induction false} SubstituteWeaves(c: Config, name: string, text: string, spans: seq<Span>, from: nat)
    requires from <= |text| && Ordered(spans, from, |text|)
    ensures Substitute(c, name, text, spans, from) ==
            Woven(Gaps(text, spans, from), Replacements(c, name, text, spans))
    decreases |spans|
  {
    if spans != [] {
      var s := spans[0];
      GapsUnfold(text, spans, from);
      MatchesUnfold(c, name, text, spans);
      SubstituteWeaves(c, name, text, spans[1..], s.end);
      WovenUnfolds(Gaps(text, spans, from), Replacements(c, name, text, spans), text[from..s.start],
                   Replacement(c, name, text[s.start..s.end]), Substitute(c, name, text, spans[1..], s.end));
    }
  }

  lemma ThreeParts(text: string, from: nat, mid: nat, to: nat)
    requires from <= mid <= to <= |text|
    ensures text[from..] == text[from..mid] + text[mid..to] + text[to..]
  {
  }

  /** A text is its gaps and matches in turn. */
  lemma {:induction false} TextWeaves(c: Config, text: string, spans: seq<Span>, from: nat)
    requires from <= |text| && Ordered(spans, from, |text|)
    ensures text[from..] == Woven(Gaps(text, spans, from), Matches(text, spans))
    decreases |spans|
  {
    if spans != [] {
      var s := spans[0];
      GapsUnfold(text, spans, from);
      MatchesUnfold(c, "", text, spans);
      TextWeaves(c, text, spans[1..], s.end);
      ThreeParts(text, from, s.start, s.end);
      WovenUnfolds(Gaps(text, spans, from), Matches(text, spans), text[from..s.start], text[s.start..s.end],
                   text[s.end..]);
    }
  }

  lemma SubstituteRewrites(c: Config, name: string, text: string, spans: seq<Span>)
    requires Ordered(spans, 0, |text|)
    ensures RewritesSpans(c, name, text, spans, Substitute(c, name, text, spans, 0))
  {
    SubstituteWeaves(c, name, text, spans, 0);
    assert Stand(c, name, Matches(text, spans), Replacements(c, name, text, spans));
  }

  /** Outside hash mode only the gaps matter: whatever the matches are, the result is the same. */
  lemma MatchesDoNotMatter(
      c: Config, name: string, a: string, spansA: seq<Span>, b: string, spansB: seq<Span>, ra: string, rb: string)
    requires !c.mode.Hash? && Ordered(spansA, 0, |a|) && Ordered(spansB, 0, |b|)
    requires Gaps(a, spansA, 0) == Gaps(b, spansB, 0)
    requires RewritesSpans(c, name, a, spansA, ra) && RewritesSpans(c, name, b, spansB, rb)
    ensures ra == rb
  {
    var x: seq<string> :| Stand(c, name, Matches(a, spansA), x) && ra == Woven(Gaps(a, spansA, 0), x);
    var y: seq<string> :| Stand(c, name, Matches(b, spansB), y) && rb == Woven(Gaps(b, spansB, 0), y);
    assert |spansA| == |spansB|;
    forall i | 0 <= i < |x| ensures x[i] == y[i] {
      assert StandsFor(c, name, Matches(a, spansA)[i], x[i]) && StandsFor(c, name, Matches(b, spansB)[i], y[i]);
    }
    assert x == y;
  }

  /** The right-to-left splicing loop gives the left-to-right substitution of the original matches. */
  method SpliceRightToLeft(c: Config, name: string, text: string, spans: seq<Span>) returns (result: string)
    requires Ordered(spans, 0, |text|)
    ensures result == Substitute(c, name, text, spans, 0)
    ensures RewritesSpans(c, name, text, spans, result)
  {
    result := text;
    var i := |spans|;
    assert spans[i..] == [] && text[0..] == text;
    while i > 0
      invariant 0 <= i <= |spans|
      invariant Ordered(spans[i..], 0, |text|)
      invariant result == Substitute(c, name, text, spans[i..], 0)
    {
      i := i - 1;
      var m := spans[i];
      SuffixHead(spans, i);
      SpliceFirst(c, name, text, spans[i..]);
      result := result[..m.start] + Replacement(c, name, text[m.start..m.end]) + result[m.end..];
    }
    assert spans[0..] == spans;
    SubstituteRewrites(c, name, text, spans);
  }

  // --------------------------------------------------------------------- redacting a text

  datatype Audit = Audit(pattern: string, count: nat, locations: seq<string>)

  function Locations(surface: string): seq<string> {
    if surface == "" then [] else [surface]
  }

  /** One pattern after the other, each on the result of the ones before it. */
  function RedactWith(c: Config, patterns: seq<Pattern>, text: string): string
    requires ValidPatterns(patterns)
  {
    if patterns == [] then text
    else
      var front, p := patterns[..|patterns| - 1], patterns[|patterns| - 1];
      var before := RedactWith(c, front, text);
      Substitute(c, p.name, before, p.find(before), 0)
  }

  function RedactText(c: Config, text: string): string
    requires ValidPatterns(c.patterns)
  {
    if c.mode.Skip? then text else RedactWith(c, c.patterns, text)
  }

  /** One audit per pattern that matched, with the number of matches it replaced. */
  function AuditsWith(c: Config, patterns: seq<Pattern>, text: string, surface: string): seq<Audit>
    requires ValidPatterns(patterns)
  {
    if patterns == [] then []
    else
      var front, p := patterns[..|patterns| - 1], patterns[|patterns| - 1];
      var spans := p.find(RedactWith(c, front, text));
      AuditsWith(c, front, text, surface) + if spans == [] then [] else [Audit(p.name, |spans|, Locations(surface))]
  }

  function TextAudits(c: Config, text: string, surface: string): seq<Audit>
    requires ValidPatterns(c.patterns)
  {
    if c.mode.Skip? then [] else AuditsWith(c, c.patterns, text, surface)
  }

  /** The texts between the patterns' passes, from the given text to the result. */
  ghost predicate Passes(c: Config, patterns: seq<Pattern>, text: string, stages: seq<string>, result: string) {
    && |stages| == |patterns| + 1 && stages[0] == text && stages[|patterns|] == result
    && forall k | 0 <= k < |patterns| :: Rewrites(c, patterns[k], stages[k], stages[k + 1])
  }

  /** One audit for each pattern that matched at its pass, in order, with the number of its matches. */
  ghost predicate Audited(
      patterns: seq<Pattern>, stages: seq<string>, surface: string, hits: seq<nat>, audits: seq<Audit>)
  {
    && |stages| == |patterns| + 1 && |hits| == |audits|
    && (forall i, j | 0 <= i < j < |hits| :: hits[i] < hits[j])
    && (forall k: nat :: k in hits <==> k < |patterns| && patterns[k].find(stages[k]) != [])
    && forall i | 0 <= i < |hits| ::
         hits[i] < |patterns| &&
         var p := patterns[hits[i]];
         audits[i] == Audit(p.name, |p.find(stages[hits[i]])|, if surface == "" then [] else [surface])
  }

  lemma RedactLast(c: Config, patterns: seq<Pattern>, text: string, surface: string)
    requires ValidPatterns(patterns) && patterns != []
    ensures ValidPatterns(patterns[..|patterns| - 1])
    ensures var front, p := patterns[..|patterns| - 1], patterns[|patterns| - 1];
            var before := RedactWith(c, front, text);
            && Rewrites(c, p, before, RedactWith(c, patterns, text))
            && AuditsWith(c, patterns, text, surface) == AuditsWith(c, front, text, surface) +
                 if p.find(before) == [] then [] else [Audit(p.name, |p.find(before)|, Locations(surface))]
  {
    var front, p := patterns[..|patterns| - 1], patterns[|patterns| - 1];
    PatternPrefixValid(patterns, |patterns| - 1);
    var before := RedactWith(c, front, text);
    assert p in patterns && Ordered(p.find(before), 0, |before|);
    SubstituteRewrites(c, p.name, before, p.find(before));
  }

  lemma {:induction false} PassesExist(c: Config, patterns: seq<Pattern>, text: string, surface: string)
    returns (stages: seq<string>, hits: seq<nat>)
    requires ValidPatterns(patterns)
    ensures Passes(c, patterns, text, stages, RedactWith(c, patterns, text))
    ensures Audited(patterns, stages, surface, hits, AuditsWith(c, patterns, text, surface))
  {
    if patterns == [] {
      stages, hits := [text], [];
    } else {
      PatternPrefixValid(patterns, |patterns| - 1);
      stages, hits := PassesExist(c, patterns[..|patterns| - 1], text, surface);
      stages, hits := PassesGrow(c, patterns, text, surface, stages, hits);
    }
  }

  lemma PassesGrow(
      c: Config, patterns: seq<Pattern>, text: string, surface: string, stages: seq<string>, hits: seq<nat>)
    returns (stages': seq<string>, hits': seq<nat>)
    requires ValidPatterns(patterns) && patterns != [] && ValidPatterns(patterns[..|patterns| - 1])
    requires var front := patterns[..|patterns| - 1];
             && Passes(c, front, text, stages, RedactWith(c, front, text))
             && Audited(front, stages, surface, hits, AuditsWith(c, front, text, surface))
    ensures Passes(c, patterns, text, stages', RedactWith(c, patterns, text))
    ensures Audited(patterns, stages', surface, hits', AuditsWith(c, patterns, text, surface))
  {
    var n: nat := |patterns| - 1;
    var front, after := patterns[..n], RedactWith(c, patterns, text);
    RedactLast(c, patterns, text, surface);
    OneMorePass(c, patterns, text, stages, RedactWith(c, front, text), after);
    hits' := OneMoreAudit(patterns, stages, surface, hits, AuditsWith(c, front, text, surface), after);
    stages' := stages + [after];
  }

  lemma OneMorePass(
      c: Config, patterns: seq<Pattern>, text: string, stages: seq<string>, before: string, after: string)
    requires patterns != [] && Passes(c, patterns[..|patterns| - 1], text, stages, before)
    requires Rewrites(c, patterns[|patterns| - 1], before, after)
    ensures Passes(c, patterns, text, stages + [after], after)
  {
  }

  lemma OneMoreAudit(
      patterns: seq<Pattern>, stages: seq<string>, surface: string, hits: seq<nat>, audits: seq<Audit>, after: string)
    returns (hits': seq<nat>)
    requires patterns != [] && Audited(patterns[..|patterns| - 1], stages, surface, hits, audits)
    ensures var p := patterns[|patterns| - 1];
            var spans := p.find(stages[|patterns| - 1]);
            Audited(patterns, stages + [after], surface, hits',
                    audits + if spans == [] then [] else [Audit(p.name, |spans|, Locations(surface))])
  {
    var n: nat := |patterns| - 1;
    var all := stages + [after];
    assert forall k | 0 <= k <= n :: all[k] == stages[k];
    assert forall k | k in hits :: k < n;
    if patterns[n].find(stages[n]) == [] {
      hits' := hits;
      assert audits + [] == audits;
    } else {
      hits' := hits + [n];
      assert forall k: nat :: k in hits' <==> k in hits || k == n;
    }
  }

  /** What redacting a text gives: nothing happens in skip mode, else one pass and at most one audit per pattern. */
  ghost predicate IsRedaction(c: Config, text: string, surface: string, result: string, added: seq<Audit>) {
    if c.mode.Skip? then result == text && added == []
    else exists stages, hits ::
      Passes(c, c.patterns, text, stages, result) && Audited(c.patterns, stages, surface, hits, added)
  }

  lemma TextIsRedacted(c: Config, text: string, surface: string)
    requires ValidPatterns(c.patterns)
    ensures IsRedaction(c, text, surface, RedactText(c, text), TextAudits(c, text, surface))
  {
    if !c.mode.Skip? {
      var stages, hits := PassesExist(c, c.patterns, text, surface);
    }
  }

  /**
   * In redact mode the result does not depend on the secrets: two texts that at some pattern's pass differ in that
   * pattern's matches only are redacted to the same text.
   */
  lemma SecretsDoNotMatter(c: Config, k: nat, a: string, b: string)
    requires c.mode.Redact? && ValidPatterns(c.patterns) && k < |c.patterns| && ValidPatterns(c.patterns[..k])
    requires SameGaps(c.patterns[k], RedactWith(c, c.patterns[..k], a), RedactWith(c, c.patterns[..k], b))
    ensures RedactText(c, a) == RedactText(c, b)
  {
    PassesAgree(c, c.patterns, k, a, b);
  }

  lemma PassesAgree(c: Config, patterns: seq<Pattern>, k: nat, a: string, b: string)
    requires !c.mode.Hash? && ValidPatterns(patterns) && k < |patterns| && ValidPatterns(patterns[..k])
    requires SameGaps(patterns[k], RedactWith(c, patterns[..k], a), RedactWith(c, patterns[..k], b))
    ensures RedactWith(c, patterns, a) == RedactWith(c, patterns, b)
  {
    PatternPrefixValid(patterns, k + 1);
    TakeOneMore(patterns, k);
    LastMatchesDoNotMatter(c, patterns[..k + 1], a, b);
    AgreeFrom(c, patterns, k + 1, a, b);
  }

  /** Texts that agree after some patterns agree after the rest. */
  lemma {:induction false} AgreeFrom(c: Config, patterns: seq<Pattern>, k: nat, a: string, b: string)
    requires ValidPatterns(patterns) && k <= |patterns| && ValidPatterns(patterns[..k])
    requires RedactWith(c, patterns[..k], a) == RedactWith(c, patterns[..k], b)
    ensures RedactWith(c, patterns, a) == RedactWith(c, patterns, b)
    decreases |patterns| - k
  {
    if k == |patterns| {
      assert patterns[..k] == patterns;
    } else {
      NextPattern(c, patterns, k, a, "", []);
      NextPattern(c, patterns, k, b, "", []);
      AgreeFrom(c, patterns, k + 1, a, b);
    }
  }

  lemma LastMatchesDoNotMatter(c: Config, patterns: seq<Pattern>, a: string, b: string)
    requires !c.mode.Hash? && ValidPatterns(patterns) && patterns != [] && ValidPatterns(patterns[..|patterns| - 1])
    requires var front := patterns[..|patterns| - 1];
             SameGaps(patterns[|patterns| - 1], RedactWith(c, front, a), RedactWith(c, front, b))
    ensures RedactWith(c, patterns, a) == RedactWith(c, patterns, b)
  {
    var front, p := patterns[..|patterns| - 1], patterns[|patterns| - 1];
    var x, y := RedactWith(c, front, a), RedactWith(c, front, b);
    RedactLast(c, patterns, a, "");
    RedactLast(c, patterns, b, "");
    MatchesDoNotMatter(c, p.name, x, p.find(x), y, p.find(y), RedactWith(c, patterns, a), RedactWith(c, patterns, b));
  }

  /** The two texts agree outside the pattern's matches. */
  ghost predicate SameGaps(p: Pattern, x: string, y: string) {
    && Ordered(p.find(x), 0, |x|) && Ordered(p.find(y), 0, |y|)
    && Gaps(x, p.find(x), 0) == Gaps(y, p.find(y), 0)
  }

  lemma OnePattern(c: Config, p: Pattern, text: string)
    requires ValidPatterns([p])
    ensures Ordered(p.find(text), 0, |text|)
    ensures RedactWith(c, [p], text) == Substitute(c, p.name, text, p.find(text), 0)
  {
    assert [p][..0] == [] && [p][0] == p && p in [p];
  }

  /** A text that a single pattern matches as a whole becomes the literal placeholder of the pattern's kind. */
  lemma WholeMatchBecomesPlaceholder(c: Config, p: Pattern, text: string)
    requires c.mode.Redact? && c.patterns == [p] && ValidPatterns([p]) && p.find(text) == [Span(0, |text|)]
    ensures RedactText(c, text) ==
            if p.name == "email" || p.name == "phone" || p.name == "ssn" then "[REDACTED_PII]" else "[REDACTED_SECRET]"
  {
    OnePattern(c, p, text);
    SubstituteWhole(c, p.name, text);
  }

  predicate Marked(s: string) {
    Contains(s, PLACEHOLDER_REDACT) || Contains(s, PLACEHOLDER_PII)
  }

  /** In redact mode a substitution with a match leaves its whole placeholder in the text. */
  lemma SubstitutionMarks(c: Config, name: string, text: string, spans: seq<Span>)
    requires !c.mode.Hash? && spans != [] && Ordered(spans, 0, |text|)
    ensures Marked(Substitute(c, name, text, spans, 0))
  {
    var s := spans[0];
    var front, mark := text[0..s.start], Placeholder(name);
    var rest := Substitute(c, name, text, spans[1..], s.end);
    assert (front + mark + rest)[|front|..|front| + |mark|] == mark;
    assert OccursAt(front + mark + rest, mark, |front|);
  }

  /** Whatever later patterns do to earlier placeholders, a changed text ends up holding one. */
  lemma {:induction false} ChangedTextIsMarked(c: Config, patterns: seq<Pattern>, text: string)
    requires !c.mode.Hash? && ValidPatterns(patterns)
    ensures RedactWith(c, patterns, text) == text || Marked(RedactWith(c, patterns, text))
  {
    if patterns != [] {
      var front, p := patterns[..|patterns| - 1], patterns[|patterns| - 1];
      ChangedTextIsMarked(c, front, text);
      var before := RedactWith(c, front, text);
      var spans := p.find(before);
      if spans == [] {
        assert before[0..] == before;
      } else {
        SubstitutionMarks(c, p.name, before, spans);
      }
    }
  }

  // ------------------------------------------------------------------- redacting a tree

  datatype Value =
    | Str(text: string)
    | Dict(entries: seq<Entry>)
    | List(items: seq<Value>)
    | Bool(b: bool)
    | Int(n: int)
    | Float(x: real)
    | Null

  datatype Entry = Entry(key: string, value: Value)

  function RedactEntries(c: Config, entries: seq<Entry>): (r: seq<Entry>)
    requires ValidPatterns(c.patterns)
    ensures |r| == |entries| && forall i | 0 <= i < |r| :: r[i].key == entries[i].key
    decreases entries, 0
  {
    if entries == [] then []
    else
      var n := |entries| - 1;
      RedactEntries(c, entries[..n]) + [Entry(entries[n].key, RedactField(c, entries[n].value))]
  }

  /** A dictionary's value: strings, dictionaries and lists are rewritten, scalars kept. */
  function RedactField(c: Config, v: Value): Value
    requires ValidPatterns(c.patterns)
    decreases v, 1
  {
    match v
    case Str(text) => Str(RedactText(c, text))
    case Dict(entries) => Dict(RedactEntries(c, entries))
    case List(items) => List(RedactItems(c, items))
    case _ => v
  }

  function RedactItems(c: Config, items: seq<Value>): (r: seq<Value>)
    requires ValidPatterns(c.patterns)
    ensures |r| == |items|
    decreases items, 0
  {
    if items == [] then []
    else RedactItems(c, items[..|items| - 1]) + [RedactItem(c, items[|items| - 1])]
  }

  /** A list's element: a list inside a list is kept as it is. */
  function RedactItem(c: Config, v: Value): Value
    requires ValidPatterns(c.patterns)
    decreases v, 1
  {
    match v
    case Str(text) => Str(RedactText(c, text))
    case Dict(entries) => Dict(RedactEntries(c, entries))
    case _ => v
  }

  // ------------------------------------------------------------- the integrity checker

  datatype PathPart = Field(key: string) | Index(i: nat)

  datatype Fault = Missing | BooleanCorruption | NumericCorruption | ChangedWithoutRedaction

  datatype Violation = Violation(path: seq<PathPart>, fault: Fault)

  function Find(entries: seq<Entry>, key: string): Option<Value> {
    if entries == [] then None
    else
      var e := entries[|entries| - 1];
      if e.key == key then Some(e.value) else Find(entries[..|entries| - 1], key)
  }

  /** `_check_dict` on a pair of values, in the order of its type tests. */
  function CheckValue(
      path: seq<PathPart>, orig: Value, redacted: Value, strict: bool, show: Value -> string): seq<Violation>
    decreases orig, 1
  {
    if orig.Dict? && redacted.Dict? then CheckEntries(path, orig.entries, redacted.entries, strict, show)
    else if orig.List? && redacted.List? then CheckItems(path, orig.items, redacted.items, strict, show)
    else if orig.Bool? then (if orig != redacted then [Violation(path, BooleanCorruption)] else [])
    else if orig.Int? || orig.Float? then (if orig != redacted then [Violation(path, NumericCorruption)] else [])
    else if strict && orig.Str? && orig != redacted && !Marked(show(redacted))
    then [Violation(path, ChangedWithoutRedaction)] else []
  }

  function CheckEntries(
      path: seq<PathPart>, orig: seq<Entry>, redacted: seq<Entry>, strict: bool, show: Value -> string): seq<Violation>
    decreases orig, 0
  {
    if orig == [] then []
    else
      var e := orig[|orig| - 1];
      CheckEntries(path, orig[..|orig| - 1], redacted, strict, show) + EntryViolations(path, e, redacted, strict, show)
  }

  function EntryViolations(
      path: seq<PathPart>, e: Entry, redacted: seq<Entry>, strict: bool, show: Value -> string): seq<Violation>
    decreases e, 0
  {
    var child := path + [Field(e.key)];
    match Find(redacted, e.key)
    case None => [Violation(child, Missing)]
    case Some(v) => CheckValue(child, e.value, v, strict, show)
  }

  function CheckItems(
      path: seq<PathPart>, orig: seq<Value>, redacted: seq<Value>, strict: bool, show: Value -> string): seq<Violation>
    decreases orig, 0
  {
    if orig == [] then []
    else
      var i := |orig| - 1;
      CheckItems(path, orig[..i], redacted, strict, show) +
      if i < |redacted| then CheckValue(path + [Index(i)], orig[i], redacted[i], strict, show) else []
  }

  /** What every Python value satisfies: the keys of each dictionary are distinct. */
  ghost predicate WellFormed(v: Value)
    decreases v, 1
  {
    match v
    case Dict(entries) => WellFormedEntries(entries)
    case List(items) => forall x | x in items :: WellFormed(x)
    case _ => true
  }

  ghost predicate WellFormedEntries(entries: seq<Entry>)
    decreases entries, 0
  {
    && (forall i, j | 0 <= i < j < |entries| :: entries[i].key != entries[j].key)
    && (forall e | e in entries :: WellFormed(e.value))
  }

  lemma {:induction false} FindInWellFormed(entries: seq<Entry>, i: nat)
    requires i < |entries| && forall a, b | 0 <= a < b < |entries| :: entries[a].key != entries[b].key
    ensures Find(entries, entries[i].key) == Some(entries[i].value)
  {
    if i < |entries| - 1 {
      FindInWellFormed(entries[..|entries| - 1], i);
    }
  }

  /** A value checked against itself is clean. */
  lemma {:induction false} CheckSelf(path: seq<PathPart>, v: Value, strict: bool, show: Value -> string)
    requires WellFormed(v)
    ensures CheckValue(path, v, v, strict, show) == []
    decreases v, 1
  {
    match v
    case Dict(entries) =>
      CheckSelfEntries(path, entries, |entries|, strict, show);
      assert entries[..|entries|] == entries;
    case List(items) =>
      CheckSelfItems(path, items, |items|, strict, show);
      assert items[..|items|] == items;
    case _ =>
  }

  lemma {:induction false} CheckSelfEntries(
      path: seq<PathPart>, entries: seq<Entry>, k: nat, strict: bool, show: Value -> string)
    requires WellFormedEntries(entries) && k <= |entries|
    ensures CheckEntries(path, entries[..k], entries, strict, show) == []
    decreases entries, 0, k
  {
    if k > 0 {
      CheckSelfEntries(path, entries, k - 1, strict, show);
      assert entries[..k][..k - 1] == entries[..k - 1];
      FindInWellFormed(entries, k - 1);
      assert entries[k - 1] in entries;
      CheckSelf(path + [Field(entries[k - 1].key)], entries[k - 1].value, strict, show);
    }
  }

  lemma {:induction false} CheckSelfItems(
      path: seq<PathPart>, items: seq<Value>, k: nat, strict: bool, show: Value -> string)
    requires (forall x | x in items :: WellFormed(x)) && k <= |items|
    ensures CheckItems(path, items[..k], items, strict, show) == []
    decreases items, 0, k
  {
    if k > 0 {
      CheckSelfItems(path, items, k - 1, strict, show);
      assert items[..k][..k - 1] == items[..k - 1];
      assert items[k - 1] in items;
      CheckSelf(path + [Index(k - 1)], items[k - 1], strict, show);
    }
  }

  // ------------------------------------------------------------------ what acceptance means

  /** The value at the end of a path through dictionaries and lists. */
  ghost function Descend(v: Value, path: seq<PathPart>): Option<Value>
    decreases |path|
  {
    if path == [] then Some(v)
    else
      match path[0]
      case Field(key) =>
        if v.Dict? && Find(v.entries, key).Some? then Descend(Find(v.entries, key).value, path[1..]) else None
      case Index(i) => if v.List? && i < |v.items| then Descend(v.items[i], path[1..]) else None
  }

  /** What the check demands of two values at the same place. */
  ghost predicate KeptHere(o: Value, r: Value, strict: bool, show: Value -> string) {
    && (o.Bool? || o.Int? || o.Float? ==> r == o)
    && (strict && o.Str? && o != r ==> Marked(show(r)))
    && (o.Dict? && r.Dict? ==> forall e | e in o.entries :: Find(r.entries, e.key).Some?)
  }

  /** The same at every place that both values have. */
  ghost predicate KeptEverywhere(o: Value, r: Value, strict: bool, show: Value -> string) {
    forall path | Descend(o, path).Some? && Descend(r, path).Some? ::
      KeptHere(Descend(o, path).value, Descend(r, path).value, strict, show)
  }

  lemma DescendCons(v: Value, part: PathPart, path: seq<PathPart>)
    ensures Descend(v, [part] + path) ==
            match part
            case Field(key) =>
              if v.Dict? && Find(v.entries, key).Some? then Descend(Find(v.entries, key).value, path) else None
            case Index(i) => if v.List? && i < |v.items| then Descend(v.items[i], path) else None
  {
    assert ([part] + path)[1..] == path;
  }

  lemma KeptBelow(o: Value, r: Value, part: PathPart, strict: bool, show: Value -> string)
    requires KeptEverywhere(o, r, strict, show) && Descend(o, [part]).Some? && Descend(r, [part]).Some?
    ensures KeptEverywhere(Descend(o, [part]).value, Descend(r, [part]).value, strict, show)
  {
    DescendCons(o, part, []);
    DescendCons(r, part, []);
    assert [part] + [] == [part];
    var o', r' := Descend(o, [part]).value, Descend(r, [part]).value;
    forall path | Descend(o', path).Some? && Descend(r', path).Some?
      ensures KeptHere(Descend(o', path).value, Descend(r', path).value, strict, show)
    {
      DescendCons(o, part, path);
      DescendCons(r, part, path);
      assert Descend(o, [part] + path).Some?;
    }
  }

  lemma KeptFromBelow(o: Value, r: Value, strict: bool, show: Value -> string)
    requires KeptHere(o, r, strict, show)
    requires forall part | Descend(o, [part]).Some? && Descend(r, [part]).Some? ::
               KeptEverywhere(Descend(o, [part]).value, Descend(r, [part]).value, strict, show)
    ensures KeptEverywhere(o, r, strict, show)
  {
    forall path | Descend(o, path).Some? && Descend(r, path).Some?
      ensures KeptHere(Descend(o, path).value, Descend(r, path).value, strict, show)
    {
      if path != [] {
        var part, rest := path[0], path[1..];
        assert path == [part] + rest && [part] + [] == [part];
        DescendCons(o, part, rest);
        DescendCons(r, part, rest);
        DescendCons(o, part, []);
        DescendCons(r, part, []);
      }
    }
  }

  lemma KeptHereOfKept(o: Value, r: Value, strict: bool, show: Value -> string)
    requires KeptEverywhere(o, r, strict, show)
    ensures KeptHere(o, r, strict, show)
  {
    assert Descend(o, []) == Some(o) && Descend(r, []) == Some(r);
  }

  lemma {:induction false} EntriesCleanIff(
      path: seq<PathPart>, orig: seq<Entry>, redacted: seq<Entry>, strict: bool, show: Value -> string)
    ensures CheckEntries(path, orig, redacted, strict, show) == [] <==>
            forall e | e in orig :: EntryViolations(path, e, redacted, strict, show) == []
  {
    if orig != [] {
      var front, last := orig[..|orig| - 1], orig[|orig| - 1];
      EntriesCleanIff(path, front, redacted, strict, show);
      assert orig == front + [last];
      assert last in orig && forall e | e in front :: e in orig;
      assert forall e | e in orig :: e in front || e == last;
    }
  }

  ghost predicate ItemClean(
      path: seq<PathPart>, orig: seq<Value>, redacted: seq<Value>, strict: bool, show: Value -> string, i: nat) {
    i < |orig| && i < |redacted| ==> CheckValue(path + [Index(i)], orig[i], redacted[i], strict, show) == []
  }

  lemma {:induction false} ItemsCleanIff(
      path: seq<PathPart>, orig: seq<Value>, redacted: seq<Value>, strict: bool, show: Value -> string)
    ensures CheckItems(path, orig, redacted, strict, show) == [] <==>
            forall i: nat :: ItemClean(path, orig, redacted, strict, show, i)
  {
    if orig != [] {
      var n := |orig| - 1;
      var front := orig[..n];
      ItemsCleanIff(path, front, redacted, strict, show);
      LastItemClean(path, orig, redacted, strict, show);
    }
  }

  lemma LastItemClean(path: seq<PathPart>, orig: seq<Value>, redacted: seq<Value>, strict: bool, show: Value -> string)
    requires orig != []
    ensures var n := |orig| - 1;
            (forall i: nat :: ItemClean(path, orig, redacted, strict, show, i)) <==>
            (forall i: nat :: ItemClean(path, orig[..n], redacted, strict, show, i))
            && ItemClean(path, orig, redacted, strict, show, n)
  {
    var n := |orig| - 1;
    var front := orig[..n];
    if forall i: nat :: ItemClean(path, orig, redacted, strict, show, i) {
      forall i: nat ensures ItemClean(path, front, redacted, strict, show, i) {
        assert ItemClean(path, orig, redacted, strict, show, i);
      }
    }
    if (forall i: nat :: ItemClean(path, front, redacted, strict, show, i))
        && ItemClean(path, orig, redacted, strict, show, n) {
      forall i: nat ensures ItemClean(path, orig, redacted, strict, show, i) {
        assert ItemClean(path, front, redacted, strict, show, i);
      }
    }
  }

  /**
   * The check accepts exactly when at every place both values have, flags and numbers are equal, keys are not lost,
   * and in strict mode changed texts show a placeholder. Places only one of them has are not looked at.
   */
  lemma {:induction false} AcceptedIff(path: seq<PathPart>, o: Value, r: Value, strict: bool, show: Value -> string)
    requires WellFormed(o)
    ensures CheckValue(path, o, r, strict, show) == [] <==> KeptEverywhere(o, r, strict, show)
    decreases o
  {
    if o.Dict? && r.Dict? {
      AcceptedDictIff(path, o, r, strict, show);
    } else if o.List? && r.List? {
      AcceptedListIff(path, o, r, strict, show);
    } else {
      if KeptEverywhere(o, r, strict, show) {
        KeptHereOfKept(o, r, strict, show);
      }
      if KeptHere(o, r, strict, show) {
        forall path | Descend(o, path).Some? && Descend(r, path).Some?
          ensures KeptHere(Descend(o, path).value, Descend(r, path).value, strict, show)
        {
          OnlyRootShared(o, r, path);
        }
      }
    }
  }

  lemma OnlyRootShared(o: Value, r: Value, path: seq<PathPart>)
    requires !(o.Dict? && r.Dict?) && !(o.List? && r.List?)
    requires Descend(o, path).Some? && Descend(r, path).Some?
    ensures path == []
  {
  }

  lemma DescendOne(v: Value, part: PathPart)
    ensures Descend(v, [part]) ==
            match part
            case Field(key) => if v.Dict? then Find(v.entries, key) else None
            case Index(i) => if v.List? && i < |v.items| then Some(v.items[i]) else None
  {
    DescendCons(v, part, []);
    assert [part] + [] == [part];
  }

  lemma {:induction false} FindIsIn(entries: seq<Entry>, key: string)
    requires Find(entries, key).Some?
    ensures exists e :: e in entries && e.key == key && e.value == Find(entries, key).value
  {
    var e := entries[|entries| - 1];
    if e.key != key {
      FindIsIn(entries[..|entries| - 1], key);
    }
  }

  lemma {:induction false} AcceptedDictIff(path: seq<PathPart>, o: Value, r: Value, strict: bool, show: Value -> string)
    requires WellFormed(o) && o.Dict? && r.Dict?
    ensures CheckValue(path, o, r, strict, show) == [] <==> KeptEverywhere(o, r, strict, show)
    decreases o, 0
  {
    EntriesCleanIff(path, o.entries, r.entries, strict, show);
    if CheckValue(path, o, r, strict, show) == [] {
      forall part | Descend(o, [part]).Some? && Descend(r, [part]).Some?
        ensures KeptEverywhere(Descend(o, [part]).value, Descend(r, [part]).value, strict, show)
      {
        DescendOne(o, part);
        DescendOne(r, part);
        FindIsIn(o.entries, part.key);
        var e :| e in o.entries && e.key == part.key && e.value == Find(o.entries, part.key).value;
        assert EntryViolations(path, e, r.entries, strict, show) == [];
        AcceptedIff(path + [Field(e.key)], e.value, Find(r.entries, e.key).value, strict, show);
      }
      forall e | e in o.entries ensures Find(r.entries, e.key).Some? {
        assert EntryViolations(path, e, r.entries, strict, show) == [];
      }
      KeptFromBelow(o, r, strict, show);
    }
    if KeptEverywhere(o, r, strict, show) {
      KeptHereOfKept(o, r, strict, show);
      forall e | e in o.entries ensures EntryViolations(path, e, r.entries, strict, show) == [] {
        var i :| 0 <= i < |o.entries| && o.entries[i] == e;
        FindInWellFormed(o.entries, i);
        DescendOne(o, Field(e.key));
        DescendOne(r, Field(e.key));
        KeptBelow(o, r, Field(e.key), strict, show);
        AcceptedIff(path + [Field(e.key)], e.value, Find(r.entries, e.key).value, strict, show);
      }
    }
  }

  lemma {:induction false} AcceptedListIff(path: seq<PathPart>, o: Value, r: Value, strict: bool, show: Value -> string)
    requires WellFormed(o) && o.List? && r.List?
    ensures CheckValue(path, o, r, strict, show) == [] <==> KeptEverywhere(o, r, strict, show)
    decreases o, 0
  {
    ItemsCleanIff(path, o.items, r.items, strict, show);
    if CheckValue(path, o, r, strict, show) == [] {
      forall part | Descend(o, [part]).Some? && Descend(r, [part]).Some?
        ensures KeptEverywhere(Descend(o, [part]).value, Descend(r, [part]).value, strict, show)
      {
        DescendOne(o, part);
        DescendOne(r, part);
        assert ItemClean(path, o.items, r.items, strict, show, part.i);
        AcceptedIff(path + [Index(part.i)], o.items[part.i], r.items[part.i], strict, show);
      }
      KeptFromBelow(o, r, strict, show);
    }
    if KeptEverywhere(o, r, strict, show) {
      forall i: nat ensures ItemClean(path, o.items, r.items, strict, show, i) {
        if i < |o.items| && i < |r.items| {
          DescendOne(o, Index(i));
          DescendOne(r, Index(i));
          KeptBelow(o, r, Index(i), strict, show);
          assert o.items[i] in o.items;
          AcceptedIff(path + [Index(i)], o.items[i], r.items[i], strict, show);
        }
      }
    }
  }

  // ------------------------------------------------------- which violations are reported, by paths

  /** A key that one value has and the other has not, where both are dictionaries. */
  ghost predicate LosesKey(o: Option<Value>, r: Option<Value>, key: string) {
    && o.Some? && o.value.Dict? && Find(o.value.entries, key).Some?
    && r.Some? && r.value.Dict? && Find(r.value.entries, key).None?
  }

  /** Two values at one place differ in the way the fault says. */
  ghost predicate Differs(o: Option<Value>, r: Option<Value>, fault: Fault, strict: bool, show: Value -> string) {
    && o.Some? && r.Some? && o != r
    && match fault
       case Missing => false
       case BooleanCorruption => o.value.Bool?
       case NumericCorruption => o.value.Int? || o.value.Float?
       case ChangedWithoutRedaction => strict && o.value.Str? && !Marked(show(r.value))
  }

  /** What is wrong at a place below the two values. */
  ghost predicate FaultAt(o: Value, r: Value, at: seq<PathPart>, fault: Fault, strict: bool, show: Value -> string) {
    if fault.Missing? then
      at != [] && at[|at| - 1].Field?
      && LosesKey(Descend(o, at[..|at| - 1]), Descend(r, at[..|at| - 1]), at[|at| - 1].key)
    else Differs(Descend(o, at), Descend(r, at), fault, strict, show)
  }

  lemma FaultUnfolds(
      o: Value, r: Value, part: PathPart, rest: seq<PathPart>, fault: Fault, strict: bool, show: Value -> string)
    ensures var a, b := Descend(o, [part]), Descend(r, [part]);
            FaultAt(o, r, [part] + rest, fault, strict, show) <==>
            || (a.Some? && b.Some? && FaultAt(a.value, b.value, rest, fault, strict, show))
            || (fault.Missing? && rest == [] && part.Field? && LosesKey(Some(o), Some(r), part.key))
  {
    var at := [part] + rest;
    DescendOne(o, part);
    DescendOne(r, part);
    DescendCons(o, part, rest);
    DescendCons(r, part, rest);
    if rest == [] {
      assert at[..|at| - 1] == [];
    } else {
      assert at[..|at| - 1] == [part] + rest[..|rest| - 1];
      DescendCons(o, part, rest[..|rest| - 1]);
      DescendCons(r, part, rest[..|rest| - 1]);
    }
  }

  lemma {:induction false} SomeEntryViolates(
      path: seq<PathPart>, orig: seq<Entry>, redacted: seq<Entry>, strict: bool, show: Value -> string, v: Violation)
    ensures v in CheckEntries(path, orig, redacted, strict, show) <==>
            exists e | e in orig :: v in EntryViolations(path, e, redacted, strict, show)
  {
    if orig != [] {
      var n := |orig| - 1;
      SomeEntryViolates(path, orig[..n], redacted, strict, show, v);
      SplitLast(orig);
      assert CheckEntries(path, orig, redacted, strict, show) ==
             CheckEntries(path, orig[..n], redacted, strict, show)
             + EntryViolations(path, orig[n], redacted, strict, show);
      InLast(CheckEntries(path, orig[..n], redacted, strict, show),
             EntryViolations(path, orig[n], redacted, strict, show), v);
      assert orig[n] in orig && forall e :: e in orig <==> e in orig[..n] || e == orig[n];
    }
  }

  ghost predicate ItemViolates(
      path: seq<PathPart>, orig: seq<Value>, redacted: seq<Value>, strict: bool, show: Value -> string, v: Violation,
      i: int)
  {
    0 <= i < |orig| && i < |redacted| && v in CheckValue(path + [Index(i)], orig[i], redacted[i], strict, show)
  }

  lemma {:induction false} SomeItemViolates(
      path: seq<PathPart>, orig: seq<Value>, redacted: seq<Value>, strict: bool, show: Value -> string, v: Violation)
    ensures v in CheckItems(path, orig, redacted, strict, show) <==>
            exists i :: ItemViolates(path, orig, redacted, strict, show, v, i)
  {
    if orig != [] {
      var n := |orig| - 1;
      SomeItemViolates(path, orig[..n], redacted, strict, show, v);
      LastItemChecked(path, orig, redacted, strict, show, v);
      forall i | 0 <= i < n
        ensures ItemViolates(path, orig[..n], redacted, strict, show, v, i) <==>
                ItemViolates(path, orig, redacted, strict, show, v, i)
      {
        assert orig[..n][i] == orig[i];
      }
    }
  }

  lemma LastItemChecked(
      path: seq<PathPart>, orig: seq<Value>, redacted: seq<Value>, strict: bool, show: Value -> string, v: Violation)
    requires orig != []
    ensures var n := |orig| - 1;
            v in CheckItems(path, orig, redacted, strict, show) <==>
            v in CheckItems(path, orig[..n], redacted, strict, show)
            || ItemViolates(path, orig, redacted, strict, show, v, n)
  {
  }

  /** Every violation is at or below the place that is checked. */
  lemma {:induction false} ViolationsBelow(
      path: seq<PathPart>, o: Value, r: Value, strict: bool, show: Value -> string, v: Violation)
    requires v in CheckValue(path, o, r, strict, show)
    ensures path <= v.path
    decreases o
  {
    if o.Dict? && r.Dict? {
      SomeEntryViolates(path, o.entries, r.entries, strict, show, v);
      var e :| e in o.entries && v in EntryViolations(path, e, r.entries, strict, show);
      if Find(r.entries, e.key).Some? {
        ViolationsBelow(path + [Field(e.key)], e.value, Find(r.entries, e.key).value, strict, show, v);
      }
    } else if o.List? && r.List? {
      SomeItemViolates(path, o.items, r.items, strict, show, v);
      var i :| ItemViolates(path, o.items, r.items, strict, show, v, i);
      ViolationsBelow(path + [Index(i)], o.items[i], r.items[i], strict, show, v);
    }
  }

  lemma EntryBelow(
      path: seq<PathPart>, e: Entry, redacted: seq<Entry>, strict: bool, show: Value -> string, v: Violation)
    requires v in EntryViolations(path, e, redacted, strict, show)
    ensures path + [Field(e.key)] <= v.path
  {
    if Find(redacted, e.key).Some? {
      ViolationsBelow(path + [Field(e.key)], e.value, Find(redacted, e.key).value, strict, show, v);
    }
  }

  lemma NextPart(path: seq<PathPart>, part: PathPart, rest: seq<PathPart>, other: PathPart)
    ensures path + [other] <= path + ([part] + rest) ==> other == part
    ensures path + ([part] + rest) == (path + [part]) + rest
  {
    if path + [other] <= path + ([part] + rest) {
      assert (path + ([part] + rest))[|path|] == part && (path + [other])[|path|] == other;
    }
  }

  /** The check reports exactly the faults there are, each at its own path. */
  lemma {:induction false} ViolationIff(
      path: seq<PathPart>, o: Value, r: Value, at: seq<PathPart>, fault: Fault, strict: bool, show: Value -> string)
    requires WellFormed(o)
    ensures Violation(path + at, fault) in CheckValue(path, o, r, strict, show) <==>
            FaultAt(o, r, at, fault, strict, show)
    decreases o
  {
    if o.Dict? && r.Dict? {
      DictViolationIff(path, o, r, at, fault, strict, show);
    } else if o.List? && r.List? {
      ListViolationIff(path, o, r, at, fault, strict, show);
    } else {
      LeafViolationIff(path, o, r, at, fault, strict, show);
    }
  }

  lemma LeafViolationIff(
      path: seq<PathPart>, o: Value, r: Value, at: seq<PathPart>, fault: Fault, strict: bool, show: Value -> string)
    requires !(o.Dict? && r.Dict?) && !(o.List? && r.List?)
    ensures Violation(path + at, fault) in CheckValue(path, o, r, strict, show) <==>
            FaultAt(o, r, at, fault, strict, show)
  {
    if at == [] {
      assert path + at == path;
    } else {
      assert |path + at| > |path|;
      assert at == [at[0]] + at[1..];
      FaultUnfolds(o, r, at[0], at[1..], fault, strict, show);
      DescendOne(o, at[0]);
      DescendOne(r, at[0]);
    }
  }

  lemma {:induction false} DictViolationIff(
      path: seq<PathPart>, o: Value, r: Value, at: seq<PathPart>, fault: Fault, strict: bool, show: Value -> string)
    requires WellFormed(o) && o.Dict? && r.Dict?
    ensures Violation(path + at, fault) in CheckValue(path, o, r, strict, show) <==>
            FaultAt(o, r, at, fault, strict, show)
    decreases o, 0
  {
    var v := Violation(path + at, fault);
    SomeEntryViolates(path, o.entries, r.entries, strict, show, v);
    if at == [] {
      assert v.path == path;
      forall e | e in o.entries ensures v !in EntryViolations(path, e, r.entries, strict, show) {
        if v in EntryViolations(path, e, r.entries, strict, show) {
          EntryBelow(path, e, r.entries, strict, show, v);
        }
      }
    } else {
      var part, rest := at[0], at[1..];
      assert at == [part] + rest;
      FaultUnfolds(o, r, part, rest, fault, strict, show);
      DescendOne(o, part);
      DescendOne(r, part);
      forall e | e in o.entries && v in EntryViolations(path, e, r.entries, strict, show) ensures Field(e.key) == part {
        EntryBelow(path, e, r.entries, strict, show, v);
        NextPart(path, part, rest, Field(e.key));
      }
      if part.Field? && Find(o.entries, part.key).Some? {
        FindIsIn(o.entries, part.key);
        var e :| e in o.entries && e.key == part.key && e.value == Find(o.entries, part.key).value;
        OnlyEntry(o.entries, e);
        EntryViolationIff(path, e, r.entries, rest, fault, strict, show);
        NextPart(path, part, rest, part);
      } else if part.Field? {
        KeyIsMissing(o.entries, part.key);
      }
    }
  }

  lemma OnlyEntry(entries: seq<Entry>, e: Entry)
    requires WellFormedEntries(entries) && e in entries
    ensures forall f | f in entries && f.key == e.key :: f == e
  {
  }

  lemma {:induction false} KeyIsMissing(entries: seq<Entry>, key: string)
    requires Find(entries, key).None?
    ensures forall e | e in entries :: e.key != key
  {
    if entries != [] {
      KeyIsMissing(entries[..|entries| - 1], key);
      SplitLast(entries);
    }
  }

  lemma {:induction false} EntryViolationIff(
      path: seq<PathPart>, e: Entry, redacted: seq<Entry>, rest: seq<PathPart>, fault: Fault, strict: bool,
      show: Value -> string)
    requires WellFormed(e.value)
    ensures Violation((path + [Field(e.key)]) + rest, fault) in EntryViolations(path, e, redacted, strict, show) <==>
            match Find(redacted, e.key)
            case None => fault.Missing? && rest == []
            case Some(x) => FaultAt(e.value, x, rest, fault, strict, show)
    decreases e
  {
    var child := path + [Field(e.key)];
    match Find(redacted, e.key)
    case None =>
      assert child + rest == child <==> rest == [];
    case Some(x) =>
      ViolationIff(child, e.value, x, rest, fault, strict, show);
  }

  lemma {:induction false} ListViolationIff(
      path: seq<PathPart>, o: Value, r: Value, at: seq<PathPart>, fault: Fault, strict: bool, show: Value -> string)
    requires WellFormed(o) && o.List? && r.List?
    ensures Violation(path + at, fault) in CheckValue(path, o, r, strict, show) <==>
            FaultAt(o, r, at, fault, strict, show)
    decreases o, 0
  {
    var v := Violation(path + at, fault);
    SomeItemViolates(path, o.items, r.items, strict, show, v);
    if at == [] {
      assert v.path == path;
      forall i ensures !ItemViolates(path, o.items, r.items, strict, show, v, i) {
        if ItemViolates(path, o.items, r.items, strict, show, v, i) {
          ViolationsBelow(path + [Index(i)], o.items[i], r.items[i], strict, show, v);
        }
      }
    } else {
      var part, rest := at[0], at[1..];
      assert at == [part] + rest;
      FaultUnfolds(o, r, part, rest, fault, strict, show);
      DescendOne(o, part);
      DescendOne(r, part);
      forall i | ItemViolates(path, o.items, r.items, strict, show, v, i) ensures Index(i) == part {
        ViolationsBelow(path + [Index(i)], o.items[i], r.items[i], strict, show, v);
        NextPart(path, part, rest, Index(i));
      }
      if part.Index? && part.i < |o.items| && part.i < |r.items| {
        assert o.items[part.i] in o.items;
        ViolationIff(path + [part], o.items[part.i], r.items[part.i], rest, fault, strict, show);
        NextPart(path, part, rest, part);
        assert ItemViolates(path, o.items, r.items, strict, show, v, part.i) <==>
               FaultAt(o.items[part.i], r.items[part.i], rest, fault, strict, show);
      }
    }
  }

  // ------------------------------------------------------------ what redaction does, by paths

  /** The path steps from a list straight into a list, where the rewrite does not go. */
  ghost predicate ListInList(path: seq<PathPart>) {
    exists k :: 0 <= k < |path| - 1 && path[k].Index? && path[k + 1].Index?
  }

  /** What stands at a place afterwards: texts are redacted unless the rewrite does not go there, all else is kept. */
  ghost predicate RedactedAt(c: Config, before: Option<Value>, after: Option<Value>, untouched: bool)
    requires ValidPatterns(c.patterns)
  {
    match before
    case None => after.None?
    case Some(Str(text)) => after == Some(Str(if untouched then text else RedactText(c, text)))
    case Some(Dict(entries)) =>
      && after.Some? && after.value.Dict? && |after.value.entries| == |entries|
      && forall i | 0 <= i < |entries| :: after.value.entries[i].key == entries[i].key
    case Some(List(items)) => after.Some? && after.value.List? && |after.value.items| == |items|
    case _ => after == before
  }

  lemma {:induction false} FindRedacted(c: Config, entries: seq<Entry>, key: string)
    requires ValidPatterns(c.patterns)
    ensures Find(RedactEntries(c, entries), key) ==
            match Find(entries, key) case None => None case Some(v) => Some(RedactField(c, v))
  {
    if entries != [] {
      var n := |entries| - 1;
      FindRedacted(c, entries[..n], key);
      var e := Entry(entries[n].key, RedactField(c, entries[n].value));
      InitOfAppend(RedactEntries(c, entries[..n]), e);
      assert RedactEntries(c, entries) == RedactEntries(c, entries[..n]) + [e];
    }
  }

  lemma {:induction false} ItemRedacted(c: Config, items: seq<Value>, i: nat)
    requires ValidPatterns(c.patterns) && i < |items|
    ensures RedactItems(c, items)[i] == RedactItem(c, items[i])
  {
    if i < |items| - 1 {
      ItemRedacted(c, items[..|items| - 1], i);
    }
  }

  lemma ListInListUnfolds(part: PathPart, path: seq<PathPart>)
    ensures ListInList([part] + path) <==> ListInList(path) || (part.Index? && path != [] && path[0].Index?)
  {
    var whole := [part] + path;
    if ListInList(path) {
      var k :| 0 <= k < |path| - 1 && path[k].Index? && path[k + 1].Index?;
      assert whole[k + 1].Index? && whole[k + 2].Index?;
    }
    if part.Index? && path != [] && path[0].Index? {
      assert whole[0].Index? && whole[1].Index?;
    }
    if ListInList(whole) {
      var k :| 0 <= k < |whole| - 1 && whole[k].Index? && whole[k + 1].Index?;
      assert k > 0 ==> path[k - 1].Index? && path[k].Index?;
    }
  }

  lemma KeptAt(c: Config, v: Value, path: seq<PathPart>)
    requires ValidPatterns(c.patterns)
    ensures RedactedAt(c, Descend(v, path), Descend(v, path), true)
  {
  }

  /** What the rewrite of a field does at every path below it. */
  lemma {:induction false} FieldRedactedAt(c: Config, v: Value, path: seq<PathPart>)
    requires ValidPatterns(c.patterns)
    ensures RedactedAt(c, Descend(v, path), Descend(RedactField(c, v), path), ListInList(path))
    decreases |path|
  {
    if path != [] {
      var part, rest := path[0], path[1..];
      assert path == [part] + rest;
      ListInListUnfolds(part, rest);
      DescendCons(v, part, rest);
      DescendCons(RedactField(c, v), part, rest);
      if part.Field? && v.Dict? {
        FindRedacted(c, v.entries, part.key);
        if Find(v.entries, part.key).Some? {
          FieldRedactedAt(c, Find(v.entries, part.key).value, rest);
        }
      } else if part.Index? && v.List? && part.i < |v.items| {
        ItemRedacted(c, v.items, part.i);
        ItemRedactedAt(c, v.items[part.i], rest);
      }
    }
  }

  lemma {:induction false} ItemRedactedAt(c: Config, v: Value, path: seq<PathPart>)
    requires ValidPatterns(c.patterns)
    ensures RedactedAt(c, Descend(v, path), Descend(RedactItem(c, v), path),
                       ListInList(path) || (path != [] && path[0].Index?))
    decreases |path|, 1
  {
    if v.List? {
      if path == [] {
        assert Descend(v, path) == Some(v);
      } else if path[0].Index? {
        KeptAt(c, v, path);
      }
    } else if path != [] {
      var part, rest := path[0], path[1..];
      assert path == [part] + rest;
      ListInListUnfolds(part, rest);
      DescendCons(v, part, rest);
      DescendCons(RedactItem(c, v), part, rest);
      if part.Field? && v.Dict? {
        FindRedacted(c, v.entries, part.key);
        if Find(v.entries, part.key).Some? {
          FieldRedactedAt(c, Find(v.entries, part.key).value, rest);
        }
      }
    }
  }

  /** A dictionary replaced by anything but a dictionary is accepted, strict or not, whatever numbers it held. */
  lemma LostDictionaryAccepted(path: seq<PathPart>, entries: seq<Entry>, r: Value, strict: bool, show: Value -> string)
    requires !r.Dict?
    ensures CheckValue(path, Dict(entries), r, strict, show) == []
  {
  }

  /** Every string the rewrite reaches is unchanged or shows a placeholder. */
  ghost predicate TextMarked(c: Config, text: string)
    requires ValidPatterns(c.patterns)
  {
    RedactText(c, text) == text || Marked(RedactText(c, text))
  }

  ghost predicate FieldMarked(c: Config, v: Value)
    requires ValidPatterns(c.patterns)
    decreases v, 1
  {
    match v
    case Str(text) => TextMarked(c, text)
    case Dict(entries) => forall e | e in entries :: FieldMarked(c, e.value)
    case List(items) => forall x | x in items :: x.List? || FieldMarked(c, x)
    case _ => true
  }

  /** What `str()` promises on texts. */
  ghost predicate ShowsTexts(show: Value -> string) {
    forall text :: show(Str(text)) == text
  }

  lemma NewTextAccepted(path: seq<PathPart>, text: string, new_: string, strict: bool, show: Value -> string)
    requires ShowsTexts(show)
    ensures CheckValue(path, Str(text), Str(new_), strict, show) == [] <==> !strict || new_ == text || Marked(new_)
  {
    assert show(Str(new_)) == new_;
  }

  lemma TextAccepted(c: Config, path: seq<PathPart>, text: string, strict: bool, show: Value -> string)
    requires ShowsTexts(show) && ValidPatterns(c.patterns)
    ensures CheckValue(path, Str(text), Str(RedactText(c, text)), strict, show) == [] <==>
        !strict || TextMarked(c, text)
  {
    NewTextAccepted(path, text, RedactText(c, text), strict, show);
  }

  /** The checker accepts a rewritten value exactly when strings may change or every changed one is marked. */
  lemma {:induction false} FieldAccepted(c: Config, path: seq<PathPart>, v: Value, strict: bool, show: Value -> string)
    requires ShowsTexts(show) && ValidPatterns(c.patterns) && WellFormed(v)
    ensures CheckValue(path, v, RedactField(c, v), strict, show) == [] <==> !strict || FieldMarked(c, v)
    decreases v, 1
  {
    match v
    case Str(text) => TextAccepted(c, path, text, strict, show);
    case Dict(entries) =>
      EntriesAccepted(c, path, entries, |entries|, strict, show);
      assert entries[..|entries|] == entries;
    case List(items) =>
      ItemsAccepted(c, path, items, |items|, strict, show);
      assert items[..|items|] == items;
    case _ =>
  }

  lemma {:induction false} ItemAccepted(c: Config, path: seq<PathPart>, v: Value, strict: bool, show: Value -> string)
    requires ShowsTexts(show) && ValidPatterns(c.patterns) && WellFormed(v)
    ensures CheckValue(path, v, RedactItem(c, v), strict, show) == [] <==> !strict || v.List? || FieldMarked(c, v)
    decreases v, 2
  {
    if v.List? {
      CheckSelf(path, v, strict, show);
    } else {
      FieldAccepted(c, path, v, strict, show);
    }
  }

  lemma {:induction false} EntriesAccepted(
      c: Config, path: seq<PathPart>, entries: seq<Entry>, k: nat, strict: bool, show: Value -> string)
    requires ShowsTexts(show) && ValidPatterns(c.patterns) && WellFormedEntries(entries) && k <= |entries|
    ensures CheckEntries(path, entries[..k], RedactEntries(c, entries), strict, show) == [] <==>
            !strict || EntriesMarked(c, entries[..k])
    decreases entries, 0, k
  {
    if k > 0 {
      EntriesAccepted(c, path, entries, k - 1, strict, show);
      var e := entries[k - 1];
      EntriesMarkedStep(c, entries, k);
      CheckEntriesStep(c, path, entries, k, strict, show);
      assert e in entries;
      FieldAccepted(c, path + [Field(e.key)], e.value, strict, show);
    }
  }

  ghost predicate EntriesMarked(c: Config, entries: seq<Entry>)
    requires ValidPatterns(c.patterns)
  {
    forall e | e in entries :: FieldMarked(c, e.value)
  }

  lemma EntriesMarkedStep(c: Config, entries: seq<Entry>, k: nat)
    requires ValidPatterns(c.patterns) && 0 < k <= |entries|
    ensures EntriesMarked(c, entries[..k]) <==>
        EntriesMarked(c, entries[..k - 1]) && FieldMarked(c, entries[k - 1].value)
  {
    assert entries[..k] == entries[..k - 1] + [entries[k - 1]];
  }

  lemma CheckEntriesStep(
      c: Config, path: seq<PathPart>, entries: seq<Entry>, k: nat, strict: bool, show: Value -> string)
    requires ValidPatterns(c.patterns) && WellFormedEntries(entries) && 0 < k <= |entries|
    ensures var e, redacted := entries[k - 1], RedactEntries(c, entries);
            CheckEntries(path, entries[..k], redacted, strict, show) ==
            CheckEntries(path, entries[..k - 1], redacted, strict, show)
            + CheckValue(path + [Field(e.key)], e.value, RedactField(c, e.value), strict, show)
  {
    assert entries[..k][..k - 1] == entries[..k - 1];
    RedactEntriesAt(c, entries, k - 1);
    FindInWellFormed(RedactEntries(c, entries), k - 1);
  }

  lemma {:induction false} RedactEntriesAt(c: Config, entries: seq<Entry>, i: nat)
    requires ValidPatterns(c.patterns) && i < |entries|
    ensures RedactEntries(c, entries)[i] == Entry(entries[i].key, RedactField(c, entries[i].value))
  {
    if i < |entries| - 1 {
      RedactEntriesAt(c, entries[..|entries| - 1], i);
    }
  }

  lemma {:induction false} RedactItemsAt(c: Config, items: seq<Value>, i: nat)
    requires ValidPatterns(c.patterns) && i < |items|
    ensures RedactItems(c, items)[i] == RedactItem(c, items[i])
  {
    if i < |items| - 1 {
      RedactItemsAt(c, items[..|items| - 1], i);
    }
  }

  ghost predicate ItemsMarked(c: Config, items: seq<Value>)
    requires ValidPatterns(c.patterns)
  {
    forall x | x in items :: x.List? || FieldMarked(c, x)
  }

  lemma ItemsMarkedStep(c: Config, items: seq<Value>, k: nat)
    requires ValidPatterns(c.patterns) && 0 < k <= |items|
    ensures ItemsMarked(c, items[..k]) <==>
            ItemsMarked(c, items[..k - 1]) && (items[k - 1].List? || FieldMarked(c, items[k - 1]))
  {
    TakeOneMore(items, k - 1);
  }

  lemma CheckItemsStep(c: Config, path: seq<PathPart>, items: seq<Value>, k: nat, strict: bool, show: Value -> string)
    requires ValidPatterns(c.patterns) && 0 < k <= |items|
    ensures var redacted := RedactItems(c, items);
            CheckItems(path, items[..k], redacted, strict, show) ==
            CheckItems(path, items[..k - 1], redacted, strict, show)
            + CheckValue(path + [Index(k - 1)], items[k - 1], RedactItem(c, items[k - 1]), strict, show)
  {
    TakeOneMore(items, k - 1);
    RedactItemsAt(c, items, k - 1);
  }

  lemma {:induction false} ItemsAccepted(
      c: Config, path: seq<PathPart>, items: seq<Value>, k: nat, strict: bool, show: Value -> string)
    requires ShowsTexts(show) && ValidPatterns(c.patterns) && (forall x | x in items :: WellFormed(x)) && k <= |items|
    ensures CheckItems(path, items[..k], RedactItems(c, items), strict, show) == [] <==>
            !strict || ItemsMarked(c, items[..k])
    decreases items, 0, k
  {
    if k > 0 {
      ItemsAccepted(c, path, items, k - 1, strict, show);
      ItemsMarkedStep(c, items, k);
      CheckItemsStep(c, path, items, k, strict, show);
      assert items[k - 1] in items;
      ItemAccepted(c, path + [Index(k - 1)], items[k - 1], strict, show);
    }
  }

  /** Outside hash mode every reachable string is unchanged or marked. */
  lemma {:induction false} RedactModeMarks(c: Config, v: Value)
    requires ValidPatterns(c.patterns) && !c.mode.Hash?
    ensures FieldMarked(c, v)
    decreases v
  {
    match v
    case Str(text) => ChangedTextIsMarked(c, c.patterns, text);
    case Dict(entries) =>
      forall e | e in entries ensures FieldMarked(c, e.value) {
        RedactModeMarks(c, e.value);
      }
    case List(items) =>
      forall x | x in items ensures FieldMarked(c, x) {
        RedactModeMarks(c, x);
      }
    case _ =>
  }

  /**
   * `verify_transit_integrity` never raises on the output of `redact_dict`: always when lax,
   * and in strict mode outside hash mode.
   */
  lemma RewriteIsAccepted(c: Config, entries: seq<Entry>, strict: bool, show: Value -> string)
    requires ShowsTexts(show) && ValidPatterns(c.patterns) && WellFormedEntries(entries)
    requires strict ==> !c.mode.Hash?
    ensures CheckValue([], Dict(entries), Dict(RedactEntries(c, entries)), strict, show) == []
  {
    FieldAccepted(c, [], Dict(entries), strict, show);
    if strict {
      RedactModeMarks(c, Dict(entries));
    }
  }

  // ---------------------------------------------------------------------------- hash mode

  predicate IsHex(ch: char) {
    '0' <= ch <= '9' || 'a' <= ch <= 'f'
  }

  ghost predicate AllHex(s: string) {
    forall i | 0 <= i < |s| :: IsHex(s[i])
  }

  ghost predicate NoHex(s: string) {
    forall i | 0 <= i < |s| :: !IsHex(s[i])
  }

  /** What `hexdigest()[:16]` promises. */
  ghost predicate IsDigest(digest: string -> string) {
    forall s :: |digest(s)| == 16 && AllHex(digest(s))
  }

  /** Somewhere in the text stand sixteen hexadecimal digits in a row. */
  ghost predicate HasRun(s: string) {
    exists i :: RunAt(s, i)
  }

  ghost predicate RunAt(s: string, i: int) {
    0 <= i <= |s| - 16 && AllHex(s[i..i + 16])
  }

  lemma PlaceholdersAreNotHex()
    ensures NoHex(PLACEHOLDER_REDACT) && NoHex(PLACEHOLDER_PII)
  {
  }

  lemma MiddleIsHex(a: string, d: string, r: string, k: int)
    requires AllHex(d) && |a| <= k < |a| + |d|
    ensures IsHex((a + d + r)[k])
  {
    assert (a + d + r)[k] == d[k - |a|];
  }

  lemma OccurrenceIsNotHex(s: string, part: string, i: int, k: int)
    requires NoHex(part) && OccursAt(s, part, i) && i <= k < i + |part|
    ensures !IsHex(s[k])
  {
    assert s[i..i + |part|][k - i] == s[k];
  }

  /** What holds no hexadecimal digit lies on one side of what holds nothing else. */
  lemma AvoidsDigest(a: string, d: string, r: string, part: string, i: int)
    requires NoHex(part) && part != "" && AllHex(d) && d != "" && OccursAt(a + d + r, part, i)
    ensures OccursAt(a, part, i) || OccursAt(r, part, i - |a| - |d|)
  {
    var s := a + d + r;
    var k := if i < |a| then |a| else i;
    if k < i + |part| && k < |a| + |d| {
      MiddleIsHex(a, d, r, k);
      OccurrenceIsNotHex(s, part, i, k);
      assert false;
    } else if i < |a| {
      assert a[i..i + |part|] == s[i..i + |part|];
    } else {
      assert r[i - |a| - |d|..i - |a| - |d| + |part|] == s[i..i + |part|];
    }
  }

  lemma OccursInSlice(text: string, from: nat, to: nat, part: string, i: int)
    requires from <= to <= |text| && OccursAt(text[from..to], part, i)
    ensures Contains(text, part)
  {
    SliceOfSlice(text, from, to, i, i + |part|);
    assert OccursAt(text, part, from + i);
  }

  lemma ContainsAtPlace(s: string, part: string, i: int)
    requires OccursAt(s, part, i)
    ensures Contains(s, part)
  {
  }

  /** A digest cannot make up a marker. */
  lemma {:induction false} DigestsAddNoMark(
      c: Config, name: string, text: string, spans: seq<Span>, from: nat, part: string)
    requires c.mode.Hash? && IsDigest(c.digest) && NoHex(part) && part != ""
    requires from <= |text| && Ordered(spans, from, |text|) && Contains(Substitute(c, name, text, spans, from), part)
    ensures Contains(text, part)
    decreases |spans|
  {
    var result := Substitute(c, name, text, spans, from);
    var i :| 0 <= i <= |result| && OccursAt(result, part, i);
    if spans == [] {
      OccursShift(text, part, from, i);
    } else {
      var s := spans[0];
      var rest := Substitute(c, name, text, spans[1..], s.end);
      AvoidsDigest(text[from..s.start], c.digest(text[s.start..s.end]), rest, part, i);
      if OccursAt(text[from..s.start], part, i) {
        OccursInSlice(text, from, s.start, part, i);
      } else {
        ContainsAtPlace(rest, part, i - (s.start - from) - 16);
        DigestsAddNoMark(c, name, text, spans[1..], s.end, part);
      }
    }
  }

  lemma {:induction false} HashAddsNoMark(c: Config, patterns: seq<Pattern>, text: string, part: string)
    requires c.mode.Hash? && IsDigest(c.digest) && NoHex(part) && part != "" && ValidPatterns(patterns)
    requires Contains(RedactWith(c, patterns, text), part)
    ensures Contains(text, part)
  {
    if patterns != [] {
      var front, p := patterns[..|patterns| - 1], patterns[|patterns| - 1];
      var before := RedactWith(c, front, text);
      DigestsAddNoMark(c, p.name, before, p.find(before), 0, part);
      HashAddsNoMark(c, front, text, part);
    }
  }

  /** In hash mode, over any patterns, only a text that showed a placeholder before can show one afterwards. */
  lemma HashMarksNothing(c: Config, text: string)
    requires c.mode.Hash? && IsDigest(c.digest) && ValidPatterns(c.patterns)
    ensures Marked(RedactText(c, text)) ==> Marked(text)
  {
    PlaceholdersAreNotHex();
    if Contains(RedactText(c, text), PLACEHOLDER_REDACT) {
      HashAddsNoMark(c, c.patterns, text, PLACEHOLDER_REDACT);
    } else if Contains(RedactText(c, text), PLACEHOLDER_PII) {
      HashAddsNoMark(c, c.patterns, text, PLACEHOLDER_PII);
    }
  }

  /** No pattern matches the text. */
  ghost predicate Quiet(patterns: seq<Pattern>, text: string) {
    forall p | p in patterns :: p.find(text) == []
  }

  /** The rewrite replaces m: some pattern matches it in what the patterns before it left. */
  ghost predicate Replaced(c: Config, patterns: seq<Pattern>, text: string, m: string)
    requires ValidPatterns(patterns)
  {
    patterns != [] &&
    var front, p := patterns[..|patterns| - 1], patterns[|patterns| - 1];
    Replaced(c, front, text, m) || Matched(p, RedactWith(c, front, text), m)
  }

  /** m stands at a span the pattern finds. */
  ghost predicate Matched(p: Pattern, text: string, m: string) {
    exists s | s in p.find(text) :: s.start <= s.end <= |text| && m == text[s.start..s.end]
  }

  /** Somewhere in `within` stands the digest of a match that is replaced. */
  ghost predicate HoldsOwnDigest(c: Config, patterns: seq<Pattern>, text: string, within: string)
    requires ValidPatterns(patterns)
  {
    exists m | Replaced(c, patterns, text, m) :: Contains(within, c.digest(m))
  }

  lemma SubstitutionLeavesDigest(c: Config, p: Pattern, text: string) returns (m: string)
    requires c.mode.Hash? && p.find(text) != [] && Ordered(p.find(text), 0, |text|)
    ensures Matched(p, text, m) && Contains(Substitute(c, p.name, text, p.find(text), 0), c.digest(m))
  {
    var spans := p.find(text);
    var s := spans[0];
    m := text[s.start..s.end];
    var front, digest := text[0..s.start], c.digest(m);
    var rest := Substitute(c, p.name, text, spans[1..], s.end);
    assert (front + digest + rest)[|front|..|front| + |digest|] == digest;
    ContainsAtPlace(front + digest + rest, digest, |front|);
  }

  /** Either nothing matched and the text is as it was, or the digest of a replaced match stands in it. */
  lemma {:induction false} QuietOrDigest(c: Config, patterns: seq<Pattern>, text: string)
    requires c.mode.Hash? && ValidPatterns(patterns)
    ensures Quiet(patterns, text) ==> RedactWith(c, patterns, text) == text
    ensures !Quiet(patterns, text) ==> HoldsOwnDigest(c, patterns, text, RedactWith(c, patterns, text))
  {
    if patterns != [] {
      var front, p := patterns[..|patterns| - 1], patterns[|patterns| - 1];
      QuietOrDigest(c, front, text);
      SplitLast(patterns);
      assert Quiet(patterns, text) <==> Quiet(front, text) && p.find(text) == [];
      var before := RedactWith(c, front, text);
      if p.find(before) == [] {
        assert before[0..] == before;
        if !Quiet(front, text) {
          var m :| Replaced(c, front, text, m) && Contains(before, c.digest(m));
          assert Replaced(c, patterns, text, m);
        }
      } else {
        var m := SubstitutionLeavesDigest(c, p, before);
        assert Replaced(c, patterns, text, m);
      }
    }
  }

  /** A text that shows no placeholder and in which the digest of none of its own replaced matches stands. */
  ghost predicate Fresh(c: Config, text: string)
    requires ValidPatterns(c.patterns)
  {
    !Marked(text) && !HoldsOwnDigest(c, c.patterns, text, text)
  }

  /** A digest is sixteen hexadecimal digits in a row; a text without such a run holds none. */
  lemma DigestIsRun(c: Config, text: string)
    requires IsDigest(c.digest) && ValidPatterns(c.patterns) && HoldsOwnDigest(c, c.patterns, text, text)
    ensures HasRun(text)
  {
    var m :| Replaced(c, c.patterns, text, m) && Contains(text, c.digest(m));
    HexIsRun(text, c.digest(m));
  }

  lemma HexIsRun(text: string, part: string)
    requires |part| == 16 && AllHex(part) && Contains(text, part)
    ensures HasRun(text)
  {
    var i :| 0 <= i <= |text| && OccursAt(text, part, i);
    assert RunAt(text, i);
  }

  /** A fresh text passes the strict check in hash mode exactly when no pattern matches it. */
  lemma HashTextMarkedIff(c: Config, text: string)
    requires c.mode.Hash? && IsDigest(c.digest) && ValidPatterns(c.patterns) && Fresh(c, text)
    ensures TextMarked(c, text) <==> Quiet(c.patterns, text)
  {
    HashMarksNothing(c, text);
    QuietOrDigest(c, c.patterns, text);
  }

  /** Every text the rewrite reaches is fresh. */
  ghost predicate FreshField(c: Config, v: Value)
    requires ValidPatterns(c.patterns)
    decreases v
  {
    match v
    case Str(text) => Fresh(c, text)
    case Dict(entries) => forall e | e in entries :: FreshField(c, e.value)
    case List(items) => forall x | x in items :: x.List? || FreshField(c, x)
    case _ => true
  }

  /** No text the rewrite reaches shows a placeholder or sixteen hexadecimal digits in a row. */
  ghost predicate NoRunField(v: Value)
    decreases v
  {
    match v
    case Str(text) => !Marked(text) && !HasRun(text)
    case Dict(entries) => forall e | e in entries :: NoRunField(e.value)
    case List(items) => forall x | x in items :: x.List? || NoRunField(x)
    case _ => true
  }

  lemma {:induction false} NoRunIsFresh(c: Config, v: Value)
    requires IsDigest(c.digest) && ValidPatterns(c.patterns) && NoRunField(v)
    ensures FreshField(c, v)
    decreases v
  {
    match v
    case Str(text) =>
      if HoldsOwnDigest(c, c.patterns, text, text) {
        DigestIsRun(c, text);
      }
    case Dict(entries) =>
      forall e | e in entries ensures FreshField(c, e.value) {
        NoRunIsFresh(c, e.value);
      }
    case List(items) =>
      forall x | x in items && !x.List? ensures FreshField(c, x) {
        NoRunIsFresh(c, x);
      }
    case _ =>
  }

  /** No pattern matches a text the rewrite reaches. */
  ghost predicate QuietField(c: Config, v: Value)
    decreases v
  {
    match v
    case Str(text) => Quiet(c.patterns, text)
    case Dict(entries) => forall e | e in entries :: QuietField(c, e.value)
    case List(items) => forall x | x in items :: x.List? || QuietField(c, x)
    case _ => true
  }

  lemma {:induction false} HashFieldMarkedIff(c: Config, v: Value)
    requires c.mode.Hash? && IsDigest(c.digest) && ValidPatterns(c.patterns) && FreshField(c, v)
    ensures FieldMarked(c, v) <==> QuietField(c, v)
    decreases v
  {
    match v
    case Str(text) => HashTextMarkedIff(c, text);
    case Dict(entries) =>
      forall e | e in entries ensures FieldMarked(c, e.value) <==> QuietField(c, e.value) {
        HashFieldMarkedIff(c, e.value);
      }
    case List(items) =>
      forall x | x in items && !x.List? ensures FieldMarked(c, x) <==> QuietField(c, x) {
        HashFieldMarkedIff(c, x);
      }
    case _ =>
  }

  /** The strict check accepts a hash-mode rewrite of fresh texts exactly when no pattern matches any of them. */
  lemma HashModeAcceptedIff(c: Config, entries: seq<Entry>, show: Value -> string)
    requires c.mode.Hash? && IsDigest(c.digest) && ValidPatterns(c.patterns) && ShowsTexts(show)
    requires WellFormedEntries(entries) && FreshField(c, Dict(entries))
    ensures CheckValue([], Dict(entries), Dict(RedactEntries(c, entries)), true, show) == [] <==>
            QuietField(c, Dict(entries))
  {
    FieldAccepted(c, [], Dict(entries), true, show);
    HashFieldMarkedIff(c, Dict(entries));
  }

  /** The same under what a caller can test on the texts alone. */
  lemma HashModeAcceptedWithoutRuns(c: Config, entries: seq<Entry>, show: Value -> string)
    requires c.mode.Hash? && IsDigest(c.digest) && ValidPatterns(c.patterns) && ShowsTexts(show)
    requires WellFormedEntries(entries) && NoRunField(Dict(entries))
    ensures CheckValue([], Dict(entries), Dict(RedactEntries(c, entries)), true, show) == [] <==>
            QuietField(c, Dict(entries))
  {
    NoRunIsFresh(c, Dict(entries));
    HashModeAcceptedIff(c, entries, show);
  }

  /** In particular, a fresh text that some pattern matches is refused. */
  lemma HashModeRefused(c: Config, key: string, text: string, show: Value -> string)
    requires c.mode.Hash? && IsDigest(c.digest) && ValidPatterns(c.patterns) && ShowsTexts(show)
    requires Fresh(c, text) && !Quiet(c.patterns, text)
    ensures var entries := [Entry(key, Str(text))];
            CheckValue([], Dict(entries), Dict(RedactEntries(c, entries)), true, show) != []
  {
    var entries := [Entry(key, Str(text))];
    assert entries[0] in entries && !QuietField(c, entries[0].value);
    HashModeAcceptedIff(c, entries, show);
  }

  lemma ShortIsUnmarked(text: string)
    requires |text| < |PLACEHOLDER_PII|
    ensures !Marked(text)
  {
  }

  /** A key that is matched as a whole, of hexadecimal digits or not, is refused unless it is its own digest. */
  lemma WholeMatchRefusedIff(c: Config, p: Pattern, key: string, text: string, show: Value -> string)
    requires c.mode.Hash? && IsDigest(c.digest) && c.patterns == [p] && ValidPatterns([p]) && ShowsTexts(show)
    requires p.find(text) == [Span(0, |text|)] && !Marked(text)
    ensures var entries := [Entry(key, Str(text))];
            CheckValue([], Dict(entries), Dict(RedactEntries(c, entries)), true, show) != [] <==>
            c.digest(text) != text
  {
    var entries := [Entry(key, Str(text))];
    WholeMatchBecomesDigest(c, p, text);
    HashMarksNothing(c, text);
    FieldAccepted(c, [], Dict(entries), true, show);
    assert entries[0] in entries;
    assert FieldMarked(c, Dict(entries)) <==> TextMarked(c, text);
  }

  lemma WholeMatchBecomesDigest(c: Config, p: Pattern, text: string)
    requires c.mode.Hash? && c.patterns == [p] && ValidPatterns([p]) && p.find(text) == [Span(0, |text|)]
    ensures RedactText(c, text) == c.digest(text)
  {
    assert [] + [p] == c.patterns;
    AppendPattern(c, [], p, text, "", []);
    SubstituteWhole(c, p.name, text);
  }

  lemma SubstituteWhole(c: Config, name: string, text: string)
    ensures Substitute(c, name, text, [Span(0, |text|)], 0) == Replacement(c, name, text)
  {
    assert [Span(0, |text|)][1..] == [];
    assert text[0..|text|] == text && text[0..0] == [] && text[|text|..] == [];
  }

  /** One pattern that matches any whole nonempty text. */
  function SampleHashConfig(digest: string -> string): Config {
    Config(Hash, [Pattern("api_key", t => if t == "" then [] else [Span(0, |t|)])], digest)
  }

  /** A refusal in hash mode, whatever the digest is. */
  lemma HashModeRefusedExample(digest: string -> string, show: Value -> string)
    requires IsDigest(digest) && ShowsTexts(show)
    ensures var c, entries := SampleHashConfig(digest), [Entry("k", Str("secret"))];
            && ValidPatterns(c.patterns) && RedactText(c, "secret") == digest("secret")
            && CheckValue([], Dict(entries), Dict(RedactEntries(c, entries)), true, show) != []
  {
    var c := SampleHashConfig(digest);
    var secret := "secret";
    SampleIsValid(digest);
    ShortIsUnmarked(secret);
    WholeMatchBecomesDigest(c, c.patterns[0], secret);
    WholeMatchRefusedIff(c, c.patterns[0], "k", secret, show);
  }

  lemma SampleIsValid(digest: string -> string)
    ensures var c := SampleHashConfig(digest);
            |c.patterns| == 1 && ValidPatterns(c.patterns) && ValidPatterns([c.patterns[0]])
            && c.patterns == [c.patterns[0]]
            && c.patterns[0].find("secret") == [Span(0, 6)] && !Quiet(c.patterns, "secret")
  {
    var c := SampleHashConfig(digest);
    assert c.patterns[0] in c.patterns;
  }

  // ------------------------------------------------------------------------ the redactor

  function Child(surface: string, key: string): string {
    if surface == "" then key else surface + "." + key
  }

  function EntriesAudits(c: Config, entries: seq<Entry>, surface: string): seq<Audit>
    requires ValidPatterns(c.patterns)
    decreases entries, 0
  {
    if entries == [] then []
    else
      var n := |entries| - 1;
      EntriesAudits(c, entries[..n], surface) + FieldAudits(c, entries[n].value, surface, entries[n].key)
  }

  function FieldAudits(c: Config, v: Value, surface: string, key: string): seq<Audit>
    requires ValidPatterns(c.patterns)
    decreases v, 1
  {
    match v
    case Str(text) => TextAudits(c, text, Child(surface, key))
    case Dict(entries) => EntriesAudits(c, entries, Child(surface, key))
    case List(items) => ItemsAudits(c, items, surface + "." + key + "[i]")
    case _ => []
  }

  function ItemsAudits(c: Config, items: seq<Value>, surface: string): seq<Audit>
    requires ValidPatterns(c.patterns)
    decreases items, 0
  {
    if items == [] then []
    else
      var n := |items| - 1;
      ItemsAudits(c, items[..n], surface) + ItemAudits(c, items[n], surface)
  }

  // ------------------------------------------------------------ what the audits name, by paths

  /** The surface a text is audited under: keys joined by dots, and a key with "[i]" for anything in its list. */
  ghost function SurfaceAt(surface: string, path: seq<PathPart>): string
    decreases |path|
  {
    if path == [] then surface
    else
      match path[0]
      case Index(_) => SurfaceAt(surface, path[1..])
      case Field(key) =>
        if |path| > 1 && path[1].Index? then SurfaceAt(surface + "." + key + "[i]", path[1..])
        else SurfaceAt(if surface == "" then key else surface + "." + key, path[1..])
  }

  lemma SurfaceUnfolds(surface: string, part: PathPart, path: seq<PathPart>)
    ensures part.Index? ==> SurfaceAt(surface, [part] + path) == SurfaceAt(surface, path)
    ensures part.Field? && path != [] && path[0].Index? ==>
              SurfaceAt(surface, [part] + path) == SurfaceAt(surface + "." + part.key + "[i]", path)
    ensures part.Field? && (path == [] || path[0].Field?) ==>
              SurfaceAt(surface, [part] + path) == SurfaceAt(Child(surface, part.key), path)
  {
    assert ([part] + path)[1..] == path;
  }

  /** The audit belongs to a text at this path, which the rewrite reaches. */
  ghost predicate AuditAt(c: Config, v: Value, surface: string, path: seq<PathPart>, a: Audit)
    requires ValidPatterns(c.patterns)
  {
    match Descend(v, path)
    case Some(Str(text)) => !ListInList(path) && a in TextAudits(c, text, SurfaceAt(surface, path))
    case _ => false
  }

  /** The same below a field's value and below a list's item. */
  ghost predicate FieldAuditAt(c: Config, v: Value, surface: string, key: string, path: seq<PathPart>, a: Audit)
    requires ValidPatterns(c.patterns)
  {
    match Descend(v, path)
    case Some(Str(text)) => !ListInList(path) && a in TextAudits(c, text, SurfaceAt(surface, [Field(key)] + path))
    case _ => false
  }

  ghost predicate ItemAuditAt(c: Config, v: Value, surface: string, path: seq<PathPart>, a: Audit)
    requires ValidPatterns(c.patterns)
  {
    AuditAt(c, v, surface, path, a) && (path == [] || path[0].Field?)
  }

  lemma {:induction false} SomeEntryAudits(c: Config, entries: seq<Entry>, surface: string, a: Audit)
    requires ValidPatterns(c.patterns)
    ensures a in EntriesAudits(c, entries, surface) <==>
            exists e | e in entries :: a in FieldAudits(c, e.value, surface, e.key)
  {
    if entries != [] {
      SomeEntryAudits(c, entries[..|entries| - 1], surface, a);
      SplitLast(entries);
    }
  }

  lemma {:induction false} SomeItemAudits(c: Config, items: seq<Value>, surface: string, a: Audit)
    requires ValidPatterns(c.patterns)
    ensures a in ItemsAudits(c, items, surface) <==> exists v | v in items :: a in ItemAudits(c, v, surface)
  {
    if items != [] {
      var n := |items| - 1;
      SomeItemAudits(c, items[..n], surface, a);
      LastItemAudits(c, items, surface);
      InLast(ItemsAudits(c, items[..n], surface), ItemAudits(c, items[n], surface), a);
      ItemsSplit(items);
    }
  }

  lemma LastItemAudits(c: Config, items: seq<Value>, surface: string)
    requires ValidPatterns(c.patterns) && items != []
    ensures var n := |items| - 1;
            ItemsAudits(c, items, surface) == ItemsAudits(c, items[..n], surface) + ItemAudits(c, items[n], surface)
  {
  }

  lemma InLast<T>(front: seq<T>, last: seq<T>, x: T)
    ensures x in front + last <==> x in front || x in last
  {
  }

  lemma ItemsSplit(items: seq<Value>)
    requires items != []
    ensures forall v :: v in items <==> v in items[..|items| - 1] || v == items[|items| - 1]
  {
    SplitLast(items);
  }

  /** The audits of a dictionary are those of the texts the rewrite reaches, each under the surface of its path. */
  lemma {:induction false} AuditIff(c: Config, entries: seq<Entry>, surface: string, a: Audit)
    requires ValidPatterns(c.patterns) && WellFormedEntries(entries)
    ensures a in EntriesAudits(c, entries, surface) <==> exists path :: AuditAt(c, Dict(entries), surface, path, a)
    decreases entries, 0
  {
    SomeEntryAudits(c, entries, surface, a);
    if a in EntriesAudits(c, entries, surface) {
      var e :| e in entries && a in FieldAudits(c, e.value, surface, e.key);
      FieldAuditIff(c, e.value, surface, e.key, a);
      var path :| FieldAuditAt(c, e.value, surface, e.key, path, a);
      EntryPath(c, entries, e, surface, path, a);
      assert AuditAt(c, Dict(entries), surface, [Field(e.key)] + path, a);
    }
    if path :| AuditAt(c, Dict(entries), surface, path, a) {
      var e := PathEntry(c, entries, surface, path, a);
      FieldAuditIff(c, e.value, surface, e.key, a);
      assert FieldAuditAt(c, e.value, surface, e.key, path[1..], a);
    }
  }

  lemma EntryPath(c: Config, entries: seq<Entry>, e: Entry, surface: string, path: seq<PathPart>, a: Audit)
    requires ValidPatterns(c.patterns) && WellFormedEntries(entries) && e in entries
    ensures FieldAuditAt(c, e.value, surface, e.key, path, a) <==>
            AuditAt(c, Dict(entries), surface, [Field(e.key)] + path, a)
  {
    var i :| 0 <= i < |entries| && entries[i] == e;
    FindInWellFormed(entries, i);
    DescendCons(Dict(entries), Field(e.key), path);
    ListInListUnfolds(Field(e.key), path);
  }

  lemma PathEntry(c: Config, entries: seq<Entry>, surface: string, path: seq<PathPart>, a: Audit) returns (e: Entry)
    requires ValidPatterns(c.patterns) && WellFormedEntries(entries) && AuditAt(c, Dict(entries), surface, path, a)
    ensures path != [] && e in entries && FieldAuditAt(c, e.value, surface, e.key, path[1..], a)
  {
    var part, rest := path[0], path[1..];
    assert path == [part] + rest;
    DescendCons(Dict(entries), part, rest);
    FindIsIn(entries, part.key);
    e :| e in entries && e.key == part.key && e.value == Find(entries, part.key).value;
    EntryPath(c, entries, e, surface, rest, a);
  }

  lemma {:induction false} FieldAuditIff(c: Config, v: Value, surface: string, key: string, a: Audit)
    requires ValidPatterns(c.patterns) && WellFormed(v)
    ensures a in FieldAudits(c, v, surface, key) <==> exists path :: FieldAuditAt(c, v, surface, key, path, a)
    decreases v, 1
  {
    match v
    case Str(text) =>
      SurfaceUnfolds(surface, Field(key), []);
      assert FieldAuditAt(c, v, surface, key, [], a) <==> a in FieldAudits(c, v, surface, key);
      OnlyRootAudits(c, v, surface, key, a);
    case Dict(entries) =>
      AuditIff(c, entries, Child(surface, key), a);
      forall path ensures FieldAuditAt(c, v, surface, key, path, a) <==> AuditAt(c, v, Child(surface, key), path, a) {
        DictPath(c, v, surface, key, path, a);
      }
    case List(items) =>
      SomeItemAudits(c, items, surface + "." + key + "[i]", a);
      ListAuditIff(c, items, surface, key, a);
    case _ =>
      OnlyRootAudits(c, v, surface, key, a);
  }

  lemma OnlyRootAudits(c: Config, v: Value, surface: string, key: string, a: Audit)
    requires ValidPatterns(c.patterns) && !v.Dict? && !v.List?
    ensures forall path | FieldAuditAt(c, v, surface, key, path, a) :: path == []
  {
  }

  lemma DictPath(c: Config, v: Value, surface: string, key: string, path: seq<PathPart>, a: Audit)
    requires ValidPatterns(c.patterns) && v.Dict?
    ensures FieldAuditAt(c, v, surface, key, path, a) <==> AuditAt(c, v, Child(surface, key), path, a)
  {
    SurfaceUnfolds(surface, Field(key), path);
  }

  lemma {:induction false} ListAuditIff(c: Config, items: seq<Value>, surface: string, key: string, a: Audit)
    requires ValidPatterns(c.patterns) && forall v | v in items :: WellFormed(v)
    ensures (exists v | v in items :: a in ItemAudits(c, v, surface + "." + key + "[i]")) <==>
            exists path :: FieldAuditAt(c, List(items), surface, key, path, a)
    decreases items, 0
  {
    var inside := surface + "." + key + "[i]";
    if v :| v in items && a in ItemAudits(c, v, inside) {
      ItemAuditIff(c, v, inside, a);
      var path :| ItemAuditAt(c, v, inside, path, a);
      var i :| 0 <= i < |items| && items[i] == v;
      ItemPath(c, items, i, surface, key, path, a);
    }
    if path :| FieldAuditAt(c, List(items), surface, key, path, a) {
      var i := HeadIndex(items, path);
      ItemPath(c, items, i, surface, key, path[1..], a);
      ItemAuditIff(c, items[i], inside, a);
      assert items[i] in items;
    }
  }

  lemma ItemPath(c: Config, items: seq<Value>, i: nat, surface: string, key: string, path: seq<PathPart>, a: Audit)
    requires ValidPatterns(c.patterns) && i < |items|
    ensures ItemAuditAt(c, items[i], surface + "." + key + "[i]", path, a) <==>
            FieldAuditAt(c, List(items), surface, key, [Index(i)] + path, a)
  {
    DescendCons(List(items), Index(i), path);
    ListInListUnfolds(Index(i), path);
    SurfaceUnfolds(surface, Field(key), [Index(i)] + path);
    SurfaceUnfolds(surface + "." + key + "[i]", Index(i), path);
  }

  lemma HeadIndex(items: seq<Value>, path: seq<PathPart>) returns (i: nat)
    requires Descend(List(items), path).Some? && Descend(List(items), path).value.Str?
    ensures path != [] && i < |items| && path == [Index(i)] + path[1..]
  {
    i := path[0].i;
  }

  lemma {:induction false} ItemAuditIff(c: Config, v: Value, surface: string, a: Audit)
    requires ValidPatterns(c.patterns) && WellFormed(v)
    ensures a in ItemAudits(c, v, surface) <==> exists path :: ItemAuditAt(c, v, surface, path, a)
    decreases v, 1
  {
    if v.Dict? {
      AuditIff(c, v.entries, surface, a);
      DictItemPaths(c, v, surface, a);
    } else {
      PlainItemPaths(c, v, surface, a);
    }
  }

  lemma DictItemPaths(c: Config, v: Value, surface: string, a: Audit)
    requires ValidPatterns(c.patterns) && v.Dict?
    ensures forall path :: AuditAt(c, v, surface, path, a) <==> ItemAuditAt(c, v, surface, path, a)
  {
  }

  lemma PlainItemPaths(c: Config, v: Value, surface: string, a: Audit)
    requires ValidPatterns(c.patterns) && !v.Dict?
    ensures a in ItemAudits(c, v, surface) <==> exists path :: ItemAuditAt(c, v, surface, path, a)
  {
    forall path | ItemAuditAt(c, v, surface, path, a) ensures path == [] {
    }
    assert ItemAuditAt(c, v, surface, [], a) <==> v.Str? && a in TextAudits(c, v.text, surface);
  }

  lemma PatternPrefixValid(patterns: seq<Pattern>, n: nat)
    requires ValidPatterns(patterns) && n <= |patterns|
    ensures ValidPatterns(patterns[..n])
  {
  }

  lemma AppendEntry(c: Config, entries: seq<Entry>, e: Entry, surface: string, start: seq<Audit>)
    requires ValidPatterns(c.patterns)
    ensures RedactEntries(c, entries + [e]) == RedactEntries(c, entries) + [Entry(e.key, RedactField(c, e.value))]
    ensures start + EntriesAudits(c, entries + [e], surface) ==
            start + EntriesAudits(c, entries, surface) + FieldAudits(c, e.value, surface, e.key)
  {
    InitOfAppend(entries, e);
    Regroup(start, EntriesAudits(c, entries, surface), FieldAudits(c, e.value, surface, e.key));
  }

  function ItemAudits(c: Config, v: Value, surface: string): seq<Audit>
    requires ValidPatterns(c.patterns)
    decreases v, 1
  {
    match v
    case Str(text) => TextAudits(c, text, surface)
    case Dict(entries) => EntriesAudits(c, entries, surface)
    case _ => []
  }

  lemma AppendItem(c: Config, items: seq<Value>, v: Value, surface: string, start: seq<Audit>)
    requires ValidPatterns(c.patterns)
    ensures RedactItems(c, items + [v]) == RedactItems(c, items) + [RedactItem(c, v)]
    ensures start + ItemsAudits(c, items + [v], surface)
        == start + ItemsAudits(c, items, surface) + ItemAudits(c, v, surface)
  {
    InitOfAppend(items, v);
    Regroup(start, ItemsAudits(c, items, surface), ItemAudits(c, v, surface));
  }

  lemma AppendPattern(c: Config, patterns: seq<Pattern>, p: Pattern, text: string, surface: string, start: seq<Audit>)
    requires ValidPatterns(patterns + [p]) && ValidPatterns(patterns)
    ensures var before := RedactWith(c, patterns, text);
            var spans := p.find(before);
            && Ordered(spans, 0, |before|)
            && RedactWith(c, patterns + [p], text) == Substitute(c, p.name, before, spans, 0)
            && (spans == [] ==> Substitute(c, p.name, before, spans, 0) == before)
            && start + AuditsWith(c, patterns + [p], text, surface) ==
               start + AuditsWith(c, patterns, text, surface)
               + if spans == [] then [] else [Audit(p.name, |spans|, Locations(surface))]
  {
    InitOfAppend(patterns, p);
    assert p in patterns + [p];
    var before := RedactWith(c, patterns, text);
    assert before[0..] == before;
    var spans := p.find(before);
    Regroup(start, AuditsWith(c, patterns, text, surface),
        if spans == [] then [] else [Audit(p.name, |spans|, Locations(surface))]);
  }

  lemma NextPattern(c: Config, patterns: seq<Pattern>, i: nat, text: string, surface: string, start: seq<Audit>)
    requires ValidPatterns(patterns) && i < |patterns|
    ensures ValidPatterns(patterns[..i]) && ValidPatterns(patterns[..i + 1])
    ensures var before := RedactWith(c, patterns[..i], text);
            var spans := patterns[i].find(before);
            && Ordered(spans, 0, |before|)
            && RedactWith(c, patterns[..i + 1], text) == Substitute(c, patterns[i].name, before, spans, 0)
            && (spans == [] ==> Substitute(c, patterns[i].name, before, spans, 0) == before)
            && start + AuditsWith(c, patterns[..i + 1], text, surface) ==
               start + AuditsWith(c, patterns[..i], text, surface)
               + if spans == [] then [] else [Audit(patterns[i].name, |spans|, Locations(surface))]
  {
    PatternPrefixValid(patterns, i);
    PatternPrefixValid(patterns, i + 1);
    TakeOneMore(patterns, i);
    AppendPattern(c, patterns[..i], patterns[i], text, surface, start);
  }

  lemma NextEntry(c: Config, data: seq<Entry>, n: nat, surface: string, start: seq<Audit>)
    requires ValidPatterns(c.patterns) && n < |data|
    ensures RedactEntries(c, data[..n + 1])
        == RedactEntries(c, data[..n]) + [Entry(data[n].key, RedactField(c, data[n].value))]
    ensures start + EntriesAudits(c, data[..n + 1], surface) ==
            start + EntriesAudits(c, data[..n], surface) + FieldAudits(c, data[n].value, surface, data[n].key)
  {
    TakeOneMore(data, n);
    AppendEntry(c, data[..n], data[n], surface, start);
  }

  ghost predicate DictSoFar(
      c: Config, data: seq<Entry>, n: nat, surface: string, start: seq<Audit>, result: seq<Entry>, audits: seq<Audit>)
    requires ValidPatterns(c.patterns)
  {
    n <= |data| && result == RedactEntries(c, data[..n]) && audits == start + EntriesAudits(c, data[..n], surface)
  }

  lemma DictStarts(c: Config, data: seq<Entry>, surface: string, start: seq<Audit>)
    requires ValidPatterns(c.patterns)
    ensures DictSoFar(c, data, 0, surface, start, [], start)
  {
    assert start + [] == start;
  }

  lemma DictEnds(
      c: Config, data: seq<Entry>, surface: string, start: seq<Audit>, result: seq<Entry>, audits: seq<Audit>)
    requires ValidPatterns(c.patterns) && DictSoFar(c, data, |data|, surface, start, result, audits)
    ensures result == RedactEntries(c, data) && audits == start + EntriesAudits(c, data, surface)
  {
    assert data[..|data|] == data;
  }

  lemma DictNext(
      c: Config, data: seq<Entry>, n: nat, surface: string, start: seq<Audit>, result: seq<Entry>, audits: seq<Audit>,
      v: Value, more: seq<Audit>)
    requires ValidPatterns(c.patterns) && n < |data| && DictSoFar(c, data, n, surface, start, result, audits)
    requires v == RedactField(c, data[n].value)
    requires more == audits + FieldAudits(c, data[n].value, surface, data[n].key)
    ensures DictSoFar(c, data, n + 1, surface, start, result + [Entry(data[n].key, v)], more)
  {
    NextEntry(c, data, n, surface, start);
  }

  lemma NextItem(c: Config, items: seq<Value>, n: nat, surface: string, start: seq<Audit>)
    requires ValidPatterns(c.patterns) && n < |items|
    ensures RedactItems(c, items[..n + 1]) == RedactItems(c, items[..n]) + [RedactItem(c, items[n])]
    ensures start + ItemsAudits(c, items[..n + 1], surface) ==
            start + ItemsAudits(c, items[..n], surface) + ItemAudits(c, items[n], surface)
  {
    TakeOneMore(items, n);
    AppendItem(c, items[..n], items[n], surface, start);
  }

  ghost predicate TextSoFar(
      c: Config, patterns: seq<Pattern>, n: nat, text: string, surface: string, start: seq<Audit>, result: string,
      audits: seq<Audit>)
  {
    && n <= |patterns| && ValidPatterns(patterns[..n])
    && result == RedactWith(c, patterns[..n], text)
    && audits == start + AuditsWith(c, patterns[..n], text, surface)
  }

  lemma TextStarts(c: Config, patterns: seq<Pattern>, text: string, surface: string, start: seq<Audit>)
    ensures TextSoFar(c, patterns, 0, text, surface, start, text, start)
  {
    assert start + [] == start;
  }

  lemma TextNext(
      c: Config, patterns: seq<Pattern>, n: nat, text: string, surface: string, start: seq<Audit>, result: string,
      audits: seq<Audit>)
    requires ValidPatterns(patterns) && n < |patterns|
    requires TextSoFar(c, patterns, n, text, surface, start, result, audits)
    ensures var p := patterns[n];
            var spans := p.find(result);
            && Ordered(spans, 0, |result|)
            && (spans == [] ==> TextSoFar(c, patterns, n + 1, text, surface, start, result, audits))
            && (spans != [] ==> TextSoFar(c, patterns, n + 1, text, surface, start,
                                          Substitute(c, p.name, result, spans, 0),
                                          audits + [Audit(p.name, |spans|, Locations(surface))]))
  {
    NextPattern(c, patterns, n, text, surface, start);
    assert audits + [] == audits;
  }

  lemma TextEnds(c: Config, text: string, surface: string, start: seq<Audit>, result: string, audits: seq<Audit>)
    requires ValidPatterns(c.patterns) && !c.mode.Skip?
    requires TextSoFar(c, c.patterns, |c.patterns|, text, surface, start, result, audits)
    ensures result == RedactText(c, text) && audits == start + TextAudits(c, text, surface)
    ensures IsRedaction(c, text, surface, result, TextAudits(c, text, surface))
  {
    assert c.patterns[..|c.patterns|] == c.patterns;
    TextIsRedacted(c, text, surface);
  }

  class SecretsRedactor {
    const digest: string -> string
    var mode: Mode
    var patterns: seq<Pattern>
    var audits: seq<Audit>

    constructor (m: Mode, builtin: seq<Pattern>, sha: string -> string)
      ensures mode == m && audits == [] && digest == sha && patterns == builtin
    {
      digest, mode, patterns, audits := sha, m, builtin, [];
    }

    ghost function Settings(): Config
      reads this
    {
      Config(mode, patterns, digest)
    }

    method RedactString(text: string, surface: string) returns (result: string)
      requires ValidPatterns(patterns)
      modifies this`audits
      ensures result == RedactText(Settings(), text)
      ensures audits == old(audits) + TextAudits(Settings(), text, surface)
      ensures IsRedaction(Settings(), text, surface, result, TextAudits(Settings(), text, surface))
    {
      if mode.Skip? {
        TextIsRedacted(Settings(), text, surface);
        return text;
      }
      var c := Config(mode, patterns, digest);
      result := text;
      TextStarts(c, patterns, text, surface, audits);
      for i := 0 to |patterns|
        invariant TextSoFar(c, patterns, i, text, surface, old(audits), result, audits)
      {
        var p := patterns[i];
        TextNext(c, patterns, i, text, surface, old(audits), result, audits);
        var matches := p.find(result);
        if |matches| == 0 {
          continue;
        }
        audits := audits + [Audit(p.name, |matches|, Locations(surface))];
        result := SpliceRightToLeft(c, p.name, result, matches);
      }
      TextEnds(c, text, surface, old(audits), result, audits);
    }

    method RedactDict(data: seq<Entry>, surface: string) returns (result: seq<Entry>)
      requires ValidPatterns(patterns)
      modifies this`audits
      ensures result == RedactEntries(Settings(), data)
      ensures forall path ::
                RedactedAt(Settings(), Descend(Dict(data), path), Descend(Dict(result), path), ListInList(path))
      ensures audits == old(audits) + EntriesAudits(Settings(), data, surface)
      decreases data, 0
    {
      result := [];
      ghost var c := Settings();
      DictStarts(c, data, surface, audits);
      for n := 0 to |data|
        invariant DictSoFar(c, data, n, surface, old(audits), result, audits)
      {
        var e := data[n];
        ghost var before := audits;
        var v := RedactOne(e.value, surface, e.key);
        DictNext(c, data, n, surface, old(audits), result, before, v, audits);
        result := result + [Entry(e.key, v)];
      }
      DictEnds(c, data, surface, old(audits), result, audits);
      forall path ensures RedactedAt(c, Descend(Dict(data), path), Descend(Dict(result), path), ListInList(path)) {
        FieldRedactedAt(c, Dict(data), path);
      }
    }

    method RedactOne(v: Value, surface: string, key: string) returns (r: Value)
      requires ValidPatterns(patterns)
      modifies this`audits
      ensures r == RedactField(Settings(), v)
      ensures audits == old(audits) + FieldAudits(Settings(), v, surface, key)
      decreases v, 1
    {
      match v
      case Str(text) =>
        var s := RedactString(text, Child(surface, key));
        r := Str(s);
      case Dict(entries) =>
        var d := RedactDict(entries, Child(surface, key));
        r := Dict(d);
      case List(items) =>
        var l := RedactList(items, surface + "." + key + "[i]");
        r := List(l);
      case _ =>
        r := v;
    }

    method RedactList(items: seq<Value>, surface: string) returns (result: seq<Value>)
      requires ValidPatterns(patterns)
      modifies this`audits
      ensures result == RedactItems(Settings(), items)
      ensures audits == old(audits) + ItemsAudits(Settings(), items, surface)
      decreases items, 0
    {
      result := [];
      ghost var c := Settings();
      for n := 0 to |items|
        invariant result == RedactItems(c, items[..n])
        invariant audits == old(audits) + ItemsAudits(c, items[..n], surface)
      {
        NextItem(c, items, n, surface, old(audits));
        var item := RedactListItem(items[n], surface);
        result := result + [item];
      }
      assert items[..|items|] == items;
    }

    /** Only texts and dictionaries directly inside a list are redacted. */
    method RedactListItem(item: Value, surface: string) returns (r: Value)
      requires ValidPatterns(patterns)
      modifies this`audits
      ensures r == RedactItem(Settings(), item)
      ensures audits == old(audits) + ItemAudits(Settings(), item, surface)
      decreases item, 1
    {
      match item
      case Str(text) =>
        var s := RedactString(text, surface);
        r := Str(s);
      case Dict(entries) =>
        var d := RedactDict(entries, surface);
        r := Dict(d);
      case _ =>
        r := item;
    }
  }

  lemma OneMoreEntry(
      path: seq<PathPart>, orig: seq<Entry>, i: nat, redacted: seq<Entry>, strict: bool, show: Value -> string,
      found: seq<Violation>)
    requires i < |orig|
    ensures found + CheckEntries(path, orig[..i + 1], redacted, strict, show) ==
            (found + CheckEntries(path, orig[..i], redacted, strict, show))
                + EntryViolations(path, orig[i], redacted, strict, show)
  {
    assert orig[..i + 1][..i] == orig[..i];
    Regroup(found, CheckEntries(path, orig[..i], redacted, strict, show),
        EntryViolations(path, orig[i], redacted, strict, show));
  }

  lemma OneMoreItem(
      path: seq<PathPart>, orig: seq<Value>, i: nat, redacted: seq<Value>, strict: bool, show: Value -> string,
      found: seq<Violation>)
    requires i < |orig| && i < |redacted|
    ensures found + CheckItems(path, orig[..i + 1], redacted, strict, show) ==
            (found + CheckItems(path, orig[..i], redacted, strict, show))
                + CheckValue(path + [Index(i)], orig[i], redacted[i], strict, show)
  {
    assert orig[..i + 1][..i] == orig[..i];
    Regroup(found, CheckItems(path, orig[..i], redacted, strict, show),
        CheckValue(path + [Index(i)], orig[i], redacted[i], strict, show));
  }

  /** The recursive check, appending to the violations it is given. */
  method CheckDict(
      path: seq<PathPart>, orig: Value, redacted: Value, strict: bool, show: Value -> string, found: seq<Violation>)
    returns (violations: seq<Violation>)
    ensures violations == found + CheckValue(path, orig, redacted, strict, show)
    decreases orig
  {
    violations := found;
    if orig.Dict? && redacted.Dict? {
      var entries := orig.entries;
      for i := 0 to |entries|
        invariant violations == found + CheckEntries(path, entries[..i], redacted.entries, strict, show)
      {
        var e := entries[i];
        OneMoreEntry(path, entries, i, redacted.entries, strict, show, found);
        var child := path + [Field(e.key)];
        var other := Find(redacted.entries, e.key);
        if other.None? {
          violations := violations + [Violation(child, Missing)];
          continue;
        }
        violations := CheckDict(child, e.value, other.value, strict, show, violations);
      }
      assert entries[..|entries|] == entries;
    } else if orig.List? && redacted.List? {
      var items := orig.items;
      var n := if |items| < |redacted.items| then |items| else |redacted.items|;
      for i := 0 to n
        invariant violations == found + CheckItems(path, items[..i], redacted.items, strict, show)
      {
        OneMoreItem(path, items, i, redacted.items, strict, show, found);
        violations := CheckDict(path + [Index(i)], items[i], redacted.items[i], strict, show, violations);
      }
      ExtraItemsUnchecked(path, items, redacted.items, n, strict, show);
    } else if orig.Bool? {
      if orig != redacted {
        violations := violations + [Violation(path, BooleanCorruption)];
      }
    } else if orig.Int? || orig.Float? {
      if orig != redacted {
        violations := violations + [Violation(path, NumericCorruption)];
      }
    } else if strict && orig.Str? && orig != redacted {
      if !Marked(show(redacted)) {
        violations := violations + [Violation(path, ChangedWithoutRedaction)];
      }
    }
  }

  /** Items past the shorter list's end are never compared. */
  lemma {:induction false} ExtraItemsUnchecked(
      path: seq<PathPart>, orig: seq<Value>, redacted: seq<Value>, n: nat, strict: bool, show: Value -> string)
    requires n <= |orig| && (n < |orig| ==> n == |redacted|)
    ensures CheckItems(path, orig, redacted, strict, show) == CheckItems(path, orig[..n], redacted, strict, show)
    decreases |orig|
  {
    if n < |orig| {
      var front := orig[..|orig| - 1];
      ExtraItemsUnchecked(path, front, redacted, n, strict, show);
      assert front[..n] == orig[..n];
    } else {
      assert orig[..n] == orig;
    }
  }
}
