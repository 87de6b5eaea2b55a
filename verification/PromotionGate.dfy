/** The promotion gate: the frozen-section and edit-distance checks, and the fail-fast pipeline. */
module PromotionGate {
  import opened Common
  import opened TextOps
  import opened FrozenSections
  import opened FrozenEdits
  import ED = EditDistance

  /** An edit replaces every occurrence of oldText by newText. */
  datatype Edit = Edit(oldText: string, newText: string)

  /** A check's verdict with the value it reports, None for infinity; or the exception it raises. */
  datatype Check = Check(passed: bool, value: Option<int>) | Raised

  // ------------------------------------------------------------------ frozen sections

  /** A section is compared when no names are configured or its name is among them. */
  predicate Compared(name: string, configured: Option<seq<Name>>) {
    configured.None? || configured.value == [] || Name(name) in configured.value
  }

  predicate Applies(edit: Option<Edit>, prompt: string) {
    edit.Some? && edit.value.oldText != "" && Contains(prompt, edit.value.oldText)
  }

  /** A compared block that no longer occurs in the proposed prompt. */
  predicate Violated(name: string, lines: seq<Line>, configured: Option<seq<Name>>, proposed: string) {
    Compared(name, configured) && Join(lines) != "" && !Contains(proposed, Join(lines))
  }

  ghost function Violations(blocks: seq<Block>, configured: Option<seq<Name>>, proposed: string): (n: nat)
    ensures n == 0 <==> forall b | b in blocks :: !Violated(b.name, b.lines, configured, proposed)
  {
    if blocks == [] then 0
    else
      var n := |blocks| - 1;
      SplitLast(blocks);
      Violations(blocks[..n], configured, proposed) +
      if Violated(blocks[n].name, blocks[n].lines, configured, proposed) then 1 else 0
  }

  /** The configured names that no block has. */
  ghost function Missing(blocks: seq<Block>, configured: Option<seq<Name>>): set<Name> {
    if configured.None? then {} else set n | n in configured.value && forall b | b in blocks :: Name(b.name) != n
  }

  /** What the check promises, on the blocks the prompt freezes. */
  ghost predicate FrozenPasses(
      edit: Option<Edit>, prompt: string, configured: Option<seq<Name>>, classify: Classifier) {
    var blocks := Contents(SplitLines(prompt), classify);
    && Missing(blocks, configured) == {} && Applies(edit, prompt)
    && Violations(blocks, configured, Replace(prompt, edit.value.oldText, edit.value.newText)) == 0
  }

  ghost function FrozenValue(
      edit: Option<Edit>, prompt: string, configured: Option<seq<Name>>, classify: Classifier): int {
    var blocks := Contents(SplitLines(prompt), classify);
    if Missing(blocks, configured) != {} then |Missing(blocks, configured)|
    else if !Applies(edit, prompt) then 0
    else Violations(blocks, configured, Replace(prompt, edit.value.oldText, edit.value.newText))
  }

  /**
   * The same outright: every configured name is some block's, the text to replace occurs, and every non-empty block
   * whose name is configured, or any block when no name is, occurs in the text after the replacement.
   */
  ghost predicate BlocksKept(
      edit: Option<Edit>, prompt: string, configured: Option<seq<Name>>, blocks: seq<Block>)
  {
    var names := if configured.Some? then configured.value else [];
    && NamesPresent(names, blocks)
    && edit.Some? && edit.value.oldText != "" && Contains(prompt, edit.value.oldText)
    && AllKept(blocks, names, Replace(prompt, edit.value.oldText, edit.value.newText))
  }

  ghost predicate NamesPresent(names: seq<Name>, blocks: seq<Block>) {
    forall n | n in names :: exists b | b in blocks :: b.name == n.text
  }

  ghost predicate AllKept(blocks: seq<Block>, names: seq<Name>, proposed: string) {
    forall b | b in blocks :: BlockKept(b, names, proposed)
  }

  ghost predicate BlockKept(b: Block, names: seq<Name>, proposed: string) {
    Join(b.lines) != "" && (names == [] || exists n | n in names :: n.text == b.name) ==>
      Contains(proposed, Join(b.lines))
  }

  lemma FrozenPassesMeans(edit: Option<Edit>, prompt: string, configured: Option<seq<Name>>, classify: Classifier)
    ensures FrozenPasses(edit, prompt, configured, classify) <==>
            BlocksKept(edit, prompt, configured, Contents(SplitLines(prompt), classify))
  {
    var blocks := Contents(SplitLines(prompt), classify);
    var names := if configured.Some? then configured.value else [];
    MissingNone(blocks, configured, names);
    if Applies(edit, prompt) {
      NoViolationsIff(blocks, configured, names, Replace(prompt, edit.value.oldText, edit.value.newText));
    }
  }

  lemma NoViolationsIff(blocks: seq<Block>, configured: Option<seq<Name>>, names: seq<Name>, proposed: string)
    requires names == if configured.Some? then configured.value else []
    ensures Violations(blocks, configured, proposed) == 0 <==> AllKept(blocks, names, proposed)
  {
    forall b | b in blocks ensures !Violated(b.name, b.lines, configured, proposed) <==> BlockKept(b, names, proposed) {
      ComparedIff(b.name, configured, names);
    }
  }

  lemma ComparedIff(name: string, configured: Option<seq<Name>>, names: seq<Name>)
    requires names == if configured.Some? then configured.value else []
    ensures Compared(name, configured) <==> names == [] || exists n | n in names :: n.text == name
  {
    if n :| n in names && n.text == name {
      assert n == Name(name);
    }
  }

  lemma MissingNone(blocks: seq<Block>, configured: Option<seq<Name>>, names: seq<Name>)
    requires names == if configured.Some? then configured.value else []
    ensures Missing(blocks, configured) == {} <==> NamesPresent(names, blocks)
  {
    if Missing(blocks, configured) == {} {
      forall n | n in names ensures exists b | b in blocks :: b.name == n.text {
        assert n !in Missing(blocks, configured);
      }
    }
    forall n | n in Missing(blocks, configured) ensures !exists b | b in blocks :: b.name == n.text {
      assert forall b: Block | b.name == n.text :: Name(b.name) == n;
    }
  }

  method CheckFrozenSections(edit: Option<Edit>, prompt: string, configured: Option<seq<Name>>, classify: Classifier)
    returns (r: Check)
    ensures r.Raised? <==> !WellMarked(SplitLines(prompt), classify, |SplitLines(prompt)|)
    ensures r.Check? ==> (r.passed <==> FrozenPasses(edit, prompt, configured, classify))
    ensures r.Check? ==> r.value == Some(FrozenValue(edit, prompt, configured, classify))
    ensures r.Check? ==>
              (r.passed <==> BlocksKept(edit, prompt, configured, Contents(SplitLines(prompt), classify)))
  {
    FrozenPassesMeans(edit, prompt, configured, classify);
    var parsed := ParseFrozenSections(SplitLines(prompt), classify);
    if parsed.MalformedAt? {
      return Raised;
    }
    var missing := MissingNames(parsed.sections, configured);
    if missing > 0 {
      return Check(false, Some(missing));
    }
    if !Applies(edit, prompt) {
      return Check(false, Some(0));
    }
    var proposed := Replace(prompt, edit.value.oldText, edit.value.newText);
    var violations := CountViolations(parsed.sections, configured, proposed);
    r := Check(violations == 0, Some(violations));
  }

  method MissingNames(sections: seq<Section>, configured: Option<seq<Name>>) returns (missing: nat)
    ensures missing == |Missing(Blocks(sections), configured)|
  {
    if configured.None? {
      return 0;
    }
    var names := SectionNames(sections);
    var absent := set n | n in configured.value && n !in names;
    assert absent == Missing(Blocks(sections), configured) by {
      forall n ensures n in names <==> exists b | b in Blocks(sections) :: Name(b.name) == n {
        if n in names {
          var i :| 0 <= i < |names| && names[i] == n;
          assert Blocks(sections)[i] in Blocks(sections);
        }
      }
    }
    missing := |absent|;
  }

  lemma OneMoreBlock(sections: seq<Section>, i: nat, configured: Option<seq<Name>>, proposed: string)
    requires i < |sections|
    ensures Violations(Blocks(sections[..i + 1]), configured, proposed)
        == Violations(Blocks(sections[..i]), configured, proposed)
           + if Violated(sections[i].name, sections[i].lines, configured, proposed) then 1 else 0
  {
    TakeOneMore(sections, i);
    BlocksAppend(sections[..i], sections[i]);
    ViolationsAppend(Blocks(sections[..i]), Block(sections[i].name, sections[i].lines), configured, proposed);
  }

  lemma ViolationsAppend(blocks: seq<Block>, b: Block, configured: Option<seq<Name>>, proposed: string)
    ensures Violations(blocks + [b], configured, proposed)
        == Violations(blocks, configured, proposed)
           + if Violated(b.name, b.lines, configured, proposed) then 1 else 0
  {
    InitOfAppend(blocks, b);
  }

  method CountViolations(
      sections: seq<Section>, configured: Option<seq<Name>>, proposed: string) returns (violations: nat)
    ensures violations == Violations(Blocks(sections), configured, proposed)
  {
    violations := 0;
    for i := 0 to |sections|
      invariant violations == Violations(Blocks(sections[..i]), configured, proposed)
    {
      var s := sections[i];
      OneMoreBlock(sections, i, configured, proposed);
      if !Compared(s.name, configured) {
        continue;
      }
      var block := Join(s.lines);
      if block != "" && !Contains(proposed, block) {
        violations := violations + 1;
      }
    }
    assert sections[..|sections|] == sections;
  }

  /** Where a section's block stands in the prompt. */
  ghost function BlockStart(prompt: string, s: Section): nat {
    LineOffset(prompt, s.start + 1)
  }

  lemma BlockStandsInPrompt(prompt: string, classify: Classifier, s: Section)
    requires Faithful(SplitLines(prompt), classify, s) && Join(s.lines) != ""
    ensures OccursAt(prompt, Join(s.lines), BlockStart(prompt, s))
  {
    StretchStands(prompt, s.lines, s.start + 1, s.end + 1);
  }

  lemma StretchStands(prompt: string, lines: seq<Line>, a: nat, b: nat)
    requires a <= b <= |SplitLines(prompt)| && lines == SplitLines(prompt)[a..b] && Join(lines) != ""
    ensures OccursAt(prompt, Join(lines), LineOffset(prompt, a))
  {
    assert lines != [];
    LinesStandInText(prompt, a, b);
  }

  lemma OccurrenceSurvives(prompt: string, part: string, i: nat, old_: string, new_: string)
    requires part != "" && old_ != "" && OccursAt(prompt, part, i) && Apart(prompt, old_, i, i + |part|)
    ensures Contains(Replace(prompt, old_, new_), part)
  {
    ReplaceKeeps(prompt, old_, new_, i, i + |part|);
  }

  /** No occurrence shares a character with the section's block. */
  ghost predicate BlockApart(prompt: string, s: Section, old_: string) {
    Apart(prompt, old_, BlockStart(prompt, s), BlockStart(prompt, s) + |Join(s.lines)|)
  }

  ghost predicate ComparedApart(prompt: string, sections: seq<Section>, configured: Option<seq<Name>>, old_: string) {
    forall s | s in sections && Compared(s.name, configured) :: BlockApart(prompt, s, old_)
  }

  /** An edit none of whose occurrences overlaps a compared block keeps every block, although all are rewritten. */
  lemma UntouchedBlocksOccur(
      prompt: string, classify: Classifier, sections: seq<Section>, configured: Option<seq<Name>>, edit: Edit)
    requires Describes(SplitLines(prompt), classify, sections, |SplitLines(prompt)|)
    requires edit.oldText != "" && ComparedApart(prompt, sections, configured, edit.oldText)
    ensures Violations(Blocks(sections), configured, Replace(prompt, edit.oldText, edit.newText)) == 0
  {
    forall b | b in Blocks(sections)
      ensures !Violated(b.name, b.lines, configured, Replace(prompt, edit.oldText, edit.newText))
    {
      var i :| 0 <= i < |sections| && Blocks(sections)[i] == b;
      var s := sections[i];
      assert s in sections;
      if Compared(s.name, configured) && Join(s.lines) != "" {
        UntouchedBlockOccurs(prompt, classify, s, edit);
      }
    }
  }

  /** So an edit clear of every compared block passes the check. */
  lemma UntouchedEditPasses(
      prompt: string, classify: Classifier, sections: seq<Section>, configured: Option<seq<Name>>, edit: Edit)
    requires Describes(SplitLines(prompt), classify, sections, |SplitLines(prompt)|)
    requires Blocks(sections) == Contents(SplitLines(prompt), classify)
    requires Applies(Some(edit), prompt) && Missing(Blocks(sections), configured) == {}
    requires ComparedApart(prompt, sections, configured, edit.oldText)
    ensures FrozenPasses(Some(edit), prompt, configured, classify)
  {
    UntouchedBlocksOccur(prompt, classify, sections, configured, edit);
  }

  lemma UntouchedBlockOccurs(prompt: string, classify: Classifier, s: Section, edit: Edit)
    requires Faithful(SplitLines(prompt), classify, s) && Join(s.lines) != "" && edit.oldText != ""
    requires BlockApart(prompt, s, edit.oldText)
    ensures Contains(Replace(prompt, edit.oldText, edit.newText), Join(s.lines))
  {
    BlockStandsInPrompt(prompt, classify, s);
    OccurrenceSurvives(prompt, Join(s.lines), BlockStart(prompt, s), edit.oldText, edit.newText);
  }

  /**
   * The converse fails: an edit may rewrite frozen text and pass, as long as its new text
   * holds every compared block.
   */
  lemma RewrittenBlocksPass(prompt: string, configured: Option<seq<Name>>, classify: Classifier, edit: Edit)
    requires Applies(Some(edit), prompt) && Missing(Contents(SplitLines(prompt), classify), configured) == {}
    requires forall b |
               b in Contents(SplitLines(prompt), classify) && Compared(b.name, configured) && Join(b.lines) != "" ::
               Contains(edit.newText, Join(b.lines))
    ensures FrozenPasses(Some(edit), prompt, configured, classify)
  {
    var proposed := Replace(prompt, edit.oldText, edit.newText);
    ReplaceInserts(prompt, edit.oldText, edit.newText);
    forall b | b in Contents(SplitLines(prompt), classify) ensures !Violated(b.name, b.lines, configured, proposed) {
      if Compared(b.name, configured) && Join(b.lines) != "" {
        ContainsTransitive(proposed, edit.newText, Join(b.lines));
      }
    }
  }

  /**
   * Deleting the marker itself passes: it never overlaps the block, so the block still occurs, but the candidate
   * no longer freezes anything, although the marker line was frozen.
   */
  lemma UnfreezingEditPasses(marker: string, body: string, name: string, classify: Classifier)
    requires marker != "" && body != "" && '\n' !in marker && '\n' !in body && !Contains(body, marker)
    requires classify(Line(marker)) == Named(name) && classify(Line(body)).Plain? && classify(Line("")).Plain?
    ensures var prompt, edit := marker + "\n" + body, Edit(marker, "");
            && FrozenPasses(Some(edit), prompt, None, classify)
            && Contents(SplitLines(prompt), classify) == [Block(name, [Line(body)])]
            && SplitLines(prompt) == [Line(marker), Line(body)] && OpenAt(SplitLines(prompt), classify, 0) == Some(name)
            && Contents(SplitLines(Replace(prompt, edit.oldText, edit.newText)), classify) == []
  {
    var prompt := marker + "\n" + body;
    TwoLines(marker, body);
    UnclosedExample(Line(marker), Line(body), name, classify);
    FirstLineOpens(Line(marker), Line(body), name, classify);
    MarkerRemoved(marker, body);
    assert OccursAt(prompt, marker, 0);
    BodyStillOccurs(body, name);
    UnmarkedContents(body, classify);
  }

  lemma TwoLines(a: string, b: string)
    requires b != "" && '\n' !in a && '\n' !in b
    ensures SplitLines(a + "\n" + b) == [Line(a), Line(b)]
  {
    SplitLinesJoin(a, b);
    OnePiece(a);
    OnePiece(b);
  }

  lemma FirstLineOpens(marker: Line, body: Line, name: string, classify: Classifier)
    requires classify(marker) == Named(name)
    ensures OpenAt([marker, body], classify, 0) == Some(name)
  {
    assert [marker, body][..1] == [marker] && [marker][..0] == [];
  }

  lemma BodyStillOccurs(body: string, name: string)
    requires body != ""
    ensures Violations([Block(name, [Line(body)])], None, "" + "\n" + body) == 0
  {
    var candidate := "" + "\n" + body;
    assert candidate[1..1 + |body|] == body;
    assert OccursAt(candidate, body, 1);
    assert Join([Line(body)]) == body;
  }

  lemma UnmarkedContents(body: string, classify: Classifier)
    requires body != "" && '\n' !in body && classify(Line(body)).Plain? && classify(Line("")).Plain?
    ensures Contents(SplitLines("" + "\n" + body), classify) == []
  {
    TwoLines("", body);
    var kept := [Line(""), Line(body)];
    assert kept[1..] == [Line(body)] && [Line(body)][1..] == [];
    assert Scan(kept, classify, None, []) == Scan([Line(body)], classify, None, []) == Scan([], classify, None, []);
  }

  lemma MarkerRemoved(marker: string, body: string)
    requires marker != "" && '\n' !in marker && !Contains(body, marker)
    ensures Replace(marker + "\n" + body, marker, "") == "" + "\n" + body
  {
    var prompt, rest := marker + "\n" + body, "\n" + body;
    assert prompt[..|marker|] == marker && prompt[|marker|..] == rest;
    if Contains(rest, marker) {
      var i :| 0 <= i <= |rest| && OccursAt(rest, marker, i);
      assert rest[i..i + |marker|][0] == marker[0];
      assert i > 0;
      assert body[i - 1..i - 1 + |marker|] == rest[i..i + |marker|];
      assert OccursAt(body, marker, i - 1);
      assert false;
    }
    ReplaceAbsent(rest, marker, "");
  }

  /** The compared blocks, in order. */
  ghost function ComparedBlocks(blocks: seq<Block>, configured: Option<seq<Name>>): seq<Block> {
    if blocks == [] then []
    else
      var n := |blocks| - 1;
      ComparedBlocks(blocks[..n], configured) + if Compared(blocks[n].name, configured) then [blocks[n]] else []
  }

  lemma {:induction false} ComparedBlocksHold(blocks: seq<Block>, configured: Option<seq<Name>>, b: Block)
    ensures b in ComparedBlocks(blocks, configured) <==> b in blocks && Compared(b.name, configured)
  {
    if blocks != [] {
      ComparedBlocksHold(blocks[..|blocks| - 1], configured, b);
      SplitLast(blocks);
    }
  }

  ghost predicate SameCompared(prompt: string, candidate: string, configured: Option<seq<Name>>, classify: Classifier) {
    ComparedBlocks(Contents(SplitLines(candidate), classify), configured) ==
    ComparedBlocks(Contents(SplitLines(prompt), classify), configured)
  }

  /**
   * The check never refuses an edit that keeps the compared sections: for every edit, also one that touches frozen
   * lines, if parsing the candidate again gives the same names and lines, the check passes.
   */
  lemma KeptSectionsPass(prompt: string, configured: Option<seq<Name>>, classify: Classifier, edit: Edit)
    requires Applies(Some(edit), prompt) && Missing(Contents(SplitLines(prompt), classify), configured) == {}
    requires SameCompared(prompt, Replace(prompt, edit.oldText, edit.newText), configured, classify)
    ensures FrozenPasses(Some(edit), prompt, configured, classify)
  {
    var candidate := Replace(prompt, edit.oldText, edit.newText);
    var before, after := Contents(SplitLines(prompt), classify), Contents(SplitLines(candidate), classify);
    forall b | b in before ensures !Violated(b.name, b.lines, configured, candidate) {
      if Compared(b.name, configured) && Join(b.lines) != "" {
        ComparedBlocksHold(before, configured, b);
        ComparedBlocksHold(after, configured, b);
        FrozenBlockOccurs(candidate, classify, b);
      }
    }
  }

  /**
   * An edit off the frozen lines, the markers and their newlines that writes plain lines only leaves every compared
   * section with its name and its lines when the candidate is parsed again, and so it passes the check.
   */
  lemma ReparseKeepsSections(prompt: string, configured: Option<seq<Name>>, classify: Classifier, edit: Edit)
    requires edit.oldText != "" && KeptApart(Cuts(prompt, classify), edit.oldText)
    requires WellMarked(SplitLines(prompt), classify, |SplitLines(prompt)|)
    requires FreePlain(Rewrite(Cuts(prompt, classify), edit.oldText, edit.newText), classify)
    ensures var candidate := Replace(prompt, edit.oldText, edit.newText);
            && WellMarked(SplitLines(candidate), classify, |SplitLines(candidate)|)
            && SameCompared(prompt, candidate, configured, classify)
    ensures Applies(Some(edit), prompt) && Missing(Contents(SplitLines(prompt), classify), configured) == {} ==>
            FrozenPasses(Some(edit), prompt, configured, classify)
  {
    EditKeepsFreezeIff(prompt, classify, edit.oldText, edit.newText);
    if Applies(Some(edit), prompt) && Missing(Contents(SplitLines(prompt), classify), configured) == {} {
      KeptSectionsPass(prompt, configured, classify, edit);
    }
  }

  // -------------------------------------------------------------------- edit distance

  /**
   * A passing candidate is within the threshold of the prompt in single-line insertions,
   * deletions and substitutions.
   */
  method CheckEditDistance(
      edit: Option<Edit>, prompt: string, threshold: int, classify: Classifier,
      split: string -> seq<Line>, opcodes: (seq<Line>, seq<Line>) -> seq<ED.Opcode>)
    returns (r: Check)
    requires forall a, b :: ED.Tiles(opcodes(a, b), a, b, |a|, |b|)
    ensures r.Raised? <==> Applies(edit, prompt) && !WellMarked(split(prompt), classify, |split(prompt)|)
    ensures r.Check? && !Applies(edit, prompt) ==> r == Check(false, None)
    ensures r.Check? && Applies(edit, prompt) ==>
              && var candidate := Replace(prompt, edit.value.oldText, edit.value.newText);
                 var total := ED.TotalCost(opcodes(split(prompt), split(candidate)));
              && r == Check(total <= threshold, Some(total))
              && (r.passed ==> threshold >= 0 && ED.WithinEdits(split(prompt), split(candidate), threshold))
  {
    if !Applies(edit, prompt) {
      return Check(false, None);
    }
    var candidate := Replace(prompt, edit.value.oldText, edit.value.newText);
    var a, b := split(prompt), split(candidate);
    var d := ED.ComputeEditDistance(a, b, opcodes(a, b), classify);
    if d.None? {
      return Raised;
    }
    r := Check(d.value.total <= threshold, Some(d.value.total));
    if r.passed {
      ED.DistanceIffEdits(a, b, threshold);
    }
  }

  // ------------------------------------------------------------------------- pipeline

  datatype Decision = Promote | Reject | NearMiss

  /** What running a check gives: its verdict or an exception. */
  datatype Outcome = Pass | Fail | Raise

  /** What the gate returns: a decision and how many checks ran, or the exception of a blank prompt or of a check. */
  datatype GateResult = Decided(decision: Decision, ran: nat) | BlankPrompt | CheckRaised(index: nat)

  /** The leading checks that pass. */
  function PassedPrefix(outcomes: seq<Outcome>): (n: nat)
    ensures n <= |outcomes| && (forall i | 0 <= i < n :: outcomes[i].Pass?) && (n < |outcomes| ==> !outcomes[n].Pass?)
  {
    if outcomes == [] || !outcomes[0].Pass? then 0 else 1 + PassedPrefix(outcomes[1..])
  }

  ghost predicate AllPass(outcomes: seq<Outcome>) {
    forall i | 0 <= i < |outcomes| :: outcomes[i].Pass?
  }

  ghost predicate SomeRaises(outcomes: seq<Outcome>) {
    exists i :: 0 <= i < |outcomes| && outcomes[i].Raise?
  }

  /** What the fail-fast form promises: a blank prompt raises first, then the first check that does not pass decides. */
  ghost predicate FastReturns(outcomes: seq<Outcome>, nearMiss: real, blank: bool, r: GateResult) {
    var n := PassedPrefix(outcomes);
    && (r.BlankPrompt? <==> blank)
    && (r.CheckRaised? <==> !blank && n < |outcomes| && outcomes[n].Raise?)
    && (r.CheckRaised? ==> r.index == n)
    && (r.Decided? ==>
        && (r.decision.Promote? <==> AllPass(outcomes))
        && r.ran == (if AllPass(outcomes) then |outcomes| else n + 1)
        && (r.decision.NearMiss? <==> n < |outcomes| && n > 0 && n as real >= nearMiss * (n + 1) as real))
  }

  /** Fail-fast over the checks; `outcomes[i]` is what check i gives when run, `blank` whether a prompt is blank. */
  method CheckAll(outcomes: seq<Outcome>, nearMiss: real, blank: bool) returns (r: GateResult)
    ensures FastReturns(outcomes, nearMiss, blank, r)
  {
    if blank {
      return BlankPrompt;
    }
    var passed, ran := 0, 0;
    while ran < |outcomes|
      invariant passed == ran <= |outcomes|
      invariant forall i | 0 <= i < ran :: outcomes[i].Pass?
    {
      ran := ran + 1;
      if outcomes[ran - 1].Raise? {
        PassedPrefixIs(outcomes, passed);
        return CheckRaised(ran - 1);
      }
      if outcomes[ran - 1].Fail? {
        break;
      }
      passed := passed + 1;
    }
    PassedPrefixIs(outcomes, passed);
    if passed == |outcomes| {
      return Decided(Promote, ran);
    }
    var ratio := passed as real / ran as real;
    RatioCompare(passed as real, ran as real, nearMiss);
    r := Decided(if ratio > 0.0 && ratio >= nearMiss then NearMiss else Reject, ran);
  }

  /** What the run-everything form returns: every verdict, or the index of the first check that raises. */
  datatype AllResults = Results(verdicts: seq<bool>) | RaisedAt(index: nat)

  /** What the run-everything form promises: the first exception ends it, and otherwise every verdict is there. */
  ghost predicate AllReturns(outcomes: seq<Outcome>, r: AllResults) {
    && (r.RaisedAt? <==> SomeRaises(outcomes))
    && (r.RaisedAt? ==>
        r.index < |outcomes| && outcomes[r.index].Raise? && forall i | 0 <= i < r.index :: !outcomes[i].Raise?)
    && (r.Results? ==>
        |r.verdicts| == |outcomes| && forall i | 0 <= i < |outcomes| :: r.verdicts[i] == outcomes[i].Pass?)
  }

  method RunIndividualChecks(outcomes: seq<Outcome>) returns (r: AllResults)
    ensures AllReturns(outcomes, r)
  {
    var verdicts: seq<bool> := [];
    for i := 0 to |outcomes|
      invariant |verdicts| == i && forall k | 0 <= k < i :: !outcomes[k].Raise? && verdicts[k] == outcomes[k].Pass?
    {
      if outcomes[i].Raise? {
        return RaisedAt(i);
      }
      verdicts := verdicts + [outcomes[i].Pass?];
    }
    r := Results(verdicts);
  }

  /** Some check raises after an earlier one failed, with no exception before the failure. */
  ghost predicate RaisesAfterFailure(outcomes: seq<Outcome>) {
    exists i, j | 0 <= i < j < |outcomes| ::
      outcomes[i].Fail? && outcomes[j].Raise? && forall k | 0 <= k < i :: !outcomes[k].Raise?
  }

  /** Without the test for blank prompts: a check raises in one form only exactly when one failed before it. */
  lemma RaisesDifferIff(outcomes: seq<Outcome>)
    ensures var n := PassedPrefix(outcomes);
            var fastRaises := n < |outcomes| && outcomes[n].Raise?;
            && (fastRaises ==> SomeRaises(outcomes))
            && (SomeRaises(outcomes) && !fastRaises <==> RaisesAfterFailure(outcomes))
  {
    var n := PassedPrefix(outcomes);
    if j :| 0 <= j < |outcomes| && outcomes[j].Raise? {
      assert n <= j;
      if outcomes[n].Fail? {
        assert n < j && outcomes[n].Fail? && outcomes[j].Raise?;
      }
    }
    if RaisesAfterFailure(outcomes) {
      var i, j :| 0 <= i < j < |outcomes| && outcomes[i].Fail? && outcomes[j].Raise?
        && forall k | 0 <= k < i :: !outcomes[k].Raise?;
      assert n <= i;
      assert !outcomes[n].Raise?;
    }
  }

  /**
   * The two forms differ in two ways. The fail-fast form alone decides exactly when no prompt is blank and a check
   * raises after an earlier one failed; it alone raises exactly when a prompt is blank and no check raises.
   * Otherwise they raise together, at the same check unless a prompt is blank, or promote the same candidates.
   */
  lemma FormsDifferIff(outcomes: seq<Outcome>, nearMiss: real, blank: bool, fast: GateResult, all: AllResults)
    requires FastReturns(outcomes, nearMiss, blank, fast) && AllReturns(outcomes, all)
    ensures fast.Decided? && all.RaisedAt? <==> !blank && RaisesAfterFailure(outcomes)
    ensures !fast.Decided? && all.Results? <==> blank && !SomeRaises(outcomes)
    ensures fast.CheckRaised? ==> all == RaisedAt(fast.index)
    ensures fast.Decided? && all.Results? ==> (fast.decision.Promote? <==> false !in all.verdicts)
  {
    RaisesDifferIff(outcomes);
    if fast.CheckRaised? {
      assert all.index == fast.index;
    }
    if fast.Decided? && all.Results? {
      PromoteIffAllTrue(outcomes, all.verdicts);
    }
  }

  lemma PromoteIffAllTrue(outcomes: seq<Outcome>, verdicts: seq<bool>)
    requires |verdicts| == |outcomes| && forall i | 0 <= i < |outcomes| :: verdicts[i] == outcomes[i].Pass?
    ensures AllPass(outcomes) <==> false !in verdicts
  {
    if i :| 0 <= i < |outcomes| && !outcomes[i].Pass? {
      assert verdicts[i] in verdicts;
    }
  }

  // --------------------------------------------------------------------- the seven checks

  /** Gives the opcodes between two texts. */
  type Differ = (seq<Line>, seq<Line>) -> seq<ED.Opcode>

  /** An A/B result; no effect size stands for an infinite one. */
  datatype ABResult = ABResult(trials: int, effect: Option<real>, pValue: real)

  /** What the gate looks at. `drift` and `oracle` are the verdicts of the last two checks, which never raise. */
  datatype Inputs = Inputs(
    edit: Option<Edit>, prompt: string, original: string, ab: Option<ABResult>,
    floor: real, minEffect: real, alpha: real, configured: Option<seq<Name>>, maxDistance: int, nearMiss: real,
    drift: bool, oracle: bool)

  /** The current or the original prompt has nothing but white space. */
  predicate BlankInputs(g: Inputs) {
    Blank(g.prompt) || Blank(g.original)
  }

  predicate StatisticsPass(g: Inputs) {
    FloorPasses(g) && EffectPasses(g) && ConfidencePasses(g)
  }

  predicate FloorPasses(g: Inputs) {
    (if g.ab.Some? then g.ab.value.trials else 0) as real >= g.floor
  }

  predicate EffectPasses(g: Inputs) {
    g.ab.Some? && (g.ab.value.effect.None? || g.ab.value.effect.value >= g.minEffect)
  }

  predicate ConfidencePasses(g: Inputs) {
    g.ab.Some? && g.ab.value.pValue < g.alpha
  }

  function OutcomeOf(c: Check): Outcome {
    if c.Raised? then Raise else Verdict(c.passed)
  }

  function Verdict(passed: bool): Outcome {
    if passed then Pass else Fail
  }

  ghost predicate MalformedPrompt(g: Inputs, classify: Classifier) {
    !WellMarked(SplitLines(g.prompt), classify, |SplitLines(g.prompt)|)
  }

  /** The edit applies and its opcodes cost no more than the threshold. */
  ghost predicate DistancePasses(g: Inputs, opcodes: Differ) {
    && Applies(g.edit, g.prompt)
    && var candidate := Replace(g.prompt, g.edit.value.oldText, g.edit.value.newText);
       ED.TotalCost(opcodes(SplitLines(g.prompt), SplitLines(candidate))) <= g.maxDistance
  }

  /** What the seven checks give, in their order. */
  ghost predicate GateOutcomes(g: Inputs, classify: Classifier, opcodes: Differ, outcomes: seq<Outcome>) {
    && |outcomes| == 7
    && outcomes[0] == Verdict(FloorPasses(g)) && outcomes[1] == Verdict(EffectPasses(g))
    && outcomes[2] == Verdict(ConfidencePasses(g))
    && (outcomes[3].Raise? <==> MalformedPrompt(g, classify))
    && (outcomes[3].Pass? <==> !MalformedPrompt(g, classify) && FrozenPasses(g.edit, g.prompt, g.configured, classify))
    && (outcomes[4].Raise? <==> Applies(g.edit, g.prompt) && MalformedPrompt(g, classify))
    && (outcomes[4].Pass? <==> !MalformedPrompt(g, classify) && DistancePasses(g, opcodes))
    && outcomes[5] == Verdict(g.drift) && outcomes[6] == Verdict(g.oracle)
  }

  /** Running all seven checks on the inputs. */
  method RunGateChecks(g: Inputs, classify: Classifier, opcodes: Differ) returns (outcomes: seq<Outcome>)
    requires forall a, b :: ED.Tiles(opcodes(a, b), a, b, |a|, |b|)
    ensures GateOutcomes(g, classify, opcodes, outcomes)
    ensures outcomes[0].Pass? <==> (match g.ab case Some(r) => r.trials as real >= g.floor case None => 0.0 >= g.floor)
    ensures outcomes[1].Pass? <==> (match g.ab
                                    case Some(ABResult(_, Some(effect), _)) => effect >= g.minEffect
                                    case Some(ABResult(_, None, _)) => true
                                    case None => false)
    ensures outcomes[2].Pass? <==> (match g.ab case Some(r) => r.pValue < g.alpha case None => false)
    ensures !outcomes[0].Raise? && !outcomes[1].Raise? && !outcomes[2].Raise?
    ensures outcomes[5] == (if g.drift then Pass else Fail) && outcomes[6] == if g.oracle then Pass else Fail
  {
    var frozen := FrozenOutcome(g, classify);
    var distance := DistanceOutcome(g, classify, opcodes);
    outcomes := [Verdict(FloorPasses(g)), Verdict(EffectPasses(g)), Verdict(ConfidencePasses(g)),
                 frozen, distance, Verdict(g.drift), Verdict(g.oracle)];
  }

  method FrozenOutcome(g: Inputs, classify: Classifier) returns (o: Outcome)
    ensures o.Raise? <==> MalformedPrompt(g, classify)
    ensures o.Pass? <==> !MalformedPrompt(g, classify) && FrozenPasses(g.edit, g.prompt, g.configured, classify)
  {
    var frozen := CheckFrozenSections(g.edit, g.prompt, g.configured, classify);
    o := OutcomeOf(frozen);
  }

  method DistanceOutcome(g: Inputs, classify: Classifier, opcodes: Differ) returns (o: Outcome)
    requires forall a, b :: ED.Tiles(opcodes(a, b), a, b, |a|, |b|)
    ensures o.Raise? <==> Applies(g.edit, g.prompt) && MalformedPrompt(g, classify)
    ensures o.Pass? <==> !MalformedPrompt(g, classify) && DistancePasses(g, opcodes)
  {
    var distance := CheckEditDistance(g.edit, g.prompt, g.maxDistance, classify, SplitLines, opcodes);
    o := OutcomeOf(distance);
  }

  /**
   * On its inputs the fail-fast gate alone decides exactly when no prompt is blank, the current one has a malformed
   * marker and a statistical check fails; it alone raises exactly when a prompt is blank and no marker is malformed.
   */
  lemma GateFormsDifferIff(
      g: Inputs, classify: Classifier, opcodes: Differ, outcomes: seq<Outcome>, fast: GateResult, all: AllResults)
    requires GateOutcomes(g, classify, opcodes, outcomes)
    requires FastReturns(outcomes, g.nearMiss, BlankInputs(g), fast) && AllReturns(outcomes, all)
    ensures fast.Decided? && all.RaisedAt? <==>
            !BlankInputs(g) && MalformedPrompt(g, classify) && !StatisticsPass(g)
    ensures !fast.Decided? && all.Results? <==> BlankInputs(g) && !MalformedPrompt(g, classify)
  {
    SevenOutcomes(outcomes, FloorPasses(g), EffectPasses(g), ConfidencePasses(g), MalformedPrompt(g, classify));
    FormsDifferIff(outcomes, g.nearMiss, BlankInputs(g), fast, all);
  }

  lemma SevenOutcomes(outcomes: seq<Outcome>, floor: bool, effect: bool, confidence: bool, malformed: bool)
    requires |outcomes| == 7
    requires outcomes[0] == Verdict(floor) && outcomes[1] == Verdict(effect) && outcomes[2] == Verdict(confidence)
    requires (outcomes[3].Raise? <==> malformed) && (outcomes[4].Raise? ==> malformed)
    requires !outcomes[5].Raise? && !outcomes[6].Raise?
    ensures RaisesAfterFailure(outcomes) <==> malformed && !(floor && effect && confidence)
    ensures SomeRaises(outcomes) <==> malformed
  {
    assert malformed ==> outcomes[3].Raise?;
    if malformed && !(floor && effect && confidence) {
      var i := if !floor then 0 else if !effect then 1 else 2;
      assert outcomes[i].Fail? && outcomes[3].Raise?;
    }
    if RaisesAfterFailure(outcomes) {
      var i, j :| 0 <= i < j < |outcomes| && outcomes[i].Fail? && outcomes[j].Raise?
        && forall k | 0 <= k < i :: !outcomes[k].Raise?;
      assert j == 3 || j == 4;
      assert i < 3;
    }
  }

  /** A prompt that is one malformed marker, and too few trials: one form rejects at the floor, the other raises. */
  lemma MalformedAfterFailedFloor(
      marker: string, g: Inputs, classify: Classifier, opcodes: Differ, outcomes: seq<Outcome>,
      fast: GateResult, all: AllResults)
    requires !Blank(marker) && '\n' !in marker && classify(Line(marker)).Malformed?
    requires g.prompt == marker && !Blank(g.original) && g.ab.None? && g.floor > 0.0
    requires GateOutcomes(g, classify, opcodes, outcomes)
    requires FastReturns(outcomes, g.nearMiss, BlankInputs(g), fast) && AllReturns(outcomes, all)
    ensures fast == Decided(Reject, 1) && all == RaisedAt(3)
  {
    OnePiece(marker);
    assert SplitLines(marker)[0] == Line(marker);
    GateFormsDifferIff(g, classify, opcodes, outcomes, fast, all);
    assert outcomes[0].Fail? && outcomes[3].Raise?;
  }

  lemma PassedPrefixIs(outcomes: seq<Outcome>, n: nat)
    requires n <= |outcomes| && (forall i | 0 <= i < n :: outcomes[i].Pass?) && (n < |outcomes| ==> !outcomes[n].Pass?)
    ensures PassedPrefix(outcomes) == n
  {
  }

  lemma RatioCompare(p: real, r: real, k: real)
    requires p >= 0.0 && r > 0.0
    ensures p / r >= k <==> p >= k * r
    ensures p / r > 0.0 <==> p > 0.0
  {
    var q := p / r;
    assert q * r == p;
    assert (q - k) * r == p - k * r;
  }
}
