/** Frozen-section markers: the parser, the line indexes it freezes, and the greedy name matcher. */
module FrozenSections {
  import opened Common

  /** What the two marker patterns say about a line. */
  datatype Kind = Plain | Malformed | Named(name: string) | Anonymous

  datatype Section = Section(start: nat, end: nat, name: string, lines: seq<Line>)

  datatype ParseResult = Parsed(sections: seq<Section>) | MalformedAt(index: nat)

  type Classifier = Line -> Kind

  /** The name a marker line opens when `open` is the current section; None when it closes it. */
  function Opens(open: Option<string>, kind: Kind): Option<string>
    requires kind.Named? || kind.Anonymous?
  {
    if kind.Named? then Some(kind.name) else if open.Some? then None else Some("core")
  }

  /** The open/close fold: which section is open after these lines. */
  ghost function OpenAfter(lines: seq<Line>, classify: Classifier): Option<string> {
    if lines == [] then None
    else
      var before := OpenAfter(lines[..|lines| - 1], classify);
      var kind := classify(lines[|lines| - 1]);
      if kind.Named? || kind.Anonymous? then Opens(before, kind) else before
  }

  /** Which section is open just after line k. */
  ghost function OpenAt(lines: seq<Line>, classify: Classifier, k: int): Option<string>
    requires 0 <= k < |lines|
  {
    OpenAfter(lines[..k + 1], classify)
  }

  ghost predicate IsMarker(kind: Kind) {
    kind.Named? || kind.Anonymous?
  }

  /** A section starts at a marker, holds exactly the plain lines after it, and is open throughout. */
  ghost predicate Faithful(lines: seq<Line>, classify: Classifier, s: Section) {
    && s.start <= s.end < |lines|
    && IsMarker(classify(lines[s.start]))
    && (forall k | s.start < k <= s.end :: classify(lines[k]).Plain?)
    && (forall k | s.start <= k <= s.end :: OpenAt(lines, classify, k) == Some(s.name))
    && s.lines == lines[s.start + 1..s.end + 1]
    && (s.end + 1 < |lines| ==> IsMarker(classify(lines[s.end + 1])))
  }

  ghost predicate Covers(sections: seq<Section>, i: int) {
    exists s | s in sections :: s.start <= i <= s.end
  }

  /** The sections are faithful, in order, disjoint, and cover exactly the indexes below n where the fold ends open. */
  ghost predicate Describes(lines: seq<Line>, classify: Classifier, sections: seq<Section>, n: nat)
    requires n <= |lines|
  {
    && (forall s | s in sections :: Faithful(lines, classify, s) && s.end < n)
    && (forall i, j | 0 <= i < j < |sections| :: sections[i].end < sections[j].start)
    && (forall k | 0 <= k < n :: Covers(sections, k) <==> OpenAt(lines, classify, k).Some?)
  }

  /** The state of the parser at line idx: closed sections, and what has been gathered of the open one. */
  ghost predicate Parsing(
      lines: seq<Line>, classify: Classifier, idx: nat, sections: seq<Section>, open: Option<string>, start: nat,
      gathered: seq<Line>)
    requires idx <= |lines|
  {
    && OpenAfter(lines[..idx], classify) == open
    && WellMarked(lines, classify, idx)
    && (open.None? ==> Describes(lines, classify, sections, idx))
    && (open.Some? ==>
        && start < idx && Describes(lines, classify, sections, start)
        && IsMarker(classify(lines[start])) && gathered == lines[start + 1..idx]
        && (forall k | start < k < idx :: classify(lines[k]).Plain?)
        && (forall k | start <= k < idx :: OpenAt(lines, classify, k) == open))
  }

  /** Closing the open section at idx describes everything before idx. */
  lemma CloseSection(lines: seq<Line>, classify: Classifier, idx: nat, sections: seq<Section>, open: Option<string>,
                     start: nat, gathered: seq<Line>)
    requires idx <= |lines| && Parsing(lines, classify, idx, sections, open, start, gathered) && open.Some?
    requires idx < |lines| ==> IsMarker(classify(lines[idx]))
    ensures Describes(lines, classify, sections + [Section(start, idx - 1, open.value, gathered)], idx)
  {
    var s := Section(start, idx - 1, open.value, gathered);
    var all := sections + [s];
    assert Faithful(lines, classify, s);
    forall k | 0 <= k < idx
      ensures Covers(all, k) <==> OpenAt(lines, classify, k).Some?
    {
      CoversAppend(sections, s, k);
      if k >= start {
        NotCoveredLater(lines, classify, sections, start, k);
      }
    }
  }

  lemma CoversAppend(sections: seq<Section>, s: Section, k: int)
    ensures Covers(sections + [s], k) <==> Covers(sections, k) || s.start <= k <= s.end
  {
    assert forall x :: x in sections + [s] <==> x in sections || x == s;
    if s.start <= k <= s.end {
      assert s in sections + [s];
    }
  }

  lemma NotCoveredLater(lines: seq<Line>, classify: Classifier, sections: seq<Section>, n: nat, k: int)
    requires n <= |lines| && Describes(lines, classify, sections, n) && k >= n
    ensures !Covers(sections, k)
  {
  }

  /** A line that opens nothing and closes nothing extends what is described by one index. */
  lemma ExtendClosed(lines: seq<Line>, classify: Classifier, sections: seq<Section>, n: nat)
    requires n < |lines| && Describes(lines, classify, sections, n)
    requires OpenAt(lines, classify, n).None?
    ensures Describes(lines, classify, sections, n + 1)
  {
    NotCoveredLater(lines, classify, sections, n, n);
  }

  lemma OpenAfterStep(lines: seq<Line>, classify: Classifier, idx: nat)
    requires idx < |lines|
    ensures OpenAt(lines, classify, idx) == OpenAfter(lines[..idx + 1], classify)
    ensures OpenAt(lines, classify, idx) ==
            var kind := classify(lines[idx]);
            if IsMarker(kind) then Opens(OpenAfter(lines[..idx], classify), kind) else OpenAfter(lines[..idx], classify)
  {
    assert lines[..idx + 1][..idx] == lines[..idx];
  }

  /** No malformed marker among the first n lines. */
  ghost predicate WellMarked(lines: seq<Line>, classify: Classifier, n: nat)
    requires n <= |lines|
  {
    forall k | 0 <= k < n :: !classify(lines[k]).Malformed?
  }

  lemma OpenSectionAt(lines: seq<Line>, classify: Classifier, idx: nat, sections: seq<Section>, name: string)
    requires idx < |lines| && WellMarked(lines, classify, idx + 1) && Describes(lines, classify, sections, idx)
    requires IsMarker(classify(lines[idx])) && OpenAt(lines, classify, idx) == Some(name)
    ensures Parsing(lines, classify, idx + 1, sections, Some(name), idx, [])
  {
  }

  lemma StayClosedAt(
      lines: seq<Line>, classify: Classifier, idx: nat, sections: seq<Section>, start: nat, gathered: seq<Line>)
    requires idx < |lines| && WellMarked(lines, classify, idx + 1) && Describes(lines, classify, sections, idx)
    requires OpenAt(lines, classify, idx).None?
    ensures Parsing(lines, classify, idx + 1, sections, None, start, gathered)
  {
    ExtendClosed(lines, classify, sections, idx);
  }

  lemma GatherLine(lines: seq<Line>, classify: Classifier, idx: nat, sections: seq<Section>, open: Option<string>,
                   start: nat, gathered: seq<Line>)
    requires idx < |lines| && Parsing(lines, classify, idx, sections, open, start, gathered)
    requires classify(lines[idx]).Plain?
    ensures Parsing(lines, classify, idx + 1, sections, open, start, gathered + [lines[idx]])
  {
    OpenAfterStep(lines, classify, idx);
    if open.None? {
      StayClosedAt(lines, classify, idx, sections, start, gathered + [lines[idx]]);
    } else {
      assert lines[start + 1..idx + 1] == lines[start + 1..idx] + [lines[idx]];
    }
  }

  // ---------------------------------------------------------- what is open, said on the lines

  /** The last line at or before k that carries a name. */
  ghost predicate LastNamed(lines: seq<Line>, classify: Classifier, j: int, k: int) {
    0 <= j <= k < |lines| && classify(lines[j]).Named? && NoneNamed(lines, classify, j + 1, k)
  }

  ghost predicate NoneNamed(lines: seq<Line>, classify: Classifier, from: int, k: int) {
    forall i | from <= i <= k && 0 <= i < |lines| :: !classify(lines[i]).Named?
  }

  /** The anonymous markers from line `from` up to and including line k. */
  ghost function AnonymousMarkers(lines: seq<Line>, classify: Classifier, from: int, k: int): set<int> {
    set i | from <= i <= k && 0 <= i < |lines| && classify(lines[i]).Anonymous?
  }

  /**
   * Line k lies in a section of this name. After the last named marker, an anonymous one ends its section and every
   * second one opens "core"; without a named marker the first, third, fifth and so on open "core".
   */
  ghost predicate InSection(lines: seq<Line>, classify: Classifier, k: int, name: string) {
    || (exists j | LastNamed(lines, classify, j, k) ::
          var c := |AnonymousMarkers(lines, classify, j + 1, k)|;
          (c == 0 && name == classify(lines[j]).name) || (c > 0 && c % 2 == 0 && name == "core"))
    || (NoneNamed(lines, classify, 0, k) && |AnonymousMarkers(lines, classify, 0, k)| % 2 == 1 && name == "core")
  }

  lemma AnonymousOneMore(lines: seq<Line>, classify: Classifier, from: int, k: int)
    requires 0 <= from <= k < |lines|
    ensures |AnonymousMarkers(lines, classify, from, k)| ==
            |AnonymousMarkers(lines, classify, from, k - 1)| + if classify(lines[k]).Anonymous? then 1 else 0
  {
    assert AnonymousMarkers(lines, classify, from, k) ==
           AnonymousMarkers(lines, classify, from, k - 1) + if classify(lines[k]).Anonymous? then {k} else {};
  }

  /** What c anonymous markers leave of what was open before them. */
  ghost function Toggled(open: Option<string>, c: nat): Option<string> {
    if c == 0 then open else if (c % 2 == 0) == open.Some? then Some("core") else None
  }

  lemma {:induction false} OpenByCount(lines: seq<Line>, classify: Classifier, from: int, k: int)
    requires 0 <= from <= k + 1 <= |lines| && NoneNamed(lines, classify, from, k)
    ensures OpenAfter(lines[..k + 1], classify) ==
            Toggled(OpenAfter(lines[..from], classify), |AnonymousMarkers(lines, classify, from, k)|)
    decreases k
  {
    if from <= k {
      OpenByCount(lines, classify, from, k - 1);
      OpenAfterStep(lines, classify, k);
      AnonymousOneMore(lines, classify, from, k);
    } else {
      assert AnonymousMarkers(lines, classify, from, k) == {};
    }
  }

  lemma LastNamedUnique(lines: seq<Line>, classify: Classifier, i: int, j: int, k: int)
    requires LastNamed(lines, classify, i, k) && LastNamed(lines, classify, j, k)
    ensures i == j
  {
  }

  lemma {:induction false} SomeLastNamed(lines: seq<Line>, classify: Classifier, k: int) returns (j: int)
    requires -1 <= k < |lines|
    ensures j == -1 ==> NoneNamed(lines, classify, 0, k)
    ensures j != -1 ==> LastNamed(lines, classify, j, k)
    decreases k
  {
    j := k;
    if k >= 0 && !classify(lines[k]).Named? {
      j := SomeLastNamed(lines, classify, k - 1);
    }
  }

  /** The fold leaves a section open at line k exactly when the markers up to k put the line in it. */
  lemma OpenMeansInSection(lines: seq<Line>, classify: Classifier, k: int, name: string)
    requires 0 <= k < |lines|
    ensures OpenAt(lines, classify, k) == Some(name) <==> InSection(lines, classify, k, name)
  {
    var j := SomeLastNamed(lines, classify, k);
    OpenByCount(lines, classify, j + 1, k);
    if j == -1 {
      assert lines[..0] == [];
    } else {
      OpenAfterStep(lines, classify, j);
      forall i | LastNamed(lines, classify, i, k) ensures i == j {
        LastNamedUnique(lines, classify, i, j, k);
      }
      assert !NoneNamed(lines, classify, 0, k);
    }
  }

  // ------------------------------------------------------------------- what is frozen, as text

  /** What a section freezes: its name and its lines. */
  datatype Block = Block(name: string, lines: seq<Line>)

  ghost function Blocks(sections: seq<Section>): (r: seq<Block>)
    ensures |r| == |sections| && forall i | 0 <= i < |r| :: r[i] == Block(sections[i].name, sections[i].lines)
  {
    seq(|sections|, i requires 0 <= i < |sections| => Block(sections[i].name, sections[i].lines))
  }

  ghost function Closed(open: Option<string>, body: seq<Line>): seq<Block> {
    if open.Some? then [Block(open.value, body)] else []
  }

  /** The section open after one more line. */
  ghost function OpenNext(open: Option<string>, kind: Kind): Option<string> {
    if IsMarker(kind) then Opens(open, kind) else open
  }

  /** The blocks of the lines from here on, given the open section and its lines so far. */
  ghost function Scan(lines: seq<Line>, classify: Classifier, open: Option<string>, body: seq<Line>): seq<Block>
    decreases |lines|
  {
    if lines == [] then Closed(open, body)
    else if IsMarker(classify(lines[0])) then
      Closed(open, body) + Scan(lines[1..], classify, Opens(open, classify(lines[0])), [])
    else Scan(lines[1..], classify, open, if open.Some? then body + [lines[0]] else [])
  }

  /** Everything a list of lines freezes. */
  ghost function Contents(lines: seq<Line>, classify: Classifier): seq<Block> {
    Scan(lines, classify, None, [])
  }

  ghost predicate Scanning(
      lines: seq<Line>, classify: Classifier, idx: nat, sections: seq<Section>, open: Option<string>,
      gathered: seq<Line>)
  {
    && idx <= |lines|
    && Blocks(sections) + Scan(lines[idx..], classify, open, if open.Some? then gathered else [])
       == Contents(lines, classify)
  }

  lemma DropOneMore<T>(s: seq<T>, i: nat)
    requires i < |s|
    ensures s[i..] != [] && s[i..][0] == s[i] && s[i..][1..] == s[i + 1..]
  {
  }

  lemma ScanMarker(lines: seq<Line>, classify: Classifier, idx: nat, sections: seq<Section>, open: Option<string>,
                   gathered: seq<Line>, sections': seq<Section>)
    requires idx < |lines| && Scanning(lines, classify, idx, sections, open, gathered) && IsMarker(classify(lines[idx]))
    requires Blocks(sections') == Blocks(sections) + Closed(open, gathered)
    ensures Scanning(lines, classify, idx + 1, sections', Opens(open, classify(lines[idx])), [])
  {
    DropOneMore(lines, idx);
    var rest := Scan(lines[idx + 1..], classify, Opens(open, classify(lines[idx])), []);
    Regroup(Blocks(sections), Closed(open, gathered), rest);
  }

  lemma ScanPlainLine(lines: seq<Line>, classify: Classifier, idx: nat, sections: seq<Section>, open: Option<string>,
                      gathered: seq<Line>)
    requires idx < |lines| && Scanning(lines, classify, idx, sections, open, gathered)
        && !IsMarker(classify(lines[idx]))
    ensures Scanning(lines, classify, idx + 1, sections, open, gathered + [lines[idx]])
  {
    DropOneMore(lines, idx);
  }

  lemma BlocksAppend(sections: seq<Section>, s: Section)
    ensures Blocks(sections + [s]) == Blocks(sections) + [Block(s.name, s.lines)]
  {
  }

  /** Everything the parser keeps at line idx. */
  ghost predicate ParserAt(
      lines: seq<Line>, classify: Classifier, idx: nat, sections: seq<Section>, open: Option<string>, start: nat,
      gathered: seq<Line>)
  {
    && Scanning(lines, classify, idx, sections, open, gathered)
    && Parsing(lines, classify, idx, sections, open, start, gathered)
  }

  /** The sections once the open one, if any, ends before line idx. */
  function WithClosed(
      sections: seq<Section>, open: Option<string>, start: nat, idx: nat, gathered: seq<Line>): seq<Section>
    requires open.Some? ==> idx > 0
  {
    if open.Some? then sections + [Section(start, idx - 1, open.value, gathered)] else sections
  }

  lemma EndSection(lines: seq<Line>, classify: Classifier, idx: nat, sections: seq<Section>, open: Option<string>,
                   start: nat, gathered: seq<Line>)
    requires ParserAt(lines, classify, idx, sections, open, start, gathered)
    requires idx < |lines| ==> IsMarker(classify(lines[idx]))
    ensures open.Some? ==> idx > 0
    ensures var closed := WithClosed(sections, open, start, idx, gathered);
            Describes(lines, classify, closed, idx) && Blocks(closed) == Blocks(sections) + Closed(open, gathered)
  {
    if open.Some? {
      CloseSection(lines, classify, idx, sections, open, start, gathered);
      BlocksAppend(sections, Section(start, idx - 1, open.value, gathered));
    } else {
      assert Blocks(sections) + [] == Blocks(sections);
    }
  }

  lemma MarkerStep(lines: seq<Line>, classify: Classifier, idx: nat, sections: seq<Section>, open: Option<string>,
                   start: nat, gathered: seq<Line>)
    requires idx < |lines| && ParserAt(lines, classify, idx, sections, open, start, gathered)
    requires IsMarker(classify(lines[idx]))
    ensures open.Some? ==> idx > 0
    ensures var closed, next := WithClosed(sections, open, start, idx, gathered), Opens(open, classify(lines[idx]));
            ParserAt(lines, classify, idx + 1, closed, next, if next.Some? then idx else start, [])
  {
    EndSection(lines, classify, idx, sections, open, start, gathered);
    OpenAfterStep(lines, classify, idx);
    var closed, next := WithClosed(sections, open, start, idx, gathered), Opens(open, classify(lines[idx]));
    ScanMarker(lines, classify, idx, sections, open, gathered, closed);
    if next.Some? {
      OpenSectionAt(lines, classify, idx, closed, next.value);
    } else {
      StayClosedAt(lines, classify, idx, closed, start, []);
    }
  }

  lemma PlainStep(lines: seq<Line>, classify: Classifier, idx: nat, sections: seq<Section>, open: Option<string>,
                  start: nat, gathered: seq<Line>)
    requires idx < |lines| && ParserAt(lines, classify, idx, sections, open, start, gathered)
    requires classify(lines[idx]).Plain?
    ensures ParserAt(lines, classify, idx + 1, sections, open, start, gathered + [lines[idx]])
  {
    GatherLine(lines, classify, idx, sections, open, start, gathered);
    ScanPlainLine(lines, classify, idx, sections, open, gathered);
  }

  lemma ParserStarts(lines: seq<Line>, classify: Classifier)
    ensures ParserAt(lines, classify, 0, [], None, 0, [])
  {
    assert lines[0..] == lines && lines[..0] == [];
  }

  lemma ParserEnds(lines: seq<Line>, classify: Classifier, sections: seq<Section>, open: Option<string>, start: nat,
                   gathered: seq<Line>)
    requires ParserAt(lines, classify, |lines|, sections, open, start, gathered)
    ensures open.Some? ==> |lines| > 0
    ensures var all := WithClosed(sections, open, start, |lines|, gathered);
            Describes(lines, classify, all, |lines|) && Blocks(all) == Contents(lines, classify)
  {
    EndSection(lines, classify, |lines|, sections, open, start, gathered);
    assert lines[|lines|..] == [];
  }

  /**
   * The sections as the markers alone decide them: a line is in a section exactly when the markers up to it say so,
   * that section has the name they say, and every named marker starts a section of its own name.
   */
  ghost predicate MarkersDecide(lines: seq<Line>, classify: Classifier, sections: seq<Section>) {
    && (forall k | 0 <= k < |lines| :: Covers(sections, k) <==> exists name :: InSection(lines, classify, k, name))
    && (forall s, k | s in sections && s.start <= k <= s.end :: InSection(lines, classify, k, s.name))
    && (forall k | 0 <= k < |lines| && classify(lines[k]).Named? ::
          exists s | s in sections :: s.start == k && s.name == classify(lines[k]).name)
  }

  lemma SectionsFollowMarkers(lines: seq<Line>, classify: Classifier, sections: seq<Section>)
    requires Describes(lines, classify, sections, |lines|)
    ensures MarkersDecide(lines, classify, sections)
  {
    forall k, name | 0 <= k < |lines|
      ensures OpenAt(lines, classify, k) == Some(name) <==> InSection(lines, classify, k, name)
    {
      OpenMeansInSection(lines, classify, k, name);
    }
    forall k | 0 <= k < |lines| ensures Covers(sections, k) <==> exists name :: InSection(lines, classify, k, name) {
      if Covers(sections, k) {
        assert InSection(lines, classify, k, OpenAt(lines, classify, k).value);
      }
    }
    forall k | 0 <= k < |lines| && classify(lines[k]).Named?
      ensures exists s | s in sections :: s.start == k && s.name == classify(lines[k]).name
    {
      NamedStarts(lines, classify, sections, k);
    }
  }

  lemma NamedStarts(lines: seq<Line>, classify: Classifier, sections: seq<Section>, k: int)
    requires 0 <= k < |lines| && classify(lines[k]).Named? && Describes(lines, classify, sections, |lines|)
    ensures exists s | s in sections :: s.start == k && s.name == classify(lines[k]).name
  {
    OpenAfterStep(lines, classify, k);
    assert Covers(sections, k);
    var s :| s in sections && s.start <= k <= s.end;
    assert Faithful(lines, classify, s);
  }

  /** The parser's single pass over the lines. */
  method ParseFrozenSections(lines: seq<Line>, classify: Classifier) returns (r: ParseResult)
    ensures r.MalformedAt? ==>
              r.index < |lines| && classify(lines[r.index]).Malformed? && WellMarked(lines, classify, r.index)
    ensures r.MalformedAt? <==> !WellMarked(lines, classify, |lines|)
    ensures r.Parsed? ==> Describes(lines, classify, r.sections, |lines|)
    ensures r.Parsed? ==> Blocks(r.sections) == Contents(lines, classify)
    ensures r.Parsed? ==> MarkersDecide(lines, classify, r.sections)
  {
    var sections: seq<Section> := [];
    var open: Option<string> := None;
    var start := 0;
    var gathered: seq<Line> := [];
    ParserStarts(lines, classify);
    for idx := 0 to |lines|
      invariant ParserAt(lines, classify, idx, sections, open, start, gathered)
    {
      var kind := classify(lines[idx]);
      if kind.Malformed? {
        return MalformedAt(idx);
      }
      if kind.Named? || kind.Anonymous? {
        MarkerStep(lines, classify, idx, sections, open, start, gathered);
        if open.Some? {
          sections := sections + [Section(start, idx - 1, open.value, gathered)];
        }
        if open.Some? && kind.Anonymous? {
          open, gathered := None, [];
        } else {
          open := Some(if kind.Named? then kind.name else "core");
          start, gathered := idx, [];
        }
      } else {
        PlainStep(lines, classify, idx, sections, open, start, gathered);
        gathered := gathered + [lines[idx]];
      }
    }
    ParserEnds(lines, classify, sections, open, start, gathered);
    if open.Some? {
      sections := sections + [Section(start, |lines| - 1, open.value, gathered)];
    }
    SectionsFollowMarkers(lines, classify, sections);
    r := Parsed(sections);
  }

  /**
   * The code does not raise on an unclosed section: it closes it at the end. The last section runs to the last
   * line exactly when the fold over all lines ends open.
   */
  lemma UnclosedRunsToEndIff(lines: seq<Line>, classify: Classifier, sections: seq<Section>)
    requires lines != [] && Describes(lines, classify, sections, |lines|)
    ensures OpenAfter(lines, classify).Some? <==> sections != [] && sections[|sections| - 1].end == |lines| - 1
  {
    var last := |lines| - 1;
    assert lines[..last + 1] == lines;
    assert Covers(sections, last) <==> OpenAt(lines, classify, last).Some?;
    LastSectionCovers(sections, last);
  }

  lemma LastSectionCovers(sections: seq<Section>, last: nat)
    requires forall s | s in sections :: s.start <= s.end <= last
    requires forall i, j | 0 <= i < j < |sections| :: sections[i].end < sections[j].start
    ensures Covers(sections, last) <==> sections != [] && sections[|sections| - 1].end == last
  {
    if s :| s in sections && s.start <= last <= s.end {
      var i :| 0 <= i < |sections| && sections[i] == s;
      assert sections[|sections| - 1] in sections;
      if i < |sections| - 1 {
        assert false;
      }
    }
    if sections != [] && sections[|sections| - 1].end == last {
      assert sections[|sections| - 1] in sections;
    }
  }

  /** A marker and a plain line, never closed: well marked, and frozen to the end. */
  lemma UnclosedExample(marker: Line, body: Line, name: string, classify: Classifier)
    requires classify(marker) == Named(name) && classify(body).Plain?
    ensures var lines := [marker, body];
            && WellMarked(lines, classify, 2) && OpenAfter(lines, classify) == Some(name)
            && Contents(lines, classify) == [Block(name, [body])]
  {
    var lines := [marker, body];
    assert lines[..1] == [marker] && [marker][..0] == [];
    assert lines[1..] == [body] && [body][1..] == [];
    assert [] + [body] == [body];
    assert Scan([body], classify, Some(name), []) == Scan([], classify, Some(name), [body]);
  }

  /** A line index is frozen exactly when the fold over the lines up to and including it ends open. */
  method FrozenLineIndexes(lines: seq<Line>, classify: Classifier) returns (indexes: Option<set<int>>)
    ensures indexes.None? <==> !WellMarked(lines, classify, |lines|)
    ensures indexes.Some? ==>
              && (forall i | i in indexes.value :: 0 <= i < |lines|)
              && (forall i | 0 <= i < |lines| :: i in indexes.value <==> OpenAt(lines, classify, i).Some?)
              && (forall i | 0 <= i < |lines| ::
                    i in indexes.value <==> exists name :: InSection(lines, classify, i, name))
  {
    var r := ParseFrozenSections(lines, classify);
    if r.MalformedAt? {
      return None;
    }
    var found := IndexesOf(r.sections);
    indexes := Some(found);
  }

  method IndexesOf(sections: seq<Section>) returns (found: set<int>)
    ensures forall i :: i in found <==> Covers(sections, i)
  {
    found := {};
    for n := 0 to |sections|
      invariant forall i :: i in found <==> Covers(sections[..n], i)
    {
      var s := sections[n];
      assert sections[..n + 1] == sections[..n] + [s];
      forall i ensures Covers(sections[..n + 1], i) <==> Covers(sections[..n], i) || s.start <= i <= s.end {
        CoversAppend(sections[..n], s, i);
      }
      found := found + Range(s.start, s.end + 1);
    }
    assert sections[..|sections|] == sections;
  }

  // -------------------------------------------------------------------- name matching

  datatype Name = Name(text: string)

  /** Strictly increasing positions at which the wanted names stand. */
  ghost predicate Embeds(wanted: seq<Name>, names: seq<Name>, at: seq<nat>) {
    && |at| == |wanted|
    && (forall i | 0 <= i < |at| :: at[i] < |names| && names[at[i]] == wanted[i])
    && (forall i, j | 0 <= i < j < |at| :: at[i] < at[j])
  }

  ghost predicate IsSubsequence(wanted: seq<Name>, names: seq<Name>) {
    exists at :: Embeds(wanted, names, at)
  }

  /** The names at these increasing places, which are all those of non-empty names. */
  ghost predicate NonEmptyAt(names: seq<Name>, at: seq<nat>, r: seq<Name>) {
    && |at| == |r| && (forall i | 0 <= i < |at| :: at[i] < |names| && names[at[i]] == r[i])
    && (forall i, j | 0 <= i < j < |at| :: at[i] < at[j])
    && (forall k: nat :: k in at <==> k < |names| && names[k].text != "")
  }

  lemma {:induction false} NonEmptyIs(names: seq<Name>) returns (at: seq<nat>)
    ensures NonEmptyAt(names, at, NonEmpty(names))
  {
    if names == [] {
      at := [];
    } else {
      at := NonEmptyIs(names[..|names| - 1]);
      at := OneMoreName(names, at, NonEmpty(names[..|names| - 1]));
    }
  }

  lemma OneMoreName(names: seq<Name>, front: seq<nat>, r: seq<Name>) returns (at: seq<nat>)
    requires names != [] && NonEmptyAt(names[..|names| - 1], front, r)
    ensures var last := names[|names| - 1];
            NonEmptyAt(names, at, r + if last.text == "" then [] else [last])
  {
    var n: nat := |names| - 1;
    assert forall k | 0 <= k < n :: names[..n][k] == names[k];
    if names[n].text == "" {
      at := front;
      assert r + [] == r;
    } else {
      at := front + [n];
      assert forall k: nat :: k in at <==> k in front || k == n;
    }
  }

  function NonEmpty(names: seq<Name>): seq<Name> {
    if names == [] then []
    else NonEmpty(names[..|names| - 1]) + if names[|names| - 1].text == "" then [] else [names[|names| - 1]]
  }

  /** `names.index(name, from)`. */
  method IndexFrom(names: seq<Name>, name: Name, from: nat) returns (found: Option<nat>)
    requires from <= |names|
    ensures found.Some? ==> from <= found.value < |names| && names[found.value] == name
    ensures forall i | from <= i < (if found.Some? then found.value else |names|) :: names[i] != name
  {
    for i := from to |names|
      invariant forall k | from <= k < i :: names[k] != name
    {
      if names[i] == name {
        return Some(i);
      }
    }
    found := None;
  }

  /**
   * The greedy scan: true exactly when the non-empty requested names are distinct and a
   * subsequence of the present ones.
   */
  method ValidateNames(names: seq<Name>, requested: seq<Name>) returns (valid: bool)
    ensures valid <==> Distinct(NonEmpty(requested)) && IsSubsequence(NonEmpty(requested), names)
    ensures exists at :: NonEmptyAt(requested, at, NonEmpty(requested))
  {
    ghost var places := NonEmptyIs(requested);
    var wanted := NonEmpty(requested);
    DistinctBySize(wanted);
    if |set n | n in wanted| != |wanted| {
      return false;
    }
    var pos := 0;
    ghost var at: seq<nat> := [];
    for k := 0 to |wanted|
      invariant pos <= |names| && Embeds(wanted[..k], names, at)
      invariant pos == if k == 0 then 0 else at[k - 1] + 1
      invariant NoneSooner(wanted, names, k, pos)
    {
      var found := IndexFrom(names, wanted[k], pos);
      if found.None? {
        NoneLeft(wanted, names, k, pos);
        return false;
      }
      GreedyStep(wanted, names, at, k, pos, found.value);
      at := at + [found.value];
      pos := found.value + 1;
    }
    assert wanted[..|wanted|] == wanted;
    valid := true;
  }

  /** No embedding places its first k names so that it could go on sooner than `pos`. */
  ghost predicate NoneSooner(wanted: seq<Name>, names: seq<Name>, k: nat, pos: nat) {
    k <= |wanted| && (k == 0 ==> pos == 0) && forall at | Embeds(wanted, names, at) && k > 0 :: pos <= at[k - 1] + 1
  }

  lemma NextIsLater(wanted: seq<Name>, names: seq<Name>, at: seq<nat>, k: nat, pos: nat)
    requires Embeds(wanted, names, at) && k < |wanted| && NoneSooner(wanted, names, k, pos)
    ensures pos <= at[k] < |names| && names[at[k]] == wanted[k]
  {
  }

  lemma NoneLeft(wanted: seq<Name>, names: seq<Name>, k: nat, pos: nat)
    requires k < |wanted| && NoneSooner(wanted, names, k, pos)
    requires forall i | pos <= i < |names| :: names[i] != wanted[k]
    ensures !IsSubsequence(wanted, names)
  {
    if at :| Embeds(wanted, names, at) {
      NextIsLater(wanted, names, at, k, pos);
      assert false;
    }
  }

  /** Taking the first place that is left loses no embedding. */
  lemma GreedyStep(wanted: seq<Name>, names: seq<Name>, at: seq<nat>, k: nat, pos: nat, found: nat)
    requires k < |wanted| && NoneSooner(wanted, names, k, pos) && Embeds(wanted[..k], names, at)
    requires pos == if k == 0 then 0 else at[k - 1] + 1
    requires pos <= found < |names| && names[found] == wanted[k]
    requires forall i | pos <= i < found :: names[i] != wanted[k]
    ensures Embeds(wanted[..k + 1], names, at + [found]) && NoneSooner(wanted, names, k + 1, found + 1)
  {
    forall other | Embeds(wanted, names, other) ensures found <= other[k] {
      NextIsLater(wanted, names, other, k, pos);
    }
  }

  function SectionNames(sections: seq<Section>): (names: seq<Name>)
    ensures |names| == |sections| && forall i | 0 <= i < |names| :: names[i] == Name(sections[i].name)
  {
    seq(|sections|, i requires 0 <= i < |sections| => Name(sections[i].name))
  }

  /** Parse, then match; None stands for the error a malformed marker raises. */
  method ValidateFrozenSections(lines: seq<Line>, classify: Classifier, requested: seq<Name>)
    returns (valid: Option<bool>, ghost sections: seq<Section>)
    ensures valid.None? <==> !WellMarked(lines, classify, |lines|)
    ensures valid.Some? ==>
              && Describes(lines, classify, sections, |lines|)
              && (valid.value <==>
                  Distinct(NonEmpty(requested)) && IsSubsequence(NonEmpty(requested), SectionNames(sections)))
  {
    sections := [];
    var r := ParseFrozenSections(lines, classify);
    if r.MalformedAt? {
      return None, sections;
    }
    var ok := ValidateNames(SectionNames(r.sections), requested);
    return Some(ok), r.sections;
  }
}
