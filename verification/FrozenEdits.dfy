/** What an edit does to the freeze: when the candidate prompt still freezes what the prompt froze. */
module FrozenEdits {
  import opened Common
  import opened TextOps
  import opened FrozenSections

  // ------------------------------------------------------- blocks and frozen lines say the same

  /** A frozen line: a marker by the name it opens, or a line of the open section. */
  datatype FrozenLine = Opening(name: string) | Body(line: Line)

  ghost function Bodies(lines: seq<Line>): seq<FrozenLine> {
    seq(|lines|, i requires 0 <= i < |lines| => Body(lines[i]))
  }

  /** The frozen lines from here on, markers up to spelling. */
  ghost function FrozenLines(lines: seq<Line>, classify: Classifier, open: Option<string>): seq<FrozenLine>
    decreases |lines|
  {
    if lines == [] then []
    else
      var kind := classify(lines[0]);
      var next := OpenNext(open, kind);
      (if next.None? then [] else if IsMarker(kind) then [Opening(next.value)] else [Body(lines[0])])
      + FrozenLines(lines[1..], classify, next)
  }

  ghost function Flatten(blocks: seq<Block>): seq<FrozenLine> {
    if blocks == [] then [] else [Opening(blocks[0].name)] + Bodies(blocks[0].lines) + Flatten(blocks[1..])
  }

  lemma FlattenCons(b: Block, rest: seq<Block>)
    ensures Flatten([b] + rest) == [Opening(b.name)] + Bodies(b.lines) + Flatten(rest)
  {
    assert ([b] + rest)[1..] == rest;
  }

  /** The frozen lines of a scan in progress: what is open already, then the rest. */
  ghost function Started(open: Option<string>, body: seq<Line>): seq<FrozenLine> {
    if open.Some? then [Opening(open.value)] + Bodies(body) else []
  }

  lemma FlattenClosed(open: Option<string>, body: seq<Line>, rest: seq<Block>)
    ensures Flatten(Closed(open, body) + rest) == Started(open, body) + Flatten(rest)
  {
    if open.Some? {
      FlattenCons(Block(open.value, body), rest);
    } else {
      assert Closed(open, body) + rest == rest;
    }
  }

  lemma BodiesAppend(body: seq<Line>, l: Line)
    ensures Bodies(body + [l]) == Bodies(body) + [Body(l)]
  {
  }

  lemma StartedMore(open: Option<string>, body: seq<Line>, l: Line, rest: seq<FrozenLine>)
    requires open.Some?
    ensures Started(open, body + [l]) + rest == Started(open, body) + ([Body(l)] + rest)
  {
    BodiesAppend(body, l);
  }

  lemma StartedFresh(open: Option<string>)
    ensures Started(open, []) == if open.None? then [] else [Opening(open.value)]
  {
  }

  lemma {:induction false} ScanFlattens(lines: seq<Line>, classify: Classifier, open: Option<string>, body: seq<Line>)
    requires open.None? ==> body == []
    ensures Flatten(Scan(lines, classify, open, body)) == Started(open, body) + FrozenLines(lines, classify, open)
    decreases |lines|
  {
    if lines == [] {
      FlattenClosed(open, body, []);
      assert Closed(open, body) + [] == Closed(open, body);
    } else if IsMarker(classify(lines[0])) {
      var next := Opens(open, classify(lines[0]));
      ScanFlattens(lines[1..], classify, next, []);
      FlattenClosed(open, body, Scan(lines[1..], classify, next, []));
      StartedFresh(next);
    } else if open.Some? {
      ScanFlattens(lines[1..], classify, open, body + [lines[0]]);
      StartedMore(open, body, lines[0], FrozenLines(lines[1..], classify, open));
    } else {
      ScanFlattens(lines[1..], classify, open, []);
      assert [] + FrozenLines(lines[1..], classify, open) == FrozenLines(lines[1..], classify, open);
    }
  }

  /** How many lines of the open section come before the next marker. */
  ghost function Leading(f: seq<FrozenLine>): (n: nat)
    ensures n <= |f|
  {
    if f == [] || f[0].Opening? then 0 else 1 + Leading(f[1..])
  }

  lemma {:induction false} LeadingBodies(lines: seq<Line>, rest: seq<FrozenLine>)
    requires rest != [] ==> rest[0].Opening?
    ensures Leading(Bodies(lines) + rest) == |lines|
  {
    if lines == [] {
      assert Bodies(lines) + rest == rest;
    } else {
      LeadingBodies(lines[1..], rest);
      assert (Bodies(lines) + rest)[1..] == Bodies(lines[1..]) + rest;
    }
  }

  lemma BodiesInjective(a: seq<Line>, b: seq<Line>)
    requires Bodies(a) == Bodies(b)
    ensures a == b
  {
    assert |Bodies(a)| == |Bodies(b)|;
    forall i | 0 <= i < |a| ensures a[i] == b[i] {
      assert Bodies(a)[i] == Bodies(b)[i];
    }
  }

  lemma FlattenParts(b: seq<Block>)
    requires b != []
    ensures var f := Flatten(b);
            && f != [] && f[0] == Opening(b[0].name)
            && Leading(f[1..]) == |b[0].lines| && f[1..][..|b[0].lines|] == Bodies(b[0].lines)
            && f[1..][|b[0].lines|..] == Flatten(b[1..])
  {
    OpenedParts(b[0].name, Bodies(b[0].lines), Flatten(b[1..]));
    LeadingBodies(b[0].lines, Flatten(b[1..]));
  }

  lemma OpenedParts(name: string, bodies: seq<FrozenLine>, rest: seq<FrozenLine>)
    ensures var f := [Opening(name)] + bodies + rest;
            f[1..] == bodies + rest && f[1..][..|bodies|] == bodies && f[1..][|bodies|..] == rest
  {
    assert ([Opening(name)] + bodies + rest)[1..] == bodies + rest;
  }

  lemma {:induction false} FlattenInjective(a: seq<Block>, b: seq<Block>)
    requires Flatten(a) == Flatten(b)
    ensures a == b
  {
    if a != [] {
      FlattenParts(a);
    }
    if b != [] {
      FlattenParts(b);
    }
    if a != [] && b != [] {
      BodiesInjective(a[0].lines, b[0].lines);
      FlattenInjective(a[1..], b[1..]);
      assert a == [a[0]] + a[1..] && b == [b[0]] + b[1..];
    }
  }

  lemma ContentsFlatten(lines: seq<Line>, classify: Classifier)
    ensures Flatten(Contents(lines, classify)) == FrozenLines(lines, classify, None)
  {
    ScanFlattens(lines, classify, None, []);
    assert [] + FrozenLines(lines, classify, None) == FrozenLines(lines, classify, None);
  }

  /** Two prompts freeze the same blocks exactly when their frozen lines are the same, markers up to spelling. */
  lemma SameContentsIff(a: seq<Line>, b: seq<Line>, classify: Classifier)
    ensures Contents(a, classify) == Contents(b, classify) <==>
            FrozenLines(a, classify, None) == FrozenLines(b, classify, None)
  {
    ContentsFlatten(a, classify);
    ContentsFlatten(b, classify);
    if FrozenLines(a, classify, None) == FrozenLines(b, classify, None) {
      FlattenInjective(Contents(a, classify), Contents(b, classify));
    }
  }

  // ------------------------------------------------------------ blocks are stretches of lines

  /** The block's lines stand in a row among all lines. */
  ghost predicate IsStretch(lines: seq<Line>, all: seq<Line>) {
    exists x, y :: 0 <= x <= y <= |all| && lines == all[x..y]
  }

  /** Scanning from line i, with the open section's lines standing right before it, gives stretches only. */
  lemma {:induction false} ScanGivesStretches(
      all: seq<Line>, i: nat, j: nat, classify: Classifier, open: Option<string>, body: seq<Line>, b: Block)
    requires j <= i <= |all| && (open.Some? ==> body == all[j..i])
    requires b in Scan(all[i..], classify, open, body)
    ensures IsStretch(b.lines, all)
    decreases |all| - i
  {
    if b in Closed(open, body) {
      assert b.lines == all[j..i];
    } else {
      assert i < |all|;
      DropOneMore(all, i);
      var kind := classify(all[i]);
      if IsMarker(kind) {
        assert all[i + 1..i + 1] == [];
        ScanGivesStretches(all, i + 1, i + 1, classify, Opens(open, kind), [], b);
      } else if open.Some? {
        assert all[j..i] + [all[i]] == all[j..i + 1];
        ScanGivesStretches(all, i + 1, j, classify, open, body + [all[i]], b);
      } else {
        ScanGivesStretches(all, i + 1, i + 1, classify, open, [], b);
      }
    }
  }

  /** What a text freezes stands in the text. */
  lemma FrozenBlockOccurs(text: string, classify: Classifier, b: Block)
    requires b in Contents(SplitLines(text), classify) && Join(b.lines) != ""
    ensures Contains(text, Join(b.lines))
  {
    var all := SplitLines(text);
    assert all[0..] == all;
    ScanGivesStretches(all, 0, 0, classify, None, [], b);
    var x, y :| 0 <= x <= y <= |all| && b.lines == all[x..y];
    assert b.lines != [];
    LinesStandInText(text, x, y);
    assert OccursAt(text, Join(b.lines), LineOffset(text, x));
  }

  // --------------------------------------------------- a prompt as kept lines and free stretches

  /** A kept line is frozen or a marker; a free stretch is the text between two kept lines. */
  datatype Chunk = Kept(text: string) | Free(text: string)

  ghost function Text(chunks: seq<Chunk>): string
    requires chunks != []
  {
    if |chunks| == 1 then chunks[0].text else chunks[0].text + "\n" + Text(chunks[1..])
  }

  /** The lines of one chunk; a newline follows unless it is the last. */
  ghost function LinesOfChunk(c: Chunk, last: bool): seq<Line> {
    if last then SplitLines(c.text) else Split(c.text)
  }

  ghost function LinesOf(chunks: seq<Chunk>): seq<Line>
    requires chunks != []
  {
    LinesOfChunk(chunks[0], |chunks| == 1) + if |chunks| == 1 then [] else LinesOf(chunks[1..])
  }

  lemma {:induction false} TextLines(chunks: seq<Chunk>)
    requires chunks != []
    ensures SplitLines(Text(chunks)) == LinesOf(chunks)
  {
    if |chunks| == 1 {
      assert LinesOf(chunks) == SplitLines(chunks[0].text);
    } else {
      TextLines(chunks[1..]);
      SplitLinesJoin(chunks[0].text, Text(chunks[1..]));
    }
  }

  /** Kept chunks are single lines. */
  ghost predicate KeptAreLines(chunks: seq<Chunk>) {
    forall c | c in chunks && c.Kept? :: '\n' !in c.text
  }

  /** Which lines come from free stretches. */
  ghost function FreeFlags(chunks: seq<Chunk>): (flags: seq<bool>)
    requires chunks != []
    ensures |flags| == |LinesOf(chunks)|
  {
    seq(|LinesOfChunk(chunks[0], |chunks| == 1)|, i => chunks[0].Free?)
    + if |chunks| == 1 then [] else FreeFlags(chunks[1..])
  }

  ghost function RewriteChunk(c: Chunk, old_: string, new_: string): Chunk
    requires old_ != ""
  {
    if c.Kept? then c else Free(Replace(c.text, old_, new_))
  }

  /** The edit applied to every free stretch. */
  ghost function Rewrite(chunks: seq<Chunk>, old_: string, new_: string): (r: seq<Chunk>)
    requires old_ != ""
    ensures |r| == |chunks| && forall i | 0 <= i < |r| :: r[i] == RewriteChunk(chunks[i], old_, new_)
  {
    seq(|chunks|, i requires 0 <= i < |chunks| => RewriteChunk(chunks[i], old_, new_))
  }

  lemma RewriteRest(chunks: seq<Chunk>, old_: string, new_: string)
    requires old_ != "" && chunks != []
    ensures Rewrite(chunks, old_, new_)[1..] == Rewrite(chunks[1..], old_, new_)
  {
  }

  /** No occurrence lies in a kept line or touches a newline between two chunks. */
  ghost predicate Spared(chunks: seq<Chunk>, old_: string)
    requires chunks != []
  {
    && (chunks[0].Kept? ==> !Contains(chunks[0].text, old_))
    && (|chunks| > 1 ==>
          Apart(Text(chunks), old_, |chunks[0].text|, |chunks[0].text| + 1) && Spared(chunks[1..], old_))
  }

  /** Replacing in the whole text is replacing in its free stretches. */
  lemma {:induction false} ReplaceByChunks(chunks: seq<Chunk>, old_: string, new_: string)
    requires chunks != [] && old_ != "" && Spared(chunks, old_)
    ensures Replace(Text(chunks), old_, new_) == Text(Rewrite(chunks, old_, new_))
  {
    if chunks[0].Kept? {
      ReplaceAbsent(chunks[0].text, old_, new_);
    }
    if |chunks| > 1 {
      ReplaceByChunks(chunks[1..], old_, new_);
      RewriteRest(chunks, old_, new_);
      ReplaceSplits(chunks[0].text, Text(chunks[1..]), old_, new_);
    }
  }

  // ------------------------------------------------------------------ scanning chunk by chunk

  /** The open/close fold from the front. */
  ghost function OpenFrom(open: Option<string>, lines: seq<Line>, classify: Classifier): Option<string>
    decreases |lines|
  {
    if lines == [] then open else OpenFrom(OpenNext(open, classify(lines[0])), lines[1..], classify)
  }

  lemma {:induction false} OpenFromSplit(open: Option<string>, a: seq<Line>, b: seq<Line>, classify: Classifier)
    ensures OpenFrom(open, a + b, classify) == OpenFrom(OpenFrom(open, a, classify), b, classify)
    decreases |a|
  {
    if a == [] {
      assert a + b == b;
    } else {
      assert (a + b)[1..] == a[1..] + b;
      OpenFromSplit(OpenNext(open, classify(a[0])), a[1..], b, classify);
    }
  }

  lemma {:induction false} OpenAfterIsOpenFrom(lines: seq<Line>, classify: Classifier)
    ensures OpenAfter(lines, classify) == OpenFrom(None, lines, classify)
  {
    if lines != [] {
      var front, last := lines[..|lines| - 1], lines[|lines| - 1];
      OpenAfterIsOpenFrom(front, classify);
      OpenFromSplit(None, front, [last], classify);
      SplitLast(lines);
      assert [last][1..] == [];
    }
  }

  ghost predicate AllPlain(lines: seq<Line>, classify: Classifier) {
    forall l | l in lines :: classify(l).Plain?
  }

  lemma {:induction false} PlainKeepsOpen(open: Option<string>, lines: seq<Line>, classify: Classifier)
    requires AllPlain(lines, classify)
    ensures OpenFrom(open, lines, classify) == open
  {
    if lines != [] {
      PlainKeepsOpen(open, lines[1..], classify);
    }
  }

  lemma {:induction false} ScanSkipsPlain(lines: seq<Line>, rest: seq<Line>, classify: Classifier)
    requires AllPlain(lines, classify)
    ensures Scan(lines + rest, classify, None, []) == Scan(rest, classify, None, [])
  {
    if lines == [] {
      assert lines + rest == rest;
    } else {
      assert (lines + rest)[1..] == lines[1..] + rest;
      assert lines[0] in lines;
      ScanSkipsPlain(lines[1..], rest, classify);
    }
  }

  /** Free stretches hold only plain lines outside every section; kept lines are not malformed. */
  ghost predicate Guarded(chunks: seq<Chunk>, classify: Classifier, open: Option<string>)
    requires chunks != []
  {
    var lines := LinesOfChunk(chunks[0], |chunks| == 1);
    && (chunks[0].Free? ==> AllPlain(lines, classify) && (lines == [] || open.None?))
    && (chunks[0].Kept? ==> forall l | l in lines :: !classify(l).Malformed?)
    && (|chunks| > 1 ==> Guarded(chunks[1..], classify, OpenFrom(open, lines, classify)))
  }

  /** Every line of every free stretch is plain. */
  ghost predicate FreePlain(chunks: seq<Chunk>, classify: Classifier)
    requires chunks != []
  {
    && (chunks[0].Free? ==> AllPlain(LinesOfChunk(chunks[0], |chunks| == 1), classify))
    && (|chunks| > 1 ==> FreePlain(chunks[1..], classify))
  }

  /** The two differ in their free stretches only, and what was empty stays empty. */
  ghost predicate SameKept(a: seq<Chunk>, b: seq<Chunk>) {
    && |a| == |b|
    && (forall i | 0 <= i < |a| :: a[i].Kept? ==> a[i] == b[i])
    && (forall i | 0 <= i < |a| :: a[i].Free? ==> b[i].Free? && (a[i].text == "" ==> b[i].text == ""))
  }

  lemma RewriteSameKept(chunks: seq<Chunk>, old_: string, new_: string)
    requires old_ != ""
    ensures SameKept(chunks, Rewrite(chunks, old_, new_))
  {
  }

  lemma SameKeptRest(a: seq<Chunk>, b: seq<Chunk>)
    requires SameKept(a, b) && a != []
    ensures SameKept(a[1..], b[1..])
  {
  }

  /** The lines of the open section after one more line. */
  ghost function BodyNext(open: Option<string>, body: seq<Line>, line: Line, kind: Kind): seq<Line> {
    if IsMarker(kind) || open.None? then [] else body + [line]
  }

  lemma ScanStep(line: Line, rest: seq<Line>, classify: Classifier, open: Option<string>, body: seq<Line>)
    ensures var kind := classify(line);
            Scan([line] + rest, classify, open, body) ==
            (if IsMarker(kind) then Closed(open, body) else []) +
            Scan(rest, classify, OpenNext(open, kind), BodyNext(open, body, line, kind))
  {
    assert ([line] + rest)[1..] == rest;
  }

  /** When the rewritten stretches stay plain, the same blocks are frozen. */
  lemma {:induction false} PlainEditKeepsScan(
      a: seq<Chunk>, b: seq<Chunk>, classify: Classifier, open: Option<string>, body: seq<Line>)
    requires a != [] && SameKept(a, b) && KeptAreLines(a) && Guarded(a, classify, open) && FreePlain(b, classify)
    requires open.None? ==> body == []
    ensures Scan(LinesOf(a), classify, open, body) == Scan(LinesOf(b), classify, open, body)
    decreases |a|
  {
    var la, lb := LinesOfChunk(a[0], |a| == 1), LinesOfChunk(b[0], |b| == 1);
    if |a| == 1 {
      assert LinesOf(a) == la && LinesOf(b) == lb;
      if a[0].Free? && la != [] {
        assert la + [] == la && lb + [] == lb;
        ScanSkipsPlain(la, [], classify);
        ScanSkipsPlain(lb, [], classify);
      } else if a[0].Free? {
        assert a[0].text == "";
      }
    } else {
      var ra, rb := LinesOf(a[1..]), LinesOf(b[1..]);
      SameKeptRest(a, b);
      if a[0].Free? {
        PlainKeepsOpen(open, la, classify);
        PlainEditKeepsScan(a[1..], b[1..], classify, open, body);
        ScanSkipsPlain(la, ra, classify);
        ScanSkipsPlain(lb, rb, classify);
      } else {
        OnePiece(a[0].text);
        var line := Line(a[0].text);
        var next := OpenNext(open, classify(line));
        assert OpenFrom(open, [line], classify) == next by {
          assert [line][1..] == [];
        }
        PlainEditKeepsScan(a[1..], b[1..], classify, next, BodyNext(open, body, line, classify(line)));
        ScanStep(line, ra, classify, open, body);
        ScanStep(line, rb, classify, open, body);
      }
    }
  }

  lemma {:induction false} PlainEditIsWellMarked(
      a: seq<Chunk>, b: seq<Chunk>, classify: Classifier, open: Option<string>)
    requires a != [] && SameKept(a, b) && Guarded(a, classify, open) && FreePlain(b, classify)
    ensures forall l | l in LinesOf(b) :: !classify(l).Malformed?
    decreases |a|
  {
    var la := LinesOfChunk(a[0], |a| == 1);
    if |a| > 1 {
      SameKeptRest(a, b);
      PlainEditIsWellMarked(a[1..], b[1..], classify, OpenFrom(open, la, classify));
    }
  }

  // -------------------------------------------------------------- what the edit writes is not frozen

  /** Line k is neither frozen nor malformed when `open` is open before the first line. */
  ghost predicate InertAt(lines: seq<Line>, classify: Classifier, open: Option<string>, k: nat)
    requires k < |lines|
  {
    OpenFrom(open, lines[..k + 1], classify).None? && !classify(lines[k]).Malformed?
  }

  ghost predicate InertLines(lines: seq<Line>, classify: Classifier, open: Option<string>) {
    forall k: nat | k < |lines| :: InertAt(lines, classify, open, k)
  }

  ghost predicate InertFlagged(lines: seq<Line>, flags: seq<bool>, classify: Classifier, open: Option<string>)
    requires |flags| == |lines|
  {
    forall k: nat | k < |lines| && flags[k] :: InertAt(lines, classify, open, k)
  }

  /** No line of a free stretch is frozen or malformed. */
  ghost predicate Inert(chunks: seq<Chunk>, classify: Classifier, open: Option<string>)
    requires chunks != []
  {
    InertFlagged(LinesOf(chunks), FreeFlags(chunks), classify, open)
  }

  lemma ConcatPrefix<T>(a: seq<T>, b: seq<T>, k: nat)
    requires k <= |a| + |b|
    ensures (a + b)[..k] == if k <= |a| then a[..k] else a + b[..k - |a|]
  {
  }

  lemma InertAtConcat(a: seq<Line>, b: seq<Line>, classify: Classifier, open: Option<string>, k: nat)
    requires k < |a| + |b|
    ensures InertAt(a + b, classify, open, k) <==>
            if k < |a| then InertAt(a, classify, open, k)
            else InertAt(b, classify, OpenFrom(open, a, classify), k - |a|)
  {
    ConcatPrefix(a, b, k + 1);
    if k >= |a| {
      OpenFromSplit(open, a, b[..k - |a| + 1], classify);
    }
  }

  lemma InertFlaggedConcat(
      a: seq<Line>, fa: seq<bool>, b: seq<Line>, fb: seq<bool>, classify: Classifier, open: Option<string>)
    requires |fa| == |a| && |fb| == |b|
    ensures InertFlagged(a + b, fa + fb, classify, open) <==>
            InertFlagged(a, fa, classify, open) && InertFlagged(b, fb, classify, OpenFrom(open, a, classify))
  {
    if InertFlagged(a + b, fa + fb, classify, open) {
      forall k: nat | k < |a| && fa[k] ensures InertAt(a, classify, open, k) {
        assert (fa + fb)[k];
        InertAtConcat(a, b, classify, open, k);
      }
      forall k: nat | k < |b| && fb[k] ensures InertAt(b, classify, OpenFrom(open, a, classify), k) {
        assert (fa + fb)[|a| + k];
        InertAtConcat(a, b, classify, open, |a| + k);
      }
    }
    if InertFlagged(a, fa, classify, open) && InertFlagged(b, fb, classify, OpenFrom(open, a, classify)) {
      forall k: nat | k < |a + b| && (fa + fb)[k] ensures InertAt(a + b, classify, open, k) {
        InertAtConcat(a, b, classify, open, k);
      }
    }
  }

  lemma InertUniform(lines: seq<Line>, flag: bool, classify: Classifier, open: Option<string>)
    ensures InertFlagged(lines, seq(|lines|, i => flag), classify, open) <==>
        (flag ==> InertLines(lines, classify, open))
  {
    var flags := seq(|lines|, i => flag);
    if flag && InertFlagged(lines, flags, classify, open) {
      forall k: nat | k < |lines| ensures InertAt(lines, classify, open, k) {
        assert flags[k];
      }
    }
  }

  lemma InertOne(l: Line, classify: Classifier)
    ensures InertLines([l], classify, None) <==> classify(l).Plain?
    ensures classify(l).Plain? ==> OpenFrom(None, [l], classify).None?
  {
    assert [l][..1] == [l] && [l][1..] == [];
    assert OpenFrom(None, [l], classify) == OpenNext(None, classify(l));
    assert InertAt([l], classify, None, 0) <==> classify(l).Plain?;
  }

  lemma {:induction false} InertIffPlain(lines: seq<Line>, classify: Classifier)
    ensures InertLines(lines, classify, None) <==> AllPlain(lines, classify)
  {
    if lines != [] {
      var head, rest := lines[0], lines[1..];
      assert lines == [head] + rest;
      InertOne(head, classify);
      InertUniform([head], true, classify, None);
      InertUniform(rest, true, classify, OpenFrom(None, [head], classify));
      InertUniform(lines, true, classify, None);
      InertFlaggedConcat([head], seq(1, i => true), rest, seq(|rest|, i => true), classify, None);
      assert seq(1, i => true) + seq(|rest|, i => true) == seq(|lines|, i => true);
      InertIffPlain(rest, classify);
    }
  }

  /** Looking at the first chunk and then at the rest. */
  lemma InertCons(chunks: seq<Chunk>, classify: Classifier, open: Option<string>)
    requires |chunks| > 1
    ensures var lines := Split(chunks[0].text);
            Inert(chunks, classify, open) <==>
            (chunks[0].Free? ==> InertLines(lines, classify, open)) &&
            Inert(chunks[1..], classify, OpenFrom(open, lines, classify))
  {
    var lines := Split(chunks[0].text);
    var flags := seq(|lines|, i => chunks[0].Free?);
    InertFlaggedConcat(lines, flags, LinesOf(chunks[1..]), FreeFlags(chunks[1..]), classify, open);
    InertUniform(lines, chunks[0].Free?, classify, open);
  }

  lemma InertLast(c: Chunk, classify: Classifier, open: Option<string>)
    ensures Inert([c], classify, open) <==> (c.Free? ==> InertLines(SplitLines(c.text), classify, open))
  {
    assert LinesOf([c]) == SplitLines(c.text);
    InertUniform(SplitLines(c.text), c.Free?, classify, open);
    assert FreeFlags([c]) == seq(|SplitLines(c.text)|, i => c.Free?);
  }

  /** What the edit writes stays outside every section exactly when it writes plain lines only. */
  lemma {:induction false} InertIffFreePlain(a: seq<Chunk>, b: seq<Chunk>, classify: Classifier, open: Option<string>)
    requires a != [] && SameKept(a, b) && KeptAreLines(a) && Guarded(a, classify, open)
    ensures Inert(b, classify, open) <==> FreePlain(b, classify)
    decreases |a|
  {
    var la, lb := LinesOfChunk(a[0], |a| == 1), LinesOfChunk(b[0], |b| == 1);
    if |a| == 1 {
      assert b == [b[0]];
      InertLast(b[0], classify, open);
      if a[0].Free? {
        if la == [] {
          assert a[0].text == "";
        } else {
          InertIffPlain(lb, classify);
        }
      }
    } else {
      InertCons(b, classify, open);
      SameKeptRest(a, b);
      if a[0].Free? {
        InertIffPlain(lb, classify);
        PlainKeepsOpen(open, la, classify);
        if AllPlain(lb, classify) {
          PlainKeepsOpen(open, lb, classify);
          InertIffFreePlain(a[1..], b[1..], classify, open);
        }
      } else {
        InertIffFreePlain(a[1..], b[1..], classify, OpenFrom(open, la, classify));
      }
    }
  }

  // ------------------------------------------------------------------------ cutting a prompt

  ghost predicate IsKept(open: Option<string>, kind: Kind) {
    open.Some? || IsMarker(kind)
  }

  /** Every frozen line and every marker is kept; what lies between them is free. */
  ghost function Cut(pieces: seq<Line>, classify: Classifier, open: Option<string>): (chunks: seq<Chunk>)
    requires pieces != []
    ensures chunks != []
    decreases |pieces|
  {
    var text, kind := pieces[0].text, classify(pieces[0]);
    if |pieces| == 1 then [if IsKept(open, kind) then Kept(text) else Free(text)]
    else
      var rest := Cut(pieces[1..], classify, OpenNext(open, kind));
      if IsKept(open, kind) then [Kept(text)] + rest
      else if rest[0].Free? then [Free(text + "\n" + rest[0].text)] + rest[1..]
      else [Free(text)] + rest
  }

  ghost function Cuts(prompt: string, classify: Classifier): (chunks: seq<Chunk>)
    ensures chunks != []
  {
    Cut(Split(prompt), classify, None)
  }

  lemma {:induction false} JoinSplit(s: string)
    ensures Join(Split(s)) == s
    decreases |s|
  {
    var k := FirstNewline(s);
    if k < |s| {
      JoinSplit(s[k + 1..]);
      JoinUnfolds(Line(s[..k]), Split(s[k + 1..]));
      FirstNewlineFinds(s);
      CutAt(s, k);
    }
  }

  lemma TextCons(c: Chunk, rest: seq<Chunk>)
    requires rest != []
    ensures Text([c] + rest) == c.text + "\n" + Text(rest)
  {
    assert ([c] + rest)[1..] == rest;
  }

  lemma TextMerge(text: string, rest: seq<Chunk>)
    requires rest != []
    ensures Text([Free(text + "\n" + rest[0].text)] + rest[1..]) == text + "\n" + Text(rest)
  {
    var merged := [Free(text + "\n" + rest[0].text)] + rest[1..];
    assert merged[1..] == rest[1..];
    if |rest| > 1 {
      assert text + "\n" + rest[0].text + "\n" + Text(rest[1..])
          == text + "\n" + (rest[0].text + "\n" + Text(rest[1..]));
    }
  }

  lemma {:induction false} CutText(pieces: seq<Line>, classify: Classifier, open: Option<string>)
    requires pieces != []
    ensures Text(Cut(pieces, classify, open)) == Join(pieces)
    decreases |pieces|
  {
    if |pieces| > 1 {
      var text, kind := pieces[0].text, classify(pieces[0]);
      var rest := Cut(pieces[1..], classify, OpenNext(open, kind));
      CutText(pieces[1..], classify, OpenNext(open, kind));
      TextCons(Kept(text), rest);
      TextCons(Free(text), rest);
      TextMerge(text, rest);
    }
  }

  ghost predicate NoAdjacentFree(chunks: seq<Chunk>) {
    forall i, j | 0 <= i && j == i + 1 < |chunks| :: chunks[i].Kept? || chunks[j].Kept?
  }

  ghost predicate PiecesAreLines(pieces: seq<Line>) {
    forall l | l in pieces :: '\n' !in l.text
  }

  lemma {:induction false} SplitGivesLines(s: string)
    ensures PiecesAreLines(Split(s))
    decreases |s|
  {
    var k := FirstNewline(s);
    FirstNewlineFinds(s);
    if k < |s| {
      SplitGivesLines(s[k + 1..]);
    }
  }

  lemma {:induction false} CutShape(pieces: seq<Line>, classify: Classifier, open: Option<string>)
    requires pieces != [] && PiecesAreLines(pieces)
    ensures KeptAreLines(Cut(pieces, classify, open)) && NoAdjacentFree(Cut(pieces, classify, open))
    decreases |pieces|
  {
    if |pieces| > 1 {
      CutShape(pieces[1..], classify, OpenNext(open, classify(pieces[0])));
    }
  }

  /** Every piece but an empty last one is a line, and none of them is a malformed marker. */
  ghost predicate PiecesWellMarked(pieces: seq<Line>, classify: Classifier) {
    forall i | 0 <= i < |pieces| && (i < |pieces| - 1 || pieces[i].text != "") :: !classify(pieces[i]).Malformed?
  }

  lemma GuardedMerge(text: string, rest: seq<Chunk>, classify: Classifier)
    requires rest != [] && rest[0].Free? && '\n' !in text && classify(Line(text)).Plain?
        && Guarded(rest, classify, None)
    ensures Guarded([Free(text + "\n" + rest[0].text)] + rest[1..], classify, None)
  {
    var merged := [Free(text + "\n" + rest[0].text)] + rest[1..];
    var lines := LinesOfChunk(rest[0], |rest| == 1);
    OnePiece(text);
    SplitJoin(text, rest[0].text);
    SplitLinesJoin(text, rest[0].text);
    assert LinesOfChunk(merged[0], |merged| == 1) == [Line(text)] + lines;
    PlainKeepsOpen(None, lines, classify);
    PlainKeepsOpen(None, [Line(text)] + lines, classify);
    assert merged[1..] == rest[1..];
  }

  lemma GuardedCons(c: Chunk, rest: seq<Chunk>, classify: Classifier, open: Option<string>)
    requires rest != [] && '\n' !in c.text
    requires c.Kept? ==> !classify(Line(c.text)).Malformed?
    requires c.Free? ==> classify(Line(c.text)).Plain? && open.None?
    requires Guarded(rest, classify, OpenNext(open, classify(Line(c.text))))
    ensures Guarded([c] + rest, classify, open)
  {
    OnePiece(c.text);
    assert ([c] + rest)[1..] == rest;
    assert [Line(c.text)][1..] == [];
    assert OpenFrom(open, [Line(c.text)], classify) == OpenNext(open, classify(Line(c.text)));
  }

  lemma {:induction false} CutGuarded(pieces: seq<Line>, classify: Classifier, open: Option<string>)
    requires pieces != [] && PiecesAreLines(pieces) && PiecesWellMarked(pieces, classify)
    ensures Guarded(Cut(pieces, classify, open), classify, open)
    decreases |pieces|
  {
    var head := pieces[0];
    if |pieces| == 1 {
      OnePiece(head.text);
    } else {
      var rest := Cut(pieces[1..], classify, OpenNext(open, classify(head)));
      CutGuarded(pieces[1..], classify, OpenNext(open, classify(head)));
      assert Line(head.text) == head;
      if IsKept(open, classify(head)) {
        GuardedCons(Kept(head.text), rest, classify, open);
      } else if rest[0].Free? {
        GuardedMerge(head.text, rest, classify);
      } else {
        GuardedCons(Free(head.text), rest, classify, open);
      }
    }
  }

  ghost predicate NoneMalformed(lines: seq<Line>, classify: Classifier) {
    forall l | l in lines :: !classify(l).Malformed?
  }

  lemma MorePiecesWellMarked(head: Line, rest: seq<Line>, classify: Classifier)
    requires rest != [] && PiecesWellMarked(rest, classify) && !classify(head).Malformed?
    ensures PiecesWellMarked([head] + rest, classify)
  {
    var all := [head] + rest;
    forall i | 0 <= i < |all| && (i < |all| - 1 || all[i].text != "") ensures !classify(all[i]).Malformed? {
      if i > 0 {
        assert all[i] == rest[i - 1];
      }
    }
  }

  lemma NoneMalformedTail(head: Line, rest: seq<Line>, classify: Classifier)
    requires NoneMalformed([head] + rest, classify)
    ensures !classify(head).Malformed? && NoneMalformed(rest, classify)
  {
    assert head in [head] + rest;
    assert forall l | l in rest :: l in [head] + rest;
  }

  lemma {:induction false} PiecesOfWellMarked(s: string, classify: Classifier)
    requires NoneMalformed(SplitLines(s), classify)
    ensures PiecesWellMarked(Split(s), classify)
    decreases |s|
  {
    var k := FirstNewline(s);
    if k < |s| {
      NoneMalformedTail(Line(s[..k]), SplitLines(s[k + 1..]), classify);
      PiecesOfWellMarked(s[k + 1..], classify);
      MorePiecesWellMarked(Line(s[..k]), Split(s[k + 1..]), classify);
    } else if s != "" {
      assert s[..k] == s;
      assert SplitLines(s) == [Line(s)];
      assert Line(s) in SplitLines(s);
    }
  }

  // --------------------------------------------------------------------------- the theorem

  /** Line k is no frozen line, and no malformed marker either. */
  ghost predicate Unfrozen(lines: seq<Line>, classify: Classifier, k: nat)
    requires k < |lines|
  {
    OpenAt(lines, classify, k).None? && !classify(lines[k]).Malformed?
  }

  ghost predicate AllUnfrozen(lines: seq<Line>, flags: seq<bool>, classify: Classifier)
    requires |flags| == |lines|
  {
    forall k: nat | k < |lines| && flags[k] :: Unfrozen(lines, classify, k)
  }

  ghost function Start(chunks: seq<Chunk>, i: nat): nat
    requires i < |chunks|
  {
    if i == 0 then 0 else |chunks[0].text| + 1 + Start(chunks[1..], i - 1)
  }

  /** No occurrence shares a character with a kept line or with the newline before or after it. */
  ghost predicate KeptApart(chunks: seq<Chunk>, old_: string)
    requires chunks != []
  {
    forall i: nat | i < |chunks| && chunks[i].Kept? ::
      Apart(Text(chunks), old_, Start(chunks, i) - 1, Start(chunks, i) + |chunks[i].text| + 1)
  }

  lemma ApartWithin(s: string, part: string, a: int, b: int, a': int, b': int)
    requires Apart(s, part, a, b) && a <= a' && b' <= b
    ensures Apart(s, part, a', b')
  {
  }

  lemma ApartIsAbsent(head: string, tail: string, old_: string)
    requires old_ != "" && Apart(head + tail, old_, -1, |head| + 1)
    ensures !Contains(head, old_)
  {
    if j :| 0 <= j <= |head| && OccursAt(head, old_, j) {
      assert (head + tail)[j..j + |old_|] == head[j..j + |old_|];
      assert OccursAt(head + tail, old_, j);
      assert false;
    }
  }

  lemma RestApart(chunks: seq<Chunk>, old_: string)
    requires |chunks| > 1 && KeptApart(chunks, old_)
    ensures KeptApart(chunks[1..], old_)
  {
    var rest, skip := chunks[1..], |chunks[0].text| + 1;
    assert Text(chunks)[skip..] == Text(rest);
    forall i: nat | i < |rest| && rest[i].Kept?
      ensures Apart(Text(rest), old_, Start(rest, i) - 1, Start(rest, i) + |rest[i].text| + 1)
    {
      assert chunks[i + 1].Kept? && Start(chunks, i + 1) == skip + Start(rest, i);
      ApartShift(Text(chunks), old_, Start(chunks, i + 1) - 1, Start(chunks, i + 1) + |rest[i].text| + 1, skip);
    }
  }

  lemma {:induction false} KeptApartIsSpared(chunks: seq<Chunk>, old_: string)
    requires chunks != [] && old_ != "" && NoAdjacentFree(chunks) && KeptApart(chunks, old_)
    ensures Spared(chunks, old_)
    decreases |chunks|
  {
    var head := chunks[0].text;
    if chunks[0].Kept? {
      assert Start(chunks, 0) == 0;
      var tail := if |chunks| == 1 then "" else "\n" + Text(chunks[1..]);
      assert Text(chunks) == head + tail;
      ApartIsAbsent(head, tail, old_);
    }
    if |chunks| > 1 {
      RestApart(chunks, old_);
      KeptApartIsSpared(chunks[1..], old_);
      if chunks[0].Kept? {
        ApartWithin(Text(chunks), old_, -1, |head| + 1, |head|, |head| + 1);
      } else {
        assert chunks[1].Kept? && Start(chunks, 1) == |head| + 1;
        ApartWithin(Text(chunks), old_, |head|, |head| + 1 + |chunks[1].text| + 1, |head|, |head| + 1);
      }
    }
  }

  /**
   * An edit that stays off the frozen lines, the markers and the newlines around them writes nothing frozen and
   * nothing malformed exactly when every line it writes is plain, and then the candidate freezes the same blocks.
   */
  lemma EditKeepsFreezeIff(prompt: string, classify: Classifier, old_: string, new_: string)
    requires old_ != "" && KeptApart(Cuts(prompt, classify), old_)
    requires WellMarked(SplitLines(prompt), classify, |SplitLines(prompt)|)
    ensures var chunks := Rewrite(Cuts(prompt, classify), old_, new_);
            var lines := SplitLines(Replace(prompt, old_, new_));
            && lines == LinesOf(chunks)
            && (FreePlain(chunks, classify) <==>
                AllUnfrozen(lines, FreeFlags(chunks), classify))
            && (FreePlain(chunks, classify) ==>
                && WellMarked(lines, classify, |lines|)
                && Contents(lines, classify) == Contents(SplitLines(prompt), classify))
  {
    var before := Cuts(prompt, classify);
    var after := Rewrite(before, old_, new_);
    CutsAreSound(prompt, classify);
    KeptApartIsSpared(before, old_);
    ReplaceByChunks(before, old_, new_);
    TextLines(before);
    TextLines(after);
    RewriteSameKept(before, old_, new_);
    InertIffFreePlain(before, after, classify, None);
    InertIsUnfrozen(LinesOf(after), FreeFlags(after), classify);
    if FreePlain(after, classify) {
      PlainEditKeepsScan(before, after, classify, None, []);
      PlainEditIsWellMarked(before, after, classify, None);
    }
  }

  lemma CutsAreSound(prompt: string, classify: Classifier)
    requires WellMarked(SplitLines(prompt), classify, |SplitLines(prompt)|)
    ensures var chunks := Cuts(prompt, classify);
            Text(chunks) == prompt && KeptAreLines(chunks) && NoAdjacentFree(chunks) && Guarded(chunks, classify, None)
  {
    var pieces := Split(prompt);
    JoinSplit(prompt);
    CutText(pieces, classify, None);
    SplitGivesLines(prompt);
    CutShape(pieces, classify, None);
    PiecesOfWellMarked(prompt, classify);
    CutGuarded(pieces, classify, None);
  }

  lemma InertIsUnfrozen(lines: seq<Line>, flags: seq<bool>, classify: Classifier)
    requires |flags| == |lines|
    ensures InertFlagged(lines, flags, classify, None) <==> AllUnfrozen(lines, flags, classify)
  {
    forall k: nat | k < |lines| ensures InertAt(lines, classify, None, k) == Unfrozen(lines, classify, k) {
      OpenAfterIsOpenFrom(lines[..k + 1], classify);
    }
  }
}
