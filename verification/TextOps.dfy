/** Python's `in`, `replace`, `splitlines` and `join` on texts whose only line break is the newline. */
module TextOps {
  import opened Common

  predicate OccursAt(s: string, part: string, i: int) {
    0 <= i <= |s| - |part| && s[i..i + |part|] == part
  }

  predicate Contains(s: string, part: string) {
    exists i | 0 <= i <= |s| :: OccursAt(s, part, i)
  }

  /** Leftmost non-overlapping replacement of every occurrence. */
  function Replace(s: string, old_: string, new_: string): string
    requires old_ != ""
  {
    if |s| < |old_| then s
    else if s[..|old_|] == old_ then new_ + Replace(s[|old_|..], old_, new_)
    else [s[0]] + Replace(s[1..], old_, new_)
  }

  lemma OccursInTail(s: string, part: string, k: int)
    requires s != "" && k >= 0
    ensures OccursAt(s[1..], part, k) <==> OccursAt(s, part, k + 1)
  {
    if k + 1 + |part| <= |s| {
      assert s[1..][k..k + |part|] == s[k + 1..k + 1 + |part|];
    }
  }

  lemma ReplaceUnfolds(s: string, old_: string, new_: string)
    requires old_ != ""
    ensures OccursAt(s, old_, 0) ==> Replace(s, old_, new_) == "" + new_ + Replace(s[|old_|..], old_, new_)
    ensures |s| >= |old_| && !OccursAt(s, old_, 0) ==> Replace(s, old_, new_) == [s[0]] + Replace(s[1..], old_, new_)
  {
    assert "" + new_ == new_;
  }

  lemma FirstInTail(s: string, part: string, i: int)
    requires s != "" && i > 0 && OccursAt(s, part, i) && forall k | 0 <= k < i :: !OccursAt(s, part, k)
    ensures OccursAt(s[1..], part, i - 1) && forall k | 0 <= k < i - 1 :: !OccursAt(s[1..], part, k)
  {
    OccursInTail(s, part, i - 1);
    forall k | 0 <= k < i - 1 ensures !OccursAt(s[1..], part, k) {
      OccursInTail(s, part, k);
    }
  }

  /** Replacing goes from occurrence to occurrence: up to the first one the text stays, and after it all starts anew. */
  lemma {:induction false} ReplaceFirst(s: string, old_: string, new_: string, i: nat)
    requires old_ != "" && OccursAt(s, old_, i) && forall k | 0 <= k < i :: !OccursAt(s, old_, k)
    ensures Replace(s, old_, new_) == s[..i] + new_ + Replace(s[i + |old_|..], old_, new_)
    decreases i
  {
    if i == 0 {
      ReplaceUnfolds(s, old_, new_);
      assert s[..0] == "";
    } else {
      assert !OccursAt(s, old_, 0);
      FirstInTail(s, old_, i);
      ReplaceFirst(s[1..], old_, new_, i - 1);
      ReplaceBehind(s, old_, new_, i);
    }
  }

  lemma ReplaceBehind(s: string, old_: string, new_: string, i: nat)
    requires old_ != "" && 0 < i && i + |old_| <= |s| && !OccursAt(s, old_, 0)
    requires Replace(s[1..], old_, new_) == s[1..][..i - 1] + new_ + Replace(s[1..][i - 1 + |old_|..], old_, new_)
    ensures Replace(s, old_, new_) == s[..i] + new_ + Replace(s[i + |old_|..], old_, new_)
  {
    ReplaceUnfolds(s, old_, new_);
    TailSlices(s, i, |old_|);
    StepBack(s, i, |old_|, new_, Replace(s[i + |old_|..], old_, new_));
  }

  lemma StepBack(s: string, i: nat, n: nat, new_: string, rest: string)
    requires 0 < i && i + n <= |s|
    ensures [s[0]] + (s[1..][..i - 1] + new_ + rest) == s[..i] + new_ + rest
  {
    TailSlices(s, i, n);
    PrependToThree([s[0]], s[1..][..i - 1], new_, rest);
  }

  lemma PrependToThree(h: string, a: string, b: string, c: string)
    ensures h + (a + b + c) == (h + a) + b + c
  {
  }

  lemma TailSlices(s: string, i: nat, n: nat)
    requires 0 < i && i + n <= |s|
    ensures [s[0]] + s[1..][..i - 1] == s[..i] && s[1..][i - 1 + n..] == s[i + n..]
  {
  }

  lemma ContainsAfter(front: string, s: string, part: string)
    requires Contains(s, part)
    ensures Contains(front + s, part)
  {
    var i :| 0 <= i <= |s| && OccursAt(s, part, i);
    assert (front + s)[|front| + i..|front| + i + |part|] == s[i..i + |part|];
    assert OccursAt(front + s, part, |front| + i);
  }

  lemma ContainsTransitive(a: string, b: string, c: string)
    requires Contains(a, b) && Contains(b, c)
    ensures Contains(a, c)
  {
    var i :| 0 <= i <= |a| && OccursAt(a, b, i);
    var j :| 0 <= j <= |b| && OccursAt(b, c, j);
    SliceOfSlice(a, i, i + |b|, j, j + |c|);
    assert OccursAt(a, c, i + j);
  }

  /** Replacing something that occurs leaves the replacement in the text. */
  lemma {:induction false} ReplaceInserts(s: string, old_: string, new_: string)
    requires old_ != "" && Contains(s, old_)
    ensures Contains(Replace(s, old_, new_), new_)
    decreases |s|
  {
    var i :| 0 <= i <= |s| && OccursAt(s, old_, i);
    if s[..|old_|] == old_ {
      assert OccursAt(Replace(s, old_, new_), new_, 0);
    } else {
      assert i > 0;
      assert s[1..][i - 1..i - 1 + |old_|] == s[i..i + |old_|];
      assert OccursAt(s[1..], old_, i - 1);
      ReplaceInserts(s[1..], old_, new_);
      ContainsAfter([s[0]], Replace(s[1..], old_, new_), new_);
    }
  }

  lemma SliceOfSlice<T>(s: seq<T>, x: nat, y: nat, u: nat, v: nat)
    requires x <= y <= |s| && u <= v <= y - x
    ensures s[x..y][u..v] == s[x + u..x + v]
  {
    var a, b := s[x..y][u..v], s[x + u..x + v];
    forall i | 0 <= i < |a| ensures a[i] == b[i] {
      assert a[i] == s[x..y][u + i] == s[x + u + i];
    }
  }

  lemma SliceOfDrop<T>(s: seq<T>, k: nat, a: nat, b: nat)
    requires k <= a <= b <= |s|
    ensures s[k..][a - k..b - k] == s[a..b]
  {
  }

  /** No occurrence of `part` shares a character with s[a..b]. */
  ghost predicate Apart(s: string, part: string, a: int, b: int) {
    forall i | OccursAt(s, part, i) :: i + |part| <= a || b <= i
  }

  lemma OccursShift(s: string, part: string, k: nat, i: int)
    requires k <= |s| && OccursAt(s[k..], part, i)
    ensures OccursAt(s, part, k + i)
  {
    assert s[k + i..k + i + |part|] == s[k..][i..i + |part|];
  }

  lemma ApartShift(s: string, part: string, a: int, b: int, k: nat)
    requires Apart(s, part, a, b) && k <= |s|
    ensures Apart(s[k..], part, a - k, b - k)
  {
    forall i | OccursAt(s[k..], part, i) ensures i + |part| <= a - k || b - k <= i {
      OccursShift(s, part, k, i);
    }
  }

  lemma SamePrefix(s: string, t: string, b: nat)
    requires 0 < b <= |s| && b <= |t| && s[0] == t[0] && s[1..][..b - 1] == t[1..][..b - 1]
    ensures s[..b] == t[..b]
  {
    assert s[..b] == [s[0]] + s[1..][..b - 1];
    assert t[..b] == [t[0]] + t[1..][..b - 1];
  }

  /** A prefix that no occurrence touches stays a prefix. */
  lemma {:induction false} ReplaceKeepsPrefix(s: string, old_: string, new_: string, b: nat)
    requires old_ != "" && b <= |s| && Apart(s, old_, 0, b)
    ensures |Replace(s, old_, new_)| >= b && Replace(s, old_, new_)[..b] == s[..b]
    decreases |s|
  {
    if b > 0 && |s| >= |old_| {
      if s[..|old_|] == old_ {
        assert OccursAt(s, old_, 0);
        assert false;
      } else {
        ApartShift(s, old_, 0, b, 1);
        ReplaceKeepsPrefix(s[1..], old_, new_, b - 1);
        SamePrefix(s, [s[0]] + Replace(s[1..], old_, new_), b);
      }
    }
  }

  /** Text that no occurrence touches is still there after replacing all occurrences. */
  lemma {:induction false} ReplaceKeeps(s: string, old_: string, new_: string, a: nat, b: nat)
    requires old_ != "" && a < b <= |s| && Apart(s, old_, a, b)
    ensures Contains(Replace(s, old_, new_), s[a..b])
    decreases |s|, 0
  {
    if a == 0 {
      ReplaceKeepsPrefix(s, old_, new_, b);
      assert OccursAt(Replace(s, old_, new_), s[a..b], 0);
    } else if |s| < |old_| {
      assert OccursAt(s, s[a..b], a);
    } else if s[..|old_|] == old_ {
      assert OccursAt(s, old_, 0);
      var k := |old_|;
      ApartShift(s, old_, a, b, k);
      ReplaceKeepsAfter(s, old_, new_, a, b, k);
      ContainsAfter(new_, Replace(s[k..], old_, new_), s[a..b]);
    } else {
      ApartShift(s, old_, a, b, 1);
      ReplaceKeepsAfter(s, old_, new_, a, b, 1);
      ContainsAfter([s[0]], Replace(s[1..], old_, new_), s[a..b]);
    }
  }

  lemma {:induction false} ReplaceKeepsAfter(s: string, old_: string, new_: string, a: nat, b: nat, k: nat)
    requires old_ != "" && 0 < k <= a < b <= |s| && Apart(s[k..], old_, a - k, b - k)
    ensures Contains(Replace(s[k..], old_, new_), s[a..b])
    decreases |s| - k, 1
  {
    SliceOfDrop(s, k, a, b);
    ReplaceKeeps(s[k..], old_, new_, a - k, b - k);
  }

  // -------------------------------------------------------------- replacing piece by piece

  /** Where nothing occurs, nothing is replaced. */
  lemma {:induction false} ReplaceAbsent(s: string, old_: string, new_: string)
    requires old_ != "" && !Contains(s, old_)
    ensures Replace(s, old_, new_) == s
    decreases |s|
  {
    if |s| >= |old_| {
      if s[..|old_|] == old_ {
        assert OccursAt(s, old_, 0);
        assert false;
      }
      if Contains(s[1..], old_) {
        var i :| 0 <= i <= |s[1..]| && OccursAt(s[1..], old_, i);
        OccursShift(s, old_, 1, i);
        assert false;
      }
      ReplaceAbsent(s[1..], old_, new_);
    }
  }

  lemma JoinedPrefix(x: string, y: string, n: nat)
    requires n <= |x|
    ensures (x + "\n" + y)[..n] == x[..n] && (x + "\n" + y)[n..] == x[n..] + "\n" + y
  {
  }

  /** A newline that no occurrence touches separates what is replaced before it from what is replaced after it. */
  lemma {:induction false} ReplaceSplits(x: string, y: string, old_: string, new_: string)
    requires old_ != "" && Apart(x + "\n" + y, old_, |x|, |x| + 1)
    ensures Replace(x + "\n" + y, old_, new_) == Replace(x, old_, new_) + "\n" + Replace(y, old_, new_)
    decreases |x|
  {
    var s := x + "\n" + y;
    if |s| >= |old_| && s[..|old_|] == old_ {
      assert OccursAt(s, old_, 0);
      JoinedPrefix(x, y, |old_|);
      ApartShift(s, old_, |x|, |x| + 1, |old_|);
      ReplaceSplits(x[|old_|..], y, old_, new_);
      Regroup(new_, Replace(x[|old_|..], old_, new_), "\n");
      Regroup(new_, Replace(x[|old_|..], old_, new_) + "\n", Replace(y, old_, new_));
    } else if x == "" {
      assert s == "\n" + y && s[1..] == y;
    } else if |s| >= |old_| {
      ReplaceSplitsStep(x, y, old_, new_);
    }
  }

  lemma {:induction false} ReplaceSplitsStep(x: string, y: string, old_: string, new_: string)
    requires x != "" && old_ != "" && Apart(x + "\n" + y, old_, |x|, |x| + 1)
    requires |x + "\n" + y| >= |old_| && (x + "\n" + y)[..|old_|] != old_
    ensures Replace(x + "\n" + y, old_, new_) == Replace(x, old_, new_) + "\n" + Replace(y, old_, new_)
    decreases |x|, 0
  {
    var s := x + "\n" + y;
    JoinedPrefix(x, y, 1);
    ApartShift(s, old_, |x|, |x| + 1, 1);
    ReplaceSplits(x[1..], y, old_, new_);
    ReplaceHead(x, y, old_, new_);
    var rest := Replace(x[1..], old_, new_);
    Regroup([x[0]], rest, "\n");
    Regroup([x[0]], rest + "\n", Replace(y, old_, new_));
  }

  lemma ReplaceHead(x: string, y: string, old_: string, new_: string)
    requires x != "" && old_ != "" && |x + "\n" + y| >= |old_| && (x + "\n" + y)[..|old_|] != old_
    ensures Replace(x, old_, new_) == [x[0]] + Replace(x[1..], old_, new_)
  {
    if |x| < |old_| {
      assert x == [x[0]] + x[1..];
    } else {
      JoinedPrefix(x, y, |old_|);
    }
  }

  // ----------------------------------------------------------------------------- lines

  function FirstNewline(s: string): (k: nat)
    ensures k <= |s|
  {
    if s == "" || s[0] == '\n' then 0 else 1 + FirstNewline(s[1..])
  }

  lemma {:induction false} FirstNewlineFinds(s: string)
    ensures var k := FirstNewline(s); (k < |s| ==> s[k] == '\n') && forall i | 0 <= i < k :: s[i] != '\n'
  {
    if s != "" && s[0] != '\n' {
      FirstNewlineFinds(s[1..]);
      var k := FirstNewline(s[1..]);
      forall i | 0 <= i < k + 1 ensures s[i] != '\n' {
        assert i > 0 ==> s[i] == s[1..][i - 1];
      }
    }
  }

  function SplitLines(s: string): seq<Line> {
    if s == "" then []
    else
      var k := FirstNewline(s);
      if k < |s| then [Line(s[..k])] + SplitLines(s[k + 1..]) else [Line(s[..k])]
  }

  /** `split("\n")`: the pieces between newlines, at least one. */
  function Split(s: string): (pieces: seq<Line>)
    ensures pieces != []
  {
    var k := FirstNewline(s);
    if k < |s| then [Line(s[..k])] + Split(s[k + 1..]) else [Line(s)]
  }

  lemma {:induction false} FirstNewlineJoin(x: string, y: string)
    ensures FirstNewline(x + "\n" + y) == FirstNewline(x)
  {
    if x == "" {
      assert x + "\n" + y == "\n" + y;
    } else if x[0] != '\n' {
      FirstNewlineJoin(x[1..], y);
      JoinedPrefix(x, y, 1);
    }
  }

  lemma JoinedAt(x: string, y: string, k: nat)
    requires k <= |x|
    ensures (x + "\n" + y)[..k] == x[..k]
    ensures k < |x| ==> (x + "\n" + y)[k + 1..] == x[k + 1..] + "\n" + y
    ensures k == |x| ==> (x + "\n" + y)[k + 1..] == y
  {
    JoinedPrefix(x, y, k);
    if k < |x| {
      JoinedPrefix(x, y, k + 1);
    }
  }

  /** A newline ends a line: the lines of a joined text are the pieces before it and the lines after it. */
  lemma {:induction false} SplitLinesJoin(x: string, y: string)
    ensures SplitLines(x + "\n" + y) == Split(x) + SplitLines(y)
    decreases |x|
  {
    var k := FirstNewline(x);
    FirstNewlineJoin(x, y);
    JoinedAt(x, y, k);
    SplitAt(x, k);
    SplitLinesAt(x + "\n" + y, k);
    if k < |x| {
      SplitLinesJoin(x[k + 1..], y);
      Regroup([Line(x[..k])], Split(x[k + 1..]), SplitLines(y));
    } else {
      assert x[..k] == x;
    }
  }

  lemma SplitLinesAt(s: string, k: nat)
    requires k == FirstNewline(s) < |s|
    ensures SplitLines(s) == [Line(s[..k])] + SplitLines(s[k + 1..])
  {
  }

  lemma SplitAt(s: string, k: nat)
    requires k == FirstNewline(s)
    ensures k < |s| ==> Split(s) == [Line(s[..k])] + Split(s[k + 1..])
    ensures k == |s| ==> Split(s) == [Line(s)]
  {
  }

  lemma {:induction false} SplitJoin(x: string, y: string)
    ensures Split(x + "\n" + y) == Split(x) + Split(y)
    decreases |x|
  {
    var k := FirstNewline(x);
    FirstNewlineJoin(x, y);
    JoinedAt(x, y, k);
    SplitAt(x, k);
    SplitAt(x + "\n" + y, k);
    if k < |x| {
      SplitJoin(x[k + 1..], y);
      Regroup([Line(x[..k])], Split(x[k + 1..]), Split(y));
    } else {
      assert x[..k] == x;
    }
  }

  /** A text without newlines is one piece. */
  lemma OnePiece(s: string)
    requires '\n' !in s
    ensures Split(s) == [Line(s)] && SplitLines(s) == if s == "" then [] else [Line(s)]
  {
    FirstNewlineFinds(s);
    if FirstNewline(s) < |s| {
      assert false;
    }
    assert s[..|s|] == s;
  }

  /** `"\n".join(lines)`. */
  function Join(lines: seq<Line>): string {
    if lines == [] then ""
    else if |lines| == 1 then lines[0].text
    else lines[0].text + "\n" + Join(lines[1..])
  }

  /** Where line n of the text starts. */
  ghost function LineOffset(s: string, n: nat): nat {
    if n == 0 || s == "" then 0
    else
      var k := FirstNewline(s);
      if k < |s| then k + 1 + LineOffset(s[k + 1..], n - 1) else |s|
  }

  /** The lines are the text cut at its newlines: none holds one, and joined they give the text up to a final one. */
  lemma {:induction false} SplitLinesCuts(s: string)
    ensures forall l | l in SplitLines(s) :: '\n' !in l.text
    ensures s == Join(SplitLines(s)) || s == Join(SplitLines(s)) + "\n"
    ensures s != "" ==> SplitLines(s) != [] && (s == Join(SplitLines(s)) + "\n" <==> s[|s| - 1] == '\n')
    decreases |s|
  {
    if s != "" {
      var k := FirstNewline(s);
      FirstNewlineFinds(s);
      if k < |s| {
        var rest := s[k + 1..];
        SplitLinesCuts(rest);
        CutAt(s, k);
        if rest == "" {
          assert SplitLines(s) == [Line(s[..k])];
        } else {
          JoinUnfolds(Line(s[..k]), SplitLines(rest));
          assert rest[|rest| - 1] == s[|s| - 1];
          LastOfJoin(s, s[..k] + "\n", rest, Join(SplitLines(rest)));
        }
      } else {
        assert s[..k] == s;
      }
    }
  }

  lemma LastOfJoin(s: string, head: string, rest: string, joined: string)
    requires s == head + rest
    ensures s == head + joined <==> rest == joined
    ensures s == (head + joined) + "\n" <==> rest == joined + "\n"
  {
    if s == head + joined {
      assert s[|head|..] == rest && s[|head|..] == joined;
    }
    assert (head + joined) + "\n" == head + (joined + "\n");
    if s == head + (joined + "\n") {
      assert s[|head|..] == rest && s[|head|..] == joined + "\n";
    }
  }

  lemma SplitUnfolds(s: string)
    requires |SplitLines(s)| > 1
    ensures s != "" && FirstNewline(s) < |s|
    ensures SplitLines(s) == [Line(s[..FirstNewline(s)])] + SplitLines(s[FirstNewline(s) + 1..])
  {
  }

  lemma CutAt(s: string, k: nat)
    requires k < |s|
    ensures s == s[..k] + [s[k]] + s[k + 1..]
  {
  }

  lemma PrefixAfterHead(s: string, k: nat, tail: string)
    requires k < |s| && s[k] == '\n' && OccursAt(s[k + 1..], tail, 0)
    ensures OccursAt(s, s[..k] + "\n" + tail, 0)
  {
    var rest := s[k + 1..];
    CutAt(s, k);
    assert rest == tail + rest[|tail|..];
    assert s == (s[..k] + "\n" + tail) + rest[|tail|..];
  }

  lemma HeadOfLines<T>(head: T, rest: seq<T>, n: nat)
    requires 0 < n <= |rest| + 1
    ensures ([head] + rest)[..n] == [head] + rest[..n - 1]
  {
  }

  lemma JoinUnfolds(head: Line, rest: seq<Line>)
    requires rest != []
    ensures Join([head] + rest) == head.text + "\n" + Join(rest)
  {
    assert ([head] + rest)[1..] == rest;
  }

  lemma {:induction false} FirstLinesArePrefix(s: string, n: nat)
    requires 0 < n <= |SplitLines(s)|
    ensures OccursAt(s, Join(SplitLines(s)[..n]), 0)
    decreases |s|
  {
    var lines, k := SplitLines(s), FirstNewline(s);
    if n == 1 {
      assert lines[..1] == [Line(s[..k])];
    } else {
      SplitUnfolds(s);
      var rest := SplitLines(s[k + 1..]);
      FirstLinesArePrefix(s[k + 1..], n - 1);
      HeadOfLines(Line(s[..k]), rest, n);
      JoinUnfolds(Line(s[..k]), rest[..n - 1]);
      FirstNewlineFinds(s);
      PrefixAfterHead(s, k, Join(rest[..n - 1]));
    }
  }

  lemma LinesOfRest(s: string, a: nat, b: nat)
    requires 0 < a < b <= |SplitLines(s)|
    ensures s != "" && FirstNewline(s) < |s|
    ensures var rest := SplitLines(s[FirstNewline(s) + 1..]);
            b - 1 <= |rest| && SplitLines(s)[a..b] == rest[a - 1..b - 1]
  {
    SplitUnfolds(s);
    SliceAfterHead(Line(s[..FirstNewline(s)]), SplitLines(s[FirstNewline(s) + 1..]), a, b);
  }

  /** Consecutive lines, joined, stand in the text where the first of them starts. */
  lemma {:induction false} LinesStandInText(s: string, a: nat, b: nat)
    requires a < b <= |SplitLines(s)|
    ensures OccursAt(s, Join(SplitLines(s)[a..b]), LineOffset(s, a))
    decreases |s|
  {
    if a == 0 {
      FirstLinesArePrefix(s, b);
      assert SplitLines(s)[0..b] == SplitLines(s)[..b];
    } else {
      LinesOfRest(s, a, b);
      LinesStandInText(s[FirstNewline(s) + 1..], a - 1, b - 1);
      OccursInRest(s, a, Join(SplitLines(s)[a..b]));
    }
  }

  lemma OccursInRest(s: string, a: nat, part: string)
    requires a > 0 && s != "" && FirstNewline(s) < |s|
    ensures var rest := s[FirstNewline(s) + 1..];
            OccursAt(rest, part, LineOffset(rest, a - 1)) ==> OccursAt(s, part, LineOffset(s, a))
  {
    var k := FirstNewline(s) + 1;
    if OccursAt(s[k..], part, LineOffset(s[k..], a - 1)) {
      OccursShift(s, part, k, LineOffset(s[k..], a - 1));
    }
  }

  lemma SliceAfterHead<T>(head: T, rest: seq<T>, a: nat, b: nat)
    requires 0 < a <= b <= |rest| + 1
    ensures ([head] + rest)[a..b] == rest[a - 1..b - 1]
  {
  }
}
