/** Line-level edit cost over difflib opcodes, against the true Levenshtein distance. */
module EditDistance {
  import opened Common
  import opened FrozenSections

  // -------------------------------------------------------------------- the reference

  function Min(a: nat, b: nat): nat { if a <= b then a else b }

  function Max(a: nat, b: nat): nat { if a >= b then a else b }

  /** Levenshtein distance with unit insertions, deletions and substitutions. */
  ghost function Lev(a: seq<Line>, b: seq<Line>): nat
    decreases |a| + |b|
  {
    if a == [] then |b|
    else if b == [] then |a|
    else
      var a', b' := a[..|a| - 1], b[..|b| - 1];
      var last := if a[|a| - 1] == b[|b| - 1] then 0 else 1;
      Min(Min(Lev(a', b) + 1, Lev(a, b') + 1), Lev(a', b') + last)
  }

  /** Appending on one side costs at most one, on both sides at most one and nothing for equal lines. */
  lemma LevAppend(a: seq<Line>, b: seq<Line>, u: Line, v: Line)
    ensures Lev(a + [u], b) <= Lev(a, b) + 1
    ensures Lev(a, b + [v]) <= Lev(a, b) + 1
    ensures Lev(a + [u], b + [v]) <= Lev(a, b) + if u == v then 0 else 1
  {
    assert (a + [u])[..|a|] == a && (b + [v])[..|b|] == b;
  }

  lemma {:induction false} LevBounds(a: seq<Line>, b: seq<Line>)
    ensures Lev(a, b) <= Max(|a|, |b|)
    ensures |a| <= Lev(a, b) + |b| && |b| <= Lev(a, b) + |a|
    decreases |a| + |b|
  {
    if a != [] && b != [] {
      var a', b' := a[..|a| - 1], b[..|b| - 1];
      LevBounds(a', b');
      LevBounds(a', b);
      LevBounds(a, b');
    }
  }

  lemma {:induction false} LevSelf(a: seq<Line>)
    ensures Lev(a, a) == 0
  {
    if a != [] {
      LevSelf(a[..|a| - 1]);
    }
  }

  /** Distances of parts add up to at least the distance of the whole. */
  lemma {:induction false} LevConcat(a: seq<Line>, b: seq<Line>, x: seq<Line>, y: seq<Line>)
    ensures Lev(a + x, b + y) <= Lev(a, b) + Lev(x, y)
    decreases |x| + |y|
  {
    if x == [] && y == [] {
      assert a + x == a && b + y == b;
    } else if x == [] {
      var y', v := y[..|y| - 1], y[|y| - 1];
      assert b + y == (b + y') + [v];
      LevConcat(a, b, x, y');
      LevAppend(a + x, b + y', v, v);
    } else if y == [] {
      var x', u := x[..|x| - 1], x[|x| - 1];
      assert a + x == (a + x') + [u];
      LevConcat(a, b, x', y);
      LevAppend(a + x', b + y, u, u);
    } else {
      LevConcatBoth(a, b, x, y);
      var x', y' := x[..|x| - 1], y[..|y| - 1];
      LevConcat(a, b, x', y);
      LevConcat(a, b, x, y');
      LevConcat(a, b, x', y');
    }
  }

  lemma LevConcatBoth(a: seq<Line>, b: seq<Line>, x: seq<Line>, y: seq<Line>)
    requires x != [] && y != []
    ensures var x', y' := x[..|x| - 1], y[..|y| - 1];
            && Lev(a + x, b + y) <= Lev(a + x', b + y) + 1
            && Lev(a + x, b + y) <= Lev(a + x, b + y') + 1
            && Lev(a + x, b + y) <= Lev(a + x', b + y') + if x[|x| - 1] == y[|y| - 1] then 0 else 1
  {
    var x', y' := x[..|x| - 1], y[..|y| - 1];
    assert a + x == (a + x') + [x[|x| - 1]];
    assert b + y == (b + y') + [y[|y| - 1]];
    LevAppend(a + x', b + y', x[|x| - 1], y[|y| - 1]);
    LevAppend(a + x', b + y, x[|x| - 1], y[|y| - 1]);
    LevAppend(a + x, b + y', x[|x| - 1], y[|y| - 1]);
  }

  // ------------------------------------------------------------ distance as edit steps

  /** At most one line inserted, deleted or substituted. */
  ghost predicate OneEdit(c: seq<Line>, d: seq<Line>) {
    exists p, m, n, q :: EditAt(c, d, p, m, n, q)
  }

  ghost predicate EditAt(c: seq<Line>, d: seq<Line>, p: seq<Line>, m: seq<Line>, n: seq<Line>, q: seq<Line>) {
    |m| <= 1 && |n| <= 1 && c == p + m + q && d == p + n + q
  }

  ghost predicate WithinEdits(a: seq<Line>, b: seq<Line>, k: nat)
    decreases k
  {
    if k == 0 then a == b else exists c :: WithinEdits(a, c, k - 1) && OneEdit(c, b)
  }

  lemma EditAtEnd(c: seq<Line>, m: seq<Line>, n: seq<Line>)
    requires |m| <= 1 && |n| <= 1
    ensures OneEdit(c + m, c + n)
  {
    assert EditAt(c + m, c + n, c, m, n, []);
  }

  lemma {:induction false} EditFirst(a: seq<Line>, c: seq<Line>, b: seq<Line>, k: nat)
    requires OneEdit(a, c) && WithinEdits(c, b, k)
    ensures WithinEdits(a, b, k + 1)
    decreases k
  {
    if k == 0 {
      assert WithinEdits(a, a, 0);
    } else {
      var d :| WithinEdits(c, d, k - 1) && OneEdit(d, b);
      EditFirst(a, c, d, k - 1);
    }
  }

  lemma {:induction false} EditsUnderSuffix(a: seq<Line>, b: seq<Line>, k: nat, u: Line)
    requires WithinEdits(a, b, k)
    ensures WithinEdits(a + [u], b + [u], k)
    decreases k
  {
    if k > 0 {
      var c :| WithinEdits(a, c, k - 1) && OneEdit(c, b);
      EditsUnderSuffix(a, c, k - 1, u);
      var p, m, n, q :| EditAt(c, b, p, m, n, q);
      Regroup(p + m, q, [u]);
      Regroup(p + n, q, [u]);
      assert EditAt(c + [u], b + [u], p, m, n, q + [u]);
      assert WithinEdits(a + [u], c + [u], k - 1) && OneEdit(c + [u], b + [u]);
    }
  }

  lemma {:induction false} MoreEdits(a: seq<Line>, b: seq<Line>, k: nat, more: nat)
    requires WithinEdits(a, b, k) && k <= more
    ensures WithinEdits(a, b, more)
    decreases more
  {
    if k < more {
      MoreEdits(a, b, k, more - 1);
      assert b + [] == b;
      EditAtEnd(b, [], []);
    }
  }

  lemma InsertLast(a: seq<Line>, b: seq<Line>, v: Line, k: nat)
    requires WithinEdits(a, b, k)
    ensures WithinEdits(a, b + [v], k + 1)
  {
    assert b + [] == b;
    EditAtEnd(b, [], [v]);
  }

  lemma DeleteLast(a: seq<Line>, u: Line, b: seq<Line>, k: nat)
    requires WithinEdits(a, b, k)
    ensures WithinEdits(a + [u], b, k + 1)
  {
    assert a + [] == a;
    EditAtEnd(a, [u], []);
    EditFirst(a + [u], a, b, k);
  }

  lemma SubstituteLast(a: seq<Line>, u: Line, b: seq<Line>, v: Line, k: nat)
    requires WithinEdits(a, b, k)
    ensures WithinEdits(a + [u], b + [v], if u == v then k else k + 1)
  {
    EditsUnderSuffix(a, b, k, u);
    EditAtEnd(b, [u], [v]);
  }

  lemma ReachStep(a: seq<Line>, b: seq<Line>, x: nat, y: nat, z: nat, cost: nat)
    requires a != [] && b != []
    requires WithinEdits(a[..|a| - 1], b, x) && WithinEdits(a, b[..|b| - 1], y)
    requires WithinEdits(a[..|a| - 1], b[..|b| - 1], z)
    requires cost == x + 1 || cost == y + 1 || cost == z + if a[|a| - 1] == b[|b| - 1] then 0 else 1
    ensures WithinEdits(a, b, cost)
  {
    SplitLast(a);
    SplitLast(b);
    DeleteLast(a[..|a| - 1], a[|a| - 1], b, x);
    InsertLast(a, b[..|b| - 1], b[|b| - 1], y);
    SubstituteLast(a[..|a| - 1], a[|a| - 1], b[..|b| - 1], b[|b| - 1], z);
  }

  /** The distance is reached by that many single-line edits. */
  lemma {:induction false} DistanceIsReached(a: seq<Line>, b: seq<Line>)
    ensures WithinEdits(a, b, Lev(a, b))
    decreases |a| + |b|
  {
    if a == [] && b == [] {
    } else if a == [] {
      SplitLast(b);
      DistanceIsReached(a, b[..|b| - 1]);
      InsertLast(a, b[..|b| - 1], b[|b| - 1], |b| - 1);
    } else if b == [] {
      SplitLast(a);
      DistanceIsReached(a[..|a| - 1], b);
      DeleteLast(a[..|a| - 1], a[|a| - 1], b, |a| - 1);
    } else {
      var a', b' := a[..|a| - 1], b[..|b| - 1];
      DistanceIsReached(a', b);
      DistanceIsReached(a, b');
      DistanceIsReached(a', b');
      ReachStep(a, b, Lev(a', b), Lev(a, b'), Lev(a', b'), Lev(a, b));
    }
  }

  lemma InitOfConcat(p: seq<Line>, q: seq<Line>)
    requires q != []
    ensures (p + q)[..|p + q| - 1] == p + q[..|q| - 1] && (p + q)[|p + q| - 1] == q[|q| - 1]
  {
  }

  lemma LevLast(a: seq<Line>, p: seq<Line>, q: seq<Line>)
    requires a != [] && q != []
    ensures var a', q' := a[..|a| - 1], q[..|q| - 1];
            || Lev(a, p + q) == Lev(a', p + q) + 1
            || Lev(a, p + q) == Lev(a, p + q') + 1
            || Lev(a, p + q) == Lev(a', p + q') + if a[|a| - 1] == q[|q| - 1] then 0 else 1
  {
    InitOfConcat(p, q);
  }

  /** a splits into a part for p and a part for q at no more than the given cost. */
  ghost predicate SplitsWithin(a: seq<Line>, p: seq<Line>, q: seq<Line>, cost: nat) {
    exists r, s :: SplitsAt(a, p, q, r, s, cost)
  }

  ghost predicate SplitsAt(a: seq<Line>, p: seq<Line>, q: seq<Line>, r: seq<Line>, s: seq<Line>, cost: nat) {
    a == r + s && Lev(r, p) + Lev(s, q) <= cost
  }

  lemma JoinLast(a: seq<Line>, r: seq<Line>, s: seq<Line>)
    requires a != [] && a[..|a| - 1] == r + s
    ensures a == r + (s + [a[|a| - 1]])
  {
    SplitLast(a);
  }

  lemma SplitDelete(a: seq<Line>, p: seq<Line>, q: seq<Line>, cost: nat)
    requires a != [] && SplitsWithin(a[..|a| - 1], p, q, cost)
    ensures SplitsWithin(a, p, q, cost + 1)
  {
    var u := a[|a| - 1];
    var r, s :| SplitsAt(a[..|a| - 1], p, q, r, s, cost);
    LevAppend(s, q, u, u);
    JoinLast(a, r, s);
    assert SplitsAt(a, p, q, r, s + [u], cost + 1);
  }

  lemma SplitInsert(a: seq<Line>, p: seq<Line>, q: seq<Line>, cost: nat)
    requires q != [] && SplitsWithin(a, p, q[..|q| - 1], cost)
    ensures SplitsWithin(a, p, q, cost + 1)
  {
    var v := q[|q| - 1];
    var r, s :| SplitsAt(a, p, q[..|q| - 1], r, s, cost);
    LevAppend(s, q[..|q| - 1], v, v);
    SplitLast(q);
    assert SplitsAt(a, p, q, r, s, cost + 1);
  }

  lemma SplitMatch(a: seq<Line>, p: seq<Line>, q: seq<Line>, cost: nat)
    requires a != [] && q != [] && SplitsWithin(a[..|a| - 1], p, q[..|q| - 1], cost)
    ensures SplitsWithin(a, p, q, if a[|a| - 1] == q[|q| - 1] then cost else cost + 1)
  {
    var u, v := a[|a| - 1], q[|q| - 1];
    var r, s :| SplitsAt(a[..|a| - 1], p, q[..|q| - 1], r, s, cost);
    LevAppend(s, q[..|q| - 1], u, v);
    SplitLast(q);
    JoinLast(a, r, s);
    assert SplitsAt(a, p, q, r, s + [u], if u == v then cost else cost + 1);
  }

  lemma SplitEmpty(p: seq<Line>, q: seq<Line>)
    ensures SplitsWithin([], p, q, Lev([], p + q))
  {
    assert SplitsAt([], p, q, [], [], Lev([], p + q));
  }

  lemma SplitAll(a: seq<Line>, p: seq<Line>)
    ensures SplitsWithin(a, p, [], Lev(a, p + []))
  {
    assert p + [] == p && a == a + [];
    assert SplitsAt(a, p, [], a, [], Lev(a, p + []));
  }

  lemma SplitStep(a: seq<Line>, p: seq<Line>, q: seq<Line>, x: nat, y: nat, z: nat, cost: nat)
    requires a != [] && q != []
    requires SplitsWithin(a[..|a| - 1], p, q, x) && SplitsWithin(a, p, q[..|q| - 1], y)
    requires SplitsWithin(a[..|a| - 1], p, q[..|q| - 1], z)
    requires cost == x + 1 || cost == y + 1 || cost == z + if a[|a| - 1] == q[|q| - 1] then 0 else 1
    ensures SplitsWithin(a, p, q, cost)
  {
    SplitDelete(a, p, q, x);
    SplitInsert(a, p, q, y);
    SplitMatch(a, p, q, z);
  }

  /** An alignment of a with p + q splits a into a part for p and a part for q. */
  lemma {:induction false} LevSplit(a: seq<Line>, p: seq<Line>, q: seq<Line>)
    ensures SplitsWithin(a, p, q, Lev(a, p + q))
    decreases |a| + |q|
  {
    if q == [] {
      SplitAll(a, p);
    } else if a == [] {
      SplitEmpty(p, q);
    } else {
      var a', q' := a[..|a| - 1], q[..|q| - 1];
      LevSplit(a', p, q);
      LevSplit(a, p, q');
      LevSplit(a', p, q');
      LevLast(a, p, q);
      SplitStep(a, p, q, Lev(a', p + q), Lev(a, p + q'), Lev(a', p + q'), Lev(a, p + q));
    }
  }

  lemma ShortTargets(t: seq<Line>, m: seq<Line>, n: seq<Line>)
    requires |m| <= 1 && |n| <= 1
    ensures Lev(t, n) <= Lev(t, m) + 1
  {
    LevBounds(t, n);
    LevBounds(t, m);
  }

  /** One more edit moves the distance by at most one. */
  lemma EditMovesDistance(a: seq<Line>, c: seq<Line>, d: seq<Line>)
    requires OneEdit(c, d)
    ensures Lev(a, d) <= Lev(a, c) + 1
  {
    var p, m, n, q :| EditAt(c, d, p, m, n, q);
    MoveEdit(a, p, m, n, q);
    Regroup(p, m, q);
    Regroup(p, n, q);
  }

  lemma MoveEdit(a: seq<Line>, p: seq<Line>, m: seq<Line>, n: seq<Line>, q: seq<Line>)
    requires |m| <= 1 && |n| <= 1
    ensures Lev(a, p + (n + q)) <= Lev(a, p + (m + q)) + 1
  {
    LevSplit(a, p, m + q);
    var r, s :| SplitsAt(a, p, m + q, r, s, Lev(a, p + (m + q)));
    LevSplit(s, m, q);
    var t, w :| SplitsAt(s, m, q, t, w, Lev(s, m + q));
    ShortTargets(t, m, n);
    LevConcat(t, n, w, q);
    LevConcat(r, p, s, n + q);
  }

  /** Lev is the true distance: b is within k edits of a exactly when Lev(a, b) <= k. */
  lemma {:induction false} DistanceIffEdits(a: seq<Line>, b: seq<Line>, k: nat)
    ensures WithinEdits(a, b, k) <==> Lev(a, b) <= k
    decreases k
  {
    if WithinEdits(a, b, k) {
      if k == 0 {
        LevSelf(a);
      } else {
        var c :| WithinEdits(a, c, k - 1) && OneEdit(c, b);
        DistanceIffEdits(a, c, k - 1);
        EditMovesDistance(a, c, b);
      }
    }
    if Lev(a, b) <= k {
      DistanceIsReached(a, b);
      MoreEdits(a, b, Lev(a, b), k);
    }
  }

  // ------------------------------------------------------------------------ opcodes

  datatype Tag = Equal | Insert | Delete | Replace

  datatype Opcode = Opcode(tag: Tag, i1: nat, i2: nat, j1: nat, j2: nat)

  /** An opcode lies in both sequences, and its tag says what it claims. */
  ghost predicate Sound(op: Opcode, a: seq<Line>, b: seq<Line>) {
    && op.i1 <= op.i2 <= |a| && op.j1 <= op.j2 <= |b|
    && (op.tag.Equal? ==> a[op.i1..op.i2] == b[op.j1..op.j2])
    && (op.tag.Insert? ==> op.i1 == op.i2)
    && (op.tag.Delete? ==> op.j1 == op.j2)
  }

  /** What `get_opcodes` promises: sound opcodes that tile both sequences up to (i, j), end to end. */
  ghost predicate Tiles(ops: seq<Opcode>, a: seq<Line>, b: seq<Line>, i: nat, j: nat) {
    if ops == [] then i == 0 && j == 0
    else
      var op := ops[|ops| - 1];
      && Sound(op, a, b) && op.i2 == i && op.j2 == j
      && Tiles(ops[..|ops| - 1], a, b, op.i1, op.j1)
  }

  /** Lines an opcode changes; a replacement counts its longer side. */
  ghost function Cost(op: Opcode): int {
    match op.tag
    case Equal => 0
    case Insert => op.j2 - op.j1
    case Delete => op.i2 - op.i1
    case Replace => if op.i2 - op.i1 >= op.j2 - op.j1 then op.i2 - op.i1 else op.j2 - op.j1
  }

  ghost function TotalCost(ops: seq<Opcode>): int {
    if ops == [] then 0 else TotalCost(ops[..|ops| - 1]) + Cost(ops[|ops| - 1])
  }

  /** No opcode costs less than the distance of the lines it covers. */
  lemma OpcodeCoversDistance(op: Opcode, a: seq<Line>, b: seq<Line>)
    requires Sound(op, a, b)
    ensures Lev(a[op.i1..op.i2], b[op.j1..op.j2]) <= Cost(op)
  {
    LevBounds(a[op.i1..op.i2], b[op.j1..op.j2]);
    LevSelf(a[op.i1..op.i2]);
  }

  lemma TilesExtend(op: Opcode, a: seq<Line>, b: seq<Line>)
    requires Sound(op, a, b)
    ensures Lev(a[..op.i2], b[..op.j2]) <= Lev(a[..op.i1], b[..op.j1]) + Cost(op)
  {
    assert a[..op.i2] == a[..op.i1] + a[op.i1..op.i2];
    assert b[..op.j2] == b[..op.j1] + b[op.j1..op.j2];
    LevConcat(a[..op.i1], b[..op.j1], a[op.i1..op.i2], b[op.j1..op.j2]);
    OpcodeCoversDistance(op, a, b);
  }

  /** Where an old line went: the new position an equal opcode gives it, or -1 when it was changed. */
  ghost function NewPosition(ops: seq<Opcode>, i: nat): int {
    if ops == [] then -1
    else
      var op := ops[|ops| - 1];
      if op.i1 <= i < op.i2 then (if op.tag.Equal? then op.j1 + (i - op.i1) else -1)
      else NewPosition(ops[..|ops| - 1], i)
  }

  /** Unchanged lines are found at their new position, in bounds and in their old order. */
  lemma {:induction false} KeptLinesSurvive(
      ops: seq<Opcode>, a: seq<Line>, b: seq<Line>, i: nat, j: nat, x: nat, y: nat)
    requires Tiles(ops, a, b, i, j) && x <= y < i <= |a| && j <= |b|
    requires NewPosition(ops, x) >= 0 && NewPosition(ops, y) >= 0
    ensures NewPosition(ops, y) < j && b[NewPosition(ops, y)] == a[y]
    ensures x < y ==> NewPosition(ops, x) < NewPosition(ops, y)
  {
    var op := ops[|ops| - 1];
    var front := ops[..|ops| - 1];
    if y < op.i1 {
      KeptLinesSurvive(front, a, b, op.i1, op.j1, x, y);
    } else {
      assert a[op.i1..op.i2][y - op.i1] == b[op.j1..op.j2][y - op.i1];
      if x < op.i1 {
        KeptLinesSurvive(front, a, b, op.i1, op.j1, x, x);
      }
    }
  }

  /** The old indexes below i that no equal opcode covers. */
  ghost predicate Changed(ops: seq<Opcode>, i: nat, changed: set<int>) {
    forall x: int :: x in changed <==> 0 <= x < i && NewPosition(ops, x) < 0
  }

  /** The frozen old lines that were deleted or replaced. */
  ghost function FrozenLost(ops: seq<Opcode>, a: seq<Line>, classify: Classifier): set<int> {
    set x: int | 0 <= x < |a| && OpenAt(a, classify, x).Some? && NewPosition(ops, x) < 0
  }

  lemma ChangedStep(ops: seq<Opcode>, op: Opcode, a: seq<Line>, b: seq<Line>, changed: set<int>)
    requires Tiles(ops, a, b, op.i1, op.j1) && Sound(op, a, b) && Changed(ops, op.i1, changed)
    ensures Changed(ops + [op], op.i2, if op.tag.Equal? then changed else changed + Range(op.i1, op.i2))
    ensures op.tag.Insert? ==> Changed(ops + [op], op.i2, changed)
  {
    assert (ops + [op])[..|ops|] == ops;
  }

  lemma ChangedIsFrozenLost(ops: seq<Opcode>, a: seq<Line>, classify: Classifier, changed: set<int>, frozen: set<int>)
    requires Changed(ops, |a|, changed)
    requires forall i | i in frozen :: 0 <= i < |a|
    requires forall i | 0 <= i < |a| :: i in frozen <==> OpenAt(a, classify, i).Some?
    ensures changed * frozen == FrozenLost(ops, a, classify)
  {
  }

  /** What the opcodes of one tag cost together. */
  ghost function TagCost(ops: seq<Opcode>, tag: Tag): int {
    if ops == [] then 0
    else TagCost(ops[..|ops| - 1], tag) + if ops[|ops| - 1].tag == tag then Cost(ops[|ops| - 1]) else 0
  }

  lemma {:induction false} TagsAddUp(ops: seq<Opcode>)
    ensures TotalCost(ops) == TagCost(ops, Insert) + TagCost(ops, Delete) + TagCost(ops, Replace)
  {
    if ops != [] {
      TagsAddUp(ops[..|ops| - 1]);
    }
  }

  // ------------------------------------------------- what the counts count, opcode by opcode

  /** The inserted new lines, each with its opcode. */
  ghost function InsertedLines(ops: seq<Opcode>): set<(int, int)> {
    set k, x | 0 <= k < |ops| && ops[k].tag.Insert? && ops[k].j1 <= x < ops[k].j2 :: (k, x)
  }

  ghost function DeletedLines(ops: seq<Opcode>): set<(int, int)> {
    set k, x | 0 <= k < |ops| && ops[k].tag.Delete? && ops[k].i1 <= x < ops[k].i2 :: (k, x)
  }

  /** One place for each line of the longer side of a replacement. */
  ghost function ReplacedPlaces(ops: seq<Opcode>): set<(int, int)> {
    set k, x | 0 <= k < |ops| && ops[k].tag.Replace? && 0 <= x < (ops[k].i2 - ops[k].i1) + (ops[k].j2 - ops[k].j1)
               && (x < ops[k].i2 - ops[k].i1 || x < ops[k].j2 - ops[k].j1) :: (k, x)
  }

  ghost function Column(k: int, lo: int, hi: int): set<(int, int)> {
    set x | lo <= x < hi :: (k, x)
  }

  lemma {:induction false} ColumnSize(k: int, lo: int, hi: int)
    requires lo <= hi
    ensures |Column(k, lo, hi)| == hi - lo
    decreases hi - lo
  {
    if lo == hi {
      assert Column(k, lo, hi) == {};
    } else {
      ColumnSize(k, lo, hi - 1);
      assert Column(k, lo, hi) == Column(k, lo, hi - 1) + {(k, hi - 1)};
    }
  }

  ghost predicate Spans(ops: seq<Opcode>) {
    forall k | 0 <= k < |ops| :: ops[k].i1 <= ops[k].i2 && ops[k].j1 <= ops[k].j2
  }

  lemma {:induction false} InsertedSize(ops: seq<Opcode>)
    requires Spans(ops)
    ensures TagCost(ops, Insert) == |InsertedLines(ops)|
  {
    if ops != [] {
      var n := |ops| - 1;
      var column := if ops[n].tag.Insert? then Column(n, ops[n].j1, ops[n].j2) else {};
      InsertedSize(ops[..n]);
      ColumnSize(n, ops[n].j1, ops[n].j2);
      assert InsertedLines(ops) == InsertedLines(ops[..n]) + column;
    }
  }

  lemma {:induction false} DeletedSize(ops: seq<Opcode>)
    requires Spans(ops)
    ensures TagCost(ops, Delete) == |DeletedLines(ops)|
  {
    if ops != [] {
      var n := |ops| - 1;
      var column := if ops[n].tag.Delete? then Column(n, ops[n].i1, ops[n].i2) else {};
      DeletedSize(ops[..n]);
      ColumnSize(n, ops[n].i1, ops[n].i2);
      assert DeletedLines(ops) == DeletedLines(ops[..n]) + column;
    }
  }

  lemma {:induction false} ReplacedSize(ops: seq<Opcode>)
    requires Spans(ops)
    ensures TagCost(ops, Replace) == |ReplacedPlaces(ops)|
  {
    if ops != [] {
      var n := |ops| - 1;
      var longer := Max(ops[n].i2 - ops[n].i1, ops[n].j2 - ops[n].j1);
      var column := if ops[n].tag.Replace? then Column(n, 0, longer) else {};
      ReplacedSize(ops[..n]);
      ColumnSize(n, 0, longer);
      LastReplaced(ops, longer);
      assert ReplacedPlaces(ops[..n]) !! column;
    }
  }

  lemma LastReplaced(ops: seq<Opcode>, longer: int)
    requires ops != [] && Spans(ops)
    requires var op := ops[|ops| - 1]; longer == Max(op.i2 - op.i1, op.j2 - op.j1)
    ensures var n := |ops| - 1;
            ReplacedPlaces(ops) ==
            ReplacedPlaces(ops[..n]) + if ops[n].tag.Replace? then Column(n, 0, longer) else {}
  {
    var n := |ops| - 1;
    var front, column := ReplacedPlaces(ops[..n]), if ops[n].tag.Replace? then Column(n, 0, longer) else {};
    forall k, x ensures (k, x) in ReplacedPlaces(ops) <==> (k, x) in front + column {
      assert 0 <= k < n ==> ops[..n][k] == ops[k];
    }
  }

  /** The old line lies in an opcode that is not an equal one. */
  ghost predicate Touched(ops: seq<Opcode>, x: int) {
    exists k :: 0 <= k < |ops| && ops[k].i1 <= x < ops[k].i2 && !ops[k].tag.Equal?
  }

  /** The frozen old lines that some opcode deletes or replaces. */
  ghost function FrozenTouched(ops: seq<Opcode>, a: seq<Line>, classify: Classifier): set<int> {
    set x: int | 0 <= x < |a| && Touched(ops, x) && exists name :: InSection(a, classify, x, name)
  }

  lemma {:induction false} TilesEnd(ops: seq<Opcode>, a: seq<Line>, b: seq<Line>, i: nat, j: nat, k: nat)
    requires Tiles(ops, a, b, i, j) && k < |ops|
    ensures ops[k].i2 <= i
  {
    var op := ops[|ops| - 1];
    if k < |ops| - 1 {
      TilesEnd(ops[..|ops| - 1], a, b, op.i1, op.j1, k);
    }
  }

  lemma {:induction false} TouchedIff(ops: seq<Opcode>, a: seq<Line>, b: seq<Line>, i: nat, j: nat, x: nat)
    requires Tiles(ops, a, b, i, j) && x < i
    ensures NewPosition(ops, x) < 0 <==> Touched(ops, x)
  {
    var n := |ops| - 1;
    var op := ops[n];
    if x < op.i1 {
      TouchedIff(ops[..n], a, b, op.i1, op.j1, x);
      if Touched(ops[..n], x) {
        var k :| 0 <= k < n && ops[..n][k].i1 <= x < ops[..n][k].i2 && !ops[..n][k].tag.Equal?;
        assert ops[k] == ops[..n][k];
      }
      if k :| 0 <= k < |ops| && ops[k].i1 <= x < ops[k].i2 && !ops[k].tag.Equal? {
        assert k < n && ops[..n][k] == ops[k];
      }
    } else if k :| 0 <= k < |ops| && ops[k].i1 <= x < ops[k].i2 && !ops[k].tag.Equal? {
      if k < n {
        TilesEnd(ops[..n], a, b, op.i1, op.j1, k);
        assert ops[..n][k] == ops[k];
      }
    }
  }

  lemma LostIsTouched(ops: seq<Opcode>, a: seq<Line>, b: seq<Line>, classify: Classifier)
    requires Tiles(ops, a, b, |a|, |b|)
    ensures FrozenLost(ops, a, classify) == FrozenTouched(ops, a, classify)
  {
    forall x: nat | x < |a|
      ensures NewPosition(ops, x) < 0 <==> Touched(ops, x)
      ensures OpenAt(a, classify, x).Some? <==> exists name :: InSection(a, classify, x, name)
    {
      TouchedIff(ops, a, b, |a|, |b|, x);
      OpenIff(a, classify, x);
    }
  }

  lemma OpenIff(a: seq<Line>, classify: Classifier, x: nat)
    requires x < |a|
    ensures OpenAt(a, classify, x).Some? <==> exists name :: InSection(a, classify, x, name)
  {
    if OpenAt(a, classify, x).Some? {
      OpenMeansInSection(a, classify, x, OpenAt(a, classify, x).value);
    }
    if name :| InSection(a, classify, x, name) {
      OpenMeansInSection(a, classify, x, name);
    }
  }

  lemma TilesSpan(ops: seq<Opcode>, a: seq<Line>, b: seq<Line>, i: nat, j: nat)
    requires Tiles(ops, a, b, i, j)
    ensures Spans(ops)
  {
    forall k | 0 <= k < |ops| ensures ops[k].i1 <= ops[k].i2 && ops[k].j1 <= ops[k].j2 {
      TilesPrefix(ops, a, b, i, j, k);
    }
  }

  lemma TagCostStep(ops: seq<Opcode>, k: nat, tag: Tag)
    requires k < |ops|
    ensures TagCost(ops[..k + 1], tag) == TagCost(ops[..k], tag) + if ops[k].tag == tag then Cost(ops[k]) else 0
  {
    TakeOneMore(ops, k);
  }

  datatype Distance = Distance(added: nat, removed: nat, modified: nat, total: nat, frozenChanged: nat)

  /**
   * The cost loop: each count is the cost of its own opcodes, the total is at least the true distance, and the
   * frozen count is the number of frozen lines that do not survive. None stands for the malformed-marker error.
   */
  method ComputeEditDistance(
      a: seq<Line>, b: seq<Line>, ops: seq<Opcode>, classify: Classifier) returns (r: Option<Distance>)
    requires Tiles(ops, a, b, |a|, |b|)
    ensures r.None? <==> !WellMarked(a, classify, |a|)
    ensures r.Some? ==>
              && r.value.added == TagCost(ops, Insert) && r.value.removed == TagCost(ops, Delete)
              && r.value.modified == TagCost(ops, Replace) && r.value.total == TotalCost(ops)
              && r.value.added == |InsertedLines(ops)| && r.value.removed == |DeletedLines(ops)|
              && r.value.modified == |ReplacedPlaces(ops)|
              && r.value.total == r.value.added + r.value.removed + r.value.modified
              && Lev(a, b) <= r.value.total
              && r.value.frozenChanged == |FrozenLost(ops, a, classify)|
              && FrozenLost(ops, a, classify) == FrozenTouched(ops, a, classify)
  {
    var added, removed, modified, changed := CountOpcodes(a, b, ops);
    var frozen := FrozenLineIndexes(a, classify);
    if frozen.None? {
      return None;
    }
    TagsAddUp(ops);
    CountsMean(ops, a, b, classify);
    ChangedIsFrozenLost(ops, a, classify, changed, frozen.value);
    r := Some(Distance(added, removed, modified, added + removed + modified, |changed * frozen.value|));
  }

  /** The loop over the opcodes. */
  method CountOpcodes(a: seq<Line>, b: seq<Line>, ops: seq<Opcode>)
    returns (added: nat, removed: nat, modified: nat, changed: set<int>)
    requires Tiles(ops, a, b, |a|, |b|)
    ensures Counted(ops, added, removed, modified) && Changed(ops, |a|, changed) && Lev(a, b) <= TotalCost(ops)
  {
    added, removed, modified, changed := 0, 0, 0, {};
    ghost var i: nat, j: nat := 0, 0;
    for k := 0 to |ops|
      invariant i <= |a| && j <= |b| && Tiles(ops[..k], a, b, i, j)
      invariant Lev(a[..i], b[..j]) <= TotalCost(ops[..k])
      invariant Counted(ops[..k], added, removed, modified)
      invariant Changed(ops[..k], i, changed)
    {
      var op := ops[k];
      TilingStep(ops, a, b, k, i, j, changed);
      CountStep(ops, k, added, removed, modified);
      i, j := op.i2, op.j2;
      if op.tag.Equal? {
        continue;
      }
      if op.tag.Insert? {
        added := added + (op.j2 - op.j1);
      } else if op.tag.Delete? {
        removed := removed + (op.i2 - op.i1);
        changed := changed + Range(op.i1, op.i2);
      } else {
        modified := modified + Max(op.i2 - op.i1, op.j2 - op.j1);
        changed := changed + Range(op.i1, op.i2);
      }
    }
    assert ops[..|ops|] == ops && a[..|a|] == a && b[..|b|] == b;
  }

  lemma CountsMean(ops: seq<Opcode>, a: seq<Line>, b: seq<Line>, classify: Classifier)
    requires Tiles(ops, a, b, |a|, |b|)
    ensures TagCost(ops, Insert) == |InsertedLines(ops)| && TagCost(ops, Delete) == |DeletedLines(ops)|
    ensures TagCost(ops, Replace) == |ReplacedPlaces(ops)|
    ensures FrozenLost(ops, a, classify) == FrozenTouched(ops, a, classify)
  {
    TilesSpan(ops, a, b, |a|, |b|);
    LostIsTouched(ops, a, b, classify);
    InsertedSize(ops);
    DeletedSize(ops);
    ReplacedSize(ops);
  }

  ghost predicate Counted(ops: seq<Opcode>, added: nat, removed: nat, modified: nat) {
    added == TagCost(ops, Insert) && removed == TagCost(ops, Delete) && modified == TagCost(ops, Replace)
  }

  lemma CountStep(ops: seq<Opcode>, k: nat, added: nat, removed: nat, modified: nat)
    requires k < |ops| && ops[k].i1 <= ops[k].i2 && ops[k].j1 <= ops[k].j2
        && Counted(ops[..k], added, removed, modified)
    ensures var op := ops[k];
            Counted(ops[..k + 1], added + (if op.tag.Insert? then op.j2 - op.j1 else 0),
                    removed + (if op.tag.Delete? then op.i2 - op.i1 else 0),
                    modified + (if op.tag.Replace? then Max(op.i2 - op.i1, op.j2 - op.j1) else 0))
  {
    TagCostStep(ops, k, Insert);
    TagCostStep(ops, k, Delete);
    TagCostStep(ops, k, Replace);
  }

  /** One opcode: the tiling, the distance bound and the changed indexes all advance. */
  lemma TilingStep(ops: seq<Opcode>, a: seq<Line>, b: seq<Line>, k: nat, i: nat, j: nat, changed: set<int>)
    requires Tiles(ops, a, b, |a|, |b|) && k < |ops| && i <= |a| && j <= |b|
    requires Tiles(ops[..k], a, b, i, j) && Changed(ops[..k], i, changed)
    ensures var op := ops[k];
            && Sound(op, a, b)
            && Tiles(ops[..k + 1], a, b, op.i2, op.j2)
            && Lev(a[..op.i2], b[..op.j2]) <= Lev(a[..i], b[..j]) + Cost(op)
            && TotalCost(ops[..k + 1]) == TotalCost(ops[..k]) + Cost(op)
            && Changed(ops[..k + 1], op.i2,
                 if op.tag.Equal? || op.tag.Insert? then changed else changed + Range(op.i1, op.i2))
  {
    TilesPrefix(ops, a, b, |a|, |b|, k);
    TakeOneMore(ops, k);
    TilesExtend(ops[k], a, b);
    ChangedStep(ops[..k], ops[k], a, b, changed);
  }

  /** Every opcode of a tiling is sound and starts where the ones before it end. */
  lemma {:induction false} TilesPrefix(ops: seq<Opcode>, a: seq<Line>, b: seq<Line>, i: nat, j: nat, k: nat)
    requires Tiles(ops, a, b, i, j) && k < |ops|
    ensures Sound(ops[k], a, b) && Tiles(ops[..k], a, b, ops[k].i1, ops[k].j1)
  {
    var front, op := ops[..|ops| - 1], ops[|ops| - 1];
    if k < |front| {
      TilesPrefix(front, a, b, op.i1, op.j1, k);
      assert front[..k] == ops[..k];
    }
  }
}
