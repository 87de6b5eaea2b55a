/** What several components share: optional values, lines, ranges, and a few facts about sequences. */
module Common {
  datatype Option<+T> = None | Some(value: T)

  datatype Line = Line(text: string)

  /** What `str.strip` removes. */
  predicate IsSpace(c: char) {
    || '\U{0009}' <= c <= '\U{000d}' || '\U{001c}' <= c <= '\U{0020}' || c == '\U{0085}' || c == '\U{00a0}'
    || c == '\U{1680}' || '\U{2000}' <= c <= '\U{200a}' || c == '\U{2028}' || c == '\U{2029}'
    || c == '\U{202f}' || c == '\U{205f}' || c == '\U{3000}'
  }

  predicate Blank(text: string) {
    forall i | 0 <= i < |text| :: IsSpace(text[i])
  }

  function Range(lo: int, hi: int): (r: set<int>)
    ensures forall x :: x in r <==> lo <= x < hi
    decreases hi - lo
  {
    if lo >= hi then {} else {lo} + Range(lo + 1, hi)
  }

  ghost predicate Distinct<T>(s: seq<T>) {
    forall i, j | 0 <= i < j < |s| :: s[i] != s[j]
  }

  lemma Regroup<T>(a: seq<T>, b: seq<T>, c: seq<T>)
    ensures (a + b) + c == a + (b + c)
  {
  }

  lemma TakeOneMore<T>(s: seq<T>, n: nat)
    requires n < |s|
    ensures s[..n + 1] == s[..n] + [s[n]] && s[..n + 1][..n] == s[..n]
  {
  }

  lemma InitOfAppend<T>(s: seq<T>, x: T)
    ensures (s + [x])[..|s|] == s && (s + [x])[|s|] == x
  {
  }

  lemma SplitLast<T>(s: seq<T>)
    requires s != []
    ensures s == s[..|s| - 1] + [s[|s| - 1]]
  {
  }

  ghost function Elements<T>(s: seq<T>): set<T> {
    set x | x in s
  }

  lemma ElementsOneMore<T>(s: seq<T>)
    requires s != []
    ensures Elements(s) == Elements(s[..|s| - 1]) + {s[|s| - 1]}
  {
    SplitLast(s);
  }

  lemma DistinctOneMore<T>(s: seq<T>)
    requires s != []
    ensures var k := |s| - 1; Distinct(s) <==> Distinct(s[..k]) && s[k] !in s[..k]
  {
    var k := |s| - 1;
    if i :| 0 <= i < k && s[..k][i] == s[k] {
      assert s[i] == s[k];
    }
    if Distinct(s) {
      forall i, j | 0 <= i < j < k ensures s[..k][i] != s[..k][j] {
        assert s[i] != s[j];
      }
    }
    if s[k] !in s[..k] {
      forall i | 0 <= i < k ensures s[i] != s[k] {
        assert s[..k][i] in s[..k];
      }
    }
  }

  /** A list has no repetition exactly when it has as many elements as places. */
  lemma {:induction false} DistinctBySize<T>(s: seq<T>)
    ensures |Elements(s)| <= |s|
    ensures Distinct(s) <==> |Elements(s)| == |s|
  {
    if s != [] {
      DistinctBySize(s[..|s| - 1]);
      ElementsOneMore(s);
      DistinctOneMore(s);
    }
  }
}
