/** Orders and sorted sequences, for the `ORDER BY` clauses of the
    store's listings, and the positional helpers of the reorder calls. */
module Ordering {

  /** le is total and transitive: a sort key SQL can order by. */
  ghost predicate TotalPreorder<T(!new)>(le: (T, T) -> bool)
  {
    (forall a, b :: le(a, b) || le(b, a)) &&
    (forall a, b, c :: le(a, b) && le(b, c) ==> le(a, c))
  }

  ghost predicate SortedBy<T>(s: seq<T>, le: (T, T) -> bool)
  {
    forall i, j :: 0 <= i < j < |s| ==> le(s[i], s[j])
  }

  predicate Distinct<T(==)>(s: seq<T>)
  {
    forall i, j :: 0 <= i < j < |s| ==> s[i] != s[j]
  }

  lemma NoMemberIsEmpty<T>(s: seq<T>)
    ensures (forall x :: x !in s) ==> s == []
  {
    assert s == [] || s[0] in s;
  }

  /** Where insertion sort puts x: before the first element x does not come after. */
  function InsertPos<T>(s: seq<T>, x: T, le: (T, T) -> bool): (p: nat)
    ensures p <= |s|
    ensures forall i :: 0 <= i < p ==> !le(x, s[i])
    ensures p < |s| ==> le(x, s[p])
  {
    if s == [] || le(x, s[0]) then 0 else 1 + InsertPos(s[1..], x, le)
  }

  function Insert<T>(s: seq<T>, x: T, le: (T, T) -> bool): seq<T>
  {
    var p := InsertPos(s, x, le);
    s[..p] + [x] + s[p..]
  }

  /** Insertion adds exactly x, wherever it goes. */
  lemma InsertAdds<T>(s: seq<T>, x: T, le: (T, T) -> bool)
    ensures multiset(Insert(s, x, le)) == multiset(s) + multiset{x}
  {
    var p := InsertPos(s, x, le);
    assert s == s[..p] + s[p..];
  }

  lemma {:induction false} InsertSorted<T(!new)>(s: seq<T>, x: T, le: (T, T) -> bool)
    requires TotalPreorder(le) && SortedBy(s, le)
    ensures SortedBy(Insert(s, x, le), le)
    ensures multiset(Insert(s, x, le)) == multiset(s) + multiset{x}
  {
    var p := InsertPos(s, x, le);
    var r := Insert(s, x, le);
    InsertShape(s, x, le);
    forall i, j | 0 <= i < j < |r| ensures le(r[i], r[j]) {
      if j < p || i > p {
        SortedStep(s, r, p, i, j, le);
      } else {
        InsertedStep(s, r, p, x, i, j, le);
      }
    }
    assert s == s[..p] + s[p..];
  }

  /** Insert(s, x) is s with x at InsertPos(s, x) and the rest shifted. */
  lemma InsertShape<T>(s: seq<T>, x: T, le: (T, T) -> bool)
    ensures var p, r := InsertPos(s, x, le), Insert(s, x, le);
      |r| == |s| + 1 && r[p] == x &&
      (forall k :: 0 <= k < p ==> r[k] == s[k]) && (forall k :: p < k < |r| ==> r[k] == s[k - 1])
  {
  }

  /** A pair of the insertion that involves x, or straddles it. */
  lemma InsertedStep<T(!new)>(s: seq<T>, r: seq<T>, p: nat, x: T, i: nat, j: nat, le: (T, T) -> bool)
    requires TotalPreorder(le) && SortedBy(s, le) && p <= |s| && |r| == |s| + 1 && r[p] == x
    requires forall k :: 0 <= k < p ==> !le(x, s[k])
    requires p < |s| ==> le(x, s[p])
    requires forall k :: 0 <= k < p ==> r[k] == s[k]
    requires forall k :: p < k < |r| ==> r[k] == s[k - 1]
    requires i < j < |r| && i <= p <= j
    ensures le(r[i], r[j])
  {
    if j == p {
      assert r[i] == s[i] && !le(x, s[i]);
      assert le(x, s[i]) || le(s[i], x);
    } else if i == p {
      assert r[j] == s[j - 1] && le(x, s[p]);
      if j - 1 > p {
        assert le(s[p], s[j - 1]);
        assert le(x, s[p]) && le(s[p], s[j - 1]) ==> le(x, s[j - 1]);
      }
    } else {
      assert r[i] == s[i] && r[j] == s[j - 1];
      assert le(s[i], s[j - 1]);
    }
  }

  lemma SortedStep<T>(s: seq<T>, r: seq<T>, p: nat, i: nat, j: nat, le: (T, T) -> bool)
    requires SortedBy(s, le) && p <= |s| && |r| == |s| + 1
    requires forall k :: 0 <= k < p ==> r[k] == s[k]
    requires forall k :: p < k < |r| ==> r[k] == s[k - 1]
    requires i < j < |r| && (j < p || i > p)
    ensures le(r[i], r[j])
  {
    if j < p { assert r[i] == s[i] && r[j] == s[j]; }
    else { assert r[i] == s[i - 1] && r[j] == s[j - 1]; }
  }

  /** The matching values of a map as a sorted sequence, each once: the
      result of `SELECT ... WHERE keep ORDER BY le` stepped into an array. */
  method SortedSelect<K, V(==,!new)>(m: map<K, V>, keep: V -> bool, le: (V, V) -> bool) returns (s: seq<V>)
    requires TotalPreorder(le)
    requires forall k1, k2 :: k1 in m && k2 in m && k1 != k2 ==> m[k1] != m[k2]
    ensures SortedBy(s, le) && Distinct(s)
    ensures forall i :: 0 <= i < |s| ==> s[i] in m.Values && keep(s[i])
    ensures forall k :: k in m && keep(m[k]) ==> m[k] in s
  {
    s := [];
    var rest := m.Keys;
    while rest != {}
      invariant rest <= m.Keys
      invariant SortedBy(s, le) && Distinct(s)
      invariant forall v :: v in s ==> v in m.Values && keep(v)
      invariant forall k :: k in m && k !in rest && keep(m[k]) ==> m[k] in s
      invariant forall k :: k in rest ==> m[k] !in s
      decreases rest
    {
      var k :| k in rest;
      rest := rest - {k};
      var v := m[k];
      if keep(v) {
        InsertSorted(s, v, le);
        InsertFresh(s, v, le);
        s := Insert(s, v, le);
      }
    }
    forall i | 0 <= i < |s| ensures s[i] in m.Values && keep(s[i]) {
      assert s[i] in s;
    }
  }

  /** Inserting a value not yet present keeps a sequence free of repeats
      and adds exactly that value. */
  lemma InsertFresh<T>(s: seq<T>, x: T, le: (T, T) -> bool)
    requires Distinct(s) && x !in s
    ensures Distinct(Insert(s, x, le))
    ensures forall y :: y in Insert(s, x, le) <==> y in s || y == x
  {
    var p := InsertPos(s, x, le);
    var r := Insert(s, x, le);
    assert s == s[..p] + s[p..];
    assert forall y :: y in r <==> y in s[..p] || y == x || y in s[p..];
    assert forall i :: 0 <= i < p ==> r[i] == s[i];
    assert r[p] == x;
    assert forall i :: p < i < |r| ==> r[i] == s[i - 1];
    forall i, j | 0 <= i < j < |r| ensures r[i] != r[j] {
      if i < p && j < p { assert r[i] == s[i] && r[j] == s[j]; }
      else if i < p && j > p { assert r[i] == s[i] && r[j] == s[j - 1]; }
      else if i > p { assert r[i] == s[i - 1] && r[j] == s[j - 1]; }
      else if i == p { assert r[i] == x && r[j] == s[j - 1]; }
      else { assert r[i] == s[i] && r[j] == x; }
    }
  }

  /** SQLite's BINARY collation on TEXT: lexicographic by character. */
  predicate StrLe(a: string, b: string)
  {
    a == [] || (b != [] && (a[0] < b[0] || (a[0] == b[0] && StrLe(a[1..], b[1..]))))
  }

  lemma {:induction false} StrLeTotal(a: string, b: string)
    ensures StrLe(a, b) || StrLe(b, a)
  {
    if a != [] && b != [] && a[0] == b[0] {
      StrLeTotal(a[1..], b[1..]);
    }
  }

  lemma {:induction false} StrLeTrans(a: string, b: string, c: string)
    requires StrLe(a, b) && StrLe(b, c)
    ensures StrLe(a, c)
  {
    if a != [] && b != [] && c != [] && a[0] == b[0] && b[0] == c[0] {
      StrLeTrans(a[1..], b[1..], c[1..]);
    }
  }

  /** Position of the last occurrence of x in s, or -1: the index a
      reorder loop leaves in the row when an id is listed more than once. */
  function LastIndexOf<T(==)>(s: seq<T>, x: T): (i: int)
    ensures -1 <= i < |s|
    ensures i >= 0 <==> x in s
    ensures i >= 0 ==> s[i] == x && forall j :: i < j < |s| ==> s[j] != x
  {
    if s == [] then -1
    else if s[|s| - 1] == x then |s| - 1
    else LastIndexOf(s[..|s| - 1], x)
  }

  /** One UPDATE per list position: a listed key gets, through setPos, the
      index of its last occurrence; the other entries are untouched. */
  function Reordered<K, V>(m: map<K, V>, ids: seq<K>, setPos: (V, int) -> V): map<K, V>
  {
    map k | k in m :: if k in ids then setPos(m[k], LastIndexOf(ids, k)) else m[k]
  }

  lemma ReorderedStep<K, V>(m: map<K, V>, ids: seq<K>, setPos: (V, int) -> V, i: nat)
    requires i < |ids|
    ensures Reordered(m, ids[..i + 1], setPos) ==
      if ids[i] in m then Reordered(m, ids[..i], setPos)[ids[i] := setPos(m[ids[i]], i)]
      else Reordered(m, ids[..i], setPos)
  {
    var s := ids[..i + 1];
    assert s[..|s| - 1] == ids[..i];
    assert forall k :: k in s <==> k in ids[..i] || k == ids[i];
  }

  /** With no id listed twice, every listed key gets its own position. */
  lemma ReorderedPositions<K, V>(m: map<K, V>, ids: seq<K>, setPos: (V, int) -> V)
    requires Distinct(ids)
    ensures Reordered(m, ids, setPos).Keys == m.Keys
    ensures forall i :: 0 <= i < |ids| && ids[i] in m ==> Reordered(m, ids, setPos)[ids[i]] == setPos(m[ids[i]], i)
    ensures forall k :: k in m && k !in ids ==> Reordered(m, ids, setPos)[k] == m[k]
  {
    forall i | 0 <= i < |ids| && ids[i] in m
      ensures Reordered(m, ids, setPos)[ids[i]] == setPos(m[ids[i]], i)
    {
      assert LastIndexOf(ids, ids[i]) == i;
    }
  }
}
