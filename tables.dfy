/**
 * Sequence operations that stand for the ORM's query forms over an in-memory
 * table: `filter(...)`, `.first()`, `order_by(created_at.desc())` and the
 * database's choice of a fresh primary key.
 */
module Tables {
  import opened Wrappers

  /** `query.filter(p)`: the rows that satisfy p, in table order. */
  function Filter<T>(s: seq<T>, p: T -> bool): (r: seq<T>)
    ensures |r| <= |s|
    ensures forall i :: 0 <= i < |r| ==> r[i] in s && p(r[i])
    ensures forall i :: 0 <= i < |s| && p(s[i]) ==> s[i] in r
    ensures (forall i :: 0 <= i < |s| ==> p(s[i])) ==> r == s
    decreases |s|
  {
    if s == [] then []
    else (if p(s[0]) then [s[0]] else []) + Filter(s[1..], p)
  }

  /** Filtering a concatenation filters each part. */
  lemma {:induction false} FilterAppend<T>(a: seq<T>, b: seq<T>, p: T -> bool)
    ensures Filter(a + b, p) == Filter(a, p) + Filter(b, p)
    decreases |a|
  {
    if a != [] {
      assert (a + b)[1..] == a[1..] + b;
      FilterAppend(a[1..], b, p);
    } else {
      assert a + b == b;
    }
  }

  /**
   * The positions among the first n rows of s whose rows satisfy p: strictly
   * increasing, every one matching, and none of the matching ones missing.
   */
  function MatchIndices<T>(s: seq<T>, p: T -> bool, n: nat): (r: seq<nat>)
    requires n <= |s|
    ensures forall k :: 0 <= k < |r| ==> r[k] < n && p(s[r[k]])
    ensures forall k, l :: 0 <= k < l < |r| ==> r[k] < r[l]
    ensures forall j :: 0 <= j < n && p(s[j]) ==> j in r
    decreases n
  {
    if n == 0 then [] else MatchIndices(s, p, n - 1) + (if p(s[n - 1]) then [n - 1] else [])
  }

  /**
   * Filter keeps the matching rows in table order, each exactly once: entry k
   * of the result is the row at the k-th matching position.
   */
  lemma FilterIsSubsequence<T>(s: seq<T>, p: T -> bool)
    ensures |Filter(s, p)| == |MatchIndices(s, p, |s|)|
    ensures forall k :: 0 <= k < |MatchIndices(s, p, |s|)| ==> Filter(s, p)[k] == s[MatchIndices(s, p, |s|)[k]]
  {
    FilterPrefix(s, p, |s|);
    assert s[..|s|] == s;
  }

  lemma {:induction false} FilterPrefix<T>(s: seq<T>, p: T -> bool, n: nat)
    requires n <= |s|
    ensures |Filter(s[..n], p)| == |MatchIndices(s, p, n)|
    ensures forall k :: 0 <= k < |MatchIndices(s, p, n)| ==> Filter(s[..n], p)[k] == s[MatchIndices(s, p, n)[k]]
    decreases n
  {
    if n > 0 {
      var x := s[n - 1];
      var front, frontIdx := Filter(s[..n - 1], p), MatchIndices(s, p, n - 1);
      var last, lastIdx := if p(x) then [x] else [], if p(x) then [n - 1] else [];
      assert Filter(s[..n], p) == front + last by {
        assert s[..n] == s[..n - 1] + [x];
        FilterAppend(s[..n - 1], [x], p);
        FilterSingle(x, p);
      }
      assert MatchIndices(s, p, n) == frontIdx + lastIdx;
      FilterPrefix(s, p, n - 1);
      if p(x) {
        ConcatIndexed(s, front, frontIdx, [x], [n - 1]);
      } else {
        assert front + last == front && frontIdx + lastIdx == frontIdx;
      }
    }
  }

  lemma FilterSingle<T>(x: T, p: T -> bool)
    ensures Filter([x], p) == if p(x) then [x] else []
  {
    assert [x][1..] == [];
  }

  lemma ConcatIndexed<T>(s: seq<T>, a: seq<T>, ai: seq<nat>, b: seq<T>, bi: seq<nat>)
    requires |a| == |ai| && |b| == |bi|
    requires forall k :: 0 <= k < |ai| ==> ai[k] < |s| && a[k] == s[ai[k]]
    requires forall k :: 0 <= k < |bi| ==> bi[k] < |s| && b[k] == s[bi[k]]
    ensures |a + b| == |ai + bi|
    ensures forall k :: 0 <= k < |ai + bi| ==> (ai + bi)[k] < |s| && (a + b)[k] == s[(ai + bi)[k]]
  {
    forall k | 0 <= k < |ai + bi| ensures (ai + bi)[k] < |s| && (a + b)[k] == s[(ai + bi)[k]] {
      if k < |ai| {
        assert (a + b)[k] == a[k] && (ai + bi)[k] == ai[k];
      } else {
        assert (a + b)[k] == b[k - |a|] && (ai + bi)[k] == bi[k - |ai|];
      }
    }
  }

  /** The reversed sequence. */
  function Reverse<T>(s: seq<T>): (r: seq<T>)
    ensures |r| == |s|
    ensures forall i :: 0 <= i < |s| ==> r[i] == s[|s| - 1 - i]
    decreases |s|
  {
    if s == [] then [] else [s[|s| - 1]] + Reverse(s[..|s| - 1])
  }

  /**
   * `filter(p)` ordered newest first, with newer rows later in the table: the
   * matching rows, each exactly once, entry k being the row at the k-th
   * matching position counted from the end.
   */
  lemma NewestFirstSpec<T>(s: seq<T>, p: T -> bool)
    ensures |Reverse(Filter(s, p))| == |MatchIndices(s, p, |s|)|
    ensures forall k :: 0 <= k < |MatchIndices(s, p, |s|)| ==>
      Reverse(Filter(s, p))[k] == s[MatchIndices(s, p, |s|)[|MatchIndices(s, p, |s|)| - 1 - k]]
  {
    FilterIsSubsequence(s, p);
    ReverseIndexed(Filter(s, p), s, MatchIndices(s, p, |s|));
  }

  lemma ReverseIndexed<T>(f: seq<T>, s: seq<T>, idx: seq<nat>)
    requires |f| == |idx|
    requires forall k :: 0 <= k < |idx| ==> idx[k] < |s| && f[k] == s[idx[k]]
    ensures |Reverse(f)| == |idx|
    ensures forall k :: 0 <= k < |idx| ==> Reverse(f)[k] == s[idx[|idx| - 1 - k]]
  {
    forall k | 0 <= k < |idx| ensures Reverse(f)[k] == s[idx[|idx| - 1 - k]] {
      assert Reverse(f)[k] == f[|f| - 1 - k];
    }
  }

  /** Every row that satisfies p appears in the newest-first query, and nothing else does. */
  lemma NewestFirstMembers<T>(s: seq<T>, p: T -> bool)
    ensures forall k :: 0 <= k < |Reverse(Filter(s, p))| ==>
      Reverse(Filter(s, p))[k] in s && p(Reverse(Filter(s, p))[k])
    ensures forall j :: 0 <= j < |s| && p(s[j]) ==> s[j] in Reverse(Filter(s, p))
  {
    var f := Filter(s, p);
    ReverseMembers(f);
    forall k | 0 <= k < |Reverse(f)| ensures Reverse(f)[k] in s && p(Reverse(f)[k]) {
      assert Reverse(f)[k] == f[|f| - 1 - k];
    }
  }

  /** Reversing keeps exactly the same elements. */
  lemma ReverseMembers<T>(f: seq<T>)
    ensures forall x :: x in Reverse(f) <==> x in f
  {
    forall x | x in f ensures x in Reverse(f) {
      var m :| 0 <= m < |f| && f[m] == x;
      assert Reverse(f)[|f| - 1 - m] == x;
    }
    forall x | x in Reverse(f) ensures x in f {
      var m :| 0 <= m < |f| && Reverse(f)[m] == x;
      assert f[|f| - 1 - m] == x;
    }
  }

  /** `query.filter(p).first()`: the position of the first row that satisfies p. */
  function FindFirst<T>(s: seq<T>, p: T -> bool): (r: Option<nat>)
    ensures r.None? <==> forall i :: 0 <= i < |s| ==> !p(s[i])
    ensures r.Some? ==> r.value < |s| && p(s[r.value]) && forall j :: 0 <= j < r.value ==> !p(s[j])
    decreases |s|
  {
    if s == [] then None
    else if p(s[0]) then Some(0)
    else
      match FindFirst(s[1..], p)
      case None => None
      case Some(k) => Some(k + 1)
  }

  /** The largest key in the table, 0 for an empty table. */
  function MaxKey<T>(s: seq<T>, key: T -> nat): (r: nat)
    ensures forall i :: 0 <= i < |s| ==> key(s[i]) <= r
    ensures s == [] ==> r == 0
    ensures s != [] ==> exists i :: 0 <= i < |s| && key(s[i]) == r
    decreases |s|
  {
    if s == [] then 0
    else
      var m := MaxKey(s[1..], key);
      if key(s[0]) > m then key(s[0])
      else
        assert s[1..] != [] ==> exists i :: 1 <= i < |s| && key(s[i]) == m by {
          if s[1..] != [] {
            var i :| 0 <= i < |s[1..]| && key(s[1..][i]) == m;
            assert key(s[i + 1]) == m;
          }
        }
        m
  }

  /** The key a new row receives: one more than the largest key (the id policy this model assumes of the database). */
  function FreshKey<T>(s: seq<T>, key: T -> nat): (r: nat)
    ensures r > 0
    ensures forall i :: 0 <= i < |s| ==> key(s[i]) != r
  {
    MaxKey(s, key) + 1
  }

  /** No two rows share a key. */
  ghost predicate UniqueKeys<T, K>(s: seq<T>, key: T -> K)
  {
    forall i, j :: 0 <= i < j < |s| ==> key(s[i]) != key(s[j])
  }
}
