/** Sequence helpers for the tables kept in insertion order: find the row
    with a given key, remove a row, count the rows with a given key. */
module Seqs {
  import opened Outcomes

  /** The position of the first element whose key is `k`. */
  function IndexOfKey<T, K(==)>(s: seq<T>, key: T -> K, k: K): (r: Option<nat>)
    ensures r.Some? ==> r.value < |s| && key(s[r.value]) == k
    ensures r.Some? ==> forall i :: 0 <= i < r.value ==> key(s[i]) != k
    ensures r.None? <==> forall i :: 0 <= i < |s| ==> key(s[i]) != k
    decreases |s|
  {
    if |s| == 0 then None
    else if key(s[0]) == k then Some(0)
    else
      match IndexOfKey(s[1..], key, k)
      case None => None
      case Some(j) => Some(j + 1)
  }

  /** Some element has key `k`. */
  predicate HasKey<T, K(==)>(s: seq<T>, key: T -> K, k: K) {
    exists i :: 0 <= i < |s| && key(s[i]) == k
  }

  function RemoveAt<T>(s: seq<T>, i: nat): (r: seq<T>)
    requires i < |s|
    ensures |r| == |s| - 1
    ensures forall j :: 0 <= j < i ==> r[j] == s[j]
    ensures forall j :: i <= j < |r| ==> r[j] == s[j + 1]
  {
    s[..i] + s[i + 1..]
  }

  /** The number of elements whose key is `k`. */
  function CountKey<T, K(==)>(s: seq<T>, key: T -> K, k: K): nat
    decreases |s|
  {
    if |s| == 0 then 0
    else CountKey(s[..|s| - 1], key, k) + (if key(s[|s| - 1]) == k then 1 else 0)
  }

  lemma {:induction false} CountKeyConcat<T, K>(a: seq<T>, b: seq<T>, key: T -> K, k: K)
    ensures CountKey(a + b, key, k) == CountKey(a, key, k) + CountKey(b, key, k)
    decreases |b|
  {
    if |b| == 0 {
      assert a + b == a;
    } else {
      assert (a + b)[..|a + b| - 1] == a + b[..|b| - 1];
      CountKeyConcat(a, b[..|b| - 1], key, k);
    }
  }

  /** Appending one row changes only the count of that row's key, by one. */
  lemma {:induction false} CountKeyAppend<T, K>(s: seq<T>, x: T, key: T -> K, k: K)
    ensures CountKey(s + [x], key, k) == CountKey(s, key, k) + (if key(x) == k then 1 else 0)
  {
    assert (s + [x])[..|s|] == s;
  }

  /** Removing one row changes only the count of that row's key, by one. */
  lemma {:induction false} CountKeyRemoveAt<T, K>(s: seq<T>, i: nat, key: T -> K, k: K)
    requires i < |s|
    ensures CountKey(RemoveAt(s, i), key, k)
            == CountKey(s, key, k) - (if key(s[i]) == k then 1 else 0)
  {
    var a, b := s[..i], s[i + 1..];
    assert s[..i + 1] + b == s;
    assert s[..i + 1][..i] == a;
    CountKeyConcat(s[..i + 1], b, key, k);
    CountKeyConcat(a, b, key, k);
  }

  /** Moving a row to the end, or replacing it by a row with the same key,
      leaves the set of keys present unchanged. */
  lemma {:induction false} ReplaceAtEndKeepsKeys<T, K>(s: seq<T>, i: nat, x: T, key: T -> K)
    requires i < |s| && key(x) == key(s[i])
    ensures forall k :: HasKey(RemoveAt(s, i) + [x], key, k) <==> HasKey(s, key, k)
  {
    var r := RemoveAt(s, i) + [x];
    forall k
      ensures HasKey(r, key, k) <==> HasKey(s, key, k)
    {
      if HasKey(s, key, k) {
        var j :| 0 <= j < |s| && key(s[j]) == k;
        if j < i { assert r[j] == s[j]; }
        else if j > i { assert r[j - 1] == s[j]; }
        else { assert key(r[|s| - 1]) == k; }
      }
      if HasKey(r, key, k) {
        var j :| 0 <= j < |r| && key(r[j]) == k;
        if j < i { assert r[j] == s[j]; }
        else if j < |s| - 1 { assert r[j] == s[j + 1]; }
        else { assert key(s[i]) == k; }
      }
    }
  }

  /** A key that occurs is counted. */
  lemma {:induction false} CountKeyPositive<T, K>(s: seq<T>, i: nat, key: T -> K, k: K)
    requires i < |s| && key(s[i]) == k
    ensures CountKey(s, key, k) >= 1
  {
    CountKeyRemoveAt(s, i, key, k);
  }

  /** The positions of the elements whose key is `k`, ascending: every such
      position exactly once (the rows a `where: { column: k }` clause selects). */
  function Matches<T, K(==)>(s: seq<T>, key: T -> K, k: K): (idx: seq<nat>)
    ensures |idx| == CountKey(s, key, k)
    ensures forall j :: 0 <= j < |idx| ==> idx[j] < |s| && key(s[idx[j]]) == k
    ensures forall j, j' :: 0 <= j < j' < |idx| ==> idx[j] < idx[j']
    ensures forall i :: 0 <= i < |s| && key(s[i]) == k ==> i in idx
    decreases |s|
  {
    if |s| == 0 then []
    else
      var n := |s| - 1;
      var rest := Matches(s[..n], key, k);
      assert forall j :: 0 <= j < |rest| ==> s[..n][rest[j]] == s[rest[j]];
      if key(s[n]) == k then rest + [n] else rest
  }

  /** Appending a row adds its position to the matches exactly when its key is `k`. */
  lemma {:induction false} MatchesAppend<T, K>(s: seq<T>, x: T, key: T -> K, k: K)
    ensures Matches(s + [x], key, k) == Matches(s, key, k) + (if key(x) == k then [|s|] else [])
  {
    assert (s + [x])[..|s|] == s;
  }

  /** The elements at the positions `idx`, in that order. */
  function Pick<T>(s: seq<T>, idx: seq<nat>): (r: seq<T>)
    requires forall j :: 0 <= j < |idx| ==> idx[j] < |s|
    ensures |r| == |idx|
    ensures forall j :: 0 <= j < |idx| ==> r[j] == s[idx[j]]
  {
    seq(|idx|, j requires 0 <= j < |idx| => s[idx[j]])
  }

  /** The elements whose key is `k`, in their original order. */
  function Where<T, K(==)>(s: seq<T>, key: T -> K, k: K): (r: seq<T>)
    ensures var m := Matches(s, key, k);
            |r| == |m| && forall j :: 0 <= j < |r| ==> r[j] == s[m[j]]
  {
    Pick(s, Matches(s, key, k))
  }

  /** The elements whose key is `k`, the last inserted first: a table kept
      in insertion order read with `ORDER BY created_at DESC`. */
  function LatestFirst<T, K(==)>(s: seq<T>, key: T -> K, k: K): (r: seq<T>)
    ensures var m := Matches(s, key, k);
            |r| == |m| && forall j :: 0 <= j < |r| ==> r[j] == s[m[|m| - 1 - j]]
  {
    Reverse(Where(s, key, k))
  }

  /** The elements in the opposite order. */
  function Reverse<T>(s: seq<T>): (r: seq<T>)
    ensures |r| == |s| && forall j :: 0 <= j < |s| ==> r[j] == s[|s| - 1 - j]
  {
    seq(|s|, j requires 0 <= j < |s| => s[|s| - 1 - j])
  }

  /** A row appended with key `k` becomes the latest of its key. */
  lemma {:induction false} LatestFirstAppend<T, K>(s: seq<T>, x: T, key: T -> K, k: K)
    requires key(x) == k
    ensures var r := LatestFirst(s + [x], key, k);
            |r| == |LatestFirst(s, key, k)| + 1 && r[0] == x
  {
    MatchesAppend(s, x, key, k);
    var m := Matches(s + [x], key, k);
    assert m[|m| - 1] == |s|;
  }

  /** Rows ordered by a timestamp, newest first (`ORDER BY created_at DESC`). */
  predicate NewestFirst<T>(s: seq<T>, stamp: T -> nat) {
    forall i, j :: 0 <= i < j < |s| ==> stamp(s[i]) >= stamp(s[j])
  }

  /** A `where` query keeps newest-first order. */
  lemma {:induction false} WhereKeepsOrder<T, K>(s: seq<T>, key: T -> K, k: K, stamp: T -> nat)
    requires NewestFirst(s, stamp)
    ensures NewestFirst(Where(s, key, k), stamp)
  {
    var r, m := Where(s, key, k), Matches(s, key, k);
    forall i, j | 0 <= i < j < |r|
      ensures stamp(r[i]) >= stamp(r[j])
    {
      assert r[i] == s[m[i]] && r[j] == s[m[j]] && m[i] < m[j];
    }
  }

  /** A contiguous slice keeps newest-first order. */
  lemma {:induction false} SliceKeepsOrder<T>(s: seq<T>, lo: nat, hi: nat, stamp: T -> nat)
    requires NewestFirst(s, stamp) && lo <= hi <= |s|
    ensures NewestFirst(s[lo..hi], stamp)
  {
    forall i, j | 0 <= i < j < hi - lo
      ensures stamp(s[lo..hi][i]) >= stamp(s[lo..hi][j])
    {
      assert s[lo..hi][i] == s[lo + i] && s[lo..hi][j] == s[lo + j];
    }
  }

  /** Every element mapped through `f`, in order (`follows.map(...)`). */
  function MapSeq<T, U>(s: seq<T>, f: T -> U): (r: seq<U>)
    ensures |r| == |s|
    ensures forall i :: 0 <= i < |s| ==> r[i] == f(s[i])
    decreases |s|
  {
    if |s| == 0 then [] else [f(s[0])] + MapSeq(s[1..], f)
  }

  lemma {:induction false} MapSeqAt<T, U>(s: seq<T>, f: T -> U, j: nat)
    requires j < |s|
    ensures MapSeq(s, f)[j] == f(s[j])
  {
  }

  /** A key that occurs nowhere counts zero. */
  lemma {:induction false} CountKeyAbsent<T, K>(s: seq<T>, key: T -> K, k: K)
    requires forall i :: 0 <= i < |s| ==> key(s[i]) != k
    ensures CountKey(s, key, k) == 0
    decreases |s|
  {
    if |s| > 0 {
      var n := |s| - 1;
      assert forall i :: 0 <= i < n ==> s[..n][i] == s[i];
      CountKeyAbsent(s[..n], key, k);
    }
  }
}
