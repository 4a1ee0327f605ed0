/** Small definitions shared by the models. */
module Common {

  /** A value that may be absent: a C pointer that may be NULL, a lookup that may miss. */
  datatype Option<+T> = None | Some(value: T)

  /** One octet of a C `char` buffer, read as unsigned. */
  type Byte = b: int | 0 <= b < 256

  /** Modulus of C's `unsigned int`. */
  const UINT_MODULUS: nat := 0x1_0000_0000

  ghost predicate Distinct<T>(s: seq<T>) {
    forall i, j :: 0 <= i < j < |s| ==> s[i] != s[j]
  }

  /** The indices of a table of `n` entries. */
  function Indices(n: nat): (s: set<int>)
    ensures forall i :: i in s <==> 0 <= i < n
    ensures |s| == n
  {
    if n == 0 then {} else Indices(n - 1) + {n - 1}
  }

  lemma {:induction false} SubsetSize<T>(a: set<T>, b: set<T>)
    requires a <= b
    ensures |a| <= |b|
  {
    assert b == a + (b - a);
  }

  /** How often `x` occurs in `s`. */
  function Occurrences<T(==)>(s: seq<T>, x: T): nat {
    if s == [] then 0
    else Occurrences(s[..|s| - 1], x) + (if s[|s| - 1] == x then 1 else 0)
  }

  lemma OccurrencesAppended<T>(s: seq<T>, y: T, x: T)
    ensures Occurrences(s + [y], x) == Occurrences(s, x) + (if y == x then 1 else 0)
  {
    assert (s + [y])[..|s|] == s;
  }

  lemma {:induction false} OccurrencesHead<T>(s: seq<T>, x: T)
    requires s != []
    ensures Occurrences(s, x) == (if s[0] == x then 1 else 0) + Occurrences(s[1..], x)
  {
    var n := |s| - 1;
    if n > 0 {
      OccurrencesHead(s[..n], x);
      assert s[..n][1..] == s[1..][..n - 1];
    }
  }

  lemma {:induction false} OccurrencesAbsent<T>(s: seq<T>, x: T)
    requires forall i :: 0 <= i < |s| ==> s[i] != x
    ensures Occurrences(s, x) == 0
  {
    if s != [] { OccurrencesAbsent(s[..|s| - 1], x); }
  }

  /** The first position of the least element. */
  function Oldest(ts: seq<int>): (k: nat)
    requires ts != []
    ensures k < |ts|
    ensures forall j :: 0 <= j < |ts| ==> ts[k] <= ts[j]
    ensures forall j :: 0 <= j < k ==> ts[k] < ts[j]
  {
    var n := |ts| - 1;
    if n == 0 then 0
    else
      var k := Oldest(ts[..n]);
      assert forall j :: 0 <= j < n ==> ts[..n][j] == ts[j];
      if ts[n] < ts[k] then n else k
  }

  lemma OldestStep(ts: seq<int>, i: nat)
    requires i < |ts|
    ensures Oldest(ts[..i + 1])
         == if i > 0 && ts[Oldest(ts[..i])] <= ts[i] then Oldest(ts[..i]) else i
  {
    assert ts[..i + 1][..i] == ts[..i];
  }

  /** `i % n` for a position that has passed the end of a ring at most once. */
  function Wrap(i: nat, n: nat): (r: nat)
    requires i < 2 * n
    ensures r < n
  {
    if i < n then i else i - n
  }

  lemma WrapIsModulo(i: nat, n: nat)
    requires i < 2 * n
    ensures Wrap(i, n) == i % n
  {
    if i >= n {
      assert i == n + (i - n);
      assert (i - n) % n == i - n;
    }
  }

  function Min(a: int, b: int): int {
    if a < b then a else b
  }
}
