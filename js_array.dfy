/** The JavaScript array primitives the kanban code relies on, with the
    semantics of the ECMAScript built-ins: `indexOf`, the index filter used to
    remove one element, and `splice(start, 0, item)`, whose start index is
    clamped and may count from the end. */
module JsArray {

  /** No value occurs twice. */
  predicate Distinct<T(==)>(s: seq<T>) {
    forall i, j :: 0 <= i < j < |s| ==> s[i] != s[j]
  }

  /** Concatenation regroups freely. */
  lemma ConcatAssoc<T>(x: seq<T>, y: seq<T>, z: seq<T>)
    ensures x + (y + z) == (x + y) + z
  {
  }

  /** `s.indexOf(x)`: the first index holding `x`, or -1. */
  function IndexOf<T(==)>(s: seq<T>, x: T): (r: int)
    ensures -1 <= r < |s|
    ensures r == -1 <==> x !in s
    ensures 0 <= r ==> s[r] == x && x !in s[..r]
  {
    if s == [] then -1
    else if s[0] == x then 0
    else
      var k := IndexOf(s[1..], x);
      if k == -1 then -1 else k + 1
  }

  /** The position at which `splice(start, ...)` acts on an array of length
      `len`: a negative start counts back from the end, and the result is
      clamped into `[0, len]`. */
  function SpliceStart(start: int, len: nat): (k: nat)
    ensures k <= len
    ensures 0 <= start <= len ==> k == start
    ensures start > len ==> k == len
    ensures start < 0 && len + start >= 0 ==> k == len + start
    ensures len + start < 0 ==> k == 0
  {
    if start < 0 then (if len + start < 0 then 0 else len + start)
    else if start > len then len
    else start
  }

  /** The array left in place by `copy.splice(start, 0, x)`. */
  function SpliceInsert<T>(s: seq<T>, start: int, x: T): (r: seq<T>)
    ensures |r| == |s| + 1
    ensures r[SpliceStart(start, |s|)] == x
    ensures r[..SpliceStart(start, |s|)] == s[..SpliceStart(start, |s|)]
    ensures r[SpliceStart(start, |s|) + 1..] == s[SpliceStart(start, |s|)..]
    ensures multiset(r) == multiset(s) + multiset{x}
  {
    var k := SpliceStart(start, |s|);
    assert s == s[..k] + s[k..];
    s[..k] + [x] + s[k..]
  }

  /** `s.filter((_, index) => index !== i)` for an index inside the array. */
  function RemoveAt<T>(s: seq<T>, i: int): (r: seq<T>)
    requires 0 <= i < |s|
    ensures |r| == |s| - 1
    ensures forall j :: 0 <= j < i ==> r[j] == s[j]
    ensures forall j :: i <= j < |r| ==> r[j] == s[j + 1]
    ensures multiset(r) + multiset{s[i]} == multiset(s)
  {
    assert s == s[..i] + [s[i]] + s[i + 1..];
    s[..i] + s[i + 1..]
  }

  /** Removing the element just inserted by a splice gives back the array. */
  lemma RemoveSpliced<T>(s: seq<T>, start: int, x: T)
    ensures RemoveAt(SpliceInsert(s, start, x), SpliceStart(start, |s|)) == s
  {
    var k := SpliceStart(start, |s|);
    var r := SpliceInsert(s, start, x);
    var q := RemoveAt(r, k);
    assert forall j :: 0 <= j < |s| ==> q[j] == s[j] by {
      forall j | 0 <= j < |s| ensures q[j] == s[j] {
        if j < k {
          assert q[j] == r[j] == r[..k][j] == s[..k][j];
        } else {
          assert q[j] == r[j + 1] == r[k + 1..][j - k] == s[k..][j - k];
        }
      }
    }
  }

  /** Splicing an element back where it was removed gives back the array. */
  lemma SpliceRemoved<T>(s: seq<T>, i: int)
    requires 0 <= i < |s|
    ensures SpliceInsert(RemoveAt(s, i), i, s[i]) == s
  {
    var q := RemoveAt(s, i);
    var r := SpliceInsert(q, i, s[i]);
    assert SpliceStart(i, |q|) == i;
    forall j | 0 <= j < |s| ensures r[j] == s[j] {
      if j < i {
        assert r[j] == r[..i][j] == q[..i][j] == q[j];
      } else if j > i {
        assert r[j] == r[i + 1..][j - i - 1] == q[i..][j - i - 1] == q[j - 1];
      }
    }
  }
}
