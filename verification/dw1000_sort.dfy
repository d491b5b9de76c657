/** `insert_sorted` (software/squarepoint/firmware/dw1000.c): inserts a value
    into the first `end` slots of an array that has room for one more,
    shifting the larger elements up by one. */
module Dw1000Sort {

  ghost predicate Sorted(s: seq<int>) {
    forall i, j :: 0 <= i <= j < |s| ==> s[i] <= s[j]
  }

  /** The position the element lands at: after every element it is not
      smaller than, stopping at the first larger one. */
  function InsertPosition(arr: seq<int>, x: int, end: nat): (k: nat)
    requires end <= |arr|
    ensures k <= end
    ensures forall i :: 0 <= i < k ==> x >= arr[i]
    ensures k < end ==> x < arr[k]
    decreases end
  {
    if end == 0 then 0
    else
      var k := InsertPosition(arr, x, end - 1);
      if k == end - 1 && x >= arr[end - 1] then end else k
  }

  /** The array after the insertion: the prefix before the position, the new
      element, the rest of the occupied prefix shifted up, and the slots past
      `end` untouched. */
  function Inserted(arr: seq<int>, x: int, end: nat): (r: seq<int>)
    requires end < |arr|
    ensures |r| == |arr|
  {
    var k := InsertPosition(arr, x, end);
    arr[..k] + [x] + arr[k..end] + arr[end + 1..]
  }

  method InsertSorted(arr: seq<int>, x: int, end: nat) returns (a: seq<int>)
    requires end < |arr|
    ensures a == Inserted(arr, x, end)
  {
    var insertAt := 0;
    while insertAt < end && x >= arr[insertAt]
      invariant 0 <= insertAt <= end
      invariant forall i :: 0 <= i < insertAt ==> x >= arr[i]
    {
      insertAt := insertAt + 1;
    }
    FirstLargerIsPosition(arr, x, end, insertAt);
    if insertAt == end {
      a := arr[end := x];
      assert a == arr[..end] + [x] + arr[end..end] + arr[end + 1..];
    } else {
      a := ShiftIn(arr, x, insertAt, end);
    }
  }

  /** The second loop of `insert_sorted`: writes the element at `k` and
      carries each displaced element one slot up, through slot `end`. */
  method ShiftIn(arr: seq<int>, x: int, k: nat, end: nat) returns (a: seq<int>)
    requires k <= end < |arr|
    ensures a == arr[..k] + [x] + arr[k..end] + arr[end + 1..]
  {
    ghost var target := arr[..k] + [x] + arr[k..end] + arr[end + 1..];
    assert |target| == |arr|;
    a := arr;
    var insertAt := k;
    var carry := x;
    while insertAt <= end
      invariant k <= insertAt <= end + 1
      invariant |a| == |arr|
      invariant forall i :: 0 <= i < insertAt ==> a[i] == target[i]
      invariant forall i :: insertAt <= i < |a| ==> a[i] == arr[i]
      invariant carry == if insertAt == k then x else arr[insertAt - 1]
    {
      var temp := a[insertAt];
      a := a[insertAt := carry];
      carry := temp;
      insertAt := insertAt + 1;
    }
    assert a == target;
  }

  /** The index the search loop stops at is the insertion position. */
  lemma FirstLargerIsPosition(arr: seq<int>, x: int, end: nat, k: nat)
    requires end <= |arr| && k <= end
    requires forall i :: 0 <= i < k ==> x >= arr[i]
    requires k < end ==> x < arr[k]
    ensures InsertPosition(arr, x, end) == k
  {
  }

  /** Inserting into a sorted prefix keeps the grown prefix sorted. */
  lemma InsertedSorted(arr: seq<int>, x: int, end: nat)
    requires end < |arr| && Sorted(arr[..end])
    ensures Sorted(Inserted(arr, x, end)[..end + 1])
  {
    var k := InsertPosition(arr, x, end);
    var r := Inserted(arr, x, end)[..end + 1];
    assert r == arr[..k] + [x] + arr[k..end];
    forall i, j | 0 <= i <= j < |r| ensures r[i] <= r[j] {
      if j < k {
        assert r[i] == arr[i] && r[j] == arr[j];
      } else if j == k {
        assert r[j] == x;
        if i < k { assert r[i] == arr[i]; }
      } else if i > k {
        assert r[i] == arr[i - 1] && r[j] == arr[j - 1];
      } else if i == k {
        assert r[j] == arr[j - 1] && r[i] == x && x < arr[k];
        assert arr[k] == arr[..end][k] && arr[j - 1] == arr[..end][j - 1];
      } else {
        assert r[i] == arr[i] && r[j] == arr[j - 1];
        assert arr[i] == arr[..end][i] && arr[j - 1] == arr[..end][j - 1];
      }
    }
  }

  /** The grown prefix holds exactly the old prefix plus the new element. */
  lemma InsertedPermutation(arr: seq<int>, x: int, end: nat)
    requires end < |arr|
    ensures multiset(Inserted(arr, x, end)[..end + 1]) == multiset(arr[..end]) + multiset{x}
  {
    var k := InsertPosition(arr, x, end);
    assert Inserted(arr, x, end)[..end + 1] == arr[..k] + [x] + arr[k..end];
    assert arr[..end] == arr[..k] + arr[k..end];
  }
}
