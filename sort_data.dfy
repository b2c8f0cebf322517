/** The in-place timestamp sort of internal/output/sort.go. */
module Sorting {
  import opened Seqs
  import opened ImageRecords

  /** Orders `data` by ascending push time, in place. The relative order of records
      with equal push times is not fixed. */
  method SortData(data: array<ImageData>)
    modifies data
    ensures SortedBy(data[..], PushTime)
    ensures multiset(data[..]) == multiset(old(data[..]))
  {
    for i := 0 to data.Length
      invariant SortedBy(data[..i], PushTime)
      invariant multiset(data[..]) == multiset(old(data[..]))
    {
      InsertLast(data, i);
    }
    assert data[..data.Length] == data[..];
  }

  /** Moves `data[i]` left past every element with a later push time, so that the
      first `i + 1` elements become sorted. */
  method InsertLast(data: array<ImageData>, i: nat)
    requires i < data.Length
    requires SortedBy(data[..i], PushTime)
    modifies data
    ensures SortedBy(data[..i + 1], PushTime)
    ensures multiset(data[..]) == multiset(old(data[..]))
    ensures data[i + 1..] == old(data[i + 1..])
  {
    var j := i;
    while j > 0 && data[j].lastPush < data[j - 1].lastPush
      invariant 0 <= j <= i
      invariant multiset(data[..]) == multiset(old(data[..]))
      invariant data[i + 1..] == old(data[i + 1..])
      invariant forall a, b :: 0 <= a < b <= i && b != j ==> data[a].lastPush <= data[b].lastPush
      invariant forall b :: j < b <= i ==> data[j].lastPush <= data[b].lastPush
    {
      Swap(data, j - 1, j);
      j := j - 1;
    }
  }

  /** Exchanges two elements. */
  method Swap(data: array<ImageData>, i: nat, j: nat)
    requires i < j < data.Length
    modifies data
    ensures data[i] == old(data[j]) && data[j] == old(data[i])
    ensures forall m :: 0 <= m < data.Length && m != i && m != j ==> data[m] == old(data[m])
    ensures multiset(data[..]) == multiset(old(data[..]))
  {
    data[i], data[j] := data[j], data[i];
  }

  /** Sorting a slice that is already in push order keeps its sequence of push times:
      any two orderings by push time of the same records agree on the times. */
  lemma ResortKeepsPushTimes(sorted: seq<ImageData>, resorted: seq<ImageData>)
    requires SortedBy(sorted, PushTime) && SortedBy(resorted, PushTime)
    requires multiset(resorted) == multiset(sorted)
    ensures KeysOf(resorted, PushTime) == KeysOf(sorted, PushTime)
  {
    SortedPermutationsAgreeOnKeys(resorted, sorted, PushTime);
  }
}
