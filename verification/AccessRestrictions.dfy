/** The access restrictions of an edge: a span of the tile's restrictions, which are sorted by edge. */
module AccessRestrictions {
  predicate Ascending(edges: seq<nat>) {
    forall i, j | 0 <= i < j < |edges| :: edges[i] <= edges[j]
  }

  /** GetAccessRestrictions on the edge indexes of the restrictions: the span holds all of the edge's
      restrictions and no others; without any it is empty, at the end. */
  method GetAccessRestrictions(edges: seq<nat>, idx: nat) returns (start: nat, end: nat)
    ensures start <= end <= |edges|
    ensures forall i | start <= i < end :: edges[i] == idx
    ensures Ascending(edges) ==> forall i | 0 <= i < |edges| :: edges[i] == idx <==> start <= i < end
    ensures idx !in edges ==> start == end == |edges|
  {
    var low, high := 0, |edges| - 1;
    var found := |edges|;
    while low <= high
      invariant 0 <= low <= high + 1 <= |edges| && high < found <= |edges|
      invariant found < |edges| ==> edges[found] == idx
      invariant Ascending(edges) ==> forall i | 0 <= i < low :: edges[i] < idx
      invariant Ascending(edges) ==> forall i | high < i < found :: edges[i] > idx
    {
      var mid := (low + high) / 2;
      if idx == edges[mid] {
        found := mid;
        high := mid - 1;
      } else if idx < edges[mid] {
        high := mid - 1;
      } else {
        low := mid + 1;
      }
    }
    start := found;
    while found < |edges| && edges[found] == idx
      invariant start <= found <= |edges|
      invariant forall i | start <= i < found :: edges[i] == idx
    {
      found := found + 1;
    }
    end := found;
  }
}
