/** The geometry callbacks handed to the partitioner library: every tensor
    entry is an object whose identifier is its position in the enumeration
    and whose coordinates are its index triple (i, j, k). */
module CoordPart {
  import opened CijkTypes

  /** The stride-3 geometry buffer of the entries: i, j, k of the first
      entry, then of the second, and so on. */
  function Geometry(entries: seq<Entry>): seq<int>
    decreases |entries|
  {
    if |entries| == 0 then []
    else
      var e := entries[|entries| - 1];
      Geometry(entries[..|entries| - 1]) + [e.i, e.j, e.k]
  }

  /** Entry idx occupies positions 3*idx, 3*idx+1 and 3*idx+2 of the buffer,
      with its i, j and k in that order, and the buffer holds nothing else. */
  lemma {:induction false} GeometryLayout(entries: seq<Entry>)
    ensures |Geometry(entries)| == 3 * |entries|
    ensures forall idx :: 0 <= idx < |entries| ==>
              && Geometry(entries)[3 * idx] == entries[idx].i
              && Geometry(entries)[3 * idx + 1] == entries[idx].j
              && Geometry(entries)[3 * idx + 2] == entries[idx].k
  {
    if |entries| > 0 {
      var front := entries[..|entries| - 1];
      GeometryLayout(front);
      forall idx | 0 <= idx < |entries|
        ensures && Geometry(entries)[3 * idx] == entries[idx].i
                && Geometry(entries)[3 * idx + 1] == entries[idx].j
                && Geometry(entries)[3 * idx + 2] == entries[idx].k
      {
        if idx < |front| {
          assert entries[idx] == front[idx];
        }
      }
    }
  }

  /** get_object_list: object idx gets global and local identifier idx. */
  method GetObjectList(numEntries: int, globalID: array<int>, localID: array<int>)
    requires 0 <= numEntries <= globalID.Length && numEntries <= localID.Length
    modifies globalID, localID
    ensures forall idx :: 0 <= idx < numEntries ==> globalID[idx] == idx && localID[idx] == idx
    ensures forall idx :: numEntries <= idx < globalID.Length ==> globalID[idx] == old(globalID[idx])
    ensures forall idx :: numEntries <= idx < localID.Length ==> localID[idx] == old(localID[idx])
  {
    var i := 0;
    while i < numEntries
      invariant 0 <= i <= numEntries
      invariant forall idx :: 0 <= idx < i ==> globalID[idx] == idx && localID[idx] == idx
      invariant forall idx :: numEntries <= idx < globalID.Length ==> globalID[idx] == old(globalID[idx])
      invariant forall idx :: numEntries <= idx < localID.Length ==> localID[idx] == old(localID[idx])
    {
      globalID[i] := i;
      localID[i] := i;
      i := i + 1;
    }
  }

  /** get_geometry_list: writes the index triple of every entry, in
      enumeration order, into the buffer with stride 3, and leaves the rest
      of the buffer alone. */
  method GetGeometryList(entries: seq<Entry>, geomVec: array<int>)
    requires 3 * |entries| <= geomVec.Length
    modifies geomVec
    ensures geomVec[..3 * |entries|] == Geometry(entries)
    ensures geomVec[3 * |entries|..] == old(geomVec[3 * |entries|..])
  {
    var idx := 0;
    while idx < |entries|
      invariant 0 <= idx <= |entries|
      invariant geomVec[..3 * idx] == Geometry(entries[..idx])
      invariant geomVec[3 * |entries|..] == old(geomVec[3 * |entries|..])
    {
      var e := entries[idx];
      ghost var before := geomVec[..3 * idx];
      geomVec[3 * idx] := e.i;
      geomVec[3 * idx + 1] := e.j;
      geomVec[3 * idx + 2] := e.k;
      assert geomVec[..3 * idx] == before;
      assert geomVec[..3 * (idx + 1)] == before + [e.i, e.j, e.k];
      assert entries[..idx + 1][..idx] == entries[..idx];
      idx := idx + 1;
    }
    assert entries[..idx] == entries;
  }
}
