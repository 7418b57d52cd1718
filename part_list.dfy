/** The integer bookkeeping of the partitioning driver: how many parts are
    requested, which entries each part receives, and the smallest and
    largest extent over all parts. */
module PartList {
  import opened CijkTypes
  import opened Extents
  import opened CoordPart

  /** C++ integer division: the quotient truncated toward zero, so the
      remainder a - q * b is zero or has the sign of a, and is smaller
      than b in magnitude. It is Dafny's division when a >= 0 and b > 0. */
  function TruncDiv(a: int, b: int): (q: int)
    requires b != 0
    ensures var r := a - q * b;
            && (r == 0 || (r < 0) == (a < 0))
            && (if r < 0 then -r else r) < (if b < 0 then -b else b)
    ensures 0 <= a && 0 < b ==> q == a / b
  {
    var mag := (if a < 0 then -a else a) / (if b < 0 then -b else b);
    if (a < 0) != (b < 0) then -mag else mag
  }

  /** The number of parts: the quotient of the basis size by the tile size,
      plus one when the tiles do not cover the basis. For a positive tile
      size it is the ceiling of basisSize / tileSize: enough tiles to cover
      the basis, and one fewer would not be. */
  function NumParts(basisSize: int, tileSize: int): (r: int)
    requires tileSize != 0
    ensures 0 <= basisSize && 0 < tileSize ==>
              && r >= 0
              && r * tileSize >= basisSize
              && (r - 1) * tileSize < basisSize
  {
    var q := TruncDiv(basisSize, tileSize);
    assert (q + 1) * tileSize == q * tileSize + tileSize;
    assert (q - 1) * tileSize == q * tileSize - tileSize;
    if q * tileSize < basisSize then q + 1 else q
  }

  /** Part p of the part list after the first |entries| entries: the
      entries sent to p, tagged with their enumeration index, in order. */
  function PartOf(entries: seq<Entry>, exportToPart: seq<int>, p: int): seq<CijkData>
    requires |entries| <= |exportToPart|
    decreases |entries|
  {
    if |entries| == 0 then []
    else
      var n := |entries| - 1;
      var front := PartOf(entries[..n], exportToPart, p);
      if exportToPart[n] == p then front + [Tagged(entries[n], n)] else front
  }

  /** The total number of records in a part list. */
  function TotalSize(parts: seq<seq<CijkData>>): nat
    decreases |parts|
  {
    if |parts| == 0 then 0 else TotalSize(parts[..|parts| - 1]) + |parts[|parts| - 1]|
  }

  /** Appending one record to one part grows the total by one. */
  lemma {:induction false} TotalSizeAfterPush(parts: seq<seq<CijkData>>, p: int, c: CijkData)
    requires 0 <= p < |parts|
    ensures TotalSize(parts[p := parts[p] + [c]]) == TotalSize(parts) + 1
    decreases |parts|
  {
    var n := |parts| - 1;
    var pushed := parts[p := parts[p] + [c]];
    assert pushed[..n] == if p < n then parts[..n][p := parts[p] + [c]] else parts[..n];
    if p < n {
      TotalSizeAfterPush(parts[..n], p, c);
    }
  }

  /** The loop of the driver that builds the part list: the idx-th
      enumerated entry, tagged with gid idx, is appended to the part the
      partitioner sent object idx to. */
  method BuildPartList(entries: seq<Entry>, exportToPart: seq<int>, numParts: int)
    returns (partList: seq<seq<CijkData>>)
    requires |entries| <= |exportToPart| && 0 <= numParts
    requires forall idx :: 0 <= idx < |entries| ==> 0 <= exportToPart[idx] < numParts
    ensures |partList| == numParts
    ensures forall p :: 0 <= p < numParts ==> partList[p] == PartOf(entries, exportToPart, p)
    ensures TotalSize(partList) == |entries|
  {
    partList := seq(numParts, p => []);
    assert TotalSize(partList) == 0 by {
      ZeroTotalSize(partList);
    }
    var idx := 0;
    while idx < |entries|
      invariant 0 <= idx <= |entries|
      invariant |partList| == numParts
      invariant forall p :: 0 <= p < numParts ==> partList[p] == PartOf(entries[..idx], exportToPart, p)
      invariant TotalSize(partList) == idx
    {
      var e := entries[idx];
      var part := exportToPart[idx];
      var c := CijkData(idx, e.i, e.j, e.k);
      TotalSizeAfterPush(partList, part, c);
      assert entries[..idx + 1][..idx] == entries[..idx];
      partList := partList[part := partList[part] + [c]];
      idx := idx + 1;
    }
    assert entries[..idx] == entries;
  }

  /** A part list of empty parts holds no record. */
  lemma {:induction false} ZeroTotalSize(parts: seq<seq<CijkData>>)
    requires forall p :: 0 <= p < |parts| ==> parts[p] == []
    ensures TotalSize(parts) == 0
    decreases |parts|
  {
    if |parts| > 0 {
      ZeroTotalSize(parts[..|parts| - 1]);
    }
  }

  /** Every entry sent to part p is in part p, as the record with its
      enumeration index as gid. */
  lemma {:induction false} EntriesReachTheirPart(entries: seq<Entry>, exportToPart: seq<int>, idx: int)
    requires |entries| <= |exportToPart| && 0 <= idx < |entries|
    ensures Tagged(entries[idx], idx) in PartOf(entries, exportToPart, exportToPart[idx])
    decreases |entries|
  {
    var n := |entries| - 1;
    if idx < n {
      EntriesReachTheirPart(entries[..n], exportToPart, idx);
      assert entries[..n][idx] == entries[idx];
    }
  }

  /** Every record of part p is the entry its gid names, and the
      partitioner sent that entry to p. */
  lemma {:induction false} PartHoldsOnlyItsEntries(entries: seq<Entry>, exportToPart: seq<int>, p: int)
    requires |entries| <= |exportToPart|
    ensures forall c :: c in PartOf(entries, exportToPart, p) ==>
              && 0 <= c.gid < |entries|
              && exportToPart[c.gid] == p
              && c == Tagged(entries[c.gid], c.gid)
    decreases |entries|
  {
    if |entries| > 0 {
      var n := |entries| - 1;
      PartHoldsOnlyItsEntries(entries[..n], exportToPart, p);
      forall c | c in PartOf(entries[..n], exportToPart, p)
        ensures c == Tagged(entries[c.gid], c.gid)
      {
        assert entries[..n][c.gid] == entries[c.gid];
      }
    }
  }

  /** The gids of a sequence of records strictly increase. */
  ghost predicate GidsIncrease(part: seq<CijkData>) {
    forall m, n :: 0 <= m < n < |part| ==> part[m].gid < part[n].gid
  }

  /** Within a part the gids strictly increase: records keep enumeration
      order, and no entry occurs twice. */
  lemma {:induction false} GidsIncreaseWithinPart(entries: seq<Entry>, exportToPart: seq<int>, p: int)
    requires |entries| <= |exportToPart|
    ensures GidsIncrease(PartOf(entries, exportToPart, p))
    decreases |entries|
  {
    if |entries| > 0 {
      var last := |entries| - 1;
      GidsIncreaseWithinPart(entries[..last], exportToPart, p);
      PartHoldsOnlyItsEntries(entries[..last], exportToPart, p);
      var front := PartOf(entries[..last], exportToPart, p);
      if exportToPart[last] == p {
        var part := front + [Tagged(entries[last], last)];
        forall m, n | 0 <= m < n < |part| ensures part[m].gid < part[n].gid {
          assert part[m] == front[m] && front[m] in front;
          assert 0 <= front[m].gid < |entries[..last]|;
          if n < |front| {
            assert part[n] == front[n];
          } else {
            assert part[n] == Tagged(entries[last], last);
          }
        }
      }
    }
  }

  /** The part list and the geometry buffer use the same enumeration: a
      record with gid idx has the coordinates stored at 3*idx .. 3*idx+2. */
  lemma PartListMatchesGeometry(entries: seq<Entry>, exportToPart: seq<int>, p: int, c: CijkData, d: int)
    requires |entries| <= |exportToPart|
    requires c in PartOf(entries, exportToPart, p) && 0 <= d < 3
    ensures 0 <= c.gid && 3 * c.gid + d < |Geometry(entries)| && Geometry(entries)[3 * c.gid + d] == c.Coord(d)
  {
    PartHoldsOnlyItsEntries(entries, exportToPart, p);
    GeometryLayout(entries);
  }

  /** The extent a part contributes on axis d: the running maximum started
      at -1 minus the running minimum started at basisSize. */
  function Extent(part: seq<CijkData>, d: int, basisSize: int): int {
    MaxOf(-1, Keys(part, d)) - MinOf(basisSize, Keys(part, d))
  }

  /** The three extents of a part in the order the driver compares them. */
  function PartDeltas(part: seq<CijkData>, basisSize: int): seq<int> {
    [Extent(part, 0, basisSize), Extent(part, 1, basisSize), Extent(part, 2, basisSize)]
  }

  /** The extents of all parts, part after part. */
  function AllDeltas(parts: seq<seq<CijkData>>, basisSize: int): seq<int>
    decreases |parts|
  {
    if |parts| == 0 then []
    else AllDeltas(parts[..|parts| - 1], basisSize) + PartDeltas(parts[|parts| - 1], basisSize)
  }

  /** The extents of parts are three per part. */
  lemma {:induction false} AllDeltasLayout(parts: seq<seq<CijkData>>, basisSize: int)
    ensures |AllDeltas(parts, basisSize)| == 3 * |parts|
    ensures forall p, d :: 0 <= p < |parts| && 0 <= d < 3 ==>
              AllDeltas(parts, basisSize)[3 * p + d] == Extent(parts[p], d, basisSize)
    decreases |parts|
  {
    if |parts| > 0 {
      var n := |parts| - 1;
      AllDeltasLayout(parts[..n], basisSize);
      forall p, d | 0 <= p < |parts| && 0 <= d < 3
        ensures AllDeltas(parts, basisSize)[3 * p + d] == Extent(parts[p], d, basisSize)
      {
        if p < n {
          assert parts[..n][p] == parts[p];
        }
      }
    }
  }

  /** Every coordinate of every record lies in [0, basisSize). */
  ghost predicate InBasis(parts: seq<seq<CijkData>>, basisSize: int) {
    forall p, m, d :: 0 <= p < |parts| && 0 <= m < |parts[p]| && 0 <= d < 3 ==>
      0 <= parts[p][m].Coord(d) < basisSize
  }

  /** On a non-empty part whose coordinates lie in [0, basisSize) the
      running bounds are the least and greatest coordinate, so the extent is
      their difference and is not negative. */
  lemma ExtentOfNonEmptyPart(part: seq<CijkData>, d: int, basisSize: int)
    requires |part| > 0
    requires forall m :: 0 <= m < |part| ==> 0 <= part[m].Coord(d) < basisSize
    ensures IsBounds(part, d, MinOf(basisSize, Keys(part, d)), MaxOf(-1, Keys(part, d)))
    ensures 0 <= Extent(part, d, basisSize) < basisSize
  {
    RunningBoundsAreTight(part, d, basisSize, -1);
    var lo := MinOf(basisSize, Keys(part, d));
    var hi := MaxOf(-1, Keys(part, d));
    var pl :| pl in part && pl.Coord(d) == lo;
    var ph :| ph in part && ph.Coord(d) == hi;
    assert part[0] in part;
  }

  /** The extent loop of the driver: the bounds of every part are scanned
      from basisSize and -1, and every part's three extents enter the
      running minimum (from basisSize) and maximum (from -1). */
  method PartExtentStats(partList: seq<seq<CijkData>>, basisSize: int) returns (dimMin: int, dimMax: int)
    ensures dimMin == MinOf(basisSize, AllDeltas(partList, basisSize))
    ensures dimMax == MaxOf(-1, AllDeltas(partList, basisSize))
  {
    dimMax, dimMin := -1, basisSize;
    var part := 0;
    while part < |partList|
      invariant 0 <= part <= |partList|
      invariant dimMin == MinOf(basisSize, AllDeltas(partList[..part], basisSize))
      invariant dimMax == MaxOf(-1, AllDeltas(partList[..part], basisSize))
    {
      var imin, jmin, kmin, imax, jmax, kmax := PartBounds(partList[part], basisSize);
      var deltaI := imax - imin;
      var deltaJ := jmax - jmin;
      var deltaK := kmax - kmin;
      AccumulatePart(partList, part, basisSize, imin, jmin, kmin, imax, jmax, kmax);
      dimMin, dimMax := Widen(dimMin, dimMax, deltaI, deltaJ, deltaK);
      part := part + 1;
    }
    assert partList[..part] == partList;
  }

  /** The six comparisons that widen the smallest and largest extent seen
      so far by the three extents of one part. */
  method Widen(dimMin: int, dimMax: int, deltaI: int, deltaJ: int, deltaK: int)
    returns (newMin: int, newMax: int)
    ensures newMin == MinOf(dimMin, [deltaI, deltaJ, deltaK])
    ensures newMax == MaxOf(dimMax, [deltaI, deltaJ, deltaK])
  {
    ghost var ds := [deltaI, deltaJ, deltaK];
    assert ds[..0] == [] && ds[..3] == ds;
    MinOfStep(dimMin, ds, 0); MinOfStep(dimMin, ds, 1); MinOfStep(dimMin, ds, 2);
    MaxOfStep(dimMax, ds, 0); MaxOfStep(dimMax, ds, 1); MaxOfStep(dimMax, ds, 2);
    newMin, newMax := dimMin, dimMax;
    if deltaI < newMin { newMin := deltaI; }
    if deltaJ < newMin { newMin := deltaJ; }
    if deltaK < newMin { newMin := deltaK; }
    if deltaI > newMax { newMax := deltaI; }
    if deltaJ > newMax { newMax := deltaJ; }
    if deltaK > newMax { newMax := deltaK; }
  }

  /** One more part continues the running minimum and maximum over its
      three extents. */
  lemma AccumulatePart(parts: seq<seq<CijkData>>, p: int, basisSize: int,
                        imin: int, jmin: int, kmin: int, imax: int, jmax: int, kmax: int)
    requires 0 <= p < |parts|
    requires imin == MinOf(basisSize, Keys(parts[p], 0)) && imax == MaxOf(-1, Keys(parts[p], 0))
    requires jmin == MinOf(basisSize, Keys(parts[p], 1)) && jmax == MaxOf(-1, Keys(parts[p], 1))
    requires kmin == MinOf(basisSize, Keys(parts[p], 2)) && kmax == MaxOf(-1, Keys(parts[p], 2))
    ensures var ds := [imax - imin, jmax - jmin, kmax - kmin];
            && MinOf(basisSize, AllDeltas(parts[..p + 1], basisSize)) == MinOf(MinOf(basisSize, AllDeltas(parts[..p], basisSize)), ds)
            && MaxOf(-1, AllDeltas(parts[..p + 1], basisSize)) == MaxOf(MaxOf(-1, AllDeltas(parts[..p], basisSize)), ds)
  {
    var ds := [imax - imin, jmax - jmin, kmax - kmin];
    assert ds == PartDeltas(parts[p], basisSize);
    assert parts[..p + 1][..p] == parts[..p];
    MinOfAppend(basisSize, AllDeltas(parts[..p], basisSize), ds);
    MaxOfAppend(-1, AllDeltas(parts[..p], basisSize), ds);
  }

  /** The inner scan of the extent loop over one part: i, j, k bounds of the
      part started at basisSize (minima) and -1 (maxima). */
  method PartBounds(part: seq<CijkData>, basisSize: int)
    returns (imin: int, jmin: int, kmin: int, imax: int, jmax: int, kmax: int)
    ensures imin == MinOf(basisSize, Keys(part, 0)) && imax == MaxOf(-1, Keys(part, 0))
    ensures jmin == MinOf(basisSize, Keys(part, 1)) && jmax == MaxOf(-1, Keys(part, 1))
    ensures kmin == MinOf(basisSize, Keys(part, 2)) && kmax == MaxOf(-1, Keys(part, 2))
  {
    imin, jmin, kmin := basisSize, basisSize, basisSize;
    imax, jmax, kmax := -1, -1, -1;
    ghost var iKeys, jKeys, kKeys := Keys(part, 0), Keys(part, 1), Keys(part, 2);
    var idx := 0;
    while idx < |part|
      invariant 0 <= idx <= |part|
      invariant imin == MinOf(basisSize, iKeys[..idx]) && imax == MaxOf(-1, iKeys[..idx])
      invariant jmin == MinOf(basisSize, jKeys[..idx]) && jmax == MaxOf(-1, jKeys[..idx])
      invariant kmin == MinOf(basisSize, kKeys[..idx]) && kmax == MaxOf(-1, kKeys[..idx])
    {
      MinOfStep(basisSize, iKeys, idx); MaxOfStep(-1, iKeys, idx);
      MinOfStep(basisSize, jKeys, idx); MaxOfStep(-1, jKeys, idx);
      MinOfStep(basisSize, kKeys, idx); MaxOfStep(-1, kKeys, idx);
      if part[idx].i < imin { imin := part[idx].i; }
      if part[idx].j < jmin { jmin := part[idx].j; }
      if part[idx].k < kmin { kmin := part[idx].k; }
      if part[idx].i > imax { imax := part[idx].i; }
      if part[idx].j > jmax { jmax := part[idx].j; }
      if part[idx].k > kmax { kmax := part[idx].k; }
      idx := idx + 1;
    }
    assert iKeys[..idx] == iKeys && jKeys[..idx] == jKeys && kKeys[..idx] == kKeys;
  }

  /** Position t of the extents is axis t % 3 of part t / 3. */
  lemma DeltaAt(parts: seq<seq<CijkData>>, basisSize: int, t: int)
    requires 0 <= t < 3 * |parts|
    ensures |AllDeltas(parts, basisSize)| == 3 * |parts|
    ensures 0 <= t / 3 < |parts| && 0 <= t % 3 < 3
    ensures AllDeltas(parts, basisSize)[t] == Extent(parts[t / 3], t % 3, basisSize)
  {
    AllDeltasLayout(parts, basisSize);
    var p, d := t / 3, t % 3;
    assert t == 3 * p + d;
  }

  /** With coordinates in [0, basisSize), an extent is -1 - basisSize when
      the part is empty and lies in [0, basisSize) otherwise. */
  lemma ExtentSign(parts: seq<seq<CijkData>>, basisSize: int, p: int, d: int)
    requires InBasis(parts, basisSize) && 0 <= p < |parts| && 0 <= d < 3
    ensures parts[p] == [] ==> Extent(parts[p], d, basisSize) == -1 - basisSize
    ensures parts[p] != [] ==> 0 <= Extent(parts[p], d, basisSize) < basisSize
  {
    if parts[p] != [] {
      ExtentOfNonEmptyPart(parts[p], d, basisSize);
    }
  }

  /** With coordinates in [0, basisSize), the smallest extent is negative
      exactly when some part is empty, and then it is -1 - basisSize. */
  lemma DimMinDetectsEmptyPart(parts: seq<seq<CijkData>>, basisSize: int)
    requires 0 <= basisSize && InBasis(parts, basisSize)
    ensures var dimMin := MinOf(basisSize, AllDeltas(parts, basisSize));
            && (dimMin < 0 <==> exists p :: 0 <= p < |parts| && parts[p] == [])
            && (dimMin < 0 ==> dimMin == -1 - basisSize)
            && (dimMin >= 0 ==> dimMin <= basisSize)
  {
    var ds := AllDeltas(parts, basisSize);
    var dimMin := MinOf(basisSize, ds);
    AllDeltasLayout(parts, basisSize);
    MinOfIsLowerBound(basisSize, ds);
    MinOfIsAttained(basisSize, ds);
    if exists p :: 0 <= p < |parts| && parts[p] == [] {
      var p :| 0 <= p < |parts| && parts[p] == [];
      DeltaAt(parts, basisSize, 3 * p);
      ExtentSign(parts, basisSize, p, 0);
      assert ds[3 * p] == -1 - basisSize;
    }
    if dimMin < 0 {
      var t :| 0 <= t < |ds| && ds[t] == dimMin;
      DeltaAt(parts, basisSize, t);
      ExtentSign(parts, basisSize, t / 3, t % 3);
      assert parts[t / 3] == [];
    }
  }

  /** With coordinates in [0, basisSize), the largest extent is the extent
      of some part on some axis, or -1 when there is no part, and it is
      below basisSize. */
  lemma DimMaxIsLargestExtent(parts: seq<seq<CijkData>>, basisSize: int)
    requires 0 <= basisSize && InBasis(parts, basisSize)
    ensures var dimMax := MaxOf(-1, AllDeltas(parts, basisSize));
            && (forall p, d :: 0 <= p < |parts| && 0 <= d < 3 ==> Extent(parts[p], d, basisSize) <= dimMax)
            && (dimMax == -1 || exists p, d :: 0 <= p < |parts| && 0 <= d < 3 && Extent(parts[p], d, basisSize) == dimMax)
            && -1 <= dimMax < basisSize
  {
    var ds := AllDeltas(parts, basisSize);
    var dimMax := MaxOf(-1, ds);
    AllDeltasLayout(parts, basisSize);
    MaxOfIsUpperBound(-1, ds);
    MaxOfIsAttained(-1, ds);
    if dimMax != -1 {
      var t :| 0 <= t < |ds| && ds[t] == dimMax;
      DeltaAt(parts, basisSize, t);
      ExtentSign(parts, basisSize, t / 3, t % 3);
    }
  }

}
