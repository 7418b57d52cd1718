/** Recursive coordinate bisection over integer points: a Box holds a set of
    points and its bounding box; splitting a box sorts its points on the
    axis of largest extent and cuts them near the median; the partitioner
    keeps splitting boxes that are too long on some axis. */
module RecursiveBisection {
  import opened CijkTypes
  import opened Extents

  /** The points of s are in non-decreasing order of their coordinate on
      axis d. */
  ghost predicate SortedOn(s: seq<CijkData>, d: int) {
    forall m, n :: 0 <= m < n < |s| ==> s[m].Coord(d) <= s[n].Coord(d)
  }

  /** lo and hi are the running minimum and maximum of the coordinates on
      axis d, started from the first point as computeBoundingBox starts. */
  ghost predicate Tight(s: seq<CijkData>, d: int, lo: int, hi: int) {
    && |s| > 0
    && lo == MinOf(s[0].Coord(d), Keys(s, d))
    && hi == MaxOf(s[0].Coord(d), Keys(s, d))
  }

  /** Running bounds are the least and the greatest coordinate. */
  lemma TightIsBounds(s: seq<CijkData>, d: int, lo: int, hi: int)
    requires Tight(s, d, lo, hi)
    ensures IsBounds(s, d, lo, hi) && lo <= hi
  {
    RunningBoundsAreTight(s, d, s[0].Coord(d), s[0].Coord(d));
    MinOfIsLowerBound(s[0].Coord(d), Keys(s, d));
    MaxOfIsUpperBound(s[0].Coord(d), Keys(s, d));
  }

  /** Reordering the points leaves their running bounds as they were. */
  lemma TightUnderPermutation(a: seq<CijkData>, b: seq<CijkData>, d: int, lo: int, hi: int)
    requires multiset(a) == multiset(b) && |b| > 0
    requires Tight(a, d, lo, hi)
    ensures Tight(b, d, lo, hi)
  {
    TightIsBounds(a, d, lo, hi);
    BoundsUnderPermutation(a, b, d, lo, hi);
    var b0 := b[0].Coord(d);
    RunningBoundsAreTight(b, d, b0, b0);
    BoundsAreUnique(b, d, lo, hi, MinOf(b0, Keys(b, d)), MaxOf(b0, Keys(b, d)));
  }

  /** The fields of a box describe the points s: a tight bounding box on
      each axis, the extents that follow from it and the axis chosen from
      those. */
  ghost predicate Describes(s: seq<CijkData>, xmin: int, ymin: int, zmin: int, xmax: int, ymax: int, zmax: int,
                            deltaX: int, deltaY: int, deltaZ: int, dim: int)
  {
    && Tight(s, 0, xmin, xmax)
    && Tight(s, 1, ymin, ymax)
    && Tight(s, 2, zmin, zmax)
    && deltaX == xmax - xmin && deltaY == ymax - ymin && deltaZ == zmax - zmin
    && dim == SplittingDimension(deltaX, deltaY, deltaZ)
  }

  /** Reordering the points leaves the box fields describing them. */
  lemma DescribesUnderPermutation(a: seq<CijkData>, b: seq<CijkData>,
                                  xmin: int, ymin: int, zmin: int, xmax: int, ymax: int, zmax: int,
                                  deltaX: int, deltaY: int, deltaZ: int, dim: int)
    requires multiset(a) == multiset(b) && |b| > 0
    requires Describes(a, xmin, ymin, zmin, xmax, ymax, zmax, deltaX, deltaY, deltaZ, dim)
    ensures Describes(b, xmin, ymin, zmin, xmax, ymax, zmax, deltaX, deltaY, deltaZ, dim)
  {
    TightUnderPermutation(a, b, 0, xmin, xmax);
    TightUnderPermutation(a, b, 1, ymin, ymax);
    TightUnderPermutation(a, b, 2, zmin, zmax);
  }

  /** The axis a box is split on, given its extents: y when its extent is
      strictly the largest, z when its extent is, and x otherwise. */
  function SplittingDimension(dx: int, dy: int, dz: int): (r: int)
    ensures 0 <= r < 3
    ensures r == 1 <==> dy > dx && dy > dz
    ensures r == 2 <==> dz > dx && dz > dy
    ensures r == 0 <==> !(dy > dx && dy > dz) && !(dz > dx && dz > dy)
  {
    var byY := if dy > dx && dy > dz then 1 else 0;
    if dz > dx && dz > dy then 2 else byY
  }

  /** The chosen axis has the largest extent, except when y and z tie
      above x. */
  lemma SplittingDimensionIsWidest(dx: int, dy: int, dz: int)
    requires !(dy == dz && dy > dx)
    ensures var r := SplittingDimension(dx, dy, dz);
            var extent := [dx, dy, dz][r];
            extent >= dx && extent >= dy && extent >= dz
  {
  }

  /** When y and z tie above x the box is split on x, its narrowest axis. */
  lemma SplittingDimensionTieGoesToX(dx: int, dyz: int)
    requires dyz > dx
    ensures SplittingDimension(dx, dyz, dyz) == 0
  {
  }

  /** The statements of computeSplittingDimension: x, then y if its extent
      is strictly the largest, then z if its extent is. */
  method ComputeSplittingDimension(deltaX: int, deltaY: int, deltaZ: int) returns (split: int)
    ensures split == SplittingDimension(deltaX, deltaY, deltaZ)
  {
    split := 0;
    if deltaY > deltaX && deltaY > deltaZ { split := 1; }
    if deltaZ > deltaX && deltaZ > deltaY { split := 2; }
  }

  /** The bounding-box scan of computeBoundingBox: every bound starts at the
      first point and is moved by every point beyond it. */
  method ComputeBoundingBox(a: array<CijkData>)
    returns (xmin: int, ymin: int, zmin: int, xmax: int, ymax: int, zmax: int)
    requires a.Length > 0
    ensures Tight(a[..], 0, xmin, xmax) && xmin <= xmax
    ensures Tight(a[..], 1, ymin, ymax) && ymin <= ymax
    ensures Tight(a[..], 2, zmin, zmax) && zmin <= zmax
  {
    var x0, y0, z0 := a[0].Coord(0), a[0].Coord(1), a[0].Coord(2);
    xmin, xmax, ymin, ymax, zmin, zmax := x0, x0, y0, y0, z0, z0;
    ghost var xs, ys, zs := Keys(a[..], 0), Keys(a[..], 1), Keys(a[..], 2);
    var i := 0;
    while i < a.Length
      invariant 0 <= i <= a.Length
      invariant xmin == MinOf(x0, xs[..i]) && xmax == MaxOf(x0, xs[..i])
      invariant ymin == MinOf(y0, ys[..i]) && ymax == MaxOf(y0, ys[..i])
      invariant zmin == MinOf(z0, zs[..i]) && zmax == MaxOf(z0, zs[..i])
    {
      var x := a[i].Coord(0);
      var y := a[i].Coord(1);
      var z := a[i].Coord(2);
      MinOfStep(x0, xs, i); MaxOfStep(x0, xs, i);
      MinOfStep(y0, ys, i); MaxOfStep(y0, ys, i);
      MinOfStep(z0, zs, i); MaxOfStep(z0, zs, i);
      if x < xmin { xmin := x; }
      if y < ymin { ymin := y; }
      if z < zmin { zmin := z; }
      if x > xmax { xmax := x; }
      if y > ymax { ymax := y; }
      if z > zmax { zmax := z; }
      i := i + 1;
    }
    assert xs[..i] == xs && ys[..i] == ys && zs[..i] == zs;
    MinOfIsLowerBound(x0, xs); MaxOfIsUpperBound(x0, xs);
    MinOfIsLowerBound(y0, ys); MaxOfIsUpperBound(y0, ys);
    MinOfIsLowerBound(z0, zs); MaxOfIsUpperBound(z0, zs);
  }

  /** Where the scan that starts at s stops: it moves past every position
      whose key equals the next key. */
  function CutFrom(keys: seq<int>, s: nat): (r: nat)
    requires s < |keys|
    ensures s <= r < |keys|
    ensures r == |keys| - 1 || keys[r] != keys[r + 1]
    ensures forall m :: s <= m <= r ==> keys[m] == keys[s]
    decreases |keys| - s
  {
    if s < |keys| - 1 && keys[s] == keys[s + 1] then CutFrom(keys, s + 1) else s
  }

  /** The index before which a sorted box is cut: the scan starts at the
      median position n/2. The right part [r..n) is never empty, and the
      left part [0..r) is empty exactly when there is one point. */
  function CutOf(keys: seq<int>): (r: nat)
    requires |keys| > 0
    ensures |keys| / 2 <= r < |keys|
    ensures r == |keys| - 1 || keys[r] != keys[r + 1]
    ensures forall m :: |keys| / 2 <= m <= r ==> keys[m] == keys[|keys| / 2]
    ensures r == 0 <==> |keys| == 1
  {
    CutFrom(keys, |keys| / 2)
  }

  /** The cut does not keep equal coordinates together: with keys
      0, 1, 1, 1 the last 1 goes right and the other two go left. */
  lemma EqualKeysMayStraddleCut()
    ensures var keys := [0, 1, 1, 1];
            var s := CutOf(keys);
            0 < s && keys[s - 1] == keys[s]
  {
    var keys := [0, 1, 1, 1];
    assert CutFrom(keys, 3) == 3;
    assert CutFrom(keys, 2) == 3;
  }

  /** The scan of a box's split: starting at the median position, move
      right while the next point has the same key on axis d. */
  method FindCut(a: array<CijkData>, d: int) returns (s: nat)
    requires a.Length > 0
    ensures s == CutOf(Keys(a[..], d))
  {
    ghost var keys := Keys(a[..], d);
    var n := a.Length;
    s := n / 2;
    while s < n - 1 && a[s].Coord(d) == a[s + 1].Coord(d)
      invariant n / 2 <= s <= n - 1
      invariant CutFrom(keys, s) == CutOf(keys)
      decreases n - s
    {
      s := s + 1;
    }
  }

  /** Exchanges two points of an array. */
  method Swap(a: array<CijkData>, m: int, n: int)
    requires 0 <= m < a.Length && 0 <= n < a.Length
    modifies a
    ensures a[m] == old(a[n]) && a[n] == old(a[m])
    ensures forall q :: 0 <= q < a.Length && q != m && q != n ==> a[q] == old(a[q])
    ensures multiset(a[..]) == multiset(old(a[..]))
  {
    a[m], a[n] := a[n], a[m];
  }

  /** Sorts the points in place on axis d, as std::sort with the comparison
      a(d) < b(d) does; among points with equal keys any order is allowed,
      and this one is the order insertion sort leaves. */
  method SortOnAxis(a: array<CijkData>, d: int)
    modifies a
    ensures SortedOn(a[..], d)
    ensures multiset(a[..]) == multiset(old(a[..]))
  {
    var i := 0;
    while i < a.Length
      invariant 0 <= i <= a.Length
      invariant forall m, n :: 0 <= m < n < i ==> a[m].Coord(d) <= a[n].Coord(d)
      invariant multiset(a[..]) == multiset(old(a[..]))
    {
      Insert(a, i, d);
      i := i + 1;
    }
  }

  /** One step of the sort: the point at i moves left past every larger
      point, so a sorted prefix [0..i) becomes a sorted prefix [0..i]. */
  method Insert(a: array<CijkData>, i: int, d: int)
    requires 0 <= i < a.Length
    requires forall m, n :: 0 <= m < n < i ==> a[m].Coord(d) <= a[n].Coord(d)
    modifies a
    ensures forall m, n :: 0 <= m < n <= i ==> a[m].Coord(d) <= a[n].Coord(d)
    ensures multiset(a[..]) == multiset(old(a[..]))
  {
    var j := i;
    while j > 0 && a[j - 1].Coord(d) > a[j].Coord(d)
      invariant 0 <= j <= i
      invariant forall m, n :: 0 <= m < n <= i && m != j && n != j ==> a[m].Coord(d) <= a[n].Coord(d)
      invariant forall n :: j < n <= i ==> a[j].Coord(d) <= a[n].Coord(d)
      invariant multiset(a[..]) == multiset(old(a[..]))
    {
      Swap(a, j - 1, j);
      j := j - 1;
    }
  }

  /** A box of points with its bounding box, its extents, the axis it is
      split on and, once split, its two halves. The bounds, extents and axis
      are set once, while the box is built. */
  class Box {
    const xmin: int
    const ymin: int
    const zmin: int
    const xmax: int
    const ymax: int
    const zmax: int
    const deltaX: int
    const deltaY: int
    const deltaZ: int
    const dim: int
    const coords: array<CijkData>
    var left: Box?
    var right: Box?

    /** The fields describe the points the box holds. */
    ghost predicate Valid()
      reads coords
    {
      coords.Length > 0 && Describes(coords[..], xmin, ymin, zmin, xmax, ymax, zmax, deltaX, deltaY, deltaZ, dim)
    }

    /** The box has no halves yet. */
    ghost predicate Unsplit()
      reads this`left, this`right
    {
      left == null && right == null
    }

    /** Some extent of the box exceeds maxLength: the test the partitioner
        applies to the root and to each half before pushing it. */
    predicate TooBig(maxLength: int): (r: bool)
      ensures r <==> exists d :: 0 <= d < 3 && [deltaX, deltaY, deltaZ][d] > maxLength
    {
      var extents := [deltaX, deltaY, deltaZ];
      assert extents[0] == deltaX && extents[1] == deltaY && extents[2] == deltaZ;
      deltaX > maxLength || deltaY > maxLength || deltaZ > maxLength
    }

    /** Where Split cuts the (sorted) points. */
    ghost function Cut(): nat
      reads coords
      requires coords.Length > 0
    {
      CutOf(Keys(coords[..], dim))
    }

    /** A box over a copy of the given points, with their bounding box,
        their extents and the axis of largest extent. */
    constructor (c: seq<CijkData>)
      requires |c| > 0
      ensures Valid() && Unsplit()
      ensures fresh(coords) && coords[..] == c
      ensures Describes(c, xmin, ymin, zmin, xmax, ymax, zmax, deltaX, deltaY, deltaZ, dim)
      ensures deltaX >= 0 && deltaY >= 0 && deltaZ >= 0
    {
      var a := new CijkData[|c|](m requires 0 <= m < |c| => c[m]);
      var x0, y0, z0, x1, y1, z1 := ComputeBoundingBox(a);
      coords := a;
      xmin, ymin, zmin, xmax, ymax, zmax := x0, y0, z0, x1, y1, z1;
      deltaX, deltaY, deltaZ := x1 - x0, y1 - y0, z1 - z0;
      var split := ComputeSplittingDimension(x1 - x0, y1 - y0, z1 - z0);
      dim := split;
      left, right := null, null;
    }

    /** Sorts the points on the splitting axis and cuts them into a left
        box [0..s) and a right box [s..n), where s is the end of the run of
        equal keys that starts at the median position. The bounding box
        still describes the reordered points. */
    method Split()
      requires coords.Length > 0
      modifies this`left, this`right, coords
      ensures old(Valid()) ==> Valid()
      ensures SortedOn(coords[..], dim)
      ensures multiset(coords[..]) == multiset(old(coords[..]))
      ensures Cut() == 0 ==> left == old(left)
      ensures Cut() > 0 ==> left != null && fresh(left) && fresh(left.coords)
      ensures Cut() > 0 ==> left.Unsplit() && left.coords[..] == coords[..Cut()]
      ensures right != null && fresh(right) && fresh(right.coords)
      ensures right.Unsplit() && right.coords[..] == coords[Cut()..]
      ensures Cut() > 0 ==> left != right
    {
      ghost var wasValid := Valid();
      SortOnAxis(coords, dim);
      if wasValid {
        TightUnderPermutation(old(coords[..]), coords[..], 0, xmin, xmax);
        TightUnderPermutation(old(coords[..]), coords[..], 1, ymin, ymax);
        TightUnderPermutation(old(coords[..]), coords[..], 2, zmin, zmax);
      }
      var s := FindCut(coords, dim);
      MakeHalves(s);
    }

    /** Builds the halves [0..s) and [s..n) of the points, leaving out an
        empty left half. */
    method MakeHalves(s: nat)
      requires s < coords.Length
      modifies this`left, this`right
      ensures s == 0 ==> left == old(left)
      ensures s > 0 ==> left != null && fresh(left) && fresh(left.coords)
      ensures s > 0 ==> left.Valid() && left.Unsplit() && left.coords[..] == coords[..s]
      ensures right != null && fresh(right) && fresh(right.coords)
      ensures right.Valid() && right.Unsplit() && right.coords[..] == coords[s..]
      ensures s > 0 ==> left != right
    {
      var n := coords.Length;
      if s > 0 {
        left := new Box(coords[..s]);
      }
      if s < n {
        right := new Box(coords[s..]);
      }
    }
  }

  /** No box occurs twice in s. */
  ghost predicate Distinct(s: seq<Box>) {
    forall m, n :: 0 <= m < n < |s| ==> s[m] != s[n]
  }

  /** The bookkeeping of the partition loop: the worklist holds distinct
      boxes, known and not yet split; the boxes split so far are known;
      every known box that is too big has been split or is waiting. */
  ghost predicate Worklist(boxes: seq<Box>, splitBoxes: seq<Box>, ws: seq<Box>, maxLength: int) {
    && (forall b :: b in ws ==> b in boxes && b !in splitBoxes && b.TooBig(maxLength))
    && Distinct(ws)
    && (forall b :: b in splitBoxes ==> b in boxes && b.TooBig(maxLength))
    && (forall b :: b in boxes ==> b in splitBoxes || b in ws || !b.TooBig(maxLength))
  }

  /** Popping the last box, splitting it into new boxes and pushing those
      of them that are too big keeps the bookkeeping. */
  lemma WorklistStep(boxes: seq<Box>, splitBoxes: seq<Box>, ws: seq<Box>, created: seq<Box>, pushed: seq<Box>,
                     maxLength: int)
    requires Worklist(boxes, splitBoxes, ws, maxLength) && |ws| > 0
    requires forall h :: h in created ==> h !in boxes
    requires forall h :: h in pushed ==> h in created && h.TooBig(maxLength)
    requires forall h :: h in created ==> h in pushed || !h.TooBig(maxLength)
    requires Distinct(pushed)
    ensures Worklist(boxes + created, splitBoxes + [ws[|ws| - 1]], ws[..|ws| - 1] + pushed, maxLength)
  {
    var box := ws[|ws| - 1];
    var rest := ws[..|ws| - 1];
    var ws' := rest + pushed;
    assert box in ws;
    forall b | b in rest ensures b in ws { }
    forall m, n | 0 <= m < n < |ws'| ensures ws'[m] != ws'[n] {
      if n < |rest| {
        assert ws'[m] == ws[m] && ws'[n] == ws[n];
      } else if m < |rest| {
        assert ws'[m] == ws[m] && ws[m] in boxes;
        assert ws'[n] == pushed[n - |rest|] && pushed[n - |rest|] in pushed;
      } else {
        assert ws'[m] == pushed[m - |rest|] && ws'[n] == pushed[n - |rest|];
      }
    }
    forall b | b in ws' ensures b != box {
      if b in rest {
        var m :| 0 <= m < |rest| && rest[m] == b;
        assert ws[m] == b && ws[|ws| - 1] == box;
      }
    }
    forall b | b in boxes + created
      ensures b in splitBoxes + [box] || b in ws' || !b.TooBig(maxLength)
    {
      if b in boxes && b != box && b.TooBig(maxLength) && b !in splitBoxes {
        var m :| 0 <= m < |ws| && ws[m] == b;
        assert m < |ws| - 1;
        assert rest[m] == b;
      }
    }
  }

  /** The halves recorded by a pair of links, left before right, leaving
      out a missing one. */
  ghost function HalvesOf(links: (Box?, Box?)): seq<Box> {
    (if links.0 != null then [links.0] else []) + (if links.1 != null then [links.1] else [])
  }

  /** The halves of a box. */
  ghost function Halves(b: Box): seq<Box>
    reads b
  {
    HalvesOf((b.left, b.right))
  }

  /** The halves of every box of s, box after box. */
  ghost function AllHalves(s: seq<Box>): seq<Box>
    reads s
    decreases |s|
  {
    if |s| == 0 then [] else AllHalves(s[..|s| - 1]) + Halves(s[|s| - 1])
  }

  /** Splitting one more box appends its halves. */
  lemma AllHalvesAppend(s: seq<Box>, b: Box)
    ensures AllHalves(s + [b]) == AllHalves(s) + Halves(b)
  {
    assert (s + [b])[..|s|] == s;
  }

  /** The boxes built so far form the tree grown from top: they are top and
      the halves of every box split so far, in order; every split box has a
      right half and every other box is still unsplit. */
  ghost predicate Forest(top: Box, boxes: seq<Box>, splitBoxes: seq<Box>)
    reads boxes, splitBoxes
  {
    && boxes == [top] + AllHalves(splitBoxes)
    && (forall b :: b in splitBoxes ==> b.right != null)
    && (forall b :: b in boxes && b !in splitBoxes ==> b.Unsplit())
  }

  /** The halves of boxes whose links did not change did not change. */
  twostate lemma {:induction false} AllHalvesUnchanged(s: seq<Box>)
    requires forall b :: b in s ==> unchanged(b)
    ensures AllHalves(s) == old(AllHalves(s))
    decreases |s|
  {
    if |s| > 0 {
      var init := s[..|s| - 1];
      assert forall b :: b in init ==> b in s;
      AllHalvesUnchanged(init);
      assert s[|s| - 1] in s;
    }
  }

  /** A step of the partitioner: box, one unsplit box of the tree `top,
      boxes, splitBoxes`, is split into new unsplit halves and the links
      of no other box change; the tree then grows by those halves. The
      step is passed as one tuple `(top, boxes, splitBoxes, box)`: the
      Dafny 4.11 prover fails on a call to a two-state lemma with more than
      one parameter that is not `new`. */
  twostate lemma ForestStep(step: (Box, seq<Box>, seq<Box>, Box), new created: seq<Box>)
    // the tree before the step: step.0 is top, step.1 boxes, step.2 splitBoxes
    requires old(Forest(step.0, step.1, step.2))
    // the box split, step.3, is a box of the tree not split before
    requires step.3 in step.1 && step.3 !in step.2 && forall b :: b in step.2 ==> b in step.1
    requires forall b :: b in step.1 && b != step.3 ==> unchanged(b)
    requires step.3.right != null && created == Halves(step.3)
    requires forall h :: h in created ==> fresh(h) && h.Unsplit()
    ensures forall h :: h in created ==> h !in step.1
    ensures Forest(step.0, step.1 + created, step.2 + [step.3])
  {
    var (top, boxes, splitBoxes, box) := step;
    forall b | b in splitBoxes ensures unchanged(b) {
      assert b in boxes && b != box;
    }
    AllHalvesUnchanged(splitBoxes);
    AllHalvesAppend(splitBoxes, box);
    assert [top] + AllHalves(splitBoxes) + created == [top] + (AllHalves(splitBoxes) + created);
  }

  /** What the partition loop keeps: the tree, the worklist bookkeeping,
      boxes with points whose arrays are not the root's, and the root as
      the first box split. */
  ghost predicate Shape(top: Box, boxes: seq<Box>, splitBoxes: seq<Box>, ws: seq<Box>, maxLength: int)
    reads boxes, splitBoxes
  {
    && Forest(top, boxes, splitBoxes)
    && Worklist(boxes, splitBoxes, ws, maxLength)
    && (forall b :: b in boxes ==> b.coords.Length > 0)
    && (forall b :: b in boxes && b != top ==> b.coords != top.coords)
    && (splitBoxes != [] ==> splitBoxes[0] == top)
    && (splitBoxes == [] ==> ws == [] || ws == [top])
  }

  /** The halves of every box of s are among AllHalves(s). */
  lemma {:induction false} HalvesInAllHalves(s: seq<Box>, b: Box)
    requires b in s
    ensures forall h :: h in Halves(b) ==> h in AllHalves(s)
    decreases |s|
  {
    if s[|s| - 1] != b {
      assert b in s[..|s| - 1];
      HalvesInAllHalves(s[..|s| - 1], b);
    }
  }

  /** In a forest, both halves of a split box are boxes of the forest. */
  lemma ForestLinks(top: Box, boxes: seq<Box>, splitBoxes: seq<Box>)
    requires Forest(top, boxes, splitBoxes)
    ensures forall b :: b in splitBoxes ==> b.right != null && b.right in boxes
    ensures forall b :: b in splitBoxes && b.left != null ==> b.left in boxes
  {
    forall b | b in splitBoxes
      ensures b.right != null && b.right in boxes && (b.left != null ==> b.left in boxes)
    {
      HalvesInAllHalves(splitBoxes, b);
      assert b.right in Halves(b);
    }
  }

  /** The state before the first round: the root alone, pushed when it is
      too big. */
  lemma InitialShape(top: Box, ws: seq<Box>, maxLength: int)
    requires top.coords.Length > 0 && top.Unsplit()
    requires ws == if top.TooBig(maxLength) then [top] else []
    ensures Shape(top, [top], [], ws, maxLength)
  {
  }

  /** The halves of a split box that are too big, left before right. */
  ghost function TooBigHalves(b: Box, maxLength: int): seq<Box>
    reads b
  {
    (if b.left != null && b.left.TooBig(maxLength) then [b.left] else [])
    + (if b.right != null && b.right.TooBig(maxLength) then [b.right] else [])
  }

  /** One round of the partition loop keeps Shape: box, the last box of
      the worklist, is split into new unsplit boxes, no other box changes,
      and the new boxes that are too big are pushed in its place. The
      state before is passed as one tuple `(top, boxes, splitBoxes, ws,
      maxLength)`, as for ForestStep; the state after is top, boxes',
      splitBoxes' and ws'. */
  twostate lemma LoopStep(st: (Box, seq<Box>, seq<Box>, seq<Box>, int), new box: Box,
                          new created: seq<Box>, new pushed: seq<Box>,
                          new top: Box, new boxes': seq<Box>, new splitBoxes': seq<Box>, new ws': seq<Box>)
    // st.0 is top, st.1 boxes, st.2 splitBoxes, st.3 the worklist ws, st.4 maxLength
    requires |st.3| > 0 && box == st.3[|st.3| - 1] && top == st.0
    requires old(Shape(st.0, st.1, st.2, st.3, st.4))
    requires forall b :: b in st.1 && b != box ==> unchanged(b)
    requires box.right != null && created == Halves(box)
    requires forall h :: h in created ==> fresh(h) && fresh(h.coords) && h.coords.Length > 0 && h.Unsplit()
    requires forall h :: h in pushed ==> h in created && h.TooBig(st.4)
    requires forall h :: h in created ==> h in pushed || !h.TooBig(st.4)
    requires Distinct(pushed)
    requires boxes' == st.1 + created && splitBoxes' == st.2 + [box]
    requires ws' == st.3[..|st.3| - 1] + pushed
    ensures Shape(top, boxes', splitBoxes', ws', st.4)
  {
    var (_, boxes, splitBoxes, ws, maxLength) := st;
    assert box in ws;
    ForestStep((top, boxes, splitBoxes, box), created);
    WorklistStep(boxes, splitBoxes, ws, created, pushed, maxLength);
  }

  /** The partitioner: boxes longer than maxLength on some axis are split
      until none is left or maxParts parts exist. */
  class Rcb {
    const maxLength: int
    const maxParts: int
    var root: Box?

    constructor (maxLength: int, maxParts: int)
      ensures this.maxLength == maxLength && this.maxParts == maxParts
      ensures root == null
    {
      this.maxLength := maxLength;
      this.maxParts := maxParts;
      root := null;
    }

    /** Splits a box and returns its halves, and those of them that are
        too big, in the order the partitioner pushes them: left, then
        right. */
    method SplitBox(box: Box) returns (ghost created: seq<Box>, pushed: seq<Box>)
      requires box.coords.Length > 0 && box.Unsplit()
      modifies box`left, box`right, box.coords
      ensures old(box.Valid()) ==> box.Valid()
      ensures SortedOn(box.coords[..], box.dim)
      ensures multiset(box.coords[..]) == multiset(old(box.coords[..]))
      ensures box.right != null && box.right.coords[..] == box.coords[box.Cut()..]
      ensures box.left == null <==> box.coords.Length == 1
      ensures box.left != null ==> box.left.coords[..] == box.coords[..box.Cut()]
      ensures created == Halves(box)
      ensures pushed == TooBigHalves(box, maxLength)
      ensures forall h :: h in created ==> fresh(h) && fresh(h.coords) && h.coords.Length > 0 && h.Unsplit()
      ensures forall h :: h in pushed ==> h in created && h.TooBig(maxLength)
      ensures forall h :: h in created ==> h in pushed || !h.TooBig(maxLength)
      ensures Distinct(pushed)
    {
      box.Split();
      created, pushed := [], [];
      if box.left != null {
        created := created + [box.left];
        if box.left.TooBig(maxLength) {
          pushed := pushed + [box.left];
        }
      }
      if box.right != null {
        created := created + [box.right];
        if box.right.TooBig(maxLength) {
          pushed := pushed + [box.right];
        }
      }
    }

    /** One round of the partition loop: pops the last box of the worklist,
        splits it and pushes, left before right, its halves that are too
        big. The ghost lists of created and split boxes grow to match. */
    method SplitLast(ghost top: Box, ghost boxes: seq<Box>, ghost splitBoxes: seq<Box>, ws: seq<Box>)
      returns (ws': seq<Box>, ghost boxes': seq<Box>, ghost splitBoxes': seq<Box>)
      requires |ws| > 0 && Shape(top, boxes, splitBoxes, ws, maxLength)
      modifies ws[|ws| - 1], ws[|ws| - 1].coords
      ensures ws' == ws[..|ws| - 1] + TooBigHalves(ws[|ws| - 1], maxLength)
      ensures boxes' == boxes + Halves(ws[|ws| - 1])
      ensures splitBoxes' == splitBoxes + [ws[|ws| - 1]]
      ensures Shape(top, boxes', splitBoxes', ws', maxLength)
      ensures multiset(top.coords[..]) == multiset(old(top.coords[..]))
      ensures forall h :: h in Halves(ws[|ws| - 1]) ==> fresh(h) && fresh(h.coords)
    {
      var box := ws[|ws| - 1];
      assert box in ws;
      ghost var created: seq<Box>;
      var pushed: seq<Box>;
      label beforeSplit:
      created, pushed := SplitBox(box);
      ws' := ws[..|ws| - 1] + pushed;
      boxes', splitBoxes' := boxes + created, splitBoxes + [box];
      LoopStep@beforeSplit((top, boxes, splitBoxes, ws, maxLength), box, created, pushed,
                           top, boxes', splitBoxes', ws');
    }

    /** Builds the root box over the points and splits boxes, last pushed
        first, while some remain and fewer than maxParts parts exist.
        `parts` is the part counter; the ghost results list every box ever
        created and the boxes split, in order. */
    method Partition(coords: seq<CijkData>)
      returns (parts: int, ghost boxes: seq<Box>, ghost splitBoxes: seq<Box>)
      requires |coords| > 0
      modifies this
      ensures root != null && fresh(root) && root.Valid()
      ensures multiset(root.coords[..]) == multiset(coords)
      ensures Forest(root, boxes, splitBoxes)
      ensures forall b :: b in boxes ==> fresh(b)
      ensures parts == 1 + |splitBoxes|
      ensures parts <= if maxParts >= 1 then maxParts else 1
      ensures !root.TooBig(maxLength) ==> splitBoxes == []
      ensures splitBoxes != [] ==> splitBoxes[0] == root
      ensures forall b :: b in splitBoxes ==> b in boxes && b.TooBig(maxLength)
      ensures parts < maxParts ==> forall b :: b in boxes && b.TooBig(maxLength) ==> b in splitBoxes
    {
      var top := new Box(coords);
      root := top;
      parts := 1;
      boxes, splitBoxes := [top], [];
      var boxesToSplit: seq<Box> := [];
      if root.TooBig(maxLength) {
        boxesToSplit := [root];
      }
      InitialShape(top, boxesToSplit, maxLength);
      while |boxesToSplit| > 0 && parts < maxParts
        invariant root == top && fresh(top)
        invariant multiset(top.coords[..]) == multiset(coords)
        invariant Shape(top, boxes, splitBoxes, boxesToSplit, maxLength)
        invariant forall b :: b in boxes ==> fresh(b) && fresh(b.coords)
        invariant parts == 1 + |splitBoxes|
        invariant parts <= if maxParts >= 1 then maxParts else 1
        decreases maxParts - parts
      {
        assert boxesToSplit[|boxesToSplit| - 1] in boxesToSplit;
        boxesToSplit, boxes, splitBoxes := SplitLast(top, boxes, splitBoxes, boxesToSplit);
        parts := parts + 1;
      }
      DescribesUnderPermutation(coords, top.coords[..], top.xmin, top.ymin, top.zmin, top.xmax, top.ymax, top.zmax,
                                top.deltaX, top.deltaY, top.deltaZ, top.dim);
    }
  }
}
