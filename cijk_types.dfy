/** The points the partitioner works on: tensor entries (i, j, k) and the
    CijkData records built from them. */
module CijkTypes {
  import opened Extents

  /** One nonzero entry of the sparse triple-product tensor, by its index
      triple, as the k/j/i iterators enumerate it. */
  datatype Entry = Entry(i: int, j: int, k: int)

  /** A tensor entry tagged with its position in the enumeration. */
  datatype CijkData = CijkData(gid: int, i: int, j: int, k: int) {

    /** The coordinate of this point on axis d: i, j, k for d = 0, 1, 2 and
        -1 for any other axis. */
    function Coord(d: int): (c: int)
      ensures 0 <= d < 3 ==> c == [i, j, k][d]
      ensures !(0 <= d < 3) ==> c == -1
    {
      if d == 0 then i
      else if d == 1 then j
      else if d == 2 then k
      else -1
    }
  }

  /** The record that the idx-th enumerated entry becomes. */
  function Tagged(e: Entry, gid: int): CijkData {
    CijkData(gid, e.i, e.j, e.k)
  }

  /** The coordinates of a sequence of points on axis d, in order. */
  function Keys(s: seq<CijkData>, d: int): seq<int> {
    seq(|s|, m requires 0 <= m < |s| => s[m].Coord(d))
  }

  /** lo and hi are the least and the greatest coordinate on axis d of the
      points in s: every point lies between them and both are attained. */
  ghost predicate IsBounds(s: seq<CijkData>, d: int, lo: int, hi: int) {
    && (forall p :: p in s ==> lo <= p.Coord(d) <= hi)
    && (exists p :: p in s && p.Coord(d) == lo)
    && (exists p :: p in s && p.Coord(d) == hi)
  }

  /** Bounds depend only on which points there are, not on their order. */
  lemma BoundsUnderPermutation(a: seq<CijkData>, b: seq<CijkData>, d: int, lo: int, hi: int)
    requires multiset(a) == multiset(b)
    requires IsBounds(a, d, lo, hi)
    ensures IsBounds(b, d, lo, hi)
  {
    forall p | p in b ensures p in a {
      assert p in multiset(b);
    }
    var pl :| pl in a && pl.Coord(d) == lo;
    var ph :| ph in a && ph.Coord(d) == hi;
    assert pl in multiset(a) && ph in multiset(a);
    assert pl in b && ph in b;
  }

  /** A sequence of points has one pair of bounds on each axis. */
  lemma BoundsAreUnique(s: seq<CijkData>, d: int, lo: int, hi: int, lo': int, hi': int)
    requires IsBounds(s, d, lo, hi) && IsBounds(s, d, lo', hi')
    ensures lo == lo' && hi == hi'
  {
    var pl :| pl in s && pl.Coord(d) == lo;
    var pl' :| pl' in s && pl'.Coord(d) == lo';
    var ph :| ph in s && ph.Coord(d) == hi;
    var ph' :| ph' in s && ph'.Coord(d) == hi';
    assert lo <= pl'.Coord(d) && lo' <= pl.Coord(d);
    assert hi >= ph'.Coord(d) && hi' >= ph.Coord(d);
  }

  /** Running bounds accumulated over a box's points from starting values
      that its first point already reaches are the exact bounds. */
  lemma RunningBoundsAreTight(s: seq<CijkData>, d: int, lo0: int, hi0: int)
    requires |s| > 0 && s[0].Coord(d) <= lo0 && hi0 <= s[0].Coord(d)
    ensures IsBounds(s, d, MinOf(lo0, Keys(s, d)), MaxOf(hi0, Keys(s, d)))
  {
    var ks := Keys(s, d);
    var lo, hi := MinOf(lo0, ks), MaxOf(hi0, ks);
    MinOfIsLowerBound(lo0, ks);
    MinOfIsAttained(lo0, ks);
    MaxOfIsUpperBound(hi0, ks);
    MaxOfIsAttained(hi0, ks);
    forall p | p in s ensures lo <= p.Coord(d) <= hi {
      var m :| 0 <= m < |s| && s[m] == p;
      assert ks[m] == p.Coord(d);
    }
    assert lo <= ks[0] <= lo0 && hi0 <= ks[0] <= hi;
    assert lo in ks && hi in ks;
    var ml :| 0 <= ml < |ks| && ks[ml] == lo;
    var mh :| 0 <= mh < |ks| && ks[mh] == hi;
    assert s[ml] in s && s[mh] in s;
  }
}
