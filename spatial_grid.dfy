/** The spatial bucket index: a dictionary from a cell "gx,gy" to the particles
    registered in that cell, in registration order. A particle is named by its
    position in the particle array, so a bucket entry and the array element are the
    same particle, as with the source's object references. */
module SpatialGrid {
  import opened Arith
  import opened Lattice

  /** A cell key; the source spells it as the string "gx,gy", which is a different
      string for every pair of integers. */
  type Cell = (int, int)

  type Grid = map<Cell, seq<nat>>

  /** The cell a particle was registered under. */
  function KeyOf(p: Particle): Cell { (p.gridX, p.gridY) }

  /** The bucket for a cell; a missing bucket reads as empty. */
  function Bucket(g: Grid, c: Cell): seq<nat>
  {
    if c in g then g[c] else []
  }

  /** Append particle k to the bucket for cell c, creating it when absent. */
  function Insert(g: Grid, c: Cell, k: nat): Grid
  {
    g[c := Bucket(g, c) + [k]]
  }

  /** The index built by registering ps[0], ps[1], ... in that order. */
  function IndexOf(ps: seq<Particle>): Grid
    decreases |ps|
  {
    if ps == [] then map[]
    else Insert(IndexOf(ps[..|ps| - 1]), KeyOf(ps[|ps| - 1]), |ps| - 1)
  }

  predicate Increasing(s: seq<nat>)
  {
    forall a, b :: 0 <= a < b < |s| ==> s[a] < s[b]
  }

  /** Every bucket is non-empty and lists particles of its own cell in increasing order
      (so none twice). */
  ghost predicate BucketsSound(g: Grid, ps: seq<Particle>)
  {
    forall c :: c in g ==>
      && |g[c]| > 0
      && Increasing(g[c])
      && (forall t :: 0 <= t < |g[c]| ==> g[c][t] < |ps| && KeyOf(ps[g[c][t]]) == c)
  }

  /** Every particle is in the bucket of its own cell. */
  ghost predicate Complete(g: Grid, ps: seq<Particle>)
  {
    forall k :: 0 <= k < |ps| ==> KeyOf(ps[k]) in g && k in g[KeyOf(ps[k])]
  }

  /** g indexes ps exactly: each particle sits in the bucket of its cell, once, and in
      no other bucket. */
  ghost predicate ExactIndex(g: Grid, ps: seq<Particle>)
  {
    BucketsSound(g, ps) && Complete(g, ps)
  }

  /** One bucket after registering the last particle of ps: the old bucket, plus that
      particle when it is the particle's own cell. */
  lemma InsertBucketSound(g: Grid, ps: seq<Particle>, d: Cell)
    requires |ps| > 0 && BucketsSound(g, ps[..|ps| - 1])
    requires d in Insert(g, KeyOf(ps[|ps| - 1]), |ps| - 1)
    ensures var b := Insert(g, KeyOf(ps[|ps| - 1]), |ps| - 1)[d];
      && |b| > 0 && Increasing(b)
      && forall t :: 0 <= t < |b| ==> b[t] < |ps| && KeyOf(ps[b[t]]) == d
  {
    var n := |ps| - 1;
    var c, init := KeyOf(ps[n]), ps[..n];
    var b := Bucket(g, d);
    forall t | 0 <= t < |b| ensures b[t] < n && KeyOf(ps[b[t]]) == d {
      assert init[b[t]] == ps[b[t]];
    }
    var b' := if d == c then b + [n] else b;
    assert Insert(g, c, n)[d] == b';
  }

  /** Registering the last particle of ps, into an index sound for the others, keeps
      the buckets sound. */
  lemma InsertSound(g: Grid, ps: seq<Particle>)
    requires |ps| > 0 && BucketsSound(g, ps[..|ps| - 1])
    ensures BucketsSound(Insert(g, KeyOf(ps[|ps| - 1]), |ps| - 1), ps)
  {
    var g' := Insert(g, KeyOf(ps[|ps| - 1]), |ps| - 1);
    forall d | d in g'
      ensures |g'[d]| > 0 && Increasing(g'[d])
      ensures forall t :: 0 <= t < |g'[d]| ==> g'[d][t] < |ps| && KeyOf(ps[g'[d][t]]) == d
    {
      InsertBucketSound(g, ps, d);
    }
  }

  /** Registering the last particle of ps, into an index complete for the others, makes
      it complete for all of ps. */
  lemma InsertComplete(g: Grid, ps: seq<Particle>)
    requires |ps| > 0 && Complete(g, ps[..|ps| - 1])
    ensures Complete(Insert(g, KeyOf(ps[|ps| - 1]), |ps| - 1), ps)
  {
    var n := |ps| - 1;
    var c, init := KeyOf(ps[n]), ps[..n];
    var g' := Insert(g, c, n);
    forall k | 0 <= k < |ps| ensures KeyOf(ps[k]) in g' && k in g'[KeyOf(ps[k])] {
      if k < n {
        var d := KeyOf(ps[k]);
        assert init[k] == ps[k] && k in g[d];
        assert d == c ==> g'[d] == g[d] + [n];
      } else {
        assert g'[c][|g'[c]| - 1] == n;
      }
    }
  }

  /** Registering every particle once yields an exact index. */
  lemma {:induction false} IndexOfIsExact(ps: seq<Particle>)
    ensures ExactIndex(IndexOf(ps), ps)
    decreases |ps|
  {
    if ps != [] {
      var n := |ps| - 1;
      var g := IndexOf(ps[..n]);
      IndexOfIsExact(ps[..n]);
      assert IndexOf(ps) == Insert(g, KeyOf(ps[n]), n);
      InsertSound(g, ps);
      InsertComplete(g, ps);
    }
  }

  /** Total number of entries over all buckets. */
  ghost function Entries(g: Grid): nat
    decreases |g|
  {
    if g == map[] then 0
    else
      var c :| c in g;
      |g[c]| + Entries(g - {c})
  }

  /** Entries can be counted starting from any bucket. */
  lemma {:induction false} EntriesWithout(g: Grid, c: Cell)
    requires c in g
    ensures Entries(g) == |g[c]| + Entries(g - {c})
    decreases |g|
  {
    var d :| d in g && Entries(g) == |g[d]| + Entries(g - {d});
    if d != c {
      var g1 := g - {d};
      var g2 := g - {c};
      EntriesWithout(g1, c);
      EntriesWithout(g2, d);
      assert g1 - {c} == g2 - {d};
    }
  }

  /** Registering one particle adds exactly one entry. */
  lemma InsertEntries(g: Grid, c: Cell, k: nat)
    ensures Entries(Insert(g, c, k)) == Entries(g) + 1
  {
    var g' := Insert(g, c, k);
    EntriesWithout(g', c);
    if c in g {
      EntriesWithout(g, c);
      assert g' - {c} == g - {c};
    } else {
      assert g' - {c} == g;
    }
  }

  /** After registering every particle, the bucket sizes add up to the particle count. */
  lemma {:induction false} IndexEntries(ps: seq<Particle>)
    ensures Entries(IndexOf(ps)) == |ps|
    decreases |ps|
  {
    if ps != [] {
      IndexEntries(ps[..|ps| - 1]);
      InsertEntries(IndexOf(ps[..|ps| - 1]), KeyOf(ps[|ps| - 1]), |ps| - 1);
    }
  }

  /** The index depends only on the particles' cells, not on their positions or velocities. */
  lemma {:induction false} IndexOfKeysOnly(ps: seq<Particle>, qs: seq<Particle>)
    requires |ps| == |qs|
    requires forall k :: 0 <= k < |ps| ==> KeyOf(ps[k]) == KeyOf(qs[k])
    ensures IndexOf(ps) == IndexOf(qs)
    decreases |ps|
  {
    if ps != [] {
      IndexOfKeysOnly(ps[..|ps| - 1], qs[..|qs| - 1]);
    }
  }

  /** The 3 x 3 window around (gx, gy), dx outermost then dy, each from -1 to 1. */
  function NeighbourCells(gx: int, gy: int): (cells: seq<Cell>)
    ensures |cells| == 9
  {
    [(gx - 1, gy - 1), (gx - 1, gy), (gx - 1, gy + 1),
     (gx, gy - 1), (gx, gy), (gx, gy + 1),
     (gx + 1, gy - 1), (gx + 1, gy), (gx + 1, gy + 1)]
  }

  /** Two cells touch (or coincide) in the 3 x 3 sense. */
  predicate Adjacent(c: Cell, d: Cell)
  {
    -1 <= c.0 - d.0 <= 1 && -1 <= c.1 - d.1 <= 1
  }

  /** The cell at offset (dx, dy) sits at position 3 (dx + 1) + (dy + 1) of the window. */
  lemma NeighbourCellAt(gx: int, gy: int, dx: int, dy: int)
    requires -1 <= dx <= 1 && -1 <= dy <= 1
    ensures NeighbourCells(gx, gy)[3 * (dx + 1) + (dy + 1)] == (gx + dx, gy + dy)
  {
  }

  /** The window holds exactly the cells adjacent to its centre. */
  lemma NeighbourCellsExact(gx: int, gy: int, c: Cell)
    ensures c in NeighbourCells(gx, gy) <==> Adjacent(c, (gx, gy))
  {

  }

  /** The window names each of its nine cells once. */
  lemma NeighbourCellsDistinct(gx: int, gy: int)
    ensures forall a, b :: 0 <= a < b < 9 ==> NeighbourCells(gx, gy)[a] != NeighbourCells(gx, gy)[b]
  {
  }

  /** The buckets of the given cells, concatenated in order; missing ones add nothing. */
  function Gather(g: Grid, cells: seq<Cell>): seq<nat>
    decreases |cells|
  {
    if cells == [] then []
    else Gather(g, cells[..|cells| - 1]) + Bucket(g, cells[|cells| - 1])
  }

  /** Gathering one more cell appends that cell's bucket. */
  lemma GatherStep(g: Grid, cells: seq<Cell>, n: nat)
    requires n < |cells|
    ensures Gather(g, cells[..n + 1]) == Gather(g, cells[..n]) + Bucket(g, cells[n])
  {
    assert cells[..n + 1][..n] == cells[..n];
  }

  /** The neighbour query, cell by cell: after the cells before offset (dx, dy), gathering
      that offset's cell appends its bucket. */
  lemma WindowStep(g: Grid, gx: int, gy: int, dx: int, dy: int)
    requires -1 <= dx <= 1 && -1 <= dy <= 1
    ensures var cells, n := NeighbourCells(gx, gy), 3 * (dx + 1) + (dy + 1);
      Gather(g, cells[..n + 1]) == Gather(g, cells[..n]) + Bucket(g, (gx + dx, gy + dy))
  {
    NeighbourCellAt(gx, gy, dx, dy);
    GatherStep(g, NeighbourCells(gx, gy), 3 * (dx + 1) + (dy + 1));
  }

  /** What the neighbour query around a particle returns. */
  function Window(g: Grid, p: Particle): seq<nat>
  {
    Gather(g, NeighbourCells(p.gridX, p.gridY))
  }

  /** Against sound buckets, everything gathered is a particle registered in one of the
      gathered cells. */
  lemma {:induction false} GatherSound(g: Grid, ps: seq<Particle>, cells: seq<Cell>, k: nat)
    requires BucketsSound(g, ps)
    requires k in Gather(g, cells)
    ensures k < |ps| && KeyOf(ps[k]) in cells
    decreases |cells|
  {
    var init, last := cells[..|cells| - 1], cells[|cells| - 1];
    if k in Gather(g, init) {
      GatherSound(g, ps, init, k);
      var c := KeyOf(ps[k]);
      assert c in init;
      var t :| 0 <= t < |init| && init[t] == c;
      assert cells[t] == c;
    } else {
      assert k in Bucket(g, last);
      var u :| 0 <= u < |g[last]| && g[last][u] == k;
    }
  }

  /** Every particle in the bucket of a gathered cell is gathered. */
  lemma {:induction false} GatherComplete(g: Grid, cells: seq<Cell>, t: nat, k: nat)
    requires t < |cells| && cells[t] in g && k in g[cells[t]]
    ensures k in Gather(g, cells)
    decreases |cells|
  {
    var init := cells[..|cells| - 1];
    if t < |init| {
      assert init[t] == cells[t];
      GatherComplete(g, init, t, k);
    }
  }

  /** Every particle the neighbour query returns is registered in a cell touching p's. */
  lemma WindowSound(g: Grid, ps: seq<Particle>, p: Particle, k: nat)
    requires ExactIndex(g, ps)
    requires k in Window(g, p)
    ensures k < |ps| && Adjacent(KeyOf(ps[k]), KeyOf(p))
  {
    GatherSound(g, ps, NeighbourCells(p.gridX, p.gridY), k);
    NeighbourCellsExact(p.gridX, p.gridY, KeyOf(ps[k]));
  }

  /** Every particle registered in a cell touching p's is returned by the neighbour query. */
  lemma WindowComplete(g: Grid, ps: seq<Particle>, p: Particle, k: nat)
    requires ExactIndex(g, ps)
    requires k < |ps| && Adjacent(KeyOf(ps[k]), KeyOf(p))
    ensures k in Window(g, p)
  {
    var cells := NeighbourCells(p.gridX, p.gridY);
    var c := KeyOf(ps[k]);
    var t := 3 * (c.0 - p.gridX + 1) + (c.1 - p.gridY + 1);
    assert cells[t] == c;
    assert c in g && k in g[c];
    GatherComplete(g, cells, t, k);
  }

  /** Against an exact index, the window around p holds exactly the particles whose
      registered cell touches p's registered cell; p itself is among them. */
  lemma WindowMembers(g: Grid, ps: seq<Particle>, p: Particle, k: nat)
    requires ExactIndex(g, ps)
    ensures k in Window(g, p) <==> k < |ps| && Adjacent(KeyOf(ps[k]), KeyOf(p))
  {
    if k in Window(g, p) {
      WindowSound(g, ps, p, k);
    }
    if k < |ps| && Adjacent(KeyOf(ps[k]), KeyOf(p)) {
      WindowComplete(g, ps, p, k);
    }
  }

  /** Gathering distinct cells of an exact index lists no particle twice. */
  lemma {:induction false} GatherDistinct(g: Grid, ps: seq<Particle>, cells: seq<Cell>)
    requires ExactIndex(g, ps)
    requires forall a, b :: 0 <= a < b < |cells| ==> cells[a] != cells[b]
    ensures forall a, b :: 0 <= a < b < |Gather(g, cells)| ==> Gather(g, cells)[a] != Gather(g, cells)[b]
    decreases |cells|
  {
    if cells != [] {
      var last := cells[|cells| - 1];
      var init := cells[..|cells| - 1];
      GatherDistinct(g, ps, init);
      var front, back := Gather(g, init), Bucket(g, last);
      assert Gather(g, cells) == front + back;
      assert forall t :: 0 <= t < |back| ==> back[t] < |ps| && KeyOf(ps[back[t]]) == last;
      forall a, b | 0 <= a < b < |front + back| ensures (front + back)[a] != (front + back)[b] {
        if a < |front| && b >= |front| {
          GatherSound(g, ps, init, front[a]);
          assert KeyOf(ps[back[b - |front|]]) == last;
          assert last !in init;
        }
      }
    }
  }

  /** Against an exact index, the neighbour query lists every particle at most once. */
  lemma WindowDistinct(g: Grid, ps: seq<Particle>, p: Particle)
    requires ExactIndex(g, ps)
    ensures var w := Window(g, p);
      forall a, b :: 0 <= a < b < |w| ==> w[a] != w[b]
  {
    NeighbourCellsDistinct(p.gridX, p.gridY);
    GatherDistinct(g, ps, NeighbourCells(p.gridX, p.gridY));
  }

  /** The cell recorded by the laid-out particle at position k is (k / rows, k % rows). */
  lemma LayoutKey(width: nat, height: nat, k: nat)
    requires k < |Layout(width, height)|
    ensures Rows(height) > 0
    ensures KeyOf(Layout(width, height)[k]) == (k / Rows(height), k % Rows(height))
  {
    var rows := Rows(height);
    assert rows != 0 by {
      assert rows == 0 ==> Cols(width) * rows == 0;
    }
    CellOfMultiple(k / rows);
    CellOfMultiple(k % rows);
  }

  /** An increasing sequence with every value in [lo, hi) has at most hi - lo elements. */
  lemma {:induction false} IncreasingBound(b: seq<nat>, lo: int, hi: int)
    requires Increasing(b) && forall t :: 0 <= t < |b| ==> lo <= b[t] < hi
    ensures |b| == 0 || |b| <= hi - lo
    decreases |b|
  {
    if |b| > 0 {
      var r := b[1..];
      assert forall t :: 0 <= t < |r| ==> r[t] == b[t + 1];
      IncreasingBound(r, b[0] + 1, hi);
    }
  }

  /** Distinct positions of a fresh lattice record distinct cells. */
  lemma LayoutKeysDistinct(width: nat, height: nat, m: nat, k: nat)
    requires m < |Layout(width, height)| && k < |Layout(width, height)|
    requires KeyOf(Layout(width, height)[m]) == KeyOf(Layout(width, height)[k])
    ensures m == k
  {
    var rows := Rows(height);
    LayoutKey(width, height, m);
    LayoutKey(width, height, k);
    assert m == (m / rows) * rows + m % rows;
    assert k == (k / rows) * rows + k % rows;
  }

  /** Because the cell size equals the spacing, the index of a fresh lattice has one
      bucket per lattice point, holding just the particle of that point. */
  lemma LatticeBuckets(g: Grid, width: nat, height: nat, i: nat, j: nat)
    requires ExactIndex(g, Layout(width, height))
    requires i < Cols(width) && j < Rows(height)
    ensures (i, j) in g && g[(i, j)] == [i * Rows(height) + j]
  {
    var ps, rows := Layout(width, height), Rows(height);
    var k := i * rows + j;
    LayoutAt(width, height, i, j);
    var c := KeyOf(ps[k]);
    assert c == (i, j);
    var b := g[c];
    forall t | 0 <= t < |b| ensures b[t] == k {
      LayoutKeysDistinct(width, height, b[t], k);
    }
    IncreasingBound(b, k, k + 1);
    assert b == [k];
  }

  /** The index of a fresh lattice has a bucket exactly for the cells of the lattice. */
  lemma LatticeCells(g: Grid, width: nat, height: nat, c: Cell)
    requires ExactIndex(g, Layout(width, height))
    ensures c in g <==> 0 <= c.0 < Cols(width) && 0 <= c.1 < Rows(height)
  {
    var ps, cols, rows := Layout(width, height), Cols(width), Rows(height);
    if c in g {
      var m := g[c][0];
      LayoutKey(width, height, m);
      assert c == (m / rows, m % rows);
      assert m == (m / rows) * rows + m % rows;
      MulStep(m / rows, cols, rows);
      MulStep(cols - 1, m / rows, rows);
    }
    if 0 <= c.0 < cols && 0 <= c.1 < rows {
      LatticeBuckets(g, width, height, c.0, c.1);
    }
  }
}
