/** The particle record and the regular lattice that initialisation lays out. */
module Lattice {
  import opened Arith

  /** Distance in pixels between neighbouring lattice points. */
  const Spacing: int := 80

  /** One point mass. Positions and velocities are reals (the source's floats);
      the grid cell is an integer pair. */
  datatype Particle = Particle(
    x: real, y: real,
    baseX: real, baseY: real,
    vx: real, vy: real,
    gridX: int, gridY: int)

  /** Math.floor(v / cellSize). */
  function CellOf(v: real, cellSize: int): int
    requires cellSize > 0
  {
    (v / cellSize as real).Floor
  }

  /** Math.ceil(a / b) for a whole, non-negative a. */
  function CeilDiv(a: nat, b: int): (r: nat)
    requires b > 0
    ensures a <= r * b
    ensures r == 0 || (r - 1) * b < a
  {
    (a + b - 1) / b
  }

  /** Number of lattice columns for a viewport width. */
  function Cols(width: nat): nat { CeilDiv(width, Spacing) }

  /** Number of lattice rows for a viewport height. */
  function Rows(height: nat): nat { CeilDiv(height, Spacing) }

  /** A particle as initialisation creates it at pixel (x, y): at rest on its base point,
      its cell computed with the given cell size. */
  function NewParticle(x: int, y: int, cellSize: int): (p: Particle)
    requires cellSize > 0
  {
    Particle(x as real, y as real, x as real, y as real, 0.0, 0.0,
             CellOf(x as real, cellSize), CellOf(y as real, cellSize))
  }

  /** The particle that initialisation stores at position k of a lattice with the given
      number of rows (column-major order: k = i * rows + j). */
  function LatticePoint(rows: nat, k: nat): Particle
    requires rows > 0
  {
    NewParticle((k / rows) * Spacing, (k % rows) * Spacing, Spacing)
  }

  /** The whole particle array for a viewport. */
  function Layout(width: nat, height: nat): (ps: seq<Particle>)
    ensures |ps| == Cols(width) * Rows(height)
    ensures forall k :: 0 <= k < |ps| ==> ps[k] == LatticePoint(Rows(height), k)
  {
    var rows := Rows(height);
    if rows == 0 then [] else seq(Cols(width) * rows, k requires 0 <= k => LatticePoint(rows, k))
  }

  /** Position arithmetic of column-major order: i * rows + j splits back into (i, j). */
  lemma ColumnMajor(i: nat, j: nat, rows: nat)
    requires j < rows
    ensures (i * rows + j) / rows == i && (i * rows + j) % rows == j
  {
    DivModUnique(i * rows + j, rows, i, j);
  }

  /** A pixel coordinate that is a multiple of the spacing lies in that many cells. */
  lemma CellOfMultiple(i: int)
    ensures CellOf((i * Spacing) as real, Spacing) == i
  {
    assert (i * Spacing) as real / Spacing as real == i as real;
  }

  /** Every freshly laid-out particle is at rest on its base point; the one at position
      i * rows + j has base (80 i, 80 j) and, since the cell size equals the spacing,
      lies in cell (i, j). */
  lemma LayoutAt(width: nat, height: nat, i: nat, j: nat)
    requires i < Cols(width) && j < Rows(height)
    ensures i * Rows(height) + j < |Layout(width, height)|
    ensures var p := Layout(width, height)[i * Rows(height) + j];
      && p.baseX == (Spacing * i) as real && p.baseY == (Spacing * j) as real
      && p.x == p.baseX && p.y == p.baseY
      && p.vx == 0.0 && p.vy == 0.0
      && p.gridX == i && p.gridY == j
  {
    var rows := Rows(height);
    var k := i * rows + j;
    ColumnMajor(i, j, rows);
    assert k < Cols(width) * rows by {
      MulStep(i, Cols(width), rows);
    }
    CellOfMultiple(i);
    CellOfMultiple(j);
  }

  /** The viewport example: 800 x 600 gives a 10 x 8 lattice of 80 particles. */
  lemma Viewport800x600()
    ensures Cols(800) == 10 && Rows(600) == 8 && |Layout(800, 600)| == 80
  {
  }
}
