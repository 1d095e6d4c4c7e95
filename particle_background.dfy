/** The particle field behind the page: the lattice of particles, its spatial bucket
    index, the throttled animation callback, the per-frame motion step and the
    pair filter of the connecting-line pass. */
module ParticleBackground {
  import opened Lattice
  import opened SpatialGrid
  import opened FrameGate

  /** Spring constant pulling a particle back to its base point. */
  const Spring: real := 0.03

  /** Velocity damping applied every frame. */
  const Damping: real := 0.92

  /** Connecting lines are drawn for pairs closer than this many pixels. */
  const LineRadius: int := 100

  /** One frame of motion for one particle. push is the pointer's repulsion impulse
      for this particle (zero when the pointer is 150 px or more away); the spring
      pull, damping and integration follow. Only vx, vy, x, y are written. */
  function Advance(p: Particle, push: (real, real)): (q: Particle)
    ensures q == p.(vx := q.vx, vy := q.vy, x := q.x, y := q.y)
  {
    var vx := (p.vx + push.0 + (p.baseX - p.x) * Spring) * Damping;
    var vy := (p.vy + push.1 + (p.baseY - p.y) * Spring) * Damping;
    p.(vx := vx, vy := vy, x := p.x + vx, y := p.y + vy)
  }

  /** A particle at rest on its base point, with the pointer out of reach, stays put. */
  lemma RestIsFixed(p: Particle)
    requires p.x == p.baseX && p.y == p.baseY && p.vx == 0.0 && p.vy == 0.0
    ensures Advance(p, (0.0, 0.0)) == p
  {
  }

  /** The line pass's distance filter, dist < 100 && dist > 0, on squared distances. */
  predicate Close(p: Particle, q: Particle)
  {
    var dx := p.x - q.x;
    var dy := p.y - q.y;
    0.0 < dx * dx + dy * dy < (LineRadius * LineRadius) as real
  }

  /** The particles of nearby that particle k draws a line to, in order: itself is
      skipped, and so is anything not close enough. Indices outside ps are dropped,
      which never happens for a query against an exact index (see WindowInRange). */
  function Links(ps: seq<Particle>, k: nat, nearby: seq<nat>): seq<nat>
    requires k < |ps|
    decreases |nearby|
  {
    if nearby == [] then []
    else
      var init, j := nearby[..|nearby| - 1], nearby[|nearby| - 1];
      var front := Links(ps, k, init);
      if j < |ps| && j != k && Close(ps[k], ps[j]) then front + [j] else front
  }

  /** Particle k links to j iff j is in nearby, is another particle, and is close. */
  lemma {:induction false} LinksMembers(ps: seq<Particle>, k: nat, nearby: seq<nat>, j: nat)
    requires k < |ps|
    ensures j in Links(ps, k, nearby) <==> j in nearby && j < |ps| && j != k && Close(ps[k], ps[j])
    decreases |nearby|
  {
    if nearby != [] {
      var init := nearby[..|nearby| - 1];
      LinksMembers(ps, k, init, j);
      assert nearby == init + [nearby[|nearby| - 1]];
    }
  }

  /** The pairs (k, j) for every j of links, in order. */
  function Tag(k: nat, links: seq<nat>): (r: seq<(nat, nat)>)
    ensures |r| == |links| && forall t :: 0 <= t < |r| ==> r[t] == (k, links[t])
  {
    seq(|links|, t requires 0 <= t < |links| => (k, links[t]))
  }

  /** The neighbour query of every particle of ps against g. */
  function Queries(g: Grid, ps: seq<Particle>): (qs: seq<seq<nat>>)
    ensures |qs| == |ps|
  {
    seq(|ps|, k requires 0 <= k < |ps| => Window(g, ps[k]))
  }

  /** Entry k of the query list is the query around particle k. */
  lemma QueryAt(g: Grid, ps: seq<Particle>, k: nat)
    requires k < |ps|
    ensures Queries(g, ps)[k] == Window(g, ps[k])
  {
  }

  /** The lines of one frame for the first n particles, given each particle's
      neighbour list: particle 0's lines, then particle 1's, and so on. */
  function LinePass(ps: seq<Particle>, qs: seq<seq<nat>>, n: nat): seq<(nat, nat)>
    requires n <= |ps| && n <= |qs|
    decreases n
  {
    if n == 0 then [] else LinePass(ps, qs, n - 1) + Tag(n - 1, Links(ps, n - 1, qs[n - 1]))
  }

  /** A pair is tagged iff it starts at k and ends at one of links. */
  lemma TagMembers(k: nat, links: seq<nat>, a: nat, b: nat)
    ensures (a, b) in Tag(k, links) <==> a == k && b in links
  {
    var r := Tag(k, links);
    if (a, b) in r {
      var t :| 0 <= t < |r| && r[t] == (a, b);
      assert links[t] == b;
    }
    if a == k && b in links {
      var t :| 0 <= t < |links| && links[t] == b;
      assert r[t] == (a, b);
    }
  }

  /** One more particle of the line pass. */
  lemma LinePassStep(ps: seq<Particle>, qs: seq<seq<nat>>, k: nat, lines: seq<(nat, nat)>, own: seq<(nat, nat)>)
    requires k < |ps| && k < |qs|
    requires lines == LinePass(ps, qs, k) && own == Tag(k, Links(ps, k, qs[k]))
    ensures lines + own == LinePass(ps, qs, k + 1)
  {
  }

  /** The line pass over the first n particles pairs particle k < n with exactly its links. */
  lemma {:induction false} LinePassLinks(ps: seq<Particle>, qs: seq<seq<nat>>, n: nat, k: nat, j: nat)
    requires n <= |ps| && n <= |qs|
    ensures (k, j) in LinePass(ps, qs, n) <==> k < n && j in Links(ps, k, qs[k])
    decreases n
  {
    if n > 0 {
      var front, own := LinePass(ps, qs, n - 1), Tag(n - 1, Links(ps, n - 1, qs[n - 1]));
      assert LinePass(ps, qs, n) == front + own;
      assert (k, j) in front + own <==> (k, j) in front || (k, j) in own;
      LinePassLinks(ps, qs, n - 1, k, j);
      TagMembers(n - 1, Links(ps, n - 1, qs[n - 1]), k, j);
    }
  }

  /** A query against an exact index only returns particles of the array. */
  lemma WindowInRange(g: Grid, ps: seq<Particle>, p: Particle)
    requires ExactIndex(g, ps)
    ensures forall t :: 0 <= t < |Window(g, p)| ==> Window(g, p)[t] < |ps|
  {
    forall t | 0 <= t < |Window(g, p)| ensures Window(g, p)[t] < |ps| {
      WindowSound(g, ps, p, Window(g, p)[t]);
    }
  }

  /** Every neighbour query against g, around any particle, returns positions of ps. */
  ghost predicate QueriesInRange(g: Grid, ps: seq<Particle>)
  {
    forall p: Particle, t :: 0 <= t < |Window(g, p)| ==> Window(g, p)[t] < |ps|
  }

  /** A query against the index of ps only returns particles of ps. */
  lemma IndexQueriesInRange(ps: seq<Particle>)
    ensures QueriesInRange(IndexOf(ps), ps)
  {
    IndexOfIsExact(ps);
    forall p: Particle {
      WindowInRange(IndexOf(ps), ps, p);
    }
  }

  /** The neighbour query around a particle returns the particle itself, which is why
      the line pass has to skip it. */
  lemma SelfInWindow(g: Grid, ps: seq<Particle>, k: nat)
    requires ExactIndex(g, ps) && k < |ps|
    ensures k in Window(g, ps[k])
  {
    WindowComplete(g, ps, ps[k], k);
  }

  /** The distance filter does not depend on the order of the pair. */
  lemma CloseSymmetric(p: Particle, q: Particle)
    ensures Close(p, q) == Close(q, p)
  {
    assert (p.x - q.x) * (p.x - q.x) == (q.x - p.x) * (q.x - p.x);
    assert (p.y - q.y) * (p.y - q.y) == (q.y - p.y) * (q.y - p.y);
  }

  /** The pairs of a frame's line pass are exactly the distinct particles that are
      registered in touching cells and are strictly between 0 and 100 px apart. */
  lemma LinePassMembers(g: Grid, ps: seq<Particle>, k: nat, j: nat)
    requires ExactIndex(g, ps)
    ensures (k, j) in LinePass(ps, Queries(g, ps), |ps|) <==>
      k < |ps| && j < |ps| && j != k && Adjacent(KeyOf(ps[j]), KeyOf(ps[k])) && Close(ps[k], ps[j])
  {
    var qs := Queries(g, ps);
    LinePassLinks(ps, qs, |ps|, k, j);
    if k < |ps| {
      QueryAt(g, ps, k);
      LinksMembers(ps, k, qs[k], j);
      WindowMembers(g, ps, ps[k], j);
    }
  }

  /** Every line of a frame is drawn from both of its ends. */
  lemma LinePassSymmetric(g: Grid, ps: seq<Particle>, k: nat, j: nat)
    requires ExactIndex(g, ps)
    ensures (k, j) in LinePass(ps, Queries(g, ps), |ps|) <==> (j, k) in LinePass(ps, Queries(g, ps), |ps|)
  {
    LinePassMembers(g, ps, k, j);
    LinePassMembers(g, ps, j, k);
    if k < |ps| && j < |ps| {
      CloseSymmetric(ps[k], ps[j]);
    }
  }

  /** The particle field's mutable state: the particle array, the bucket index, the
      cell size used for registration and the frame gate's anchor. */
  class ParticleField {
    var particles: seq<Particle>
    var grid: Grid
    var cellSize: int
    var lastTime: int
    const frameTime: int

    /** The index is the one obtained by registering every particle of the array in
        order, under the cell each one recorded when it was created. */
    ghost predicate Valid()
      reads this
    {
      cellSize > 0 && frameTime > 0 && grid == IndexOf(particles)
    }

    /** The state when the component mounts; now is the clock at that moment. */
    constructor (now: int, frameTime: int)
      requires frameTime > 0
      ensures Valid()
      ensures particles == [] && grid == map[] && cellSize == 100
      ensures lastTime == now && this.frameTime == frameTime
    {
      particles := [];
      grid := map[];
      cellSize := 100;
      lastTime := now;
      this.frameTime := frameTime;
    }

    /** Register particle k under its recorded cell, appending it to that cell's
        bucket and creating the bucket when it is absent. */
    method AddToGrid(k: nat)
      requires k < |particles|
      modifies this`grid
      ensures grid == Insert(old(grid), KeyOf(particles[k]), k)
      ensures grid.Keys == old(grid).Keys + {KeyOf(particles[k])}
      ensures grid[KeyOf(particles[k])] == Bucket(old(grid), KeyOf(particles[k])) + [k]
      ensures forall c :: c in old(grid) && c != KeyOf(particles[k]) ==> grid[c] == old(grid)[c]
    {
      var key := KeyOf(particles[k]);
      if key !in grid {
        grid := grid[key := []];
      }
      grid := grid[key := grid[key] + [k]];
    }

    /** Rebuild the lattice for a width x height viewport from scratch, column by
        column, registering every particle as it is created. */
    method InitParticles(width: nat, height: nat)
      requires frameTime > 0
      modifies this`particles, this`grid, this`cellSize
      ensures Valid()
      ensures particles == Layout(width, height) && grid == IndexOf(Layout(width, height))
      ensures cellSize == Spacing
    {
      particles := [];
      grid := map[];
      var spacing := Spacing;
      var cols := CeilDiv(width, spacing);
      var rows := CeilDiv(height, spacing);
      cellSize := spacing;
      for i := 0 to cols
        invariant |particles| == i * rows
        invariant forall k :: 0 <= k < |particles| ==> rows > 0 && particles[k] == LatticePoint(rows, k)
        invariant grid == IndexOf(particles) && cellSize == Spacing
      {
        for j := 0 to rows
          invariant |particles| == i * rows + j
          invariant forall k :: 0 <= k < |particles| ==> rows > 0 && particles[k] == LatticePoint(rows, k)
          invariant grid == IndexOf(particles) && cellSize == Spacing
        {
          var x := i * spacing;
          var y := j * spacing;
          var particle := NewParticle(x, y, cellSize);
          ColumnMajor(i, j, rows);
          assert particle == LatticePoint(rows, |particles|);
          ghost var before := particles;
          particles := particles + [particle];
          assert particles[..|particles| - 1] == before;
          AddToGrid(|particles| - 1);
        }
        assert |particles| == (i + 1) * rows;
      }
      assert particles == Layout(width, height);
    }

    /** The particles of the 3 x 3 cells around p's recorded cell, bucket by bucket,
        dx outermost then dy; missing buckets contribute nothing. */
    method GetNearbyParticles(p: Particle) returns (nearby: seq<nat>)
      ensures nearby == Window(grid, p)
    {
      ghost var cells := NeighbourCells(p.gridX, p.gridY);
      nearby := [];
      for dx := -1 to 2
        invariant nearby == Gather(grid, cells[..3 * (dx + 1)])
      {
        for dy := -1 to 2
          invariant nearby == Gather(grid, cells[..3 * (dx + 1) + (dy + 1)])
        {
          var key := (p.gridX + dx, p.gridY + dy);
          WindowStep(grid, p.gridX, p.gridY, dx, dy);
          if key in grid {
            nearby := nearby + grid[key];
          }
        }
      }
      assert cells[..9] == cells;
    }

    /** Advance every particle by one frame with the given repulsion impulses. */
    method Step(pushes: seq<(real, real)>)
      requires Valid() && |pushes| == |particles|
      modifies this`particles
      ensures Valid()
      ensures |particles| == |old(particles)|
      ensures forall k :: 0 <= k < |particles| ==> particles[k] == Advance(old(particles)[k], pushes[k])
    {
      ghost var start := particles;
      for k := 0 to |particles|
        invariant |particles| == |start|
        invariant forall t :: 0 <= t < k ==> particles[t] == Advance(start[t], pushes[t])
        invariant forall t :: k <= t < |particles| ==> particles[t] == start[t]
      {
        particles := particles[k := Advance(particles[k], pushes[k])];
      }
      IndexOfKeysOnly(start, particles);
    }

    /** The inner pass for particle k: keep the other particles of nearby that are
        strictly between 0 and 100 px away. */
    method LinksOf(k: nat, nearby: seq<nat>) returns (links: seq<nat>)
      requires k < |particles|
      requires forall t :: 0 <= t < |nearby| ==> nearby[t] < |particles|
      ensures links == Links(particles, k, nearby)
    {
      links := [];
      for t := 0 to |nearby|
        invariant links == Links(particles, k, nearby[..t])
      {
        var other := nearby[t];
        assert nearby[..t + 1][..t] == nearby[..t];
        if other != k && Close(particles[k], particles[other]) {
          links := links + [other];
        }
      }
      assert nearby[..|nearby|] == nearby;
    }

    /** The lines particle k draws: to every particle of its 3 x 3 window other than
        itself that is strictly between 0 and 100 px away. */
    method LinesAt(k: nat) returns (lines: seq<(nat, nat)>)
      requires QueriesInRange(grid, particles) && k < |particles|
      ensures lines == Tag(k, Links(particles, k, Queries(grid, particles)[k]))
    {
      var nearby := GetNearbyParticles(particles[k]);
      QueryAt(grid, particles, k);
      var links := LinksOf(k, nearby);
      lines := Tag(k, links);
    }

    /** The lines one frame draws: each particle's lines, in particle order. */
    method DrawLines() returns (lines: seq<(nat, nat)>)
      requires QueriesInRange(grid, particles)
      ensures lines == LinePass(particles, Queries(grid, particles), |particles|)
    {
      ghost var ps, g := particles, grid;
      ghost var qs := Queries(g, ps);
      lines := [];
      for k := 0 to |particles|
        invariant particles == ps && grid == g
        invariant lines == LinePass(ps, qs, k)
      {
        var own := LinesAt(k);
        LinePassStep(ps, qs, k, lines, own);
        lines := lines + own;
      }
    }

    /** One animation callback at time currentTime: skipped when it comes less than a
        frame period after the anchor; otherwise the anchor moves forward by whole
        periods, the particles take one step and the line pass runs. The grid and
        every particle's base point and cell are left as they were. */
    method Animate(currentTime: int, pushes: seq<(real, real)>) returns (drawn: bool, lines: seq<(nat, nat)>)
      requires Valid() && |pushes| == |particles|
      modifies this`particles, this`lastTime
      ensures Valid() && grid == old(grid) && |particles| == |old(particles)|
      ensures drawn <==> currentTime - old(lastTime) >= frameTime
      ensures !drawn ==> particles == old(particles) && lastTime == old(lastTime) && lines == []
      ensures drawn ==> Gate(old(lastTime), currentTime, frameTime) == Admit(lastTime)
      ensures drawn ==> forall k :: 0 <= k < |particles| ==> particles[k] == Advance(old(particles)[k], pushes[k])
      ensures drawn ==> lines == LinePass(particles, Queries(grid, particles), |particles|)
    {
      var deltaTime := currentTime - lastTime;
      if deltaTime < frameTime {
        return false, [];
      }
      assert Gate(lastTime, currentTime, frameTime) == Admit(currentTime - deltaTime % frameTime);
      lastTime := currentTime - deltaTime % frameTime;
      Step(pushes);
      IndexQueriesInRange(particles);
      lines := DrawLines();
      drawn := true;
    }
  }
}
