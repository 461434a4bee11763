/** The x2 faces: `periodic_ix2_rad`, `periodic_ox2_rad`, `pack_ix2_rad`,
    `pack_ox2_rad`, `unpack_ix2_rad` and `unpack_ox2_rad` as the sequences
    of moves their loop nests make (default build), and the proofs that
    the periodic routines and the pack/unpack exchanges fill the x2 faces
    as `RadFaces.Fill` describes. The x2 faces span the x1 ghost columns
    too (`is-1..ie+1`), so the x1 faces must be filled first. */
module RadX2 {
  import opened Loops
  import opened RadMemory
  import opened RadFaces
  import opened RadCells
  import opened RadFill

  /** `S` and `H` of row `j` at `(k, i)`. */
  function X2Cells(g: Grid, ifr: int, j: int): (int, int) -> seq<Loc>
  {
    (k, i) => CellLocs(g.nDim, ifr, k, j, i)
  }

  // =====================================================================
  // periodic_ix2_rad

  function PeriodicIx2(g: Grid, ifs: int, ife: int): seq<Step>
  {
    Loop1(ifs, ife, PeriodicIx2Body(g))
  }

  function PeriodicIx2Body(g: Grid): int -> seq<Step>
  {
    ifr => PeriodicIx2Frame(g, ifr)
  }

  /** One pass of the `ifr` loop. */
  function PeriodicIx2Frame(g: Grid, ifr: int): seq<Step>
  {
    Run(PeriodicIx2Nests(g, ifr))
  }

  /** The pass's loop nests: `S` and `H`, the x2 ghost intensities, the x1
      ghost intensities of the ghost row and (for eight octants) the edges. */
  function PeriodicIx2Nests(g: Grid, ifr: int): seq<Nest<Step>>
  {
    [Nest2(g.kS, g.kE, g.iS - 1, g.iE + 1, PIx2Cell(g, ifr)),
     Nest3(g.kS, g.kE, g.iS - 1, g.iE + 1, 0, g.nang - 1, PIx2Ghost2(g, ifr)),
     Nest2(g.kS, g.kE, 0, g.nang - 1, PIx2Ghost1(g, ifr)),
     if g.noct == 8 then Nest2(g.iS - 1, g.iE + 1, 0, g.nang - 1, PIx2Edge(g, ifr)) else Skip]
  }

  function PIx2Cell(g: Grid, ifr: int): (int, int) -> seq<Step>
  {
    (k, i) => CellCopies(g.nDim, ifr, k, g.jS - 1, i, k, g.jE, i)
  }

  /** `Ghstl2i` from `r2imu`. */
  function PIx2Ghost2(g: Grid, ifr: int): (int, int, int) -> seq<Step>
  {
    (k, i, m) =>
      [Copy(Ghst(Left, 2, ifr, k, i, 0, m), Imu(Right, 2, ifr, k, i, 0, m)),
       Copy(Ghst(Left, 2, ifr, k, i, 1, m), Imu(Right, 2, ifr, k, i, 1, m))] +
      (if g.noct == 8 then [Copy(Ghst(Left, 2, ifr, k, i, 4, m), Imu(Right, 2, ifr, k, i, 4, m)),
          Copy(Ghst(Left, 2, ifr, k, i, 5, m), Imu(Right, 2, ifr, k, i, 5, m))] else [])
  }

  /** The x1 ghost intensities of the ghost row, from the opposite row. */
  function PIx2Ghost1(g: Grid, ifr: int): (int, int) -> seq<Step>
  {
    (k, m) =>
      var jl, je := g.jS - 1, g.jE;
      [Copy(Ghst(Left, 1, ifr, k, jl, 0, m), Ghst(Left, 1, ifr, k, je, 0, m)),
       Copy(Ghst(Left, 1, ifr, k, jl, 2, m), Ghst(Left, 1, ifr, k, je, 2, m)),
       Copy(Ghst(Right, 1, ifr, k, jl, 1, m), Ghst(Right, 1, ifr, k, je, 1, m)),
       Copy(Ghst(Right, 1, ifr, k, jl, 3, m), Ghst(Right, 1, ifr, k, je, 3, m))] +
      (if g.noct == 8 then
         [Copy(Ghst(Left, 1, ifr, k, jl, 4, m), Ghst(Left, 1, ifr, k, je, 4, m)),
          Copy(Ghst(Left, 1, ifr, k, jl, 6, m), Ghst(Left, 1, ifr, k, je, 6, m)),
          Copy(Ghst(Right, 1, ifr, k, jl, 5, m), Ghst(Right, 1, ifr, k, je, 5, m)),
          Copy(Ghst(Right, 1, ifr, k, jl, 7, m), Ghst(Right, 1, ifr, k, je, 7, m))]
       else [])
  }

  /** Octants whose x2 cosine points away from the face come from the
      opposite row; the others from `r2imu` at the x3 edge. */
  function PIx2Edge(g: Grid, ifr: int): (int, int) -> seq<Step>
  {
    (i, m) =>
      var jl, je, kl, ku := g.jS - 1, g.jE, g.kS, g.kE;
      [Copy(Imu(Left, 3, ifr, jl, i, 4, m), Imu(Right, 2, ifr, kl, i, 4, m)),
       Copy(Imu(Left, 3, ifr, jl, i, 5, m), Imu(Right, 2, ifr, kl, i, 5, m)),
       Copy(Imu(Left, 3, ifr, jl, i, 6, m), Imu(Left, 3, ifr, je, i, 6, m)),
       Copy(Imu(Left, 3, ifr, jl, i, 7, m), Imu(Left, 3, ifr, je, i, 7, m)),
       Copy(Imu(Right, 3, ifr, jl, i, 0, m), Imu(Right, 2, ifr, ku, i, 0, m)),
       Copy(Imu(Right, 3, ifr, jl, i, 1, m), Imu(Right, 2, ifr, ku, i, 1, m)),
       Copy(Imu(Right, 3, ifr, jl, i, 2, m), Imu(Right, 3, ifr, je, i, 2, m)),
       Copy(Imu(Right, 3, ifr, jl, i, 3, m), Imu(Right, 3, ifr, je, i, 3, m))]
  }

  // Every move of periodic_ix2_rad copies a slot's mirror, which the
  // routine does not write, into a slot of the inner x2 face.

  lemma PIx2CellMoves(g: Grid, ifs: int, ife: int, ifr: int, k: int, i: int)
    requires Valid(g) && ifs <= ifr <= ife && g.kS <= k <= g.kE && g.iS - 1 <= i <= g.iE + 1
    ensures forall st :: st in PIx2Cell(g, ifr)(k, i) ==> MirrorMove(g, Ix2, ifs, ife, st)
  {
    forall st | st in PIx2Cell(g, ifr)(k, i) ensures MirrorMove(g, Ix2, ifs, ife, st) {
      var n := CellCopiesPick(g.nDim, ifr, k, g.jS - 1, i, k, g.jE, i, st);
    }
  }

  lemma PIx2Ghost2Moves(g: Grid, ifs: int, ife: int, ifr: int, k: int, i: int, m: int)
    requires ifs <= ifr <= ife && g.kS <= k <= g.kE && g.iS - 1 <= i <= g.iE + 1 && 0 <= m < g.nang
    ensures forall st :: st in PIx2Ghost2(g, ifr)(k, i, m) ==> MirrorMove(g, Ix2, ifs, ife, st)
  {
  }

  lemma PIx2Ghost1Moves(g: Grid, ifs: int, ife: int, ifr: int, k: int, m: int)
    requires Valid(g) && ifs <= ifr <= ife && g.kS <= k <= g.kE && 0 <= m < g.nang
    ensures forall st :: st in PIx2Ghost1(g, ifr)(k, m) ==> MirrorMove(g, Ix2, ifs, ife, st)
  {
  }

  lemma PIx2EdgeMoves(g: Grid, ifs: int, ife: int, ifr: int, i: int, m: int)
    requires Valid(g) && ifs <= ifr <= ife && g.iS - 1 <= i <= g.iE + 1 && 0 <= m < g.nang && g.noct == 8
    ensures forall st :: st in PIx2Edge(g, ifr)(i, m) ==> MirrorMove(g, Ix2, ifs, ife, st)
  {
  }

  lemma PeriodicIx2FrameMoves(g: Grid, ifs: int, ife: int, ifr: int)
    requires Valid(g) && ifs <= ifr <= ife
    ensures forall st :: st in PeriodicIx2Frame(g, ifr) ==> MirrorMove(g, Ix2, ifs, ife, st)
  {
    var P := st => MirrorMove(g, Ix2, ifs, ife, st);
    var ns := PeriodicIx2Nests(g, ifr);
    forall k, i | g.kS <= k <= g.kE && g.iS - 1 <= i <= g.iE + 1
      ensures forall st :: st in PIx2Cell(g, ifr)(k, i) ==> P(st)
    {
      PIx2CellMoves(g, ifs, ife, ifr, k, i);
    }
    forall k, i, m | g.kS <= k <= g.kE && g.iS - 1 <= i <= g.iE + 1 && 0 <= m <= g.nang - 1
      ensures forall st :: st in PIx2Ghost2(g, ifr)(k, i, m) ==> P(st)
    {
      PIx2Ghost2Moves(g, ifs, ife, ifr, k, i, m);
    }
    forall k, m | g.kS <= k <= g.kE && 0 <= m <= g.nang - 1
      ensures forall st :: st in PIx2Ghost1(g, ifr)(k, m) ==> P(st)
    {
      PIx2Ghost1Moves(g, ifs, ife, ifr, k, m);
    }
    forall i, m | g.noct == 8 && g.iS - 1 <= i <= g.iE + 1 && 0 <= m <= g.nang - 1
      ensures forall st :: st in PIx2Edge(g, ifr)(i, m) ==> P(st)
    {
      PIx2EdgeMoves(g, ifs, ife, ifr, i, m);
    }
    assert NestAll(ns[0], P) && NestAll(ns[1], P) && NestAll(ns[2], P) && NestAll(ns[3], P);
    RunAll(ns, P);
  }

  // Every slot of the inner x2 face is the target of a move of the pass
  // for its frequency.

  lemma PIx2CellCovers(g: Grid, ifs: int, ife: int, x: Loc)
    requires WriteSet(g, Ix2, ifs, ife)(x) && (x.S? || x.H?)
    ensures Copy(x, Mirror(g, Ix2, x)) in PeriodicIx2Frame(g, x.ifr)
  {
    CellCopiesCover(g.nDim, x.ifr, x.k, g.jS - 1, x.i, x.k, g.jE, x.i, if x.H? then x.n else 0);
    RunHas2(PeriodicIx2Nests(g, x.ifr), 0, x.k, x.i, Copy(x, Mirror(g, Ix2, x)));
  }

  lemma PIx2Ghost2Covers(g: Grid, ifs: int, ife: int, x: Loc)
    requires WriteSet(g, Ix2, ifs, ife)(x) && x.Ghst? && x.dir == 2
    ensures Copy(x, Mirror(g, Ix2, x)) in PeriodicIx2Frame(g, x.ifr)
  {
    RunHas3(PeriodicIx2Nests(g, x.ifr), 1, x.a, x.b, x.m, Copy(x, Mirror(g, Ix2, x)));
  }

  lemma PIx2Ghost1Covers(g: Grid, ifs: int, ife: int, x: Loc)
    requires WriteSet(g, Ix2, ifs, ife)(x) && x.Ghst? && x.dir != 2
    ensures Copy(x, Mirror(g, Ix2, x)) in PeriodicIx2Frame(g, x.ifr)
  {
    RunHas2(PeriodicIx2Nests(g, x.ifr), 2, x.a, x.m, Copy(x, Mirror(g, Ix2, x)));
  }

  lemma PIx2EdgeCovers(g: Grid, ifs: int, ife: int, x: Loc)
    requires WriteSet(g, Ix2, ifs, ife)(x) && x.Imu?
    ensures Copy(x, Mirror(g, Ix2, x)) in PeriodicIx2Frame(g, x.ifr)
  {
    RunHas2(PeriodicIx2Nests(g, x.ifr), 3, x.b, x.m, Copy(x, Mirror(g, Ix2, x)));
  }

  lemma PeriodicIx2FrameCovers(g: Grid, ifs: int, ife: int, x: Loc)
    requires WriteSet(g, Ix2, ifs, ife)(x)
    ensures x in Dsts(PeriodicIx2Frame(g, x.ifr))
  {
    if x.S? || x.H? {
      PIx2CellCovers(g, ifs, ife, x);
    } else if x.Ghst? && x.dir == 2 {
      PIx2Ghost2Covers(g, ifs, ife, x);
    } else if x.Ghst? {
      PIx2Ghost1Covers(g, ifs, ife, x);
    } else {
      PIx2EdgeCovers(g, ifs, ife, x);
    }
    DstsMember(PeriodicIx2Frame(g, x.ifr), Copy(x, Mirror(g, Ix2, x)));
  }

  /** `periodic_ix2_rad` leaves the grid `s` as `Fill(Ix2, s, s)`: every
      slot of the inner x2 face holds its mirror's value, every other slot
      is unchanged. */
  lemma PeriodicIx2Fills(g: Grid, ifs: int, ife: int, s: Store)
    requires Valid(g) && Total(s)
    ensures Recvd(PeriodicIx2(g, ifs, ife)) == []
    ensures Exec(s, PeriodicIx2(g, ifs, ife), []) == Fill(g, Ix2, ifs, ife, s, s)
  {
    forall ifr, st | ifs <= ifr <= ife && st in PeriodicIx2Body(g)(ifr)
      ensures MirrorMove(g, Ix2, ifs, ife, st)
    {
      PeriodicIx2FrameMoves(g, ifs, ife, ifr);
    }
    forall x | WriteSet(g, Ix2, ifs, ife)(x) ensures x in Dsts(PeriodicIx2Body(g)(x.ifr)) {
      PeriodicIx2FrameCovers(g, ifs, ife, x);
    }
    PeriodicLoopFills(g, Ix2, ifs, ife, PeriodicIx2Body(g), s);
  }

  // =====================================================================
  // pack_ox2_rad: what the outer x2 face sends to the inner x2 face
  // of its neighbour

  function PackOx2(g: Grid, ifs: int, ife: int): seq<Loc>
  {
    Loop1(ifs, ife, PackOx2Body(g))
  }

  function PackOx2Body(g: Grid): int -> seq<Loc>
  {
    ifr => Run(PackOx2Nests(g, ifr))
  }

  function PackOx2Nests(g: Grid, ifr: int): seq<Nest<Loc>>
  {
    [Nest2(g.kS, g.kE, g.iS - 1, g.iE + 1, X2Cells(g, ifr, g.jE)),
     Nest3(g.kS, g.kE, g.iS - 1, g.iE + 1, 0, g.nang - 1, SOx2Ghost2(g, ifr)),
     Nest2(g.kS, g.kE, 0, g.nang - 1, SOx2Ghost1(g, ifr)),
     if g.noct == 8 then Nest2(g.iS - 1, g.iE + 1, 0, g.nang - 1, SOx2Edge(g, ifr)) else Skip]
  }

  function SOx2Ghost2(g: Grid, ifr: int): (int, int, int) -> seq<Loc>
  {
    (k, i, m) =>
      [Imu(Right, 2, ifr, k, i, 0, m), Imu(Right, 2, ifr, k, i, 1, m)] +
      (if g.noct == 8 then [Imu(Right, 2, ifr, k, i, 4, m), Imu(Right, 2, ifr, k, i, 5, m)] else [])
  }

  function SOx2Ghost1(g: Grid, ifr: int): (int, int) -> seq<Loc>
  {
    (k, m) =>
      [Ghst(Left, 1, ifr, k, g.jE, 0, m),
       Ghst(Left, 1, ifr, k, g.jE, 2, m),
       Ghst(Right, 1, ifr, k, g.jE, 1, m),
       Ghst(Right, 1, ifr, k, g.jE, 3, m)] +
      (if g.noct == 8 then
         [Ghst(Left, 1, ifr, k, g.jE, 4, m),
          Ghst(Left, 1, ifr, k, g.jE, 6, m),
          Ghst(Right, 1, ifr, k, g.jE, 5, m),
          Ghst(Right, 1, ifr, k, g.jE, 7, m)]
       else [])
  }

  function SOx2Edge(g: Grid, ifr: int): (int, int) -> seq<Loc>
  {
    (i, m) =>
      [Imu(Left, 3, ifr, g.jE, i, 6, m), Imu(Left, 3, ifr, g.jE, i, 7, m),
       Imu(Right, 3, ifr, g.jE, i, 2, m), Imu(Right, 3, ifr, g.jE, i, 3, m)]
  }

  // =====================================================================
  // unpack_ix2_rad: each pass receives into `S`, `H`, the x2 ghost
  // intensities, the x1 ghost intensities of the ghost row and the edge
  // octants whose x2 cosine points into the grid, then copies the other
  // edge octants from the x2 ghost intensities just received

  function UnpackIx2(g: Grid, ifs: int, ife: int): seq<Step>
  {
    Unpacking(ifs, ife, UnpackIx2RecvBody(g), UnpackIx2CopyBody(g))
  }

  function UnpackIx2RecvBody(g: Grid): int -> seq<Loc>
  {
    ifr => Run(UnpackIx2RecvNests(g, ifr))
  }

  function UnpackIx2CopyBody(g: Grid): int -> seq<Step>
  {
    ifr => Run(UnpackIx2CopyNests(g, ifr))
  }

  function UnpackIx2RecvNests(g: Grid, ifr: int): seq<Nest<Loc>>
  {
    [Nest2(g.kS, g.kE, g.iS - 1, g.iE + 1, X2Cells(g, ifr, g.jS - 1)),
     Nest3(g.kS, g.kE, g.iS - 1, g.iE + 1, 0, g.nang - 1, UIx2Ghost2(g, ifr)),
     Nest2(g.kS, g.kE, 0, g.nang - 1, UIx2Ghost1(g, ifr)),
     if g.noct == 8 then Nest2(g.iS - 1, g.iE + 1, 0, g.nang - 1, UIx2Edge(g, ifr)) else Skip]
  }

  function UnpackIx2CopyNests(g: Grid, ifr: int): seq<Nest<Step>>
  {
    [if g.noct == 8 then Nest2(g.iS - 1, g.iE + 1, 0, g.nang - 1, UIx2EdgeCopy(g, ifr)) else Skip]
  }

  function UIx2Ghost2(g: Grid, ifr: int): (int, int, int) -> seq<Loc>
  {
    (k, i, m) =>
      [Ghst(Left, 2, ifr, k, i, 0, m), Ghst(Left, 2, ifr, k, i, 1, m)] +
      (if g.noct == 8 then [Ghst(Left, 2, ifr, k, i, 4, m), Ghst(Left, 2, ifr, k, i, 5, m)] else [])
  }

  function UIx2Ghost1(g: Grid, ifr: int): (int, int) -> seq<Loc>
  {
    (k, m) =>
      [Ghst(Left, 1, ifr, k, g.jS - 1, 0, m),
       Ghst(Left, 1, ifr, k, g.jS - 1, 2, m),
       Ghst(Right, 1, ifr, k, g.jS - 1, 1, m),
       Ghst(Right, 1, ifr, k, g.jS - 1, 3, m)] +
      (if g.noct == 8 then
         [Ghst(Left, 1, ifr, k, g.jS - 1, 4, m),
          Ghst(Left, 1, ifr, k, g.jS - 1, 6, m),
          Ghst(Right, 1, ifr, k, g.jS - 1, 5, m),
          Ghst(Right, 1, ifr, k, g.jS - 1, 7, m)]
       else [])
  }

  function UIx2Edge(g: Grid, ifr: int): (int, int) -> seq<Loc>
  {
    (i, m) =>
      [Imu(Left, 3, ifr, g.jS - 1, i, 6, m), Imu(Left, 3, ifr, g.jS - 1, i, 7, m),
       Imu(Right, 3, ifr, g.jS - 1, i, 2, m), Imu(Right, 3, ifr, g.jS - 1, i, 3, m)]
  }

  function UIx2EdgeCopy(g: Grid, ifr: int): (int, int) -> seq<Step>
  {
    (i, m) =>
      var jl, kl, ku := g.jS - 1, g.kS, g.kE;
      [Copy(Imu(Left, 3, ifr, jl, i, 4, m), Ghst(Left, 2, ifr, kl, i, 4, m)),
       Copy(Imu(Left, 3, ifr, jl, i, 5, m), Ghst(Left, 2, ifr, kl, i, 5, m)),
       Copy(Imu(Right, 3, ifr, jl, i, 0, m), Ghst(Left, 2, ifr, ku, i, 0, m)),
       Copy(Imu(Right, 3, ifr, jl, i, 1, m), Ghst(Left, 2, ifr, ku, i, 1, m))]
  }

  // ---------------------------------------------------------------------
  // What unpack_ix2_rad receives lines up, double by double, with the
  // mirror slots pack_ox2_rad sends.

  lemma Ox2ToIx2CellPairwise(g: Grid, ifr: int, k: int, i: int)
    ensures Pairwise(X2Cells(g, ifr, g.jS - 1)(k, i), X2Cells(g, ifr, g.jE)(k, i), MirrorRel(g, Ix2))
  {
    var rel := MirrorRel(g, Ix2);
    assert Mirror(g, Ix2, S(ifr, k, g.jS - 1, i)) == S(ifr, k, g.jE, i);
    forall n | 0 <= n < g.nDim ensures rel(H(ifr, k, g.jS - 1, i, n), H(ifr, k, g.jE, i, n)) {
      assert Mirror(g, Ix2, H(ifr, k, g.jS - 1, i, n)) == H(ifr, k, g.jE, i, n);
    }
    CellPairwise(g.nDim, ifr, k, g.jS - 1, i, k, g.jE, i, rel);
  }

  lemma Ox2ToIx2Ghost2Pairwise(g: Grid, ifr: int, k: int, i: int, m: int)
    ensures Pairwise(UIx2Ghost2(g, ifr)(k, i, m), SOx2Ghost2(g, ifr)(k, i, m), MirrorRel(g, Ix2))
  {
    var u, p := UIx2Ghost2(g, ifr)(k, i, m), SOx2Ghost2(g, ifr)(k, i, m);
    forall t | 0 <= t < |u| ensures MirrorRel(g, Ix2)(u[t], p[t]) {
      assert p[t] == Mirror(g, Ix2, u[t]);
    }
  }

  lemma Ox2ToIx2Ghost1Pairwise(g: Grid, ifr: int, k: int, m: int)
    ensures Pairwise(UIx2Ghost1(g, ifr)(k, m), SOx2Ghost1(g, ifr)(k, m), MirrorRel(g, Ix2))
  {
    var u, p := UIx2Ghost1(g, ifr)(k, m), SOx2Ghost1(g, ifr)(k, m);
    forall t | 0 <= t < |u| ensures MirrorRel(g, Ix2)(u[t], p[t]) {
      assert p[t] == Mirror(g, Ix2, u[t]);
    }
  }

  lemma Ox2ToIx2EdgePairwise(g: Grid, ifr: int, i: int, m: int)
    ensures Pairwise(UIx2Edge(g, ifr)(i, m), SOx2Edge(g, ifr)(i, m), MirrorRel(g, Ix2))
  {
    var u, p := UIx2Edge(g, ifr)(i, m), SOx2Edge(g, ifr)(i, m);
    forall t | 0 <= t < |u| ensures MirrorRel(g, Ix2)(u[t], p[t]) {
      if t == 0 {
        assert p[0] == Mirror(g, Ix2, u[0]);
      } else if t == 1 {
        assert p[1] == Mirror(g, Ix2, u[1]);
      } else if t == 2 {
        assert p[2] == Mirror(g, Ix2, u[2]);
      } else {
        assert p[3] == Mirror(g, Ix2, u[3]);
      }
    }
  }

  lemma Ox2ToIx2Pairwise(g: Grid, ifr: int)
    ensures Pairwise(UnpackIx2RecvBody(g)(ifr), PackOx2Body(g)(ifr), MirrorRel(g, Ix2))
  {
    var rel := MirrorRel(g, Ix2);
    var us, ps := UnpackIx2RecvNests(g, ifr), PackOx2Nests(g, ifr);
    var jl, je := g.jS - 1, g.jE;
    forall k, i ensures Pairwise(X2Cells(g, ifr, jl)(k, i), X2Cells(g, ifr, je)(k, i), rel) {
      Ox2ToIx2CellPairwise(g, ifr, k, i);
    }
    forall k, i, m ensures Pairwise(UIx2Ghost2(g, ifr)(k, i, m), SOx2Ghost2(g, ifr)(k, i, m), rel) {
      Ox2ToIx2Ghost2Pairwise(g, ifr, k, i, m);
    }
    forall k, m ensures Pairwise(UIx2Ghost1(g, ifr)(k, m), SOx2Ghost1(g, ifr)(k, m), rel) {
      Ox2ToIx2Ghost1Pairwise(g, ifr, k, m);
    }
    forall i, m ensures Pairwise(UIx2Edge(g, ifr)(i, m), SOx2Edge(g, ifr)(i, m), rel) {
      Ox2ToIx2EdgePairwise(g, ifr, i, m);
    }
    assert NestPairwise(us[0], ps[0], rel) && NestPairwise(us[1], ps[1], rel);
    assert NestPairwise(us[2], ps[2], rel) && NestPairwise(us[3], ps[3], rel);
    RunPairwise(us, ps, rel);
  }

  // ---------------------------------------------------------------------
  // Every slot unpack_ix2_rad receives into belongs to the inner x2 face.

  lemma UIx2CellWrites(g: Grid, ifs: int, ife: int, ifr: int, k: int, i: int)
    requires ifs <= ifr <= ife && g.kS <= k <= g.kE && g.iS - 1 <= i <= g.iE + 1
    ensures forall x :: x in X2Cells(g, ifr, g.jS - 1)(k, i) ==> WriteSet(g, Ix2, ifs, ife)(x)
  {
    forall x | x in X2Cells(g, ifr, g.jS - 1)(k, i) ensures WriteSet(g, Ix2, ifs, ife)(x) {
      var n := CellLocsPick(g.nDim, ifr, k, g.jS - 1, i, x);
    }
  }

  lemma UIx2Ghost2Writes(g: Grid, ifs: int, ife: int, ifr: int, k: int, i: int, m: int)
    requires ifs <= ifr <= ife && g.kS <= k <= g.kE && g.iS - 1 <= i <= g.iE + 1 && 0 <= m < g.nang
    ensures forall x :: x in UIx2Ghost2(g, ifr)(k, i, m) ==> WriteSet(g, Ix2, ifs, ife)(x)
  {
  }

  lemma UIx2Ghost1Writes(g: Grid, ifs: int, ife: int, ifr: int, k: int, m: int)
    requires ifs <= ifr <= ife && g.kS <= k <= g.kE && 0 <= m < g.nang
    ensures forall x :: x in UIx2Ghost1(g, ifr)(k, m) ==> WriteSet(g, Ix2, ifs, ife)(x)
  {
  }

  lemma UIx2EdgeWrites(g: Grid, ifs: int, ife: int, ifr: int, i: int, m: int)
    requires ifs <= ifr <= ife && g.iS - 1 <= i <= g.iE + 1 && 0 <= m < g.nang && g.noct == 8
    ensures forall x :: x in UIx2Edge(g, ifr)(i, m) ==> WriteSet(g, Ix2, ifs, ife)(x)
  {
  }

  lemma UnpackIx2RecvWrites(g: Grid, ifs: int, ife: int, ifr: int)
    requires ifs <= ifr <= ife
    ensures forall x :: x in UnpackIx2RecvBody(g)(ifr) ==> WriteSet(g, Ix2, ifs, ife)(x)
  {
    var P, ns := WriteSet(g, Ix2, ifs, ife), UnpackIx2RecvNests(g, ifr);
    var jl := g.jS - 1;
    forall k, i | g.kS <= k <= g.kE && g.iS - 1 <= i <= g.iE + 1
      ensures forall x :: x in X2Cells(g, ifr, jl)(k, i) ==> P(x)
    {
      UIx2CellWrites(g, ifs, ife, ifr, k, i);
    }
    forall k, i, m | g.kS <= k <= g.kE && g.iS - 1 <= i <= g.iE + 1 && 0 <= m <= g.nang - 1
      ensures forall x :: x in UIx2Ghost2(g, ifr)(k, i, m) ==> P(x)
    {
      UIx2Ghost2Writes(g, ifs, ife, ifr, k, i, m);
    }
    forall k, m | g.kS <= k <= g.kE && 0 <= m <= g.nang - 1
      ensures forall x :: x in UIx2Ghost1(g, ifr)(k, m) ==> P(x)
    {
      UIx2Ghost1Writes(g, ifs, ife, ifr, k, m);
    }
    forall i, m | g.noct == 8 && g.iS - 1 <= i <= g.iE + 1 && 0 <= m <= g.nang - 1
      ensures forall x :: x in UIx2Edge(g, ifr)(i, m) ==> P(x)
    {
      UIx2EdgeWrites(g, ifs, ife, ifr, i, m);
    }
    assert NestAll(ns[0], P) && NestAll(ns[1], P) && NestAll(ns[2], P) && NestAll(ns[3], P);
    RunAll(ns, P);
  }

  // ---------------------------------------------------------------------
  // Every copy of unpack_ix2_rad fills an edge slot of the inner x2 face
  // from an x2 ghost intensity received earlier in the same pass, and
  // that ghost intensity has the same mirror as the slot it fills.

  lemma UIx2EdgeCopyReads(g: Grid, ifs: int, ife: int, ifr: int, i: int, m: int)
    requires Valid(g) && ifs <= ifr <= ife && g.iS - 1 <= i <= g.iE + 1 && 0 <= m < g.nang && g.noct == 8
    ensures forall st :: st in UIx2EdgeCopy(g, ifr)(i, m) ==>
      st.Copy? && WriteSet(g, Ix2, ifs, ife)(st.dst) && Mirror(g, Ix2, st.src) == Mirror(g, Ix2, st.dst) &&
      st.src.Ghst? && g.kS <= st.src.a <= g.kE && st.src in UIx2Ghost2(g, ifr)(st.src.a, i, m)
  {
  }

  lemma UnpackIx2CopiesRead(g: Grid, ifs: int, ife: int, ifr: int)
    requires Valid(g) && ifs <= ifr <= ife
    ensures forall st :: st in UnpackIx2CopyBody(g)(ifr) ==>
      st.Copy? && WriteSet(g, Ix2, ifs, ife)(st.dst) && st.src in UnpackIx2RecvBody(g)(ifr) &&
      Mirror(g, Ix2, st.src) == Mirror(g, Ix2, st.dst)
  {
    var P := (st: Step) => st.Copy? && WriteSet(g, Ix2, ifs, ife)(st.dst) && st.src in UnpackIx2RecvBody(g)(ifr) &&
                           Mirror(g, Ix2, st.src) == Mirror(g, Ix2, st.dst);
    var ns := UnpackIx2CopyNests(g, ifr);
    forall i, m, st | g.noct == 8 && g.iS - 1 <= i <= g.iE + 1 && 0 <= m <= g.nang - 1 && st in UIx2EdgeCopy(g, ifr)(i, m)
      ensures P(st)
    {
      UIx2EdgeCopyReads(g, ifs, ife, ifr, i, m);
      RunHas3(UnpackIx2RecvNests(g, ifr), 1, st.src.a, i, m, st.src);
    }
    assert NestAll(ns[0], P);
    RunAll(ns, P);
  }

  // ---------------------------------------------------------------------
  // Every slot of the inner x2 face is written by the pass for its
  // frequency: received, or (the edge octants whose x2 cosine points out
  // of the grid) copied.

  lemma UIx2CellCovers(g: Grid, ifs: int, ife: int, x: Loc)
    requires WriteSet(g, Ix2, ifs, ife)(x) && (x.S? || x.H?)
    ensures x in UnpackIx2RecvBody(g)(x.ifr)
  {
    CellLocsCover(g.nDim, x.ifr, x.k, x.j, x.i, if x.H? then x.n else 0);
    RunHas2(UnpackIx2RecvNests(g, x.ifr), 0, x.k, x.i, x);
  }

  lemma UIx2Ghost2Covers(g: Grid, ifs: int, ife: int, x: Loc)
    requires WriteSet(g, Ix2, ifs, ife)(x) && x.Ghst? && x.dir == 2
    ensures x in UnpackIx2RecvBody(g)(x.ifr)
  {
    RunHas3(UnpackIx2RecvNests(g, x.ifr), 1, x.a, x.b, x.m, x);
  }

  lemma UIx2Ghost1Covers(g: Grid, ifs: int, ife: int, x: Loc)
    requires WriteSet(g, Ix2, ifs, ife)(x) && x.Ghst? && x.dir != 2
    ensures x in UnpackIx2RecvBody(g)(x.ifr)
  {
    RunHas2(UnpackIx2RecvNests(g, x.ifr), 2, x.a, x.m, x);
  }

  lemma UIx2EdgeCovers(g: Grid, ifs: int, ife: int, x: Loc)
    requires WriteSet(g, Ix2, ifs, ife)(x) && x.Imu? && (x.oct % 4 >= 2)
    ensures x in UnpackIx2RecvBody(g)(x.ifr)
  {
    RunHas2(UnpackIx2RecvNests(g, x.ifr), 3, x.b, x.m, x);
  }

  lemma UIx2EdgeCopyAt(g: Grid, ifs: int, ife: int, x: Loc) returns (st: Step)
    requires WriteSet(g, Ix2, ifs, ife)(x) && x.Imu? && (x.oct % 4 < 2)
    ensures g.noct == 8 && g.iS - 1 <= x.b <= g.iE + 1 && 0 <= x.m < g.nang
    ensures st.dst == x && st in UIx2EdgeCopy(g, x.ifr)(x.b, x.m)
  {
    var l := UIx2EdgeCopy(g, x.ifr)(x.b, x.m);
    st := l[if x.side == Left then (if x.oct == 4 then 0 else 1) else (if x.oct == 0 then 2 else 3)];
  }

  lemma UIx2EdgeCopyCovers(g: Grid, ifs: int, ife: int, x: Loc)
    requires WriteSet(g, Ix2, ifs, ife)(x) && x.Imu? && (x.oct % 4 < 2)
    ensures x in Dsts(UnpackIx2CopyBody(g)(x.ifr))
  {
    var st := UIx2EdgeCopyAt(g, ifs, ife, x);
    RunHas2(UnpackIx2CopyNests(g, x.ifr), 0, x.b, x.m, st);
    DstsMember(UnpackIx2CopyBody(g)(x.ifr), st);
  }

  lemma UnpackIx2Covers(g: Grid, ifs: int, ife: int, x: Loc)
    requires WriteSet(g, Ix2, ifs, ife)(x)
    ensures x in UnpackIx2RecvBody(g)(x.ifr) || x in Dsts(UnpackIx2CopyBody(g)(x.ifr))
  {
    if x.S? || x.H? {
      UIx2CellCovers(g, ifs, ife, x);
    } else if x.Ghst? && x.dir == 2 {
      UIx2Ghost2Covers(g, ifs, ife, x);
    } else if x.Ghst? {
      UIx2Ghost1Covers(g, ifs, ife, x);
    } else if (x.oct % 4 >= 2) {
      UIx2EdgeCovers(g, ifs, ife, x);
    } else {
      UIx2EdgeCopyCovers(g, ifs, ife, x);
    }
  }

  /** The inner x2 exchange: unpack_ix2_rad run on the grid `r` over the
      buffer pack_ox2_rad filled from the neighbour's grid `s` consumes
      the whole buffer and leaves `Fill(Ix2, r, s)`. */
  lemma ExchangeIx2Fills(g: Grid, ifs: int, ife: int, r: Store, s: Store)
    requires Valid(g) && Total(r)
    ensures |Recvd(UnpackIx2(g, ifs, ife))| == |PackOx2(g, ifs, ife)|
    ensures Exec(r, UnpackIx2(g, ifs, ife), Read(s, PackOx2(g, ifs, ife))) == Fill(g, Ix2, ifs, ife, r, s)
  {
    forall ifr | ifs <= ifr <= ife
      ensures Pairwise(UnpackIx2RecvBody(g)(ifr), PackOx2Body(g)(ifr), MirrorRel(g, Ix2))
      ensures forall x :: x in UnpackIx2RecvBody(g)(ifr) ==> WriteSet(g, Ix2, ifs, ife)(x)
      ensures forall st :: st in UnpackIx2CopyBody(g)(ifr) ==>
        st.Copy? && WriteSet(g, Ix2, ifs, ife)(st.dst) && st.src in UnpackIx2RecvBody(g)(ifr) &&
        Mirror(g, Ix2, st.src) == Mirror(g, Ix2, st.dst)
    {
      Ox2ToIx2Pairwise(g, ifr);
      UnpackIx2RecvWrites(g, ifs, ife, ifr);
      UnpackIx2CopiesRead(g, ifs, ife, ifr);
    }
    forall x | WriteSet(g, Ix2, ifs, ife)(x)
      ensures x in UnpackIx2RecvBody(g)(x.ifr) || x in Dsts(UnpackIx2CopyBody(g)(x.ifr))
    {
      UnpackIx2Covers(g, ifs, ife, x);
    }
    UnpackLoopFills(g, Ix2, ifs, ife, UnpackIx2RecvBody(g), UnpackIx2CopyBody(g), PackOx2Body(g), r, s);
  }

  // =====================================================================
  // periodic_ox2_rad

  function PeriodicOx2(g: Grid, ifs: int, ife: int): seq<Step>
  {
    Loop1(ifs, ife, PeriodicOx2Body(g))
  }

  function PeriodicOx2Body(g: Grid): int -> seq<Step>
  {
    ifr => PeriodicOx2Frame(g, ifr)
  }

  /** One pass of the `ifr` loop. */
  function PeriodicOx2Frame(g: Grid, ifr: int): seq<Step>
  {
    Run(PeriodicOx2Nests(g, ifr))
  }

  /** The pass's loop nests: `S` and `H`, the x2 ghost intensities, the x1
      ghost intensities of the ghost row and (for eight octants) the edges. */
  function PeriodicOx2Nests(g: Grid, ifr: int): seq<Nest<Step>>
  {
    [Nest2(g.kS, g.kE, g.iS - 1, g.iE + 1, POx2Cell(g, ifr)),
     Nest3(g.kS, g.kE, g.iS - 1, g.iE + 1, 0, g.nang - 1, POx2Ghost2(g, ifr)),
     Nest2(g.kS, g.kE, 0, g.nang - 1, POx2Ghost1(g, ifr)),
     if g.noct == 8 then Nest2(g.iS - 1, g.iE + 1, 0, g.nang - 1, POx2Edge(g, ifr)) else Skip]
  }

  function POx2Cell(g: Grid, ifr: int): (int, int) -> seq<Step>
  {
    (k, i) => CellCopies(g.nDim, ifr, k, g.jE + 1, i, k, g.jS, i)
  }

  /** `Ghstr2i` from `l2imu`. */
  function POx2Ghost2(g: Grid, ifr: int): (int, int, int) -> seq<Step>
  {
    (k, i, m) =>
      [Copy(Ghst(Right, 2, ifr, k, i, 2, m), Imu(Left, 2, ifr, k, i, 2, m)),
       Copy(Ghst(Right, 2, ifr, k, i, 3, m), Imu(Left, 2, ifr, k, i, 3, m))] +
      (if g.noct == 8 then [Copy(Ghst(Right, 2, ifr, k, i, 6, m), Imu(Left, 2, ifr, k, i, 6, m)),
          Copy(Ghst(Right, 2, ifr, k, i, 7, m), Imu(Left, 2, ifr, k, i, 7, m))] else [])
  }

  /** The x1 ghost intensities of the ghost row, from the opposite row. */
  function POx2Ghost1(g: Grid, ifr: int): (int, int) -> seq<Step>
  {
    (k, m) =>
      var ju, js := g.jE + 1, g.jS;
      [Copy(Ghst(Left, 1, ifr, k, ju, 0, m), Ghst(Left, 1, ifr, k, js, 0, m)),
       Copy(Ghst(Left, 1, ifr, k, ju, 2, m), Ghst(Left, 1, ifr, k, js, 2, m)),
       Copy(Ghst(Right, 1, ifr, k, ju, 1, m), Ghst(Right, 1, ifr, k, js, 1, m)),
       Copy(Ghst(Right, 1, ifr, k, ju, 3, m), Ghst(Right, 1, ifr, k, js, 3, m))] +
      (if g.noct == 8 then
         [Copy(Ghst(Left, 1, ifr, k, ju, 4, m), Ghst(Left, 1, ifr, k, js, 4, m)),
          Copy(Ghst(Left, 1, ifr, k, ju, 6, m), Ghst(Left, 1, ifr, k, js, 6, m)),
          Copy(Ghst(Right, 1, ifr, k, ju, 5, m), Ghst(Right, 1, ifr, k, js, 5, m)),
          Copy(Ghst(Right, 1, ifr, k, ju, 7, m), Ghst(Right, 1, ifr, k, js, 7, m))]
       else [])
  }

  /** Octants whose x2 cosine points away from the face come from the
      opposite row; the others from `l2imu` at the x3 edge. */
  function POx2Edge(g: Grid, ifr: int): (int, int) -> seq<Step>
  {
    (i, m) =>
      var ju, js, kl, ku := g.jE + 1, g.jS, g.kS, g.kE;
      [Copy(Imu(Left, 3, ifr, ju, i, 4, m), Imu(Left, 3, ifr, js, i, 4, m)),
       Copy(Imu(Left, 3, ifr, ju, i, 5, m), Imu(Left, 3, ifr, js, i, 5, m)),
       Copy(Imu(Left, 3, ifr, ju, i, 6, m), Imu(Left, 2, ifr, kl, i, 6, m)),
       Copy(Imu(Left, 3, ifr, ju, i, 7, m), Imu(Left, 2, ifr, kl, i, 7, m)),
       Copy(Imu(Right, 3, ifr, ju, i, 0, m), Imu(Right, 3, ifr, js, i, 0, m)),
       Copy(Imu(Right, 3, ifr, ju, i, 1, m), Imu(Right, 3, ifr, js, i, 1, m)),
       Copy(Imu(Right, 3, ifr, ju, i, 2, m), Imu(Left, 2, ifr, ku, i, 2, m)),
       Copy(Imu(Right, 3, ifr, ju, i, 3, m), Imu(Left, 2, ifr, ku, i, 3, m))]
  }

  // Every move of periodic_ox2_rad copies a slot's mirror, which the
  // routine does not write, into a slot of the outer x2 face.

  lemma POx2CellMoves(g: Grid, ifs: int, ife: int, ifr: int, k: int, i: int)
    requires Valid(g) && ifs <= ifr <= ife && g.kS <= k <= g.kE && g.iS - 1 <= i <= g.iE + 1
    ensures forall st :: st in POx2Cell(g, ifr)(k, i) ==> MirrorMove(g, Ox2, ifs, ife, st)
  {
    forall st | st in POx2Cell(g, ifr)(k, i) ensures MirrorMove(g, Ox2, ifs, ife, st) {
      var n := CellCopiesPick(g.nDim, ifr, k, g.jE + 1, i, k, g.jS, i, st);
    }
  }

  lemma POx2Ghost2Moves(g: Grid, ifs: int, ife: int, ifr: int, k: int, i: int, m: int)
    requires ifs <= ifr <= ife && g.kS <= k <= g.kE && g.iS - 1 <= i <= g.iE + 1 && 0 <= m < g.nang
    ensures forall st :: st in POx2Ghost2(g, ifr)(k, i, m) ==> MirrorMove(g, Ox2, ifs, ife, st)
  {
  }

  lemma POx2Ghost1Moves(g: Grid, ifs: int, ife: int, ifr: int, k: int, m: int)
    requires Valid(g) && ifs <= ifr <= ife && g.kS <= k <= g.kE && 0 <= m < g.nang
    ensures forall st :: st in POx2Ghost1(g, ifr)(k, m) ==> MirrorMove(g, Ox2, ifs, ife, st)
  {
  }

  lemma POx2EdgeMoves(g: Grid, ifs: int, ife: int, ifr: int, i: int, m: int)
    requires Valid(g) && ifs <= ifr <= ife && g.iS - 1 <= i <= g.iE + 1 && 0 <= m < g.nang && g.noct == 8
    ensures forall st :: st in POx2Edge(g, ifr)(i, m) ==> MirrorMove(g, Ox2, ifs, ife, st)
  {
  }

  lemma PeriodicOx2FrameMoves(g: Grid, ifs: int, ife: int, ifr: int)
    requires Valid(g) && ifs <= ifr <= ife
    ensures forall st :: st in PeriodicOx2Frame(g, ifr) ==> MirrorMove(g, Ox2, ifs, ife, st)
  {
    var P := st => MirrorMove(g, Ox2, ifs, ife, st);
    var ns := PeriodicOx2Nests(g, ifr);
    forall k, i | g.kS <= k <= g.kE && g.iS - 1 <= i <= g.iE + 1
      ensures forall st :: st in POx2Cell(g, ifr)(k, i) ==> P(st)
    {
      POx2CellMoves(g, ifs, ife, ifr, k, i);
    }
    forall k, i, m | g.kS <= k <= g.kE && g.iS - 1 <= i <= g.iE + 1 && 0 <= m <= g.nang - 1
      ensures forall st :: st in POx2Ghost2(g, ifr)(k, i, m) ==> P(st)
    {
      POx2Ghost2Moves(g, ifs, ife, ifr, k, i, m);
    }
    forall k, m | g.kS <= k <= g.kE && 0 <= m <= g.nang - 1
      ensures forall st :: st in POx2Ghost1(g, ifr)(k, m) ==> P(st)
    {
      POx2Ghost1Moves(g, ifs, ife, ifr, k, m);
    }
    forall i, m | g.noct == 8 && g.iS - 1 <= i <= g.iE + 1 && 0 <= m <= g.nang - 1
      ensures forall st :: st in POx2Edge(g, ifr)(i, m) ==> P(st)
    {
      POx2EdgeMoves(g, ifs, ife, ifr, i, m);
    }
    assert NestAll(ns[0], P) && NestAll(ns[1], P) && NestAll(ns[2], P) && NestAll(ns[3], P);
    RunAll(ns, P);
  }

  // Every slot of the outer x2 face is the target of a move of the pass
  // for its frequency.

  lemma POx2CellCovers(g: Grid, ifs: int, ife: int, x: Loc)
    requires WriteSet(g, Ox2, ifs, ife)(x) && (x.S? || x.H?)
    ensures Copy(x, Mirror(g, Ox2, x)) in PeriodicOx2Frame(g, x.ifr)
  {
    CellCopiesCover(g.nDim, x.ifr, x.k, g.jE + 1, x.i, x.k, g.jS, x.i, if x.H? then x.n else 0);
    RunHas2(PeriodicOx2Nests(g, x.ifr), 0, x.k, x.i, Copy(x, Mirror(g, Ox2, x)));
  }

  lemma POx2Ghost2Covers(g: Grid, ifs: int, ife: int, x: Loc)
    requires WriteSet(g, Ox2, ifs, ife)(x) && x.Ghst? && x.dir == 2
    ensures Copy(x, Mirror(g, Ox2, x)) in PeriodicOx2Frame(g, x.ifr)
  {
    RunHas3(PeriodicOx2Nests(g, x.ifr), 1, x.a, x.b, x.m, Copy(x, Mirror(g, Ox2, x)));
  }

  lemma POx2Ghost1Covers(g: Grid, ifs: int, ife: int, x: Loc)
    requires WriteSet(g, Ox2, ifs, ife)(x) && x.Ghst? && x.dir != 2
    ensures Copy(x, Mirror(g, Ox2, x)) in PeriodicOx2Frame(g, x.ifr)
  {
    RunHas2(PeriodicOx2Nests(g, x.ifr), 2, x.a, x.m, Copy(x, Mirror(g, Ox2, x)));
  }

  lemma POx2EdgeCovers(g: Grid, ifs: int, ife: int, x: Loc)
    requires WriteSet(g, Ox2, ifs, ife)(x) && x.Imu?
    ensures Copy(x, Mirror(g, Ox2, x)) in PeriodicOx2Frame(g, x.ifr)
  {
    RunHas2(PeriodicOx2Nests(g, x.ifr), 3, x.b, x.m, Copy(x, Mirror(g, Ox2, x)));
  }

  lemma PeriodicOx2FrameCovers(g: Grid, ifs: int, ife: int, x: Loc)
    requires WriteSet(g, Ox2, ifs, ife)(x)
    ensures x in Dsts(PeriodicOx2Frame(g, x.ifr))
  {
    if x.S? || x.H? {
      POx2CellCovers(g, ifs, ife, x);
    } else if x.Ghst? && x.dir == 2 {
      POx2Ghost2Covers(g, ifs, ife, x);
    } else if x.Ghst? {
      POx2Ghost1Covers(g, ifs, ife, x);
    } else {
      POx2EdgeCovers(g, ifs, ife, x);
    }
    DstsMember(PeriodicOx2Frame(g, x.ifr), Copy(x, Mirror(g, Ox2, x)));
  }

  /** `periodic_ox2_rad` leaves the grid `s` as `Fill(Ox2, s, s)`: every
      slot of the outer x2 face holds its mirror's value, every other slot
      is unchanged. */
  lemma PeriodicOx2Fills(g: Grid, ifs: int, ife: int, s: Store)
    requires Valid(g) && Total(s)
    ensures Recvd(PeriodicOx2(g, ifs, ife)) == []
    ensures Exec(s, PeriodicOx2(g, ifs, ife), []) == Fill(g, Ox2, ifs, ife, s, s)
  {
    forall ifr, st | ifs <= ifr <= ife && st in PeriodicOx2Body(g)(ifr)
      ensures MirrorMove(g, Ox2, ifs, ife, st)
    {
      PeriodicOx2FrameMoves(g, ifs, ife, ifr);
    }
    forall x | WriteSet(g, Ox2, ifs, ife)(x) ensures x in Dsts(PeriodicOx2Body(g)(x.ifr)) {
      PeriodicOx2FrameCovers(g, ifs, ife, x);
    }
    PeriodicLoopFills(g, Ox2, ifs, ife, PeriodicOx2Body(g), s);
  }

  // =====================================================================
  // pack_ix2_rad: what the inner x2 face sends to the outer x2 face
  // of its neighbour

  function PackIx2(g: Grid, ifs: int, ife: int): seq<Loc>
  {
    Loop1(ifs, ife, PackIx2Body(g))
  }

  function PackIx2Body(g: Grid): int -> seq<Loc>
  {
    ifr => Run(PackIx2Nests(g, ifr))
  }

  function PackIx2Nests(g: Grid, ifr: int): seq<Nest<Loc>>
  {
    [Nest2(g.kS, g.kE, g.iS - 1, g.iE + 1, X2Cells(g, ifr, g.jS)),
     Nest3(g.kS, g.kE, g.iS - 1, g.iE + 1, 0, g.nang - 1, SIx2Ghost2(g, ifr)),
     Nest2(g.kS, g.kE, 0, g.nang - 1, SIx2Ghost1(g, ifr)),
     if g.noct == 8 then Nest2(g.iS - 1, g.iE + 1, 0, g.nang - 1, SIx2Edge(g, ifr)) else Skip]
  }

  function SIx2Ghost2(g: Grid, ifr: int): (int, int, int) -> seq<Loc>
  {
    (k, i, m) =>
      [Imu(Left, 2, ifr, k, i, 2, m), Imu(Left, 2, ifr, k, i, 3, m)] +
      (if g.noct == 8 then [Imu(Left, 2, ifr, k, i, 6, m), Imu(Left, 2, ifr, k, i, 7, m)] else [])
  }

  function SIx2Ghost1(g: Grid, ifr: int): (int, int) -> seq<Loc>
  {
    (k, m) =>
      [Ghst(Left, 1, ifr, k, g.jS, 0, m),
       Ghst(Left, 1, ifr, k, g.jS, 2, m),
       Ghst(Right, 1, ifr, k, g.jS, 1, m),
       Ghst(Right, 1, ifr, k, g.jS, 3, m)] +
      (if g.noct == 8 then
         [Ghst(Left, 1, ifr, k, g.jS, 4, m),
          Ghst(Left, 1, ifr, k, g.jS, 6, m),
          Ghst(Right, 1, ifr, k, g.jS, 5, m),
          Ghst(Right, 1, ifr, k, g.jS, 7, m)]
       else [])
  }

  function SIx2Edge(g: Grid, ifr: int): (int, int) -> seq<Loc>
  {
    (i, m) =>
      [Imu(Left, 3, ifr, g.jS, i, 4, m), Imu(Left, 3, ifr, g.jS, i, 5, m),
       Imu(Right, 3, ifr, g.jS, i, 0, m), Imu(Right, 3, ifr, g.jS, i, 1, m)]
  }

  // =====================================================================
  // unpack_ox2_rad: each pass receives into `S`, `H`, the x2 ghost
  // intensities, the x1 ghost intensities of the ghost row and the edge
  // octants whose x2 cosine points into the grid, then copies the other
  // edge octants from the x2 ghost intensities just received

  function UnpackOx2(g: Grid, ifs: int, ife: int): seq<Step>
  {
    Unpacking(ifs, ife, UnpackOx2RecvBody(g), UnpackOx2CopyBody(g))
  }

  function UnpackOx2RecvBody(g: Grid): int -> seq<Loc>
  {
    ifr => Run(UnpackOx2RecvNests(g, ifr))
  }

  function UnpackOx2CopyBody(g: Grid): int -> seq<Step>
  {
    ifr => Run(UnpackOx2CopyNests(g, ifr))
  }

  function UnpackOx2RecvNests(g: Grid, ifr: int): seq<Nest<Loc>>
  {
    [Nest2(g.kS, g.kE, g.iS - 1, g.iE + 1, X2Cells(g, ifr, g.jE + 1)),
     Nest3(g.kS, g.kE, g.iS - 1, g.iE + 1, 0, g.nang - 1, UOx2Ghost2(g, ifr)),
     Nest2(g.kS, g.kE, 0, g.nang - 1, UOx2Ghost1(g, ifr)),
     if g.noct == 8 then Nest2(g.iS - 1, g.iE + 1, 0, g.nang - 1, UOx2Edge(g, ifr)) else Skip]
  }

  function UnpackOx2CopyNests(g: Grid, ifr: int): seq<Nest<Step>>
  {
    [if g.noct == 8 then Nest2(g.iS - 1, g.iE + 1, 0, g.nang - 1, UOx2EdgeCopy(g, ifr)) else Skip]
  }

  function UOx2Ghost2(g: Grid, ifr: int): (int, int, int) -> seq<Loc>
  {
    (k, i, m) =>
      [Ghst(Right, 2, ifr, k, i, 2, m), Ghst(Right, 2, ifr, k, i, 3, m)] +
      (if g.noct == 8 then [Ghst(Right, 2, ifr, k, i, 6, m), Ghst(Right, 2, ifr, k, i, 7, m)] else [])
  }

  function UOx2Ghost1(g: Grid, ifr: int): (int, int) -> seq<Loc>
  {
    (k, m) =>
      [Ghst(Left, 1, ifr, k, g.jE + 1, 0, m),
       Ghst(Left, 1, ifr, k, g.jE + 1, 2, m),
       Ghst(Right, 1, ifr, k, g.jE + 1, 1, m),
       Ghst(Right, 1, ifr, k, g.jE + 1, 3, m)] +
      (if g.noct == 8 then
         [Ghst(Left, 1, ifr, k, g.jE + 1, 4, m),
          Ghst(Left, 1, ifr, k, g.jE + 1, 6, m),
          Ghst(Right, 1, ifr, k, g.jE + 1, 5, m),
          Ghst(Right, 1, ifr, k, g.jE + 1, 7, m)]
       else [])
  }

  function UOx2Edge(g: Grid, ifr: int): (int, int) -> seq<Loc>
  {
    (i, m) =>
      [Imu(Left, 3, ifr, g.jE + 1, i, 4, m), Imu(Left, 3, ifr, g.jE + 1, i, 5, m),
       Imu(Right, 3, ifr, g.jE + 1, i, 0, m), Imu(Right, 3, ifr, g.jE + 1, i, 1, m)]
  }

  function UOx2EdgeCopy(g: Grid, ifr: int): (int, int) -> seq<Step>
  {
    (i, m) =>
      var ju, kl, ku := g.jE + 1, g.kS, g.kE;
      [Copy(Imu(Left, 3, ifr, ju, i, 6, m), Ghst(Right, 2, ifr, kl, i, 6, m)),
       Copy(Imu(Left, 3, ifr, ju, i, 7, m), Ghst(Right, 2, ifr, kl, i, 7, m)),
       Copy(Imu(Right, 3, ifr, ju, i, 2, m), Ghst(Right, 2, ifr, ku, i, 2, m)),
       Copy(Imu(Right, 3, ifr, ju, i, 3, m), Ghst(Right, 2, ifr, ku, i, 3, m))]
  }

  // ---------------------------------------------------------------------
  // What unpack_ox2_rad receives lines up, double by double, with the
  // mirror slots pack_ix2_rad sends.

  lemma Ix2ToOx2CellPairwise(g: Grid, ifr: int, k: int, i: int)
    ensures Pairwise(X2Cells(g, ifr, g.jE + 1)(k, i), X2Cells(g, ifr, g.jS)(k, i), MirrorRel(g, Ox2))
  {
    var rel := MirrorRel(g, Ox2);
    assert Mirror(g, Ox2, S(ifr, k, g.jE + 1, i)) == S(ifr, k, g.jS, i);
    forall n | 0 <= n < g.nDim ensures rel(H(ifr, k, g.jE + 1, i, n), H(ifr, k, g.jS, i, n)) {
      assert Mirror(g, Ox2, H(ifr, k, g.jE + 1, i, n)) == H(ifr, k, g.jS, i, n);
    }
    CellPairwise(g.nDim, ifr, k, g.jE + 1, i, k, g.jS, i, rel);
  }

  lemma Ix2ToOx2Ghost2Pairwise(g: Grid, ifr: int, k: int, i: int, m: int)
    ensures Pairwise(UOx2Ghost2(g, ifr)(k, i, m), SIx2Ghost2(g, ifr)(k, i, m), MirrorRel(g, Ox2))
  {
    var u, p := UOx2Ghost2(g, ifr)(k, i, m), SIx2Ghost2(g, ifr)(k, i, m);
    forall t | 0 <= t < |u| ensures MirrorRel(g, Ox2)(u[t], p[t]) {
      assert p[t] == Mirror(g, Ox2, u[t]);
    }
  }

  lemma Ix2ToOx2Ghost1Pairwise(g: Grid, ifr: int, k: int, m: int)
    ensures Pairwise(UOx2Ghost1(g, ifr)(k, m), SIx2Ghost1(g, ifr)(k, m), MirrorRel(g, Ox2))
  {
    var u, p := UOx2Ghost1(g, ifr)(k, m), SIx2Ghost1(g, ifr)(k, m);
    forall t | 0 <= t < |u| ensures MirrorRel(g, Ox2)(u[t], p[t]) {
      assert p[t] == Mirror(g, Ox2, u[t]);
    }
  }

  lemma Ix2ToOx2EdgePairwise(g: Grid, ifr: int, i: int, m: int)
    ensures Pairwise(UOx2Edge(g, ifr)(i, m), SIx2Edge(g, ifr)(i, m), MirrorRel(g, Ox2))
  {
    var u, p := UOx2Edge(g, ifr)(i, m), SIx2Edge(g, ifr)(i, m);
    forall t | 0 <= t < |u| ensures MirrorRel(g, Ox2)(u[t], p[t]) {
      if t == 0 {
        assert p[0] == Mirror(g, Ox2, u[0]);
      } else if t == 1 {
        assert p[1] == Mirror(g, Ox2, u[1]);
      } else if t == 2 {
        assert p[2] == Mirror(g, Ox2, u[2]);
      } else {
        assert p[3] == Mirror(g, Ox2, u[3]);
      }
    }
  }

  lemma Ix2ToOx2Pairwise(g: Grid, ifr: int)
    ensures Pairwise(UnpackOx2RecvBody(g)(ifr), PackIx2Body(g)(ifr), MirrorRel(g, Ox2))
  {
    var rel := MirrorRel(g, Ox2);
    var us, ps := UnpackOx2RecvNests(g, ifr), PackIx2Nests(g, ifr);
    var ju, js := g.jE + 1, g.jS;
    forall k, i ensures Pairwise(X2Cells(g, ifr, ju)(k, i), X2Cells(g, ifr, js)(k, i), rel) {
      Ix2ToOx2CellPairwise(g, ifr, k, i);
    }
    forall k, i, m ensures Pairwise(UOx2Ghost2(g, ifr)(k, i, m), SIx2Ghost2(g, ifr)(k, i, m), rel) {
      Ix2ToOx2Ghost2Pairwise(g, ifr, k, i, m);
    }
    forall k, m ensures Pairwise(UOx2Ghost1(g, ifr)(k, m), SIx2Ghost1(g, ifr)(k, m), rel) {
      Ix2ToOx2Ghost1Pairwise(g, ifr, k, m);
    }
    forall i, m ensures Pairwise(UOx2Edge(g, ifr)(i, m), SIx2Edge(g, ifr)(i, m), rel) {
      Ix2ToOx2EdgePairwise(g, ifr, i, m);
    }
    assert NestPairwise(us[0], ps[0], rel) && NestPairwise(us[1], ps[1], rel);
    assert NestPairwise(us[2], ps[2], rel) && NestPairwise(us[3], ps[3], rel);
    RunPairwise(us, ps, rel);
  }

  // ---------------------------------------------------------------------
  // Every slot unpack_ox2_rad receives into belongs to the outer x2 face.

  lemma UOx2CellWrites(g: Grid, ifs: int, ife: int, ifr: int, k: int, i: int)
    requires ifs <= ifr <= ife && g.kS <= k <= g.kE && g.iS - 1 <= i <= g.iE + 1
    ensures forall x :: x in X2Cells(g, ifr, g.jE + 1)(k, i) ==> WriteSet(g, Ox2, ifs, ife)(x)
  {
    forall x | x in X2Cells(g, ifr, g.jE + 1)(k, i) ensures WriteSet(g, Ox2, ifs, ife)(x) {
      var n := CellLocsPick(g.nDim, ifr, k, g.jE + 1, i, x);
    }
  }

  lemma UOx2Ghost2Writes(g: Grid, ifs: int, ife: int, ifr: int, k: int, i: int, m: int)
    requires ifs <= ifr <= ife && g.kS <= k <= g.kE && g.iS - 1 <= i <= g.iE + 1 && 0 <= m < g.nang
    ensures forall x :: x in UOx2Ghost2(g, ifr)(k, i, m) ==> WriteSet(g, Ox2, ifs, ife)(x)
  {
  }

  lemma UOx2Ghost1Writes(g: Grid, ifs: int, ife: int, ifr: int, k: int, m: int)
    requires ifs <= ifr <= ife && g.kS <= k <= g.kE && 0 <= m < g.nang
    ensures forall x :: x in UOx2Ghost1(g, ifr)(k, m) ==> WriteSet(g, Ox2, ifs, ife)(x)
  {
  }

  lemma UOx2EdgeWrites(g: Grid, ifs: int, ife: int, ifr: int, i: int, m: int)
    requires ifs <= ifr <= ife && g.iS - 1 <= i <= g.iE + 1 && 0 <= m < g.nang && g.noct == 8
    ensures forall x :: x in UOx2Edge(g, ifr)(i, m) ==> WriteSet(g, Ox2, ifs, ife)(x)
  {
  }

  lemma UnpackOx2RecvWrites(g: Grid, ifs: int, ife: int, ifr: int)
    requires ifs <= ifr <= ife
    ensures forall x :: x in UnpackOx2RecvBody(g)(ifr) ==> WriteSet(g, Ox2, ifs, ife)(x)
  {
    var P, ns := WriteSet(g, Ox2, ifs, ife), UnpackOx2RecvNests(g, ifr);
    var ju := g.jE + 1;
    forall k, i | g.kS <= k <= g.kE && g.iS - 1 <= i <= g.iE + 1
      ensures forall x :: x in X2Cells(g, ifr, ju)(k, i) ==> P(x)
    {
      UOx2CellWrites(g, ifs, ife, ifr, k, i);
    }
    forall k, i, m | g.kS <= k <= g.kE && g.iS - 1 <= i <= g.iE + 1 && 0 <= m <= g.nang - 1
      ensures forall x :: x in UOx2Ghost2(g, ifr)(k, i, m) ==> P(x)
    {
      UOx2Ghost2Writes(g, ifs, ife, ifr, k, i, m);
    }
    forall k, m | g.kS <= k <= g.kE && 0 <= m <= g.nang - 1
      ensures forall x :: x in UOx2Ghost1(g, ifr)(k, m) ==> P(x)
    {
      UOx2Ghost1Writes(g, ifs, ife, ifr, k, m);
    }
    forall i, m | g.noct == 8 && g.iS - 1 <= i <= g.iE + 1 && 0 <= m <= g.nang - 1
      ensures forall x :: x in UOx2Edge(g, ifr)(i, m) ==> P(x)
    {
      UOx2EdgeWrites(g, ifs, ife, ifr, i, m);
    }
    assert NestAll(ns[0], P) && NestAll(ns[1], P) && NestAll(ns[2], P) && NestAll(ns[3], P);
    RunAll(ns, P);
  }

  // ---------------------------------------------------------------------
  // Every copy of unpack_ox2_rad fills an edge slot of the outer x2 face
  // from an x2 ghost intensity received earlier in the same pass, and
  // that ghost intensity has the same mirror as the slot it fills.

  lemma UOx2EdgeCopyReads(g: Grid, ifs: int, ife: int, ifr: int, i: int, m: int)
    requires Valid(g) && ifs <= ifr <= ife && g.iS - 1 <= i <= g.iE + 1 && 0 <= m < g.nang && g.noct == 8
    ensures forall st :: st in UOx2EdgeCopy(g, ifr)(i, m) ==>
      st.Copy? && WriteSet(g, Ox2, ifs, ife)(st.dst) && Mirror(g, Ox2, st.src) == Mirror(g, Ox2, st.dst) &&
      st.src.Ghst? && g.kS <= st.src.a <= g.kE && st.src in UOx2Ghost2(g, ifr)(st.src.a, i, m)
  {
  }

  lemma UnpackOx2CopiesRead(g: Grid, ifs: int, ife: int, ifr: int)
    requires Valid(g) && ifs <= ifr <= ife
    ensures forall st :: st in UnpackOx2CopyBody(g)(ifr) ==>
      st.Copy? && WriteSet(g, Ox2, ifs, ife)(st.dst) && st.src in UnpackOx2RecvBody(g)(ifr) &&
      Mirror(g, Ox2, st.src) == Mirror(g, Ox2, st.dst)
  {
    var P := (st: Step) => st.Copy? && WriteSet(g, Ox2, ifs, ife)(st.dst) && st.src in UnpackOx2RecvBody(g)(ifr) &&
                           Mirror(g, Ox2, st.src) == Mirror(g, Ox2, st.dst);
    var ns := UnpackOx2CopyNests(g, ifr);
    forall i, m, st | g.noct == 8 && g.iS - 1 <= i <= g.iE + 1 && 0 <= m <= g.nang - 1 && st in UOx2EdgeCopy(g, ifr)(i, m)
      ensures P(st)
    {
      UOx2EdgeCopyReads(g, ifs, ife, ifr, i, m);
      RunHas3(UnpackOx2RecvNests(g, ifr), 1, st.src.a, i, m, st.src);
    }
    assert NestAll(ns[0], P);
    RunAll(ns, P);
  }

  // ---------------------------------------------------------------------
  // Every slot of the outer x2 face is written by the pass for its
  // frequency: received, or (the edge octants whose x2 cosine points out
  // of the grid) copied.

  lemma UOx2CellCovers(g: Grid, ifs: int, ife: int, x: Loc)
    requires WriteSet(g, Ox2, ifs, ife)(x) && (x.S? || x.H?)
    ensures x in UnpackOx2RecvBody(g)(x.ifr)
  {
    CellLocsCover(g.nDim, x.ifr, x.k, x.j, x.i, if x.H? then x.n else 0);
    RunHas2(UnpackOx2RecvNests(g, x.ifr), 0, x.k, x.i, x);
  }

  lemma UOx2Ghost2Covers(g: Grid, ifs: int, ife: int, x: Loc)
    requires WriteSet(g, Ox2, ifs, ife)(x) && x.Ghst? && x.dir == 2
    ensures x in UnpackOx2RecvBody(g)(x.ifr)
  {
    RunHas3(UnpackOx2RecvNests(g, x.ifr), 1, x.a, x.b, x.m, x);
  }

  lemma UOx2Ghost1Covers(g: Grid, ifs: int, ife: int, x: Loc)
    requires WriteSet(g, Ox2, ifs, ife)(x) && x.Ghst? && x.dir != 2
    ensures x in UnpackOx2RecvBody(g)(x.ifr)
  {
    RunHas2(UnpackOx2RecvNests(g, x.ifr), 2, x.a, x.m, x);
  }

  lemma UOx2EdgeCovers(g: Grid, ifs: int, ife: int, x: Loc)
    requires WriteSet(g, Ox2, ifs, ife)(x) && x.Imu? && (x.oct % 4 < 2)
    ensures x in UnpackOx2RecvBody(g)(x.ifr)
  {
    RunHas2(UnpackOx2RecvNests(g, x.ifr), 3, x.b, x.m, x);
  }

  lemma UOx2EdgeCopyAt(g: Grid, ifs: int, ife: int, x: Loc) returns (st: Step)
    requires WriteSet(g, Ox2, ifs, ife)(x) && x.Imu? && (x.oct % 4 >= 2)
    ensures g.noct == 8 && g.iS - 1 <= x.b <= g.iE + 1 && 0 <= x.m < g.nang
    ensures st.dst == x && st in UOx2EdgeCopy(g, x.ifr)(x.b, x.m)
  {
    var l := UOx2EdgeCopy(g, x.ifr)(x.b, x.m);
    st := l[if x.side == Left then (if x.oct == 6 then 0 else 1) else (if x.oct == 2 then 2 else 3)];
  }

  lemma UOx2EdgeCopyCovers(g: Grid, ifs: int, ife: int, x: Loc)
    requires WriteSet(g, Ox2, ifs, ife)(x) && x.Imu? && (x.oct % 4 >= 2)
    ensures x in Dsts(UnpackOx2CopyBody(g)(x.ifr))
  {
    var st := UOx2EdgeCopyAt(g, ifs, ife, x);
    RunHas2(UnpackOx2CopyNests(g, x.ifr), 0, x.b, x.m, st);
    DstsMember(UnpackOx2CopyBody(g)(x.ifr), st);
  }

  lemma UnpackOx2Covers(g: Grid, ifs: int, ife: int, x: Loc)
    requires WriteSet(g, Ox2, ifs, ife)(x)
    ensures x in UnpackOx2RecvBody(g)(x.ifr) || x in Dsts(UnpackOx2CopyBody(g)(x.ifr))
  {
    if x.S? || x.H? {
      UOx2CellCovers(g, ifs, ife, x);
    } else if x.Ghst? && x.dir == 2 {
      UOx2Ghost2Covers(g, ifs, ife, x);
    } else if x.Ghst? {
      UOx2Ghost1Covers(g, ifs, ife, x);
    } else if (x.oct % 4 < 2) {
      UOx2EdgeCovers(g, ifs, ife, x);
    } else {
      UOx2EdgeCopyCovers(g, ifs, ife, x);
    }
  }

  /** The outer x2 exchange: unpack_ox2_rad run on the grid `r` over the
      buffer pack_ix2_rad filled from the neighbour's grid `s` consumes
      the whole buffer and leaves `Fill(Ox2, r, s)`. */
  lemma ExchangeOx2Fills(g: Grid, ifs: int, ife: int, r: Store, s: Store)
    requires Valid(g) && Total(r)
    ensures |Recvd(UnpackOx2(g, ifs, ife))| == |PackIx2(g, ifs, ife)|
    ensures Exec(r, UnpackOx2(g, ifs, ife), Read(s, PackIx2(g, ifs, ife))) == Fill(g, Ox2, ifs, ife, r, s)
  {
    forall ifr | ifs <= ifr <= ife
      ensures Pairwise(UnpackOx2RecvBody(g)(ifr), PackIx2Body(g)(ifr), MirrorRel(g, Ox2))
      ensures forall x :: x in UnpackOx2RecvBody(g)(ifr) ==> WriteSet(g, Ox2, ifs, ife)(x)
      ensures forall st :: st in UnpackOx2CopyBody(g)(ifr) ==>
        st.Copy? && WriteSet(g, Ox2, ifs, ife)(st.dst) && st.src in UnpackOx2RecvBody(g)(ifr) &&
        Mirror(g, Ox2, st.src) == Mirror(g, Ox2, st.dst)
    {
      Ix2ToOx2Pairwise(g, ifr);
      UnpackOx2RecvWrites(g, ifs, ife, ifr);
      UnpackOx2CopiesRead(g, ifs, ife, ifr);
    }
    forall x | WriteSet(g, Ox2, ifs, ife)(x)
      ensures x in UnpackOx2RecvBody(g)(x.ifr) || x in Dsts(UnpackOx2CopyBody(g)(x.ifr))
    {
      UnpackOx2Covers(g, ifs, ife, x);
    }
    UnpackLoopFills(g, Ox2, ifs, ife, UnpackOx2RecvBody(g), UnpackOx2CopyBody(g), PackIx2Body(g), r, s);
  }
}
