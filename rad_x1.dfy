/** The x1 faces: `periodic_ix1_rad`, `periodic_ox1_rad`, `pack_ix1_rad`,
    `pack_ox1_rad`, `unpack_ix1_rad` and `unpack_ox1_rad` as the sequences
    of moves their loop nests make (default build), and the proofs that
    the periodic routines and the pack/unpack exchanges fill the x1 faces
    as `RadFaces.Fill` describes. */
module RadX1 {
  import opened Loops
  import opened RadMemory
  import opened RadFaces
  import opened RadCells
  import opened RadFill

  /** `S` and `H` of column `i` at `(k, j)`. */
  function X1Cells(g: Grid, ifr: int, i: int): (int, int) -> seq<Loc>
  {
    (k, j) => CellLocs(g.nDim, ifr, k, j, i)
  }


  // =====================================================================
  // periodic_ix1_rad

  function PeriodicIx1(g: Grid, ifs: int, ife: int): seq<Step>
  {
    Loop1(ifs, ife, PeriodicIx1Body(g))
  }

  function PeriodicIx1Body(g: Grid): int -> seq<Step>
  {
    ifr => PeriodicIx1Frame(g, ifr)
  }

  /** One pass of the `ifr` loop. */
  function PeriodicIx1Frame(g: Grid, ifr: int): seq<Step>
  {
    Run(PeriodicIx1Nests(g, ifr))
  }

  /** The pass's loop nests: `S` and `H`, the x1 ghost intensities, and
      (for more than two octants) the corners and (for eight) the edges. */
  function PeriodicIx1Nests(g: Grid, ifr: int): seq<Nest<Step>>
  {
    [Nest2(g.kS, g.kE, g.jS, g.jE, PIx1Cell(g, ifr)),
     Nest3(g.kS, g.kE, g.jS, g.jE, 0, g.nang - 1, PIx1Ghost(g, ifr)),
     if g.noct > 2 then Nest2(g.kS, g.kE, 0, g.nang - 1, PIx1Corner(g, ifr)) else Skip,
     if g.noct == 8 then Nest2(g.jS, g.jE, 0, g.nang - 1, PIx1Edge(g, ifr)) else Skip]
  }

  function PIx1Cell(g: Grid, ifr: int): (int, int) -> seq<Step>
  {
    (k, j) => CellCopies(g.nDim, ifr, k, j, g.iS - 1, k, j, g.iE)
  }

  /** `Ghstl1i` from `r1imu`. */
  function PIx1Ghost(g: Grid, ifr: int): (int, int, int) -> seq<Step>
  {
    (k, j, m) =>
      [Copy(Ghst(Left, 1, ifr, k, j, 0, m), Imu(Right, 1, ifr, k, j, 0, m))] +
      (if g.noct > 2 then
         [Copy(Ghst(Left, 1, ifr, k, j, 2, m), Imu(Right, 1, ifr, k, j, 2, m))] +
         (if g.noct == 8 then
            [Copy(Ghst(Left, 1, ifr, k, j, 4, m), Imu(Right, 1, ifr, k, j, 4, m)),
             Copy(Ghst(Left, 1, ifr, k, j, 6, m), Imu(Right, 1, ifr, k, j, 6, m))]
          else [])
       else [])
  }

  /** Octants whose x1 cosine points away from the face come from the
      opposite column; the others from `r1imu` at the x2 edge. */
  function PIx1Corner(g: Grid, ifr: int): (int, int) -> seq<Step>
  {
    (k, m) =>
      var il, ie, jl, ju := g.iS - 1, g.iE, g.jS, g.jE;
      [Copy(Imu(Left, 2, ifr, k, il, 2, m), Imu(Right, 1, ifr, k, jl, 2, m)),
       Copy(Imu(Left, 2, ifr, k, il, 3, m), Imu(Left, 2, ifr, k, ie, 3, m)),
       Copy(Imu(Right, 2, ifr, k, il, 0, m), Imu(Right, 1, ifr, k, ju, 0, m)),
       Copy(Imu(Right, 2, ifr, k, il, 1, m), Imu(Right, 2, ifr, k, ie, 1, m))] +
      (if g.noct == 8 then
         [Copy(Imu(Left, 2, ifr, k, il, 6, m), Imu(Right, 1, ifr, k, jl, 6, m)),
          Copy(Imu(Left, 2, ifr, k, il, 7, m), Imu(Left, 2, ifr, k, ie, 7, m)),
          Copy(Imu(Right, 2, ifr, k, il, 4, m), Imu(Right, 1, ifr, k, ju, 4, m)),
          Copy(Imu(Right, 2, ifr, k, il, 5, m), Imu(Right, 2, ifr, k, ie, 5, m))]
       else [])
  }

  function PIx1Edge(g: Grid, ifr: int): (int, int) -> seq<Step>
  {
    (j, m) =>
      var il, ie, kl, ku := g.iS - 1, g.iE, g.kS, g.kE;
      [Copy(Imu(Left, 3, ifr, j, il, 4, m), Imu(Right, 1, ifr, kl, j, 4, m)),
       Copy(Imu(Left, 3, ifr, j, il, 5, m), Imu(Left, 3, ifr, j, ie, 5, m)),
       Copy(Imu(Left, 3, ifr, j, il, 6, m), Imu(Right, 1, ifr, kl, j, 6, m)),
       Copy(Imu(Left, 3, ifr, j, il, 7, m), Imu(Left, 3, ifr, j, ie, 7, m)),
       Copy(Imu(Right, 3, ifr, j, il, 0, m), Imu(Right, 1, ifr, ku, j, 0, m)),
       Copy(Imu(Right, 3, ifr, j, il, 1, m), Imu(Right, 3, ifr, j, ie, 1, m)),
       Copy(Imu(Right, 3, ifr, j, il, 2, m), Imu(Right, 1, ifr, ku, j, 2, m)),
       Copy(Imu(Right, 3, ifr, j, il, 3, m), Imu(Right, 3, ifr, j, ie, 3, m))]
  }

  // Every move of periodic_ix1_rad copies a slot's mirror, which the
  // routine does not write, into a slot of the inner x1 face.

  lemma PIx1CellMoves(g: Grid, ifs: int, ife: int, ifr: int, k: int, j: int)
    requires Valid(g) && ifs <= ifr <= ife && g.kS <= k <= g.kE && g.jS <= j <= g.jE
    ensures forall st :: st in PIx1Cell(g, ifr)(k, j) ==> MirrorMove(g, Ix1, ifs, ife, st)
  {
    forall st | st in PIx1Cell(g, ifr)(k, j) ensures MirrorMove(g, Ix1, ifs, ife, st) {
      var n := CellCopiesPick(g.nDim, ifr, k, j, g.iS - 1, k, j, g.iE, st);
    }
  }

  lemma PIx1GhostMoves(g: Grid, ifs: int, ife: int, ifr: int, k: int, j: int, m: int)
    requires ifs <= ifr <= ife && g.kS <= k <= g.kE && g.jS <= j <= g.jE && 0 <= m < g.nang
    ensures forall st :: st in PIx1Ghost(g, ifr)(k, j, m) ==> MirrorMove(g, Ix1, ifs, ife, st)
  {
  }

  lemma PIx1CornerMoves(g: Grid, ifs: int, ife: int, ifr: int, k: int, m: int)
    requires Valid(g) && ifs <= ifr <= ife && g.kS <= k <= g.kE && 0 <= m < g.nang && g.noct > 2
    ensures forall st :: st in PIx1Corner(g, ifr)(k, m) ==> MirrorMove(g, Ix1, ifs, ife, st)
  {
  }

  lemma PIx1EdgeMoves(g: Grid, ifs: int, ife: int, ifr: int, j: int, m: int)
    requires Valid(g) && ifs <= ifr <= ife && g.jS <= j <= g.jE && 0 <= m < g.nang && g.noct == 8
    ensures forall st :: st in PIx1Edge(g, ifr)(j, m) ==> MirrorMove(g, Ix1, ifs, ife, st)
  {
  }

  lemma PeriodicIx1FrameMoves(g: Grid, ifs: int, ife: int, ifr: int)
    requires Valid(g) && ifs <= ifr <= ife
    ensures forall st :: st in PeriodicIx1Frame(g, ifr) ==> MirrorMove(g, Ix1, ifs, ife, st)
  {
    var P := st => MirrorMove(g, Ix1, ifs, ife, st);
    var ns := PeriodicIx1Nests(g, ifr);
    forall k, j | g.kS <= k <= g.kE && g.jS <= j <= g.jE
      ensures forall st :: st in PIx1Cell(g, ifr)(k, j) ==> P(st)
    {
      PIx1CellMoves(g, ifs, ife, ifr, k, j);
    }
    forall k, j, m | g.kS <= k <= g.kE && g.jS <= j <= g.jE && 0 <= m <= g.nang - 1
      ensures forall st :: st in PIx1Ghost(g, ifr)(k, j, m) ==> P(st)
    {
      PIx1GhostMoves(g, ifs, ife, ifr, k, j, m);
    }
    forall k, m | g.noct > 2 && g.kS <= k <= g.kE && 0 <= m <= g.nang - 1
      ensures forall st :: st in PIx1Corner(g, ifr)(k, m) ==> P(st)
    {
      PIx1CornerMoves(g, ifs, ife, ifr, k, m);
    }
    forall j, m | g.noct == 8 && g.jS <= j <= g.jE && 0 <= m <= g.nang - 1
      ensures forall st :: st in PIx1Edge(g, ifr)(j, m) ==> P(st)
    {
      PIx1EdgeMoves(g, ifs, ife, ifr, j, m);
    }
    assert NestAll(ns[0], P) && NestAll(ns[1], P) && NestAll(ns[2], P) && NestAll(ns[3], P);
    RunAll(ns, P);
  }

  // Every slot of the inner x1 face is the target of a move of the pass
  // for its frequency.

  lemma PIx1CellCovers(g: Grid, ifs: int, ife: int, x: Loc)
    requires WriteSet(g, Ix1, ifs, ife)(x) && (x.S? || x.H?)
    ensures Copy(x, Mirror(g, Ix1, x)) in PeriodicIx1Frame(g, x.ifr)
  {
    CellCopiesCover(g.nDim, x.ifr, x.k, x.j, g.iS - 1, x.k, x.j, g.iE, if x.H? then x.n else 0);
    RunHas2(PeriodicIx1Nests(g, x.ifr), 0, x.k, x.j, Copy(x, Mirror(g, Ix1, x)));
  }

  lemma PIx1GhostCovers(g: Grid, ifs: int, ife: int, x: Loc)
    requires WriteSet(g, Ix1, ifs, ife)(x) && x.Ghst?
    ensures Copy(x, Mirror(g, Ix1, x)) in PeriodicIx1Frame(g, x.ifr)
  {
    RunHas3(PeriodicIx1Nests(g, x.ifr), 1, x.a, x.b, x.m, Copy(x, Mirror(g, Ix1, x)));
  }

  lemma PIx1CornerCovers(g: Grid, ifs: int, ife: int, x: Loc)
    requires WriteSet(g, Ix1, ifs, ife)(x) && x.Imu? && x.dir == 2
    ensures Copy(x, Mirror(g, Ix1, x)) in PeriodicIx1Frame(g, x.ifr)
  {
    RunHas2(PeriodicIx1Nests(g, x.ifr), 2, x.a, x.m, Copy(x, Mirror(g, Ix1, x)));
  }

  lemma PIx1EdgeCovers(g: Grid, ifs: int, ife: int, x: Loc)
    requires WriteSet(g, Ix1, ifs, ife)(x) && x.Imu? && x.dir != 2
    ensures Copy(x, Mirror(g, Ix1, x)) in PeriodicIx1Frame(g, x.ifr)
  {
    RunHas2(PeriodicIx1Nests(g, x.ifr), 3, x.a, x.m, Copy(x, Mirror(g, Ix1, x)));
  }

  lemma PeriodicIx1FrameCovers(g: Grid, ifs: int, ife: int, x: Loc)
    requires WriteSet(g, Ix1, ifs, ife)(x)
    ensures x in Dsts(PeriodicIx1Frame(g, x.ifr))
  {
    if x.S? || x.H? {
      PIx1CellCovers(g, ifs, ife, x);
    } else if x.Ghst? {
      PIx1GhostCovers(g, ifs, ife, x);
    } else if x.dir == 2 {
      PIx1CornerCovers(g, ifs, ife, x);
    } else {
      PIx1EdgeCovers(g, ifs, ife, x);
    }
    DstsMember(PeriodicIx1Frame(g, x.ifr), Copy(x, Mirror(g, Ix1, x)));
  }

  /** `periodic_ix1_rad` leaves the grid `s` as `Fill(Ix1, s, s)`: every
      slot of the inner x1 face holds its mirror's value, every other slot
      is unchanged. */
  lemma PeriodicIx1Fills(g: Grid, ifs: int, ife: int, s: Store)
    requires Valid(g) && Total(s)
    ensures Recvd(PeriodicIx1(g, ifs, ife)) == []
    ensures Exec(s, PeriodicIx1(g, ifs, ife), []) == Fill(g, Ix1, ifs, ife, s, s)
  {
    forall ifr, st | ifs <= ifr <= ife && st in PeriodicIx1Body(g)(ifr)
      ensures MirrorMove(g, Ix1, ifs, ife, st)
    {
      PeriodicIx1FrameMoves(g, ifs, ife, ifr);
    }
    forall x | WriteSet(g, Ix1, ifs, ife)(x) ensures x in Dsts(PeriodicIx1Body(g)(x.ifr)) {
      PeriodicIx1FrameCovers(g, ifs, ife, x);
    }
    PeriodicLoopFills(g, Ix1, ifs, ife, PeriodicIx1Body(g), s);
  }

  // =====================================================================
  // pack_ox1_rad: what the outer x1 face sends to the inner x1 face
  // of its neighbour

  function PackOx1(g: Grid, ifs: int, ife: int): seq<Loc>
  {
    Loop1(ifs, ife, PackOx1Body(g))
  }

  function PackOx1Body(g: Grid): int -> seq<Loc>
  {
    ifr => Run(PackOx1Nests(g, ifr))
  }

  function PackOx1Nests(g: Grid, ifr: int): seq<Nest<Loc>>
  {
    [Nest2(g.kS, g.kE, g.jS, g.jE, X1Cells(g, ifr, g.iE)),
     Nest3(g.kS, g.kE, g.jS, g.jE, 0, g.nang - 1, SOx1Ghost(g, ifr)),
     if g.noct > 2 then Nest2(g.kS, g.kE, 0, g.nang - 1, SOx1Corner(g, ifr)) else Skip,
     if g.noct == 8 then Nest2(g.jS, g.jE, 0, g.nang - 1, SOx1Edge(g, ifr)) else Skip]
  }

  function SOx1Ghost(g: Grid, ifr: int): (int, int, int) -> seq<Loc>
  {
    (k, j, m) =>
      [Imu(Right, 1, ifr, k, j, 0, m)] +
      (if g.noct > 2 then
         [Imu(Right, 1, ifr, k, j, 2, m)] +
         (if g.noct == 8 then [Imu(Right, 1, ifr, k, j, 4, m), Imu(Right, 1, ifr, k, j, 6, m)] else [])
       else [])
  }

  function SOx1Corner(g: Grid, ifr: int): (int, int) -> seq<Loc>
  {
    (k, m) =>
      [Imu(Left, 2, ifr, k, g.iE, 3, m), Imu(Right, 2, ifr, k, g.iE, 1, m)] +
      (if g.noct == 8 then [Imu(Left, 2, ifr, k, g.iE, 7, m), Imu(Right, 2, ifr, k, g.iE, 5, m)] else [])
  }

  function SOx1Edge(g: Grid, ifr: int): (int, int) -> seq<Loc>
  {
    (j, m) =>
      [Imu(Left, 3, ifr, j, g.iE, 5, m), Imu(Left, 3, ifr, j, g.iE, 7, m),
       Imu(Right, 3, ifr, j, g.iE, 1, m), Imu(Right, 3, ifr, j, g.iE, 3, m)]
  }

  // =====================================================================
  // unpack_ix1_rad: each pass receives into `S`, `H`, the x1 ghost
  // intensities and the corner and edge octants whose x1 cosine points
  // into the grid, then copies the other corner and edge octants from the
  // x1 ghost intensities just received

  function UnpackIx1(g: Grid, ifs: int, ife: int): seq<Step>
  {
    Unpacking(ifs, ife, UnpackIx1RecvBody(g), UnpackIx1CopyBody(g))
  }

  function UnpackIx1RecvBody(g: Grid): int -> seq<Loc>
  {
    ifr => Run(UnpackIx1RecvNests(g, ifr))
  }

  function UnpackIx1CopyBody(g: Grid): int -> seq<Step>
  {
    ifr => Run(UnpackIx1CopyNests(g, ifr))
  }

  function UnpackIx1RecvNests(g: Grid, ifr: int): seq<Nest<Loc>>
  {
    [Nest2(g.kS, g.kE, g.jS, g.jE, X1Cells(g, ifr, g.iS - 1)),
     Nest3(g.kS, g.kE, g.jS, g.jE, 0, g.nang - 1, UIx1Ghost(g, ifr)),
     if g.noct > 2 then Nest2(g.kS, g.kE, 0, g.nang - 1, UIx1Corner(g, ifr)) else Skip,
     if g.noct == 8 then Nest2(g.jS, g.jE, 0, g.nang - 1, UIx1Edge(g, ifr)) else Skip]
  }

  function UnpackIx1CopyNests(g: Grid, ifr: int): seq<Nest<Step>>
  {
    [if g.noct > 2 then Nest2(g.kS, g.kE, 0, g.nang - 1, UIx1CornerCopy(g, ifr)) else Skip,
     if g.noct == 8 then Nest2(g.jS, g.jE, 0, g.nang - 1, UIx1EdgeCopy(g, ifr)) else Skip]
  }

  function UIx1Ghost(g: Grid, ifr: int): (int, int, int) -> seq<Loc>
  {
    (k, j, m) =>
      [Ghst(Left, 1, ifr, k, j, 0, m)] +
      (if g.noct > 2 then
         [Ghst(Left, 1, ifr, k, j, 2, m)] +
         (if g.noct == 8 then [Ghst(Left, 1, ifr, k, j, 4, m), Ghst(Left, 1, ifr, k, j, 6, m)] else [])
       else [])
  }

  function UIx1Corner(g: Grid, ifr: int): (int, int) -> seq<Loc>
  {
    (k, m) =>
      [Imu(Left, 2, ifr, k, g.iS - 1, 3, m), Imu(Right, 2, ifr, k, g.iS - 1, 1, m)] +
      (if g.noct == 8 then [Imu(Left, 2, ifr, k, g.iS - 1, 7, m), Imu(Right, 2, ifr, k, g.iS - 1, 5, m)] else [])
  }

  function UIx1Edge(g: Grid, ifr: int): (int, int) -> seq<Loc>
  {
    (j, m) =>
      [Imu(Left, 3, ifr, j, g.iS - 1, 5, m), Imu(Left, 3, ifr, j, g.iS - 1, 7, m),
       Imu(Right, 3, ifr, j, g.iS - 1, 1, m), Imu(Right, 3, ifr, j, g.iS - 1, 3, m)]
  }

  function UIx1CornerCopy(g: Grid, ifr: int): (int, int) -> seq<Step>
  {
    (k, m) =>
      var il, jl, ju := g.iS - 1, g.jS, g.jE;
      [Copy(Imu(Left, 2, ifr, k, il, 2, m), Ghst(Left, 1, ifr, k, jl, 2, m)),
       Copy(Imu(Right, 2, ifr, k, il, 0, m), Ghst(Left, 1, ifr, k, ju, 0, m))] +
      (if g.noct == 8 then
         [Copy(Imu(Left, 2, ifr, k, il, 6, m), Ghst(Left, 1, ifr, k, jl, 6, m)),
          Copy(Imu(Right, 2, ifr, k, il, 4, m), Ghst(Left, 1, ifr, k, ju, 4, m))]
       else [])
  }

  function UIx1EdgeCopy(g: Grid, ifr: int): (int, int) -> seq<Step>
  {
    (j, m) =>
      var il, kl, ku := g.iS - 1, g.kS, g.kE;
      [Copy(Imu(Left, 3, ifr, j, il, 4, m), Ghst(Left, 1, ifr, kl, j, 4, m)),
       Copy(Imu(Left, 3, ifr, j, il, 6, m), Ghst(Left, 1, ifr, kl, j, 6, m)),
       Copy(Imu(Right, 3, ifr, j, il, 0, m), Ghst(Left, 1, ifr, ku, j, 0, m)),
       Copy(Imu(Right, 3, ifr, j, il, 2, m), Ghst(Left, 1, ifr, ku, j, 2, m))]
  }

  // ---------------------------------------------------------------------
  // What unpack_ix1_rad receives lines up, double by double, with the
  // mirror slots pack_ox1_rad sends.

  lemma Ox1ToIx1CellPairwise(g: Grid, ifr: int, k: int, j: int)
    ensures Pairwise(X1Cells(g, ifr, g.iS - 1)(k, j), X1Cells(g, ifr, g.iE)(k, j), MirrorRel(g, Ix1))
  {
    var rel := MirrorRel(g, Ix1);
    assert Mirror(g, Ix1, S(ifr, k, j, g.iS - 1)) == S(ifr, k, j, g.iE);
    forall n | 0 <= n < g.nDim ensures rel(H(ifr, k, j, g.iS - 1, n), H(ifr, k, j, g.iE, n)) {
      assert Mirror(g, Ix1, H(ifr, k, j, g.iS - 1, n)) == H(ifr, k, j, g.iE, n);
    }
    CellPairwise(g.nDim, ifr, k, j, g.iS - 1, k, j, g.iE, rel);
  }

  lemma Ox1ToIx1GhostPairwise(g: Grid, ifr: int, k: int, j: int, m: int)
    ensures Pairwise(UIx1Ghost(g, ifr)(k, j, m), SOx1Ghost(g, ifr)(k, j, m), MirrorRel(g, Ix1))
  {
    var u, p := UIx1Ghost(g, ifr)(k, j, m), SOx1Ghost(g, ifr)(k, j, m);
    forall t | 0 <= t < |u| ensures MirrorRel(g, Ix1)(u[t], p[t]) {
      assert p[t] == Mirror(g, Ix1, u[t]);
    }
  }

  lemma Ox1ToIx1CornerPairwise(g: Grid, ifr: int, k: int, m: int)
    ensures Pairwise(UIx1Corner(g, ifr)(k, m), SOx1Corner(g, ifr)(k, m), MirrorRel(g, Ix1))
  {
    var u, p := UIx1Corner(g, ifr)(k, m), SOx1Corner(g, ifr)(k, m);
    forall t | 0 <= t < |u| ensures MirrorRel(g, Ix1)(u[t], p[t]) {
      assert p[t] == Mirror(g, Ix1, u[t]);
    }
  }

  lemma Ox1ToIx1EdgePairwise(g: Grid, ifr: int, j: int, m: int)
    ensures Pairwise(UIx1Edge(g, ifr)(j, m), SOx1Edge(g, ifr)(j, m), MirrorRel(g, Ix1))
  {
    var u, p := UIx1Edge(g, ifr)(j, m), SOx1Edge(g, ifr)(j, m);
    forall t | 0 <= t < |u| ensures MirrorRel(g, Ix1)(u[t], p[t]) {
      assert p[t] == Mirror(g, Ix1, u[t]);
    }
  }

  lemma Ox1ToIx1Pairwise(g: Grid, ifr: int)
    ensures Pairwise(UnpackIx1RecvBody(g)(ifr), PackOx1Body(g)(ifr), MirrorRel(g, Ix1))
  {
    var rel := MirrorRel(g, Ix1);
    var us, ps := UnpackIx1RecvNests(g, ifr), PackOx1Nests(g, ifr);
    var il, ie := g.iS - 1, g.iE;
    forall k, j ensures Pairwise(X1Cells(g, ifr, il)(k, j), X1Cells(g, ifr, ie)(k, j), rel) {
      Ox1ToIx1CellPairwise(g, ifr, k, j);
    }
    forall k, j, m ensures Pairwise(UIx1Ghost(g, ifr)(k, j, m), SOx1Ghost(g, ifr)(k, j, m), rel) {
      Ox1ToIx1GhostPairwise(g, ifr, k, j, m);
    }
    forall k, m ensures Pairwise(UIx1Corner(g, ifr)(k, m), SOx1Corner(g, ifr)(k, m), rel) {
      Ox1ToIx1CornerPairwise(g, ifr, k, m);
    }
    forall j, m ensures Pairwise(UIx1Edge(g, ifr)(j, m), SOx1Edge(g, ifr)(j, m), rel) {
      Ox1ToIx1EdgePairwise(g, ifr, j, m);
    }
    assert NestPairwise(us[0], ps[0], rel) && NestPairwise(us[1], ps[1], rel);
    assert NestPairwise(us[2], ps[2], rel) && NestPairwise(us[3], ps[3], rel);
    RunPairwise(us, ps, rel);
  }

  // ---------------------------------------------------------------------
  // Every slot unpack_ix1_rad receives into belongs to the inner x1 face.

  lemma UIx1CellWrites(g: Grid, ifs: int, ife: int, ifr: int, k: int, j: int)
    requires ifs <= ifr <= ife && g.kS <= k <= g.kE && g.jS <= j <= g.jE
    ensures forall x :: x in X1Cells(g, ifr, g.iS - 1)(k, j) ==> WriteSet(g, Ix1, ifs, ife)(x)
  {
    forall x | x in X1Cells(g, ifr, g.iS - 1)(k, j) ensures WriteSet(g, Ix1, ifs, ife)(x) {
      var n := CellLocsPick(g.nDim, ifr, k, j, g.iS - 1, x);
    }
  }

  lemma UIx1GhostWrites(g: Grid, ifs: int, ife: int, ifr: int, k: int, j: int, m: int)
    requires ifs <= ifr <= ife && g.kS <= k <= g.kE && g.jS <= j <= g.jE && 0 <= m < g.nang
    ensures forall x :: x in UIx1Ghost(g, ifr)(k, j, m) ==> WriteSet(g, Ix1, ifs, ife)(x)
  {
  }

  lemma UIx1CornerWrites(g: Grid, ifs: int, ife: int, ifr: int, k: int, m: int)
    requires ifs <= ifr <= ife && g.kS <= k <= g.kE && 0 <= m < g.nang && g.noct > 2
    ensures forall x :: x in UIx1Corner(g, ifr)(k, m) ==> WriteSet(g, Ix1, ifs, ife)(x)
  {
  }

  lemma UIx1EdgeWrites(g: Grid, ifs: int, ife: int, ifr: int, j: int, m: int)
    requires ifs <= ifr <= ife && g.jS <= j <= g.jE && 0 <= m < g.nang && g.noct == 8
    ensures forall x :: x in UIx1Edge(g, ifr)(j, m) ==> WriteSet(g, Ix1, ifs, ife)(x)
  {
  }

  lemma UnpackIx1RecvWrites(g: Grid, ifs: int, ife: int, ifr: int)
    requires ifs <= ifr <= ife
    ensures forall x :: x in UnpackIx1RecvBody(g)(ifr) ==> WriteSet(g, Ix1, ifs, ife)(x)
  {
    var P, ns := WriteSet(g, Ix1, ifs, ife), UnpackIx1RecvNests(g, ifr);
    var il := g.iS - 1;
    forall k, j | g.kS <= k <= g.kE && g.jS <= j <= g.jE
      ensures forall x :: x in X1Cells(g, ifr, il)(k, j) ==> P(x)
    {
      UIx1CellWrites(g, ifs, ife, ifr, k, j);
    }
    forall k, j, m | g.kS <= k <= g.kE && g.jS <= j <= g.jE && 0 <= m <= g.nang - 1
      ensures forall x :: x in UIx1Ghost(g, ifr)(k, j, m) ==> P(x)
    {
      UIx1GhostWrites(g, ifs, ife, ifr, k, j, m);
    }
    forall k, m | g.noct > 2 && g.kS <= k <= g.kE && 0 <= m <= g.nang - 1
      ensures forall x :: x in UIx1Corner(g, ifr)(k, m) ==> P(x)
    {
      UIx1CornerWrites(g, ifs, ife, ifr, k, m);
    }
    forall j, m | g.noct == 8 && g.jS <= j <= g.jE && 0 <= m <= g.nang - 1
      ensures forall x :: x in UIx1Edge(g, ifr)(j, m) ==> P(x)
    {
      UIx1EdgeWrites(g, ifs, ife, ifr, j, m);
    }
    assert NestAll(ns[0], P) && NestAll(ns[1], P) && NestAll(ns[2], P) && NestAll(ns[3], P);
    RunAll(ns, P);
  }

  // ---------------------------------------------------------------------
  // Every copy of unpack_ix1_rad fills a slot of the inner x1 face from
  // an x1 ghost intensity received earlier in the same pass, and that
  // ghost intensity has the same mirror as the slot it fills.

  lemma UIx1CornerCopyReads(g: Grid, ifs: int, ife: int, ifr: int, k: int, m: int)
    requires Valid(g) && ifs <= ifr <= ife && g.kS <= k <= g.kE && 0 <= m < g.nang && g.noct > 2
    ensures forall st :: st in UIx1CornerCopy(g, ifr)(k, m) ==>
      st.Copy? && WriteSet(g, Ix1, ifs, ife)(st.dst) && Mirror(g, Ix1, st.src) == Mirror(g, Ix1, st.dst) &&
      st.src.Ghst? && g.jS <= st.src.b <= g.jE && st.src in UIx1Ghost(g, ifr)(k, st.src.b, m)
  {
  }

  lemma UIx1EdgeCopyReads(g: Grid, ifs: int, ife: int, ifr: int, j: int, m: int)
    requires Valid(g) && ifs <= ifr <= ife && g.jS <= j <= g.jE && 0 <= m < g.nang && g.noct == 8
    ensures forall st :: st in UIx1EdgeCopy(g, ifr)(j, m) ==>
      st.Copy? && WriteSet(g, Ix1, ifs, ife)(st.dst) && Mirror(g, Ix1, st.src) == Mirror(g, Ix1, st.dst) &&
      st.src.Ghst? && g.kS <= st.src.a <= g.kE && st.src in UIx1Ghost(g, ifr)(st.src.a, j, m)
  {
  }

  /** A slot of the ghost nest is received by the pass. */
  lemma UIx1GhostIn(g: Grid, ifr: int, k: int, j: int, m: int, x: Loc)
    requires g.kS <= k <= g.kE && g.jS <= j <= g.jE && 0 <= m < g.nang && x in UIx1Ghost(g, ifr)(k, j, m)
    ensures x in UnpackIx1RecvBody(g)(ifr)
  {
    RunHas3(UnpackIx1RecvNests(g, ifr), 1, k, j, m, x);
  }

  lemma UnpackIx1CopiesRead(g: Grid, ifs: int, ife: int, ifr: int)
    requires Valid(g) && ifs <= ifr <= ife
    ensures forall st :: st in UnpackIx1CopyBody(g)(ifr) ==>
      st.Copy? && WriteSet(g, Ix1, ifs, ife)(st.dst) && st.src in UnpackIx1RecvBody(g)(ifr) &&
      Mirror(g, Ix1, st.src) == Mirror(g, Ix1, st.dst)
  {
    var P := (st: Step) => st.Copy? && WriteSet(g, Ix1, ifs, ife)(st.dst) && st.src in UnpackIx1RecvBody(g)(ifr) &&
                           Mirror(g, Ix1, st.src) == Mirror(g, Ix1, st.dst);
    var ns := UnpackIx1CopyNests(g, ifr);
    forall k, m, st | g.noct > 2 && g.kS <= k <= g.kE && 0 <= m <= g.nang - 1 && st in UIx1CornerCopy(g, ifr)(k, m)
      ensures P(st)
    {
      UIx1CornerCopyReads(g, ifs, ife, ifr, k, m);
      UIx1GhostIn(g, ifr, k, st.src.b, m, st.src);
    }
    forall j, m, st | g.noct == 8 && g.jS <= j <= g.jE && 0 <= m <= g.nang - 1 && st in UIx1EdgeCopy(g, ifr)(j, m)
      ensures P(st)
    {
      UIx1EdgeCopyReads(g, ifs, ife, ifr, j, m);
      UIx1GhostIn(g, ifr, st.src.a, j, m, st.src);
    }
    assert NestAll(ns[0], P) && NestAll(ns[1], P);
    RunAll(ns, P);
  }

  // ---------------------------------------------------------------------
  // Every slot of the inner x1 face is written by the pass for its
  // frequency: received, or (the corner and edge octants whose x1 cosine
  // points out of the grid) copied.

  lemma UIx1CellCovers(g: Grid, ifs: int, ife: int, x: Loc)
    requires WriteSet(g, Ix1, ifs, ife)(x) && (x.S? || x.H?)
    ensures x in UnpackIx1RecvBody(g)(x.ifr)
  {
    CellLocsCover(g.nDim, x.ifr, x.k, x.j, x.i, if x.H? then x.n else 0);
    RunHas2(UnpackIx1RecvNests(g, x.ifr), 0, x.k, x.j, x);
  }

  lemma UIx1GhostCovers(g: Grid, ifs: int, ife: int, x: Loc)
    requires WriteSet(g, Ix1, ifs, ife)(x) && x.Ghst?
    ensures x in UnpackIx1RecvBody(g)(x.ifr)
  {
    UIx1GhostIn(g, x.ifr, x.a, x.b, x.m, x);
  }

  lemma UIx1CornerCovers(g: Grid, ifs: int, ife: int, x: Loc)
    requires WriteSet(g, Ix1, ifs, ife)(x) && x.Imu? && x.dir == 2 && x.oct % 2 == 1
    ensures x in UnpackIx1RecvBody(g)(x.ifr)
  {
    RunHas2(UnpackIx1RecvNests(g, x.ifr), 2, x.a, x.m, x);
  }

  lemma UIx1EdgeCovers(g: Grid, ifs: int, ife: int, x: Loc)
    requires WriteSet(g, Ix1, ifs, ife)(x) && x.Imu? && x.dir != 2 && x.oct % 2 == 1
    ensures x in UnpackIx1RecvBody(g)(x.ifr)
  {
    RunHas2(UnpackIx1RecvNests(g, x.ifr), 3, x.a, x.m, x);
  }

  lemma UIx1CornerCopyAt(g: Grid, ifs: int, ife: int, x: Loc) returns (st: Step)
    requires WriteSet(g, Ix1, ifs, ife)(x) && x.Imu? && x.dir == 2 && x.oct % 2 == 0
    ensures g.noct > 2 && g.kS <= x.a <= g.kE && 0 <= x.m < g.nang
    ensures st.dst == x && st in UIx1CornerCopy(g, x.ifr)(x.a, x.m)
  {
    var l := UIx1CornerCopy(g, x.ifr)(x.a, x.m);
    st := l[if x.side == Left then (if x.oct == 2 then 0 else 2) else (if x.oct == 0 then 1 else 3)];
  }

  lemma UIx1CornerCopyCovers(g: Grid, ifs: int, ife: int, x: Loc)
    requires WriteSet(g, Ix1, ifs, ife)(x) && x.Imu? && x.dir == 2 && x.oct % 2 == 0
    ensures x in Dsts(UnpackIx1CopyBody(g)(x.ifr))
  {
    var st := UIx1CornerCopyAt(g, ifs, ife, x);
    RunHas2(UnpackIx1CopyNests(g, x.ifr), 0, x.a, x.m, st);
    DstsMember(UnpackIx1CopyBody(g)(x.ifr), st);
  }

  lemma UIx1EdgeCopyAt(g: Grid, ifs: int, ife: int, x: Loc) returns (st: Step)
    requires WriteSet(g, Ix1, ifs, ife)(x) && x.Imu? && x.dir != 2 && x.oct % 2 == 0
    ensures g.noct == 8 && g.jS <= x.a <= g.jE && 0 <= x.m < g.nang
    ensures st.dst == x && st in UIx1EdgeCopy(g, x.ifr)(x.a, x.m)
  {
    var l := UIx1EdgeCopy(g, x.ifr)(x.a, x.m);
    st := l[if x.side == Left then (if x.oct == 4 then 0 else 1) else (if x.oct == 0 then 2 else 3)];
  }

  lemma UIx1EdgeCopyCovers(g: Grid, ifs: int, ife: int, x: Loc)
    requires WriteSet(g, Ix1, ifs, ife)(x) && x.Imu? && x.dir != 2 && x.oct % 2 == 0
    ensures x in Dsts(UnpackIx1CopyBody(g)(x.ifr))
  {
    var st := UIx1EdgeCopyAt(g, ifs, ife, x);
    RunHas2(UnpackIx1CopyNests(g, x.ifr), 1, x.a, x.m, st);
    DstsMember(UnpackIx1CopyBody(g)(x.ifr), st);
  }

  lemma UnpackIx1Covers(g: Grid, ifs: int, ife: int, x: Loc)
    requires WriteSet(g, Ix1, ifs, ife)(x)
    ensures x in UnpackIx1RecvBody(g)(x.ifr) || x in Dsts(UnpackIx1CopyBody(g)(x.ifr))
  {
    if x.S? || x.H? {
      UIx1CellCovers(g, ifs, ife, x);
    } else if x.Ghst? {
      UIx1GhostCovers(g, ifs, ife, x);
    } else if x.oct % 2 == 1 {
      if x.dir == 2 {
        UIx1CornerCovers(g, ifs, ife, x);
      } else {
        UIx1EdgeCovers(g, ifs, ife, x);
      }
    } else if x.dir == 2 {
      UIx1CornerCopyCovers(g, ifs, ife, x);
    } else {
      UIx1EdgeCopyCovers(g, ifs, ife, x);
    }
  }

  /** The inner x1 exchange: unpack_ix1_rad run on the grid `r` over the
      buffer pack_ox1_rad filled from the neighbour's grid `s` consumes
      the whole buffer and leaves `Fill(Ix1, r, s)`: every slot of the
      inner x1 face holds the neighbour's mirror value, every other slot
      of `r` is unchanged. */
  lemma ExchangeIx1Fills(g: Grid, ifs: int, ife: int, r: Store, s: Store)
    requires Valid(g) && Total(r)
    ensures |Recvd(UnpackIx1(g, ifs, ife))| == |PackOx1(g, ifs, ife)|
    ensures Exec(r, UnpackIx1(g, ifs, ife), Read(s, PackOx1(g, ifs, ife))) == Fill(g, Ix1, ifs, ife, r, s)
  {
    forall ifr | ifs <= ifr <= ife
      ensures Pairwise(UnpackIx1RecvBody(g)(ifr), PackOx1Body(g)(ifr), MirrorRel(g, Ix1))
      ensures forall x :: x in UnpackIx1RecvBody(g)(ifr) ==> WriteSet(g, Ix1, ifs, ife)(x)
      ensures forall st :: st in UnpackIx1CopyBody(g)(ifr) ==>
        st.Copy? && WriteSet(g, Ix1, ifs, ife)(st.dst) && st.src in UnpackIx1RecvBody(g)(ifr) &&
        Mirror(g, Ix1, st.src) == Mirror(g, Ix1, st.dst)
    {
      Ox1ToIx1Pairwise(g, ifr);
      UnpackIx1RecvWrites(g, ifs, ife, ifr);
      UnpackIx1CopiesRead(g, ifs, ife, ifr);
    }
    forall x | WriteSet(g, Ix1, ifs, ife)(x)
      ensures x in UnpackIx1RecvBody(g)(x.ifr) || x in Dsts(UnpackIx1CopyBody(g)(x.ifr))
    {
      UnpackIx1Covers(g, ifs, ife, x);
    }
    UnpackLoopFills(g, Ix1, ifs, ife, UnpackIx1RecvBody(g), UnpackIx1CopyBody(g), PackOx1Body(g), r, s);
  }

  // =====================================================================
  // periodic_ox1_rad

  function PeriodicOx1(g: Grid, ifs: int, ife: int): seq<Step>
  {
    Loop1(ifs, ife, PeriodicOx1Body(g))
  }

  function PeriodicOx1Body(g: Grid): int -> seq<Step>
  {
    ifr => PeriodicOx1Frame(g, ifr)
  }

  /** One pass of the `ifr` loop. */
  function PeriodicOx1Frame(g: Grid, ifr: int): seq<Step>
  {
    Run(PeriodicOx1Nests(g, ifr))
  }

  /** The pass's loop nests: `S` and `H`, the x1 ghost intensities, and
      (for more than two octants) the corners and (for eight) the edges. */
  function PeriodicOx1Nests(g: Grid, ifr: int): seq<Nest<Step>>
  {
    [Nest2(g.kS, g.kE, g.jS, g.jE, POx1Cell(g, ifr)),
     Nest3(g.kS, g.kE, g.jS, g.jE, 0, g.nang - 1, POx1Ghost(g, ifr)),
     if g.noct > 2 then Nest2(g.kS, g.kE, 0, g.nang - 1, POx1Corner(g, ifr)) else Skip,
     if g.noct == 8 then Nest2(g.jS, g.jE, 0, g.nang - 1, POx1Edge(g, ifr)) else Skip]
  }

  function POx1Cell(g: Grid, ifr: int): (int, int) -> seq<Step>
  {
    (k, j) => CellCopies(g.nDim, ifr, k, j, g.iE + 1, k, j, g.iS)
  }

  /** `Ghstr1i` from `l1imu`. */
  function POx1Ghost(g: Grid, ifr: int): (int, int, int) -> seq<Step>
  {
    (k, j, m) =>
      [Copy(Ghst(Right, 1, ifr, k, j, 1, m), Imu(Left, 1, ifr, k, j, 1, m))] +
      (if g.noct > 2 then
         [Copy(Ghst(Right, 1, ifr, k, j, 3, m), Imu(Left, 1, ifr, k, j, 3, m))] +
         (if g.noct == 8 then
            [Copy(Ghst(Right, 1, ifr, k, j, 5, m), Imu(Left, 1, ifr, k, j, 5, m)),
             Copy(Ghst(Right, 1, ifr, k, j, 7, m), Imu(Left, 1, ifr, k, j, 7, m))]
          else [])
       else [])
  }

  /** Octants whose x1 cosine points away from the face come from the
      opposite column; the others from `l1imu` at the x2 edge. */
  function POx1Corner(g: Grid, ifr: int): (int, int) -> seq<Step>
  {
    (k, m) =>
      var iu, is0, jl, ju := g.iE + 1, g.iS, g.jS, g.jE;
      [Copy(Imu(Left, 2, ifr, k, iu, 2, m), Imu(Left, 2, ifr, k, is0, 2, m)),
       Copy(Imu(Left, 2, ifr, k, iu, 3, m), Imu(Left, 1, ifr, k, jl, 3, m)),
       Copy(Imu(Right, 2, ifr, k, iu, 0, m), Imu(Right, 2, ifr, k, is0, 0, m)),
       Copy(Imu(Right, 2, ifr, k, iu, 1, m), Imu(Left, 1, ifr, k, ju, 1, m))] +
      (if g.noct == 8 then
         [Copy(Imu(Left, 2, ifr, k, iu, 6, m), Imu(Left, 2, ifr, k, is0, 6, m)),
          Copy(Imu(Left, 2, ifr, k, iu, 7, m), Imu(Left, 1, ifr, k, jl, 7, m)),
          Copy(Imu(Right, 2, ifr, k, iu, 4, m), Imu(Right, 2, ifr, k, is0, 4, m)),
          Copy(Imu(Right, 2, ifr, k, iu, 5, m), Imu(Left, 1, ifr, k, ju, 5, m))]
       else [])
  }

  function POx1Edge(g: Grid, ifr: int): (int, int) -> seq<Step>
  {
    (j, m) =>
      var iu, is0, kl, ku := g.iE + 1, g.iS, g.kS, g.kE;
      [Copy(Imu(Left, 3, ifr, j, iu, 4, m), Imu(Left, 3, ifr, j, is0, 4, m)),
       Copy(Imu(Left, 3, ifr, j, iu, 5, m), Imu(Left, 1, ifr, kl, j, 5, m)),
       Copy(Imu(Left, 3, ifr, j, iu, 6, m), Imu(Left, 3, ifr, j, is0, 6, m)),
       Copy(Imu(Left, 3, ifr, j, iu, 7, m), Imu(Left, 1, ifr, kl, j, 7, m)),
       Copy(Imu(Right, 3, ifr, j, iu, 0, m), Imu(Right, 3, ifr, j, is0, 0, m)),
       Copy(Imu(Right, 3, ifr, j, iu, 1, m), Imu(Left, 1, ifr, ku, j, 1, m)),
       Copy(Imu(Right, 3, ifr, j, iu, 2, m), Imu(Right, 3, ifr, j, is0, 2, m)),
       Copy(Imu(Right, 3, ifr, j, iu, 3, m), Imu(Left, 1, ifr, ku, j, 3, m))]
  }

  // Every move of periodic_ox1_rad copies a slot's mirror, which the
  // routine does not write, into a slot of the outer x1 face.

  lemma POx1CellMoves(g: Grid, ifs: int, ife: int, ifr: int, k: int, j: int)
    requires Valid(g) && ifs <= ifr <= ife && g.kS <= k <= g.kE && g.jS <= j <= g.jE
    ensures forall st :: st in POx1Cell(g, ifr)(k, j) ==> MirrorMove(g, Ox1, ifs, ife, st)
  {
    forall st | st in POx1Cell(g, ifr)(k, j) ensures MirrorMove(g, Ox1, ifs, ife, st) {
      var n := CellCopiesPick(g.nDim, ifr, k, j, g.iE + 1, k, j, g.iS, st);
    }
  }

  lemma POx1GhostMoves(g: Grid, ifs: int, ife: int, ifr: int, k: int, j: int, m: int)
    requires ifs <= ifr <= ife && g.kS <= k <= g.kE && g.jS <= j <= g.jE && 0 <= m < g.nang
    ensures forall st :: st in POx1Ghost(g, ifr)(k, j, m) ==> MirrorMove(g, Ox1, ifs, ife, st)
  {
  }

  lemma POx1CornerMoves(g: Grid, ifs: int, ife: int, ifr: int, k: int, m: int)
    requires Valid(g) && ifs <= ifr <= ife && g.kS <= k <= g.kE && 0 <= m < g.nang && g.noct > 2
    ensures forall st :: st in POx1Corner(g, ifr)(k, m) ==> MirrorMove(g, Ox1, ifs, ife, st)
  {
  }

  lemma POx1EdgeMoves(g: Grid, ifs: int, ife: int, ifr: int, j: int, m: int)
    requires Valid(g) && ifs <= ifr <= ife && g.jS <= j <= g.jE && 0 <= m < g.nang && g.noct == 8
    ensures forall st :: st in POx1Edge(g, ifr)(j, m) ==> MirrorMove(g, Ox1, ifs, ife, st)
  {
  }

  lemma PeriodicOx1FrameMoves(g: Grid, ifs: int, ife: int, ifr: int)
    requires Valid(g) && ifs <= ifr <= ife
    ensures forall st :: st in PeriodicOx1Frame(g, ifr) ==> MirrorMove(g, Ox1, ifs, ife, st)
  {
    var P := st => MirrorMove(g, Ox1, ifs, ife, st);
    var ns := PeriodicOx1Nests(g, ifr);
    forall k, j | g.kS <= k <= g.kE && g.jS <= j <= g.jE
      ensures forall st :: st in POx1Cell(g, ifr)(k, j) ==> P(st)
    {
      POx1CellMoves(g, ifs, ife, ifr, k, j);
    }
    forall k, j, m | g.kS <= k <= g.kE && g.jS <= j <= g.jE && 0 <= m <= g.nang - 1
      ensures forall st :: st in POx1Ghost(g, ifr)(k, j, m) ==> P(st)
    {
      POx1GhostMoves(g, ifs, ife, ifr, k, j, m);
    }
    forall k, m | g.noct > 2 && g.kS <= k <= g.kE && 0 <= m <= g.nang - 1
      ensures forall st :: st in POx1Corner(g, ifr)(k, m) ==> P(st)
    {
      POx1CornerMoves(g, ifs, ife, ifr, k, m);
    }
    forall j, m | g.noct == 8 && g.jS <= j <= g.jE && 0 <= m <= g.nang - 1
      ensures forall st :: st in POx1Edge(g, ifr)(j, m) ==> P(st)
    {
      POx1EdgeMoves(g, ifs, ife, ifr, j, m);
    }
    assert NestAll(ns[0], P) && NestAll(ns[1], P) && NestAll(ns[2], P) && NestAll(ns[3], P);
    RunAll(ns, P);
  }

  // Every slot of the outer x1 face is the target of a move of the pass
  // for its frequency.

  lemma POx1CellCovers(g: Grid, ifs: int, ife: int, x: Loc)
    requires WriteSet(g, Ox1, ifs, ife)(x) && (x.S? || x.H?)
    ensures Copy(x, Mirror(g, Ox1, x)) in PeriodicOx1Frame(g, x.ifr)
  {
    CellCopiesCover(g.nDim, x.ifr, x.k, x.j, g.iE + 1, x.k, x.j, g.iS, if x.H? then x.n else 0);
    RunHas2(PeriodicOx1Nests(g, x.ifr), 0, x.k, x.j, Copy(x, Mirror(g, Ox1, x)));
  }

  lemma POx1GhostCovers(g: Grid, ifs: int, ife: int, x: Loc)
    requires WriteSet(g, Ox1, ifs, ife)(x) && x.Ghst?
    ensures Copy(x, Mirror(g, Ox1, x)) in PeriodicOx1Frame(g, x.ifr)
  {
    RunHas3(PeriodicOx1Nests(g, x.ifr), 1, x.a, x.b, x.m, Copy(x, Mirror(g, Ox1, x)));
  }

  lemma POx1CornerCovers(g: Grid, ifs: int, ife: int, x: Loc)
    requires WriteSet(g, Ox1, ifs, ife)(x) && x.Imu? && x.dir == 2
    ensures Copy(x, Mirror(g, Ox1, x)) in PeriodicOx1Frame(g, x.ifr)
  {
    RunHas2(PeriodicOx1Nests(g, x.ifr), 2, x.a, x.m, Copy(x, Mirror(g, Ox1, x)));
  }

  lemma POx1EdgeCovers(g: Grid, ifs: int, ife: int, x: Loc)
    requires WriteSet(g, Ox1, ifs, ife)(x) && x.Imu? && x.dir != 2
    ensures Copy(x, Mirror(g, Ox1, x)) in PeriodicOx1Frame(g, x.ifr)
  {
    RunHas2(PeriodicOx1Nests(g, x.ifr), 3, x.a, x.m, Copy(x, Mirror(g, Ox1, x)));
  }

  lemma PeriodicOx1FrameCovers(g: Grid, ifs: int, ife: int, x: Loc)
    requires WriteSet(g, Ox1, ifs, ife)(x)
    ensures x in Dsts(PeriodicOx1Frame(g, x.ifr))
  {
    if x.S? || x.H? {
      POx1CellCovers(g, ifs, ife, x);
    } else if x.Ghst? {
      POx1GhostCovers(g, ifs, ife, x);
    } else if x.dir == 2 {
      POx1CornerCovers(g, ifs, ife, x);
    } else {
      POx1EdgeCovers(g, ifs, ife, x);
    }
    DstsMember(PeriodicOx1Frame(g, x.ifr), Copy(x, Mirror(g, Ox1, x)));
  }

  /** `periodic_ox1_rad` leaves the grid `s` as `Fill(Ox1, s, s)`: every
      slot of the outer x1 face holds its mirror's value, every other slot
      is unchanged. */
  lemma PeriodicOx1Fills(g: Grid, ifs: int, ife: int, s: Store)
    requires Valid(g) && Total(s)
    ensures Recvd(PeriodicOx1(g, ifs, ife)) == []
    ensures Exec(s, PeriodicOx1(g, ifs, ife), []) == Fill(g, Ox1, ifs, ife, s, s)
  {
    forall ifr, st | ifs <= ifr <= ife && st in PeriodicOx1Body(g)(ifr)
      ensures MirrorMove(g, Ox1, ifs, ife, st)
    {
      PeriodicOx1FrameMoves(g, ifs, ife, ifr);
    }
    forall x | WriteSet(g, Ox1, ifs, ife)(x) ensures x in Dsts(PeriodicOx1Body(g)(x.ifr)) {
      PeriodicOx1FrameCovers(g, ifs, ife, x);
    }
    PeriodicLoopFills(g, Ox1, ifs, ife, PeriodicOx1Body(g), s);
  }

  // =====================================================================
  // pack_ix1_rad: what the inner x1 face sends to the outer x1 face
  // of its neighbour

  function PackIx1(g: Grid, ifs: int, ife: int): seq<Loc>
  {
    Loop1(ifs, ife, PackIx1Body(g))
  }

  function PackIx1Body(g: Grid): int -> seq<Loc>
  {
    ifr => Run(PackIx1Nests(g, ifr))
  }

  function PackIx1Nests(g: Grid, ifr: int): seq<Nest<Loc>>
  {
    [Nest2(g.kS, g.kE, g.jS, g.jE, X1Cells(g, ifr, g.iS)),
     Nest3(g.kS, g.kE, g.jS, g.jE, 0, g.nang - 1, SIx1Ghost(g, ifr)),
     if g.noct > 2 then Nest2(g.kS, g.kE, 0, g.nang - 1, SIx1Corner(g, ifr)) else Skip,
     if g.noct == 8 then Nest2(g.jS, g.jE, 0, g.nang - 1, SIx1Edge(g, ifr)) else Skip]
  }

  function SIx1Ghost(g: Grid, ifr: int): (int, int, int) -> seq<Loc>
  {
    (k, j, m) =>
      [Imu(Left, 1, ifr, k, j, 1, m)] +
      (if g.noct > 2 then
         [Imu(Left, 1, ifr, k, j, 3, m)] +
         (if g.noct == 8 then [Imu(Left, 1, ifr, k, j, 5, m), Imu(Left, 1, ifr, k, j, 7, m)] else [])
       else [])
  }

  function SIx1Corner(g: Grid, ifr: int): (int, int) -> seq<Loc>
  {
    (k, m) =>
      [Imu(Left, 2, ifr, k, g.iS, 2, m), Imu(Right, 2, ifr, k, g.iS, 0, m)] +
      (if g.noct == 8 then [Imu(Left, 2, ifr, k, g.iS, 6, m), Imu(Right, 2, ifr, k, g.iS, 4, m)] else [])
  }

  function SIx1Edge(g: Grid, ifr: int): (int, int) -> seq<Loc>
  {
    (j, m) =>
      [Imu(Left, 3, ifr, j, g.iS, 4, m), Imu(Left, 3, ifr, j, g.iS, 6, m),
       Imu(Right, 3, ifr, j, g.iS, 0, m), Imu(Right, 3, ifr, j, g.iS, 2, m)]
  }

  // =====================================================================
  // unpack_ox1_rad: each pass receives into `S`, `H`, the x1 ghost
  // intensities and the corner and edge octants whose x1 cosine points
  // into the grid, then copies the other corner and edge octants from the
  // x1 ghost intensities just received

  function UnpackOx1(g: Grid, ifs: int, ife: int): seq<Step>
  {
    Unpacking(ifs, ife, UnpackOx1RecvBody(g), UnpackOx1CopyBody(g))
  }

  function UnpackOx1RecvBody(g: Grid): int -> seq<Loc>
  {
    ifr => Run(UnpackOx1RecvNests(g, ifr))
  }

  function UnpackOx1CopyBody(g: Grid): int -> seq<Step>
  {
    ifr => Run(UnpackOx1CopyNests(g, ifr))
  }

  function UnpackOx1RecvNests(g: Grid, ifr: int): seq<Nest<Loc>>
  {
    [Nest2(g.kS, g.kE, g.jS, g.jE, X1Cells(g, ifr, g.iE + 1)),
     Nest3(g.kS, g.kE, g.jS, g.jE, 0, g.nang - 1, UOx1Ghost(g, ifr)),
     if g.noct > 2 then Nest2(g.kS, g.kE, 0, g.nang - 1, UOx1Corner(g, ifr)) else Skip,
     if g.noct == 8 then Nest2(g.jS, g.jE, 0, g.nang - 1, UOx1Edge(g, ifr)) else Skip]
  }

  function UnpackOx1CopyNests(g: Grid, ifr: int): seq<Nest<Step>>
  {
    [if g.noct > 2 then Nest2(g.kS, g.kE, 0, g.nang - 1, UOx1CornerCopy(g, ifr)) else Skip,
     if g.noct == 8 then Nest2(g.jS, g.jE, 0, g.nang - 1, UOx1EdgeCopy(g, ifr)) else Skip]
  }

  function UOx1Ghost(g: Grid, ifr: int): (int, int, int) -> seq<Loc>
  {
    (k, j, m) =>
      [Ghst(Right, 1, ifr, k, j, 1, m)] +
      (if g.noct > 2 then
         [Ghst(Right, 1, ifr, k, j, 3, m)] +
         (if g.noct == 8 then [Ghst(Right, 1, ifr, k, j, 5, m), Ghst(Right, 1, ifr, k, j, 7, m)] else [])
       else [])
  }

  function UOx1Corner(g: Grid, ifr: int): (int, int) -> seq<Loc>
  {
    (k, m) =>
      [Imu(Left, 2, ifr, k, g.iE + 1, 2, m), Imu(Right, 2, ifr, k, g.iE + 1, 0, m)] +
      (if g.noct == 8 then [Imu(Left, 2, ifr, k, g.iE + 1, 6, m), Imu(Right, 2, ifr, k, g.iE + 1, 4, m)] else [])
  }

  function UOx1Edge(g: Grid, ifr: int): (int, int) -> seq<Loc>
  {
    (j, m) =>
      [Imu(Left, 3, ifr, j, g.iE + 1, 4, m), Imu(Left, 3, ifr, j, g.iE + 1, 6, m),
       Imu(Right, 3, ifr, j, g.iE + 1, 0, m), Imu(Right, 3, ifr, j, g.iE + 1, 2, m)]
  }

  function UOx1CornerCopy(g: Grid, ifr: int): (int, int) -> seq<Step>
  {
    (k, m) =>
      var iu, jl, ju := g.iE + 1, g.jS, g.jE;
      [Copy(Imu(Left, 2, ifr, k, iu, 3, m), Ghst(Right, 1, ifr, k, jl, 3, m)),
       Copy(Imu(Right, 2, ifr, k, iu, 1, m), Ghst(Right, 1, ifr, k, ju, 1, m))] +
      (if g.noct == 8 then
         [Copy(Imu(Left, 2, ifr, k, iu, 7, m), Ghst(Right, 1, ifr, k, jl, 7, m)),
          Copy(Imu(Right, 2, ifr, k, iu, 5, m), Ghst(Right, 1, ifr, k, ju, 5, m))]
       else [])
  }

  function UOx1EdgeCopy(g: Grid, ifr: int): (int, int) -> seq<Step>
  {
    (j, m) =>
      var iu, kl, ku := g.iE + 1, g.kS, g.kE;
      [Copy(Imu(Left, 3, ifr, j, iu, 5, m), Ghst(Right, 1, ifr, kl, j, 5, m)),
       Copy(Imu(Left, 3, ifr, j, iu, 7, m), Ghst(Right, 1, ifr, kl, j, 7, m)),
       Copy(Imu(Right, 3, ifr, j, iu, 1, m), Ghst(Right, 1, ifr, ku, j, 1, m)),
       Copy(Imu(Right, 3, ifr, j, iu, 3, m), Ghst(Right, 1, ifr, ku, j, 3, m))]
  }

  // ---------------------------------------------------------------------
  // What unpack_ox1_rad receives lines up, double by double, with the
  // mirror slots pack_ix1_rad sends.

  lemma Ix1ToOx1CellPairwise(g: Grid, ifr: int, k: int, j: int)
    ensures Pairwise(X1Cells(g, ifr, g.iE + 1)(k, j), X1Cells(g, ifr, g.iS)(k, j), MirrorRel(g, Ox1))
  {
    var rel := MirrorRel(g, Ox1);
    assert Mirror(g, Ox1, S(ifr, k, j, g.iE + 1)) == S(ifr, k, j, g.iS);
    forall n | 0 <= n < g.nDim ensures rel(H(ifr, k, j, g.iE + 1, n), H(ifr, k, j, g.iS, n)) {
      assert Mirror(g, Ox1, H(ifr, k, j, g.iE + 1, n)) == H(ifr, k, j, g.iS, n);
    }
    CellPairwise(g.nDim, ifr, k, j, g.iE + 1, k, j, g.iS, rel);
  }

  lemma Ix1ToOx1GhostPairwise(g: Grid, ifr: int, k: int, j: int, m: int)
    ensures Pairwise(UOx1Ghost(g, ifr)(k, j, m), SIx1Ghost(g, ifr)(k, j, m), MirrorRel(g, Ox1))
  {
    var u, p := UOx1Ghost(g, ifr)(k, j, m), SIx1Ghost(g, ifr)(k, j, m);
    forall t | 0 <= t < |u| ensures MirrorRel(g, Ox1)(u[t], p[t]) {
      assert p[t] == Mirror(g, Ox1, u[t]);
    }
  }

  lemma Ix1ToOx1CornerPairwise(g: Grid, ifr: int, k: int, m: int)
    ensures Pairwise(UOx1Corner(g, ifr)(k, m), SIx1Corner(g, ifr)(k, m), MirrorRel(g, Ox1))
  {
    var u, p := UOx1Corner(g, ifr)(k, m), SIx1Corner(g, ifr)(k, m);
    forall t | 0 <= t < |u| ensures MirrorRel(g, Ox1)(u[t], p[t]) {
      assert p[t] == Mirror(g, Ox1, u[t]);
    }
  }

  lemma Ix1ToOx1EdgePairwise(g: Grid, ifr: int, j: int, m: int)
    ensures Pairwise(UOx1Edge(g, ifr)(j, m), SIx1Edge(g, ifr)(j, m), MirrorRel(g, Ox1))
  {
    var u, p := UOx1Edge(g, ifr)(j, m), SIx1Edge(g, ifr)(j, m);
    forall t | 0 <= t < |u| ensures MirrorRel(g, Ox1)(u[t], p[t]) {
      assert p[t] == Mirror(g, Ox1, u[t]);
    }
  }

  lemma Ix1ToOx1Pairwise(g: Grid, ifr: int)
    ensures Pairwise(UnpackOx1RecvBody(g)(ifr), PackIx1Body(g)(ifr), MirrorRel(g, Ox1))
  {
    var rel := MirrorRel(g, Ox1);
    var us, ps := UnpackOx1RecvNests(g, ifr), PackIx1Nests(g, ifr);
    var iu, is0 := g.iE + 1, g.iS;
    forall k, j ensures Pairwise(X1Cells(g, ifr, iu)(k, j), X1Cells(g, ifr, is0)(k, j), rel) {
      Ix1ToOx1CellPairwise(g, ifr, k, j);
    }
    forall k, j, m ensures Pairwise(UOx1Ghost(g, ifr)(k, j, m), SIx1Ghost(g, ifr)(k, j, m), rel) {
      Ix1ToOx1GhostPairwise(g, ifr, k, j, m);
    }
    forall k, m ensures Pairwise(UOx1Corner(g, ifr)(k, m), SIx1Corner(g, ifr)(k, m), rel) {
      Ix1ToOx1CornerPairwise(g, ifr, k, m);
    }
    forall j, m ensures Pairwise(UOx1Edge(g, ifr)(j, m), SIx1Edge(g, ifr)(j, m), rel) {
      Ix1ToOx1EdgePairwise(g, ifr, j, m);
    }
    assert NestPairwise(us[0], ps[0], rel) && NestPairwise(us[1], ps[1], rel);
    assert NestPairwise(us[2], ps[2], rel) && NestPairwise(us[3], ps[3], rel);
    RunPairwise(us, ps, rel);
  }

  // ---------------------------------------------------------------------
  // Every slot unpack_ox1_rad receives into belongs to the outer x1 face.

  lemma UOx1CellWrites(g: Grid, ifs: int, ife: int, ifr: int, k: int, j: int)
    requires ifs <= ifr <= ife && g.kS <= k <= g.kE && g.jS <= j <= g.jE
    ensures forall x :: x in X1Cells(g, ifr, g.iE + 1)(k, j) ==> WriteSet(g, Ox1, ifs, ife)(x)
  {
    forall x | x in X1Cells(g, ifr, g.iE + 1)(k, j) ensures WriteSet(g, Ox1, ifs, ife)(x) {
      var n := CellLocsPick(g.nDim, ifr, k, j, g.iE + 1, x);
    }
  }

  lemma UOx1GhostWrites(g: Grid, ifs: int, ife: int, ifr: int, k: int, j: int, m: int)
    requires ifs <= ifr <= ife && g.kS <= k <= g.kE && g.jS <= j <= g.jE && 0 <= m < g.nang
    ensures forall x :: x in UOx1Ghost(g, ifr)(k, j, m) ==> WriteSet(g, Ox1, ifs, ife)(x)
  {
  }

  lemma UOx1CornerWrites(g: Grid, ifs: int, ife: int, ifr: int, k: int, m: int)
    requires ifs <= ifr <= ife && g.kS <= k <= g.kE && 0 <= m < g.nang && g.noct > 2
    ensures forall x :: x in UOx1Corner(g, ifr)(k, m) ==> WriteSet(g, Ox1, ifs, ife)(x)
  {
  }

  lemma UOx1EdgeWrites(g: Grid, ifs: int, ife: int, ifr: int, j: int, m: int)
    requires ifs <= ifr <= ife && g.jS <= j <= g.jE && 0 <= m < g.nang && g.noct == 8
    ensures forall x :: x in UOx1Edge(g, ifr)(j, m) ==> WriteSet(g, Ox1, ifs, ife)(x)
  {
  }

  lemma UnpackOx1RecvWrites(g: Grid, ifs: int, ife: int, ifr: int)
    requires ifs <= ifr <= ife
    ensures forall x :: x in UnpackOx1RecvBody(g)(ifr) ==> WriteSet(g, Ox1, ifs, ife)(x)
  {
    var P, ns := WriteSet(g, Ox1, ifs, ife), UnpackOx1RecvNests(g, ifr);
    var iu := g.iE + 1;
    forall k, j | g.kS <= k <= g.kE && g.jS <= j <= g.jE
      ensures forall x :: x in X1Cells(g, ifr, iu)(k, j) ==> P(x)
    {
      UOx1CellWrites(g, ifs, ife, ifr, k, j);
    }
    forall k, j, m | g.kS <= k <= g.kE && g.jS <= j <= g.jE && 0 <= m <= g.nang - 1
      ensures forall x :: x in UOx1Ghost(g, ifr)(k, j, m) ==> P(x)
    {
      UOx1GhostWrites(g, ifs, ife, ifr, k, j, m);
    }
    forall k, m | g.noct > 2 && g.kS <= k <= g.kE && 0 <= m <= g.nang - 1
      ensures forall x :: x in UOx1Corner(g, ifr)(k, m) ==> P(x)
    {
      UOx1CornerWrites(g, ifs, ife, ifr, k, m);
    }
    forall j, m | g.noct == 8 && g.jS <= j <= g.jE && 0 <= m <= g.nang - 1
      ensures forall x :: x in UOx1Edge(g, ifr)(j, m) ==> P(x)
    {
      UOx1EdgeWrites(g, ifs, ife, ifr, j, m);
    }
    assert NestAll(ns[0], P) && NestAll(ns[1], P) && NestAll(ns[2], P) && NestAll(ns[3], P);
    RunAll(ns, P);
  }

  // ---------------------------------------------------------------------
  // Every copy of unpack_ox1_rad fills a slot of the outer x1 face from
  // an x1 ghost intensity received earlier in the same pass, and that
  // ghost intensity has the same mirror as the slot it fills.

  lemma UOx1CornerCopyReads(g: Grid, ifs: int, ife: int, ifr: int, k: int, m: int)
    requires Valid(g) && ifs <= ifr <= ife && g.kS <= k <= g.kE && 0 <= m < g.nang && g.noct > 2
    ensures forall st :: st in UOx1CornerCopy(g, ifr)(k, m) ==>
      st.Copy? && WriteSet(g, Ox1, ifs, ife)(st.dst) && Mirror(g, Ox1, st.src) == Mirror(g, Ox1, st.dst) &&
      st.src.Ghst? && g.jS <= st.src.b <= g.jE && st.src in UOx1Ghost(g, ifr)(k, st.src.b, m)
  {
  }

  lemma UOx1EdgeCopyReads(g: Grid, ifs: int, ife: int, ifr: int, j: int, m: int)
    requires Valid(g) && ifs <= ifr <= ife && g.jS <= j <= g.jE && 0 <= m < g.nang && g.noct == 8
    ensures forall st :: st in UOx1EdgeCopy(g, ifr)(j, m) ==>
      st.Copy? && WriteSet(g, Ox1, ifs, ife)(st.dst) && Mirror(g, Ox1, st.src) == Mirror(g, Ox1, st.dst) &&
      st.src.Ghst? && g.kS <= st.src.a <= g.kE && st.src in UOx1Ghost(g, ifr)(st.src.a, j, m)
  {
  }

  /** A slot of the ghost nest is received by the pass. */
  lemma UOx1GhostIn(g: Grid, ifr: int, k: int, j: int, m: int, x: Loc)
    requires g.kS <= k <= g.kE && g.jS <= j <= g.jE && 0 <= m < g.nang && x in UOx1Ghost(g, ifr)(k, j, m)
    ensures x in UnpackOx1RecvBody(g)(ifr)
  {
    RunHas3(UnpackOx1RecvNests(g, ifr), 1, k, j, m, x);
  }

  lemma UnpackOx1CopiesRead(g: Grid, ifs: int, ife: int, ifr: int)
    requires Valid(g) && ifs <= ifr <= ife
    ensures forall st :: st in UnpackOx1CopyBody(g)(ifr) ==>
      st.Copy? && WriteSet(g, Ox1, ifs, ife)(st.dst) && st.src in UnpackOx1RecvBody(g)(ifr) &&
      Mirror(g, Ox1, st.src) == Mirror(g, Ox1, st.dst)
  {
    var P := (st: Step) => st.Copy? && WriteSet(g, Ox1, ifs, ife)(st.dst) && st.src in UnpackOx1RecvBody(g)(ifr) &&
                           Mirror(g, Ox1, st.src) == Mirror(g, Ox1, st.dst);
    var ns := UnpackOx1CopyNests(g, ifr);
    forall k, m, st | g.noct > 2 && g.kS <= k <= g.kE && 0 <= m <= g.nang - 1 && st in UOx1CornerCopy(g, ifr)(k, m)
      ensures P(st)
    {
      UOx1CornerCopyReads(g, ifs, ife, ifr, k, m);
      UOx1GhostIn(g, ifr, k, st.src.b, m, st.src);
    }
    forall j, m, st | g.noct == 8 && g.jS <= j <= g.jE && 0 <= m <= g.nang - 1 && st in UOx1EdgeCopy(g, ifr)(j, m)
      ensures P(st)
    {
      UOx1EdgeCopyReads(g, ifs, ife, ifr, j, m);
      UOx1GhostIn(g, ifr, st.src.a, j, m, st.src);
    }
    assert NestAll(ns[0], P) && NestAll(ns[1], P);
    RunAll(ns, P);
  }

  // ---------------------------------------------------------------------
  // Every slot of the outer x1 face is written by the pass for its
  // frequency: received, or (the corner and edge octants whose x1 cosine
  // points out of the grid) copied.

  lemma UOx1CellCovers(g: Grid, ifs: int, ife: int, x: Loc)
    requires WriteSet(g, Ox1, ifs, ife)(x) && (x.S? || x.H?)
    ensures x in UnpackOx1RecvBody(g)(x.ifr)
  {
    CellLocsCover(g.nDim, x.ifr, x.k, x.j, x.i, if x.H? then x.n else 0);
    RunHas2(UnpackOx1RecvNests(g, x.ifr), 0, x.k, x.j, x);
  }

  lemma UOx1GhostCovers(g: Grid, ifs: int, ife: int, x: Loc)
    requires WriteSet(g, Ox1, ifs, ife)(x) && x.Ghst?
    ensures x in UnpackOx1RecvBody(g)(x.ifr)
  {
    UOx1GhostIn(g, x.ifr, x.a, x.b, x.m, x);
  }

  lemma UOx1CornerCovers(g: Grid, ifs: int, ife: int, x: Loc)
    requires WriteSet(g, Ox1, ifs, ife)(x) && x.Imu? && x.dir == 2 && x.oct % 2 == 0
    ensures x in UnpackOx1RecvBody(g)(x.ifr)
  {
    RunHas2(UnpackOx1RecvNests(g, x.ifr), 2, x.a, x.m, x);
  }

  lemma UOx1EdgeCovers(g: Grid, ifs: int, ife: int, x: Loc)
    requires WriteSet(g, Ox1, ifs, ife)(x) && x.Imu? && x.dir != 2 && x.oct % 2 == 0
    ensures x in UnpackOx1RecvBody(g)(x.ifr)
  {
    RunHas2(UnpackOx1RecvNests(g, x.ifr), 3, x.a, x.m, x);
  }

  lemma UOx1CornerCopyAt(g: Grid, ifs: int, ife: int, x: Loc) returns (st: Step)
    requires WriteSet(g, Ox1, ifs, ife)(x) && x.Imu? && x.dir == 2 && x.oct % 2 == 1
    ensures g.noct > 2 && g.kS <= x.a <= g.kE && 0 <= x.m < g.nang
    ensures st.dst == x && st in UOx1CornerCopy(g, x.ifr)(x.a, x.m)
  {
    var l := UOx1CornerCopy(g, x.ifr)(x.a, x.m);
    st := l[if x.side == Left then (if x.oct == 3 then 0 else 2) else (if x.oct == 1 then 1 else 3)];
  }

  lemma UOx1CornerCopyCovers(g: Grid, ifs: int, ife: int, x: Loc)
    requires WriteSet(g, Ox1, ifs, ife)(x) && x.Imu? && x.dir == 2 && x.oct % 2 == 1
    ensures x in Dsts(UnpackOx1CopyBody(g)(x.ifr))
  {
    var st := UOx1CornerCopyAt(g, ifs, ife, x);
    RunHas2(UnpackOx1CopyNests(g, x.ifr), 0, x.a, x.m, st);
    DstsMember(UnpackOx1CopyBody(g)(x.ifr), st);
  }

  lemma UOx1EdgeCopyAt(g: Grid, ifs: int, ife: int, x: Loc) returns (st: Step)
    requires WriteSet(g, Ox1, ifs, ife)(x) && x.Imu? && x.dir != 2 && x.oct % 2 == 1
    ensures g.noct == 8 && g.jS <= x.a <= g.jE && 0 <= x.m < g.nang
    ensures st.dst == x && st in UOx1EdgeCopy(g, x.ifr)(x.a, x.m)
  {
    var l := UOx1EdgeCopy(g, x.ifr)(x.a, x.m);
    st := l[if x.side == Left then (if x.oct == 5 then 0 else 1) else (if x.oct == 1 then 2 else 3)];
  }

  lemma UOx1EdgeCopyCovers(g: Grid, ifs: int, ife: int, x: Loc)
    requires WriteSet(g, Ox1, ifs, ife)(x) && x.Imu? && x.dir != 2 && x.oct % 2 == 1
    ensures x in Dsts(UnpackOx1CopyBody(g)(x.ifr))
  {
    var st := UOx1EdgeCopyAt(g, ifs, ife, x);
    RunHas2(UnpackOx1CopyNests(g, x.ifr), 1, x.a, x.m, st);
    DstsMember(UnpackOx1CopyBody(g)(x.ifr), st);
  }

  lemma UnpackOx1Covers(g: Grid, ifs: int, ife: int, x: Loc)
    requires WriteSet(g, Ox1, ifs, ife)(x)
    ensures x in UnpackOx1RecvBody(g)(x.ifr) || x in Dsts(UnpackOx1CopyBody(g)(x.ifr))
  {
    if x.S? || x.H? {
      UOx1CellCovers(g, ifs, ife, x);
    } else if x.Ghst? {
      UOx1GhostCovers(g, ifs, ife, x);
    } else if x.oct % 2 == 0 {
      if x.dir == 2 {
        UOx1CornerCovers(g, ifs, ife, x);
      } else {
        UOx1EdgeCovers(g, ifs, ife, x);
      }
    } else if x.dir == 2 {
      UOx1CornerCopyCovers(g, ifs, ife, x);
    } else {
      UOx1EdgeCopyCovers(g, ifs, ife, x);
    }
  }

  /** The outer x1 exchange: unpack_ox1_rad run on the grid `r` over the
      buffer pack_ix1_rad filled from the neighbour's grid `s` consumes
      the whole buffer and leaves `Fill(Ox1, r, s)`: every slot of the
      outer x1 face holds the neighbour's mirror value, every other slot
      of `r` is unchanged. */
  lemma ExchangeOx1Fills(g: Grid, ifs: int, ife: int, r: Store, s: Store)
    requires Valid(g) && Total(r)
    ensures |Recvd(UnpackOx1(g, ifs, ife))| == |PackIx1(g, ifs, ife)|
    ensures Exec(r, UnpackOx1(g, ifs, ife), Read(s, PackIx1(g, ifs, ife))) == Fill(g, Ox1, ifs, ife, r, s)
  {
    forall ifr | ifs <= ifr <= ife
      ensures Pairwise(UnpackOx1RecvBody(g)(ifr), PackIx1Body(g)(ifr), MirrorRel(g, Ox1))
      ensures forall x :: x in UnpackOx1RecvBody(g)(ifr) ==> WriteSet(g, Ox1, ifs, ife)(x)
      ensures forall st :: st in UnpackOx1CopyBody(g)(ifr) ==>
        st.Copy? && WriteSet(g, Ox1, ifs, ife)(st.dst) && st.src in UnpackOx1RecvBody(g)(ifr) &&
        Mirror(g, Ox1, st.src) == Mirror(g, Ox1, st.dst)
    {
      Ix1ToOx1Pairwise(g, ifr);
      UnpackOx1RecvWrites(g, ifs, ife, ifr);
      UnpackOx1CopiesRead(g, ifs, ife, ifr);
    }
    forall x | WriteSet(g, Ox1, ifs, ife)(x)
      ensures x in UnpackOx1RecvBody(g)(x.ifr) || x in Dsts(UnpackOx1CopyBody(g)(x.ifr))
    {
      UnpackOx1Covers(g, ifs, ife, x);
    }
    UnpackLoopFills(g, Ox1, ifs, ife, UnpackOx1RecvBody(g), UnpackOx1CopyBody(g), PackIx1Body(g), r, s);
  }
}
