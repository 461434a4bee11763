/** The x3 faces: `periodic_ix3_rad`, `periodic_ox3_rad`, `pack_ix3_rad`,
    `pack_ox3_rad`, `unpack_ix3_rad` and `unpack_ox3_rad` as the sequences
    of moves their loop nests make (default build), and the proofs that
    the periodic routines and the pack/unpack exchanges fill the x3 faces
    as `RadFaces.Fill` describes. The x3 faces span the x1 and x2 ghost
    columns and rows, so the x1 and x2 faces must be filled first. */
module RadX3 {
  import opened Loops
  import opened RadMemory
  import opened RadFaces
  import opened RadCells
  import opened RadFill

  /** `S` and `H` of plane `k` at `(j, i)`. */
  function X3Cells(g: Grid, ifr: int, k: int): (int, int) -> seq<Loc>
  {
    (j, i) => CellLocs(g.nDim, ifr, k, j, i)
  }

  /** The x3 faces make no copies after receiving. */
  function NoCopies(): int -> seq<Step>
  {
    ifr => []
  }
  // =====================================================================
  // periodic_ix3_rad

  function PeriodicIx3(g: Grid, ifs: int, ife: int): seq<Step>
  {
    Loop1(ifs, ife, PeriodicIx3Body(g))
  }

  function PeriodicIx3Body(g: Grid): int -> seq<Step>
  {
    ifr => PeriodicIx3Frame(g, ifr)
  }

  /** One pass of the `ifr` loop. */
  function PeriodicIx3Frame(g: Grid, ifr: int): seq<Step>
  {
    Run(PeriodicIx3Nests(g, ifr))
  }

  /** The pass's loop nests: `S` and `H`, the x3 ghost intensities, then
      the x1 and the x2 ghost intensities of the ghost plane. */
  function PeriodicIx3Nests(g: Grid, ifr: int): seq<Nest<Step>>
  {
    [Nest2(g.jS - 1, g.jE + 1, g.iS - 1, g.iE + 1, PIx3Cell(g, ifr)),
     Nest2(g.jS - 1, g.jE + 1, g.iS - 1, g.iE + 1, PIx3Ghost3(g, ifr)),
     Nest2(g.jS - 1, g.jE + 1, 0, g.nang - 1, PIx3Ghost1(g, ifr)),
     Nest2(g.iS - 1, g.iE + 1, 0, g.nang - 1, PIx3Ghost2(g, ifr))]
  }

  function PIx3Cell(g: Grid, ifr: int): (int, int) -> seq<Step>
  {
    (j, i) => CellCopies(g.nDim, ifr, g.kS - 1, j, i, g.kE, j, i)
  }

  /** `Ghstl3i` from `r3imu`: octants 0..3, each over every angle. */
  function PIx3Ghost3(g: Grid, ifr: int): (int, int) -> seq<Step>
  {
    (j, i) => Loop2(0, 3, 0, g.nang - 1, PIx3Ghost3At(g, ifr, j, i))
  }

  function PIx3Ghost3At(g: Grid, ifr: int, j: int, i: int): (int, int) -> seq<Step>
  {
    (o, m) => [Copy(Ghst(Left, 3, ifr, j, i, o, m), Imu(Right, 3, ifr, j, i, o, m))]
  }

  /** The x1 ghost intensities of the ghost plane, from the opposite plane. */
  function PIx3Ghost1(g: Grid, ifr: int): (int, int) -> seq<Step>
  {
    (j, m) =>
      var kl, ke := g.kS - 1, g.kE;
      [Copy(Ghst(Left, 1, ifr, kl, j, 0, m), Ghst(Left, 1, ifr, ke, j, 0, m)),
       Copy(Ghst(Left, 1, ifr, kl, j, 2, m), Ghst(Left, 1, ifr, ke, j, 2, m)),
       Copy(Ghst(Left, 1, ifr, kl, j, 4, m), Ghst(Left, 1, ifr, ke, j, 4, m)),
       Copy(Ghst(Left, 1, ifr, kl, j, 6, m), Ghst(Left, 1, ifr, ke, j, 6, m)),
       Copy(Ghst(Right, 1, ifr, kl, j, 1, m), Ghst(Right, 1, ifr, ke, j, 1, m)),
       Copy(Ghst(Right, 1, ifr, kl, j, 3, m), Ghst(Right, 1, ifr, ke, j, 3, m)),
       Copy(Ghst(Right, 1, ifr, kl, j, 5, m), Ghst(Right, 1, ifr, ke, j, 5, m)),
       Copy(Ghst(Right, 1, ifr, kl, j, 7, m), Ghst(Right, 1, ifr, ke, j, 7, m))]
  }

  /** The x2 ghost intensities of the ghost plane, from the opposite plane. */
  function PIx3Ghost2(g: Grid, ifr: int): (int, int) -> seq<Step>
  {
    (i, m) =>
      var kl, ke := g.kS - 1, g.kE;
      [Copy(Ghst(Left, 2, ifr, kl, i, 0, m), Ghst(Left, 2, ifr, ke, i, 0, m)),
       Copy(Ghst(Left, 2, ifr, kl, i, 1, m), Ghst(Left, 2, ifr, ke, i, 1, m)),
       Copy(Ghst(Left, 2, ifr, kl, i, 4, m), Ghst(Left, 2, ifr, ke, i, 4, m)),
       Copy(Ghst(Left, 2, ifr, kl, i, 5, m), Ghst(Left, 2, ifr, ke, i, 5, m)),
       Copy(Ghst(Right, 2, ifr, kl, i, 2, m), Ghst(Right, 2, ifr, ke, i, 2, m)),
       Copy(Ghst(Right, 2, ifr, kl, i, 3, m), Ghst(Right, 2, ifr, ke, i, 3, m)),
       Copy(Ghst(Right, 2, ifr, kl, i, 6, m), Ghst(Right, 2, ifr, ke, i, 6, m)),
       Copy(Ghst(Right, 2, ifr, kl, i, 7, m), Ghst(Right, 2, ifr, ke, i, 7, m))]
  }

  // Every move of periodic_ix3_rad copies a slot's mirror, which the
  // routine does not write, into a slot of the inner x3 face.

  lemma PIx3CellMoves(g: Grid, ifs: int, ife: int, ifr: int, j: int, i: int)
    requires Valid(g) && ifs <= ifr <= ife && g.jS - 1 <= j <= g.jE + 1 && g.iS - 1 <= i <= g.iE + 1
    ensures forall st :: st in PIx3Cell(g, ifr)(j, i) ==> MirrorMove(g, Ix3, ifs, ife, st)
  {
    forall st | st in PIx3Cell(g, ifr)(j, i) ensures MirrorMove(g, Ix3, ifs, ife, st) {
      var n := CellCopiesPick(g.nDim, ifr, g.kS - 1, j, i, g.kE, j, i, st);
    }
  }

  lemma PIx3Ghost3Moves(g: Grid, ifs: int, ife: int, ifr: int, j: int, i: int)
    requires ifs <= ifr <= ife && g.jS - 1 <= j <= g.jE + 1 && g.iS - 1 <= i <= g.iE + 1
    ensures forall st :: st in PIx3Ghost3(g, ifr)(j, i) ==> MirrorMove(g, Ix3, ifs, ife, st)
  {
    Loop2All(0, 3, 0, g.nang - 1, PIx3Ghost3At(g, ifr, j, i), st => MirrorMove(g, Ix3, ifs, ife, st));
  }

  lemma PIx3Ghost1Moves(g: Grid, ifs: int, ife: int, ifr: int, j: int, m: int)
    requires Valid(g) && ifs <= ifr <= ife && g.jS - 1 <= j <= g.jE + 1 && 0 <= m < g.nang
    ensures forall st :: st in PIx3Ghost1(g, ifr)(j, m) ==> MirrorMove(g, Ix3, ifs, ife, st)
  {
  }

  lemma PIx3Ghost2Moves(g: Grid, ifs: int, ife: int, ifr: int, i: int, m: int)
    requires Valid(g) && ifs <= ifr <= ife && g.iS - 1 <= i <= g.iE + 1 && 0 <= m < g.nang
    ensures forall st :: st in PIx3Ghost2(g, ifr)(i, m) ==> MirrorMove(g, Ix3, ifs, ife, st)
  {
  }

  lemma PeriodicIx3CellNestMoves(g: Grid, ifs: int, ife: int, ifr: int)
    requires Valid(g) && ifs <= ifr <= ife
    ensures NestAll(PeriodicIx3Nests(g, ifr)[0], MirrorMoves(g, Ix3, ifs, ife))
  {
    forall j, i | g.jS - 1 <= j <= g.jE + 1 && g.iS - 1 <= i <= g.iE + 1
      ensures forall st :: st in PIx3Cell(g, ifr)(j, i) ==> MirrorMoves(g, Ix3, ifs, ife)(st)
    {
      PIx3CellMoves(g, ifs, ife, ifr, j, i);
    }
  }

  lemma PeriodicIx3Ghost3NestMoves(g: Grid, ifs: int, ife: int, ifr: int)
    requires ifs <= ifr <= ife
    ensures NestAll(PeriodicIx3Nests(g, ifr)[1], MirrorMoves(g, Ix3, ifs, ife))
  {
    forall j, i | g.jS - 1 <= j <= g.jE + 1 && g.iS - 1 <= i <= g.iE + 1
      ensures forall st :: st in PIx3Ghost3(g, ifr)(j, i) ==> MirrorMoves(g, Ix3, ifs, ife)(st)
    {
      PIx3Ghost3Moves(g, ifs, ife, ifr, j, i);
    }
  }

  lemma PeriodicIx3GhostRowsMoves(g: Grid, ifs: int, ife: int, ifr: int)
    requires Valid(g) && ifs <= ifr <= ife
    ensures NestAll(PeriodicIx3Nests(g, ifr)[2], MirrorMoves(g, Ix3, ifs, ife))
    ensures NestAll(PeriodicIx3Nests(g, ifr)[3], MirrorMoves(g, Ix3, ifs, ife))
  {
    forall j, m | g.jS - 1 <= j <= g.jE + 1 && 0 <= m <= g.nang - 1
      ensures forall st :: st in PIx3Ghost1(g, ifr)(j, m) ==> MirrorMoves(g, Ix3, ifs, ife)(st)
    {
      PIx3Ghost1Moves(g, ifs, ife, ifr, j, m);
    }
    forall i, m | g.iS - 1 <= i <= g.iE + 1 && 0 <= m <= g.nang - 1
      ensures forall st :: st in PIx3Ghost2(g, ifr)(i, m) ==> MirrorMoves(g, Ix3, ifs, ife)(st)
    {
      PIx3Ghost2Moves(g, ifs, ife, ifr, i, m);
    }
  }

  lemma PeriodicIx3FrameMoves(g: Grid, ifs: int, ife: int, ifr: int)
    requires Valid(g) && ifs <= ifr <= ife
    ensures forall st :: st in PeriodicIx3Frame(g, ifr) ==> MirrorMove(g, Ix3, ifs, ife, st)
  {
    var ns := PeriodicIx3Nests(g, ifr);
    PeriodicIx3CellNestMoves(g, ifs, ife, ifr);
    PeriodicIx3Ghost3NestMoves(g, ifs, ife, ifr);
    PeriodicIx3GhostRowsMoves(g, ifs, ife, ifr);
    RunAll(ns, MirrorMoves(g, Ix3, ifs, ife));
  }

  // Every slot of the inner x3 face is the target of a move of the pass
  // for its frequency.

  lemma PIx3CellCovers(g: Grid, ifs: int, ife: int, x: Loc)
    requires WriteSet(g, Ix3, ifs, ife)(x) && (x.S? || x.H?)
    ensures Copy(x, Mirror(g, Ix3, x)) in PeriodicIx3Frame(g, x.ifr)
  {
    CellCopiesCover(g.nDim, x.ifr, g.kS - 1, x.j, x.i, g.kE, x.j, x.i, if x.H? then x.n else 0);
    RunHas2(PeriodicIx3Nests(g, x.ifr), 0, x.j, x.i, Copy(x, Mirror(g, Ix3, x)));
  }

  lemma PIx3Ghost3Covers(g: Grid, ifs: int, ife: int, x: Loc)
    requires WriteSet(g, Ix3, ifs, ife)(x) && x.Ghst? && x.dir == 3
    ensures Copy(x, Mirror(g, Ix3, x)) in PeriodicIx3Frame(g, x.ifr)
  {
    var e := Copy(x, Mirror(g, Ix3, x));
    Loop2Cover(0, 3, 0, g.nang - 1, PIx3Ghost3At(g, x.ifr, x.a, x.b), x.oct, x.m, e);
    RunHas2(PeriodicIx3Nests(g, x.ifr), 1, x.a, x.b, e);
  }

  lemma PIx3Ghost1Covers(g: Grid, ifs: int, ife: int, x: Loc)
    requires WriteSet(g, Ix3, ifs, ife)(x) && x.Ghst? && x.dir == 1
    ensures Copy(x, Mirror(g, Ix3, x)) in PeriodicIx3Frame(g, x.ifr)
  {
    RunHas2(PeriodicIx3Nests(g, x.ifr), 2, x.b, x.m, Copy(x, Mirror(g, Ix3, x)));
  }

  lemma PIx3Ghost2Covers(g: Grid, ifs: int, ife: int, x: Loc)
    requires WriteSet(g, Ix3, ifs, ife)(x) && x.Ghst? && x.dir == 2
    ensures Copy(x, Mirror(g, Ix3, x)) in PeriodicIx3Frame(g, x.ifr)
  {
    RunHas2(PeriodicIx3Nests(g, x.ifr), 3, x.b, x.m, Copy(x, Mirror(g, Ix3, x)));
  }

  lemma PeriodicIx3FrameCovers(g: Grid, ifs: int, ife: int, x: Loc)
    requires WriteSet(g, Ix3, ifs, ife)(x)
    ensures x in Dsts(PeriodicIx3Frame(g, x.ifr))
  {
    if x.S? || x.H? {
      PIx3CellCovers(g, ifs, ife, x);
    } else if x.dir == 3 {
      PIx3Ghost3Covers(g, ifs, ife, x);
    } else if x.dir == 1 {
      PIx3Ghost1Covers(g, ifs, ife, x);
    } else {
      PIx3Ghost2Covers(g, ifs, ife, x);
    }
    DstsMember(PeriodicIx3Frame(g, x.ifr), Copy(x, Mirror(g, Ix3, x)));
  }

  /** `periodic_ix3_rad` leaves the grid `s` as `Fill(Ix3, s, s)`: every
      slot of the inner x3 face holds its mirror's value, every other slot
      is unchanged. */
  lemma PeriodicIx3Fills(g: Grid, ifs: int, ife: int, s: Store)
    requires Valid(g) && Total(s)
    ensures Recvd(PeriodicIx3(g, ifs, ife)) == []
    ensures Exec(s, PeriodicIx3(g, ifs, ife), []) == Fill(g, Ix3, ifs, ife, s, s)
  {
    forall ifr, st | ifs <= ifr <= ife && st in PeriodicIx3Body(g)(ifr)
      ensures MirrorMove(g, Ix3, ifs, ife, st)
    {
      PeriodicIx3FrameMoves(g, ifs, ife, ifr);
    }
    forall x | WriteSet(g, Ix3, ifs, ife)(x) ensures x in Dsts(PeriodicIx3Body(g)(x.ifr)) {
      PeriodicIx3FrameCovers(g, ifs, ife, x);
    }
    PeriodicLoopFills(g, Ix3, ifs, ife, PeriodicIx3Body(g), s);
  }

  // =====================================================================
  // pack_ox3_rad: what the outer x3 face sends to the inner x3 face
  // of its neighbour

  function PackOx3(g: Grid, ifs: int, ife: int): seq<Loc>
  {
    Loop1(ifs, ife, PackOx3Body(g))
  }

  function PackOx3Body(g: Grid): int -> seq<Loc>
  {
    ifr => Run(PackOx3Nests(g, ifr))
  }

  function PackOx3Nests(g: Grid, ifr: int): seq<Nest<Loc>>
  {
    [Nest2(g.jS - 1, g.jE + 1, g.iS - 1, g.iE + 1, X3Cells(g, ifr, g.kE)),
     Nest2(g.jS - 1, g.jE + 1, g.iS - 1, g.iE + 1, SOx3Ghost3(g, ifr)),
     Nest2(g.jS - 1, g.jE + 1, 0, g.nang - 1, SOx3Ghost1(g, ifr)),
     Nest2(g.iS - 1, g.iE + 1, 0, g.nang - 1, SOx3Ghost2(g, ifr))]
  }

  function SOx3Ghost3(g: Grid, ifr: int): (int, int) -> seq<Loc>
  {
    (j, i) => Loop2(0, 3, 0, g.nang - 1, SOx3Ghost3At(g, ifr, j, i))
  }

  function SOx3Ghost3At(g: Grid, ifr: int, j: int, i: int): (int, int) -> seq<Loc>
  {
    (o, m) => [Imu(Right, 3, ifr, j, i, o, m)]
  }

  function SOx3Ghost1(g: Grid, ifr: int): (int, int) -> seq<Loc>
  {
    (j, m) =>
      [Ghst(Left, 1, ifr, g.kE, j, 0, m), Ghst(Left, 1, ifr, g.kE, j, 2, m), Ghst(Left, 1, ifr, g.kE, j, 4, m), Ghst(Left, 1, ifr, g.kE, j, 6, m),
       Ghst(Right, 1, ifr, g.kE, j, 1, m), Ghst(Right, 1, ifr, g.kE, j, 3, m), Ghst(Right, 1, ifr, g.kE, j, 5, m), Ghst(Right, 1, ifr, g.kE, j, 7, m)]
  }

  function SOx3Ghost2(g: Grid, ifr: int): (int, int) -> seq<Loc>
  {
    (i, m) =>
      [Ghst(Left, 2, ifr, g.kE, i, 0, m), Ghst(Left, 2, ifr, g.kE, i, 1, m), Ghst(Left, 2, ifr, g.kE, i, 4, m), Ghst(Left, 2, ifr, g.kE, i, 5, m),
       Ghst(Right, 2, ifr, g.kE, i, 2, m), Ghst(Right, 2, ifr, g.kE, i, 3, m), Ghst(Right, 2, ifr, g.kE, i, 6, m), Ghst(Right, 2, ifr, g.kE, i, 7, m)]
  }

  // =====================================================================
  // unpack_ix3_rad: each pass receives into `S`, `H`, the x3 ghost
  // intensities and the x1 and x2 ghost intensities of the ghost plane,
  // and copies nothing

  function UnpackIx3(g: Grid, ifs: int, ife: int): seq<Step>
  {
    Unpacking(ifs, ife, UnpackIx3RecvBody(g), NoCopies())
  }

  function UnpackIx3RecvBody(g: Grid): int -> seq<Loc>
  {
    ifr => Run(UnpackIx3RecvNests(g, ifr))
  }

  function UnpackIx3RecvNests(g: Grid, ifr: int): seq<Nest<Loc>>
  {
    [Nest2(g.jS - 1, g.jE + 1, g.iS - 1, g.iE + 1, X3Cells(g, ifr, g.kS - 1)),
     Nest2(g.jS - 1, g.jE + 1, g.iS - 1, g.iE + 1, UIx3Ghost3(g, ifr)),
     Nest2(g.jS - 1, g.jE + 1, 0, g.nang - 1, UIx3Ghost1(g, ifr)),
     Nest2(g.iS - 1, g.iE + 1, 0, g.nang - 1, UIx3Ghost2(g, ifr))]
  }

  function UIx3Ghost3(g: Grid, ifr: int): (int, int) -> seq<Loc>
  {
    (j, i) => Loop2(0, 3, 0, g.nang - 1, UIx3Ghost3At(g, ifr, j, i))
  }

  function UIx3Ghost3At(g: Grid, ifr: int, j: int, i: int): (int, int) -> seq<Loc>
  {
    (o, m) => [Ghst(Left, 3, ifr, j, i, o, m)]
  }

  function UIx3Ghost1(g: Grid, ifr: int): (int, int) -> seq<Loc>
  {
    (j, m) =>
      [Ghst(Left, 1, ifr, g.kS - 1, j, 0, m), Ghst(Left, 1, ifr, g.kS - 1, j, 2, m), Ghst(Left, 1, ifr, g.kS - 1, j, 4, m), Ghst(Left, 1, ifr, g.kS - 1, j, 6, m),
       Ghst(Right, 1, ifr, g.kS - 1, j, 1, m), Ghst(Right, 1, ifr, g.kS - 1, j, 3, m), Ghst(Right, 1, ifr, g.kS - 1, j, 5, m), Ghst(Right, 1, ifr, g.kS - 1, j, 7, m)]
  }

  function UIx3Ghost2(g: Grid, ifr: int): (int, int) -> seq<Loc>
  {
    (i, m) =>
      [Ghst(Left, 2, ifr, g.kS - 1, i, 0, m), Ghst(Left, 2, ifr, g.kS - 1, i, 1, m), Ghst(Left, 2, ifr, g.kS - 1, i, 4, m), Ghst(Left, 2, ifr, g.kS - 1, i, 5, m),
       Ghst(Right, 2, ifr, g.kS - 1, i, 2, m), Ghst(Right, 2, ifr, g.kS - 1, i, 3, m), Ghst(Right, 2, ifr, g.kS - 1, i, 6, m), Ghst(Right, 2, ifr, g.kS - 1, i, 7, m)]
  }

  // ---------------------------------------------------------------------
  // What unpack_ix3_rad receives lines up, double by double, with the
  // mirror slots pack_ox3_rad sends.

  lemma Ox3ToIx3CellPairwise(g: Grid, ifr: int, j: int, i: int)
    ensures Pairwise(X3Cells(g, ifr, g.kS - 1)(j, i), X3Cells(g, ifr, g.kE)(j, i), MirrorRel(g, Ix3))
  {
    var rel := MirrorRel(g, Ix3);
    assert Mirror(g, Ix3, S(ifr, g.kS - 1, j, i)) == S(ifr, g.kE, j, i);
    forall n | 0 <= n < g.nDim ensures rel(H(ifr, g.kS - 1, j, i, n), H(ifr, g.kE, j, i, n)) {
      assert Mirror(g, Ix3, H(ifr, g.kS - 1, j, i, n)) == H(ifr, g.kE, j, i, n);
    }
    CellPairwise(g.nDim, ifr, g.kS - 1, j, i, g.kE, j, i, rel);
  }

  lemma Ox3ToIx3Ghost3Pairwise(g: Grid, ifr: int, j: int, i: int)
    ensures Pairwise(UIx3Ghost3(g, ifr)(j, i), SOx3Ghost3(g, ifr)(j, i), MirrorRel(g, Ix3))
  {
    var rel := MirrorRel(g, Ix3);
    forall o, m ensures Pairwise(UIx3Ghost3At(g, ifr, j, i)(o, m), SOx3Ghost3At(g, ifr, j, i)(o, m), rel) {
      assert rel(Ghst(Left, 3, ifr, j, i, o, m), Imu(Right, 3, ifr, j, i, o, m));
    }
    Loop2Pairwise(0, 3, 0, g.nang - 1, UIx3Ghost3At(g, ifr, j, i), SOx3Ghost3At(g, ifr, j, i), rel);
  }

  lemma Ox3ToIx3Ghost1Pairwise(g: Grid, ifr: int, j: int, m: int)
    ensures Pairwise(UIx3Ghost1(g, ifr)(j, m), SOx3Ghost1(g, ifr)(j, m), MirrorRel(g, Ix3))
  {
    var u, p := UIx3Ghost1(g, ifr)(j, m), SOx3Ghost1(g, ifr)(j, m);
    forall t | 0 <= t < |u| ensures MirrorRel(g, Ix3)(u[t], p[t]) {
      assert p[t] == Mirror(g, Ix3, u[t]);
    }
  }

  lemma Ox3ToIx3Ghost2Pairwise(g: Grid, ifr: int, i: int, m: int)
    ensures Pairwise(UIx3Ghost2(g, ifr)(i, m), SOx3Ghost2(g, ifr)(i, m), MirrorRel(g, Ix3))
  {
    var u, p := UIx3Ghost2(g, ifr)(i, m), SOx3Ghost2(g, ifr)(i, m);
    forall t | 0 <= t < |u| ensures MirrorRel(g, Ix3)(u[t], p[t]) {
      assert p[t] == Mirror(g, Ix3, u[t]);
    }
  }

  lemma Ox3ToIx3Pairwise(g: Grid, ifr: int)
    ensures Pairwise(UnpackIx3RecvBody(g)(ifr), PackOx3Body(g)(ifr), MirrorRel(g, Ix3))
  {
    var rel := MirrorRel(g, Ix3);
    var us, ps := UnpackIx3RecvNests(g, ifr), PackOx3Nests(g, ifr);
    var kl, ke := g.kS - 1, g.kE;
    forall j, i ensures Pairwise(X3Cells(g, ifr, kl)(j, i), X3Cells(g, ifr, ke)(j, i), rel) {
      Ox3ToIx3CellPairwise(g, ifr, j, i);
    }
    forall j, i ensures Pairwise(UIx3Ghost3(g, ifr)(j, i), SOx3Ghost3(g, ifr)(j, i), rel) {
      Ox3ToIx3Ghost3Pairwise(g, ifr, j, i);
    }
    forall j, m ensures Pairwise(UIx3Ghost1(g, ifr)(j, m), SOx3Ghost1(g, ifr)(j, m), rel) {
      Ox3ToIx3Ghost1Pairwise(g, ifr, j, m);
    }
    forall i, m ensures Pairwise(UIx3Ghost2(g, ifr)(i, m), SOx3Ghost2(g, ifr)(i, m), rel) {
      Ox3ToIx3Ghost2Pairwise(g, ifr, i, m);
    }
    assert NestPairwise(us[0], ps[0], rel) && NestPairwise(us[1], ps[1], rel);
    assert NestPairwise(us[2], ps[2], rel) && NestPairwise(us[3], ps[3], rel);
    RunPairwise(us, ps, rel);
  }

  // ---------------------------------------------------------------------
  // Every slot unpack_ix3_rad receives into belongs to the inner x3 face.

  lemma UIx3CellWrites(g: Grid, ifs: int, ife: int, ifr: int, j: int, i: int)
    requires ifs <= ifr <= ife && g.jS - 1 <= j <= g.jE + 1 && g.iS - 1 <= i <= g.iE + 1
    ensures forall x :: x in X3Cells(g, ifr, g.kS - 1)(j, i) ==> WriteSet(g, Ix3, ifs, ife)(x)
  {
    forall x | x in X3Cells(g, ifr, g.kS - 1)(j, i) ensures WriteSet(g, Ix3, ifs, ife)(x) {
      var n := CellLocsPick(g.nDim, ifr, g.kS - 1, j, i, x);
    }
  }

  lemma UIx3Ghost3Writes(g: Grid, ifs: int, ife: int, ifr: int, j: int, i: int)
    requires ifs <= ifr <= ife && g.jS - 1 <= j <= g.jE + 1 && g.iS - 1 <= i <= g.iE + 1
    ensures forall x :: x in UIx3Ghost3(g, ifr)(j, i) ==> WriteSet(g, Ix3, ifs, ife)(x)
  {
    Loop2All(0, 3, 0, g.nang - 1, UIx3Ghost3At(g, ifr, j, i), WriteSet(g, Ix3, ifs, ife));
  }

  lemma UIx3Ghost1Writes(g: Grid, ifs: int, ife: int, ifr: int, j: int, m: int)
    requires ifs <= ifr <= ife && g.jS - 1 <= j <= g.jE + 1 && 0 <= m < g.nang
    ensures forall x :: x in UIx3Ghost1(g, ifr)(j, m) ==> WriteSet(g, Ix3, ifs, ife)(x)
  {
  }

  lemma UIx3Ghost2Writes(g: Grid, ifs: int, ife: int, ifr: int, i: int, m: int)
    requires ifs <= ifr <= ife && g.iS - 1 <= i <= g.iE + 1 && 0 <= m < g.nang
    ensures forall x :: x in UIx3Ghost2(g, ifr)(i, m) ==> WriteSet(g, Ix3, ifs, ife)(x)
  {
  }

  lemma UnpackIx3RecvWrites(g: Grid, ifs: int, ife: int, ifr: int)
    requires ifs <= ifr <= ife
    ensures forall x :: x in UnpackIx3RecvBody(g)(ifr) ==> WriteSet(g, Ix3, ifs, ife)(x)
  {
    var P, ns := WriteSet(g, Ix3, ifs, ife), UnpackIx3RecvNests(g, ifr);
    var kl := g.kS - 1;
    forall j, i | g.jS - 1 <= j <= g.jE + 1 && g.iS - 1 <= i <= g.iE + 1
      ensures forall x :: x in X3Cells(g, ifr, kl)(j, i) ==> P(x)
    {
      UIx3CellWrites(g, ifs, ife, ifr, j, i);
    }
    forall j, i | g.jS - 1 <= j <= g.jE + 1 && g.iS - 1 <= i <= g.iE + 1
      ensures forall x :: x in UIx3Ghost3(g, ifr)(j, i) ==> P(x)
    {
      UIx3Ghost3Writes(g, ifs, ife, ifr, j, i);
    }
    forall j, m | g.jS - 1 <= j <= g.jE + 1 && 0 <= m <= g.nang - 1
      ensures forall x :: x in UIx3Ghost1(g, ifr)(j, m) ==> P(x)
    {
      UIx3Ghost1Writes(g, ifs, ife, ifr, j, m);
    }
    forall i, m | g.iS - 1 <= i <= g.iE + 1 && 0 <= m <= g.nang - 1
      ensures forall x :: x in UIx3Ghost2(g, ifr)(i, m) ==> P(x)
    {
      UIx3Ghost2Writes(g, ifs, ife, ifr, i, m);
    }
    assert NestAll(ns[0], P) && NestAll(ns[1], P) && NestAll(ns[2], P) && NestAll(ns[3], P);
    RunAll(ns, P);
  }

  // ---------------------------------------------------------------------
  // Every slot of the inner x3 face is received by the pass for its
  // frequency.

  lemma UIx3CellCovers(g: Grid, ifs: int, ife: int, x: Loc)
    requires WriteSet(g, Ix3, ifs, ife)(x) && (x.S? || x.H?)
    ensures x in UnpackIx3RecvBody(g)(x.ifr)
  {
    CellLocsCover(g.nDim, x.ifr, x.k, x.j, x.i, if x.H? then x.n else 0);
    RunHas2(UnpackIx3RecvNests(g, x.ifr), 0, x.j, x.i, x);
  }

  lemma UIx3Ghost3Covers(g: Grid, ifs: int, ife: int, x: Loc)
    requires WriteSet(g, Ix3, ifs, ife)(x) && x.Ghst? && x.dir == 3
    ensures x in UnpackIx3RecvBody(g)(x.ifr)
  {
    Loop2Cover(0, 3, 0, g.nang - 1, UIx3Ghost3At(g, x.ifr, x.a, x.b), x.oct, x.m, x);
    RunHas2(UnpackIx3RecvNests(g, x.ifr), 1, x.a, x.b, x);
  }

  lemma UIx3Ghost1Covers(g: Grid, ifs: int, ife: int, x: Loc)
    requires WriteSet(g, Ix3, ifs, ife)(x) && x.Ghst? && x.dir == 1
    ensures x in UnpackIx3RecvBody(g)(x.ifr)
  {
    RunHas2(UnpackIx3RecvNests(g, x.ifr), 2, x.b, x.m, x);
  }

  lemma UIx3Ghost2Covers(g: Grid, ifs: int, ife: int, x: Loc)
    requires WriteSet(g, Ix3, ifs, ife)(x) && x.Ghst? && x.dir == 2
    ensures x in UnpackIx3RecvBody(g)(x.ifr)
  {
    RunHas2(UnpackIx3RecvNests(g, x.ifr), 3, x.b, x.m, x);
  }

  lemma UnpackIx3Covers(g: Grid, ifs: int, ife: int, x: Loc)
    requires WriteSet(g, Ix3, ifs, ife)(x)
    ensures x in UnpackIx3RecvBody(g)(x.ifr)
  {
    if x.S? || x.H? {
      UIx3CellCovers(g, ifs, ife, x);
    } else if x.dir == 3 {
      UIx3Ghost3Covers(g, ifs, ife, x);
    } else if x.dir == 1 {
      UIx3Ghost1Covers(g, ifs, ife, x);
    } else {
      UIx3Ghost2Covers(g, ifs, ife, x);
    }
  }

  /** The inner x3 exchange: unpack_ix3_rad run on the grid `r` over the
      buffer pack_ox3_rad filled from the neighbour's grid `s` consumes
      the whole buffer and leaves `Fill(Ix3, r, s)`. */
  lemma ExchangeIx3Fills(g: Grid, ifs: int, ife: int, r: Store, s: Store)
    requires Valid(g) && Total(r)
    ensures |Recvd(UnpackIx3(g, ifs, ife))| == |PackOx3(g, ifs, ife)|
    ensures Exec(r, UnpackIx3(g, ifs, ife), Read(s, PackOx3(g, ifs, ife))) == Fill(g, Ix3, ifs, ife, r, s)
  {
    forall ifr | ifs <= ifr <= ife
      ensures Pairwise(UnpackIx3RecvBody(g)(ifr), PackOx3Body(g)(ifr), MirrorRel(g, Ix3))
      ensures forall x :: x in UnpackIx3RecvBody(g)(ifr) ==> WriteSet(g, Ix3, ifs, ife)(x)
    {
      Ox3ToIx3Pairwise(g, ifr);
      UnpackIx3RecvWrites(g, ifs, ife, ifr);
    }
    forall x | WriteSet(g, Ix3, ifs, ife)(x) ensures x in UnpackIx3RecvBody(g)(x.ifr) {
      UnpackIx3Covers(g, ifs, ife, x);
    }
    UnpackLoopFills(g, Ix3, ifs, ife, UnpackIx3RecvBody(g), NoCopies(), PackOx3Body(g), r, s);
  }
  // =====================================================================
  // periodic_ox3_rad

  function PeriodicOx3(g: Grid, ifs: int, ife: int): seq<Step>
  {
    Loop1(ifs, ife, PeriodicOx3Body(g))
  }

  function PeriodicOx3Body(g: Grid): int -> seq<Step>
  {
    ifr => PeriodicOx3Frame(g, ifr)
  }

  /** One pass of the `ifr` loop. */
  function PeriodicOx3Frame(g: Grid, ifr: int): seq<Step>
  {
    Run(PeriodicOx3Nests(g, ifr))
  }

  /** The pass's loop nests: `S` and `H`, the x3 ghost intensities, then
      the x1 and the x2 ghost intensities of the ghost plane. */
  function PeriodicOx3Nests(g: Grid, ifr: int): seq<Nest<Step>>
  {
    [Nest2(g.jS - 1, g.jE + 1, g.iS - 1, g.iE + 1, POx3Cell(g, ifr)),
     Nest2(g.jS - 1, g.jE + 1, g.iS - 1, g.iE + 1, POx3Ghost3(g, ifr)),
     Nest2(g.jS - 1, g.jE + 1, 0, g.nang - 1, POx3Ghost1(g, ifr)),
     Nest2(g.iS - 1, g.iE + 1, 0, g.nang - 1, POx3Ghost2(g, ifr))]
  }

  function POx3Cell(g: Grid, ifr: int): (int, int) -> seq<Step>
  {
    (j, i) => CellCopies(g.nDim, ifr, g.kE + 1, j, i, g.kS, j, i)
  }

  /** `Ghstr3i` from `l3imu`: octants 4..7, each over every angle. */
  function POx3Ghost3(g: Grid, ifr: int): (int, int) -> seq<Step>
  {
    (j, i) => Loop2(4, 7, 0, g.nang - 1, POx3Ghost3At(g, ifr, j, i))
  }

  function POx3Ghost3At(g: Grid, ifr: int, j: int, i: int): (int, int) -> seq<Step>
  {
    (o, m) => [Copy(Ghst(Right, 3, ifr, j, i, o, m), Imu(Left, 3, ifr, j, i, o, m))]
  }

  /** The x1 ghost intensities of the ghost plane, from the opposite plane. */
  function POx3Ghost1(g: Grid, ifr: int): (int, int) -> seq<Step>
  {
    (j, m) =>
      var ku, ks := g.kE + 1, g.kS;
      [Copy(Ghst(Left, 1, ifr, ku, j, 0, m), Ghst(Left, 1, ifr, ks, j, 0, m)),
       Copy(Ghst(Left, 1, ifr, ku, j, 2, m), Ghst(Left, 1, ifr, ks, j, 2, m)),
       Copy(Ghst(Left, 1, ifr, ku, j, 4, m), Ghst(Left, 1, ifr, ks, j, 4, m)),
       Copy(Ghst(Left, 1, ifr, ku, j, 6, m), Ghst(Left, 1, ifr, ks, j, 6, m)),
       Copy(Ghst(Right, 1, ifr, ku, j, 1, m), Ghst(Right, 1, ifr, ks, j, 1, m)),
       Copy(Ghst(Right, 1, ifr, ku, j, 3, m), Ghst(Right, 1, ifr, ks, j, 3, m)),
       Copy(Ghst(Right, 1, ifr, ku, j, 5, m), Ghst(Right, 1, ifr, ks, j, 5, m)),
       Copy(Ghst(Right, 1, ifr, ku, j, 7, m), Ghst(Right, 1, ifr, ks, j, 7, m))]
  }

  /** The x2 ghost intensities of the ghost plane, from the opposite plane. */
  function POx3Ghost2(g: Grid, ifr: int): (int, int) -> seq<Step>
  {
    (i, m) =>
      var ku, ks := g.kE + 1, g.kS;
      [Copy(Ghst(Left, 2, ifr, ku, i, 0, m), Ghst(Left, 2, ifr, ks, i, 0, m)),
       Copy(Ghst(Left, 2, ifr, ku, i, 1, m), Ghst(Left, 2, ifr, ks, i, 1, m)),
       Copy(Ghst(Left, 2, ifr, ku, i, 4, m), Ghst(Left, 2, ifr, ks, i, 4, m)),
       Copy(Ghst(Left, 2, ifr, ku, i, 5, m), Ghst(Left, 2, ifr, ks, i, 5, m)),
       Copy(Ghst(Right, 2, ifr, ku, i, 2, m), Ghst(Right, 2, ifr, ks, i, 2, m)),
       Copy(Ghst(Right, 2, ifr, ku, i, 3, m), Ghst(Right, 2, ifr, ks, i, 3, m)),
       Copy(Ghst(Right, 2, ifr, ku, i, 6, m), Ghst(Right, 2, ifr, ks, i, 6, m)),
       Copy(Ghst(Right, 2, ifr, ku, i, 7, m), Ghst(Right, 2, ifr, ks, i, 7, m))]
  }

  // Every move of periodic_ox3_rad copies a slot's mirror, which the
  // routine does not write, into a slot of the outer x3 face.

  lemma POx3CellMoves(g: Grid, ifs: int, ife: int, ifr: int, j: int, i: int)
    requires Valid(g) && ifs <= ifr <= ife && g.jS - 1 <= j <= g.jE + 1 && g.iS - 1 <= i <= g.iE + 1
    ensures forall st :: st in POx3Cell(g, ifr)(j, i) ==> MirrorMove(g, Ox3, ifs, ife, st)
  {
    forall st | st in POx3Cell(g, ifr)(j, i) ensures MirrorMove(g, Ox3, ifs, ife, st) {
      var n := CellCopiesPick(g.nDim, ifr, g.kE + 1, j, i, g.kS, j, i, st);
    }
  }

  lemma POx3Ghost3Moves(g: Grid, ifs: int, ife: int, ifr: int, j: int, i: int)
    requires ifs <= ifr <= ife && g.jS - 1 <= j <= g.jE + 1 && g.iS - 1 <= i <= g.iE + 1
    ensures forall st :: st in POx3Ghost3(g, ifr)(j, i) ==> MirrorMove(g, Ox3, ifs, ife, st)
  {
    Loop2All(4, 7, 0, g.nang - 1, POx3Ghost3At(g, ifr, j, i), st => MirrorMove(g, Ox3, ifs, ife, st));
  }

  lemma POx3Ghost1Moves(g: Grid, ifs: int, ife: int, ifr: int, j: int, m: int)
    requires Valid(g) && ifs <= ifr <= ife && g.jS - 1 <= j <= g.jE + 1 && 0 <= m < g.nang
    ensures forall st :: st in POx3Ghost1(g, ifr)(j, m) ==> MirrorMove(g, Ox3, ifs, ife, st)
  {
  }

  lemma POx3Ghost2Moves(g: Grid, ifs: int, ife: int, ifr: int, i: int, m: int)
    requires Valid(g) && ifs <= ifr <= ife && g.iS - 1 <= i <= g.iE + 1 && 0 <= m < g.nang
    ensures forall st :: st in POx3Ghost2(g, ifr)(i, m) ==> MirrorMove(g, Ox3, ifs, ife, st)
  {
  }

  lemma PeriodicOx3CellNestMoves(g: Grid, ifs: int, ife: int, ifr: int)
    requires Valid(g) && ifs <= ifr <= ife
    ensures NestAll(PeriodicOx3Nests(g, ifr)[0], MirrorMoves(g, Ox3, ifs, ife))
  {
    forall j, i | g.jS - 1 <= j <= g.jE + 1 && g.iS - 1 <= i <= g.iE + 1
      ensures forall st :: st in POx3Cell(g, ifr)(j, i) ==> MirrorMoves(g, Ox3, ifs, ife)(st)
    {
      POx3CellMoves(g, ifs, ife, ifr, j, i);
    }
  }

  lemma PeriodicOx3Ghost3NestMoves(g: Grid, ifs: int, ife: int, ifr: int)
    requires ifs <= ifr <= ife
    ensures NestAll(PeriodicOx3Nests(g, ifr)[1], MirrorMoves(g, Ox3, ifs, ife))
  {
    forall j, i | g.jS - 1 <= j <= g.jE + 1 && g.iS - 1 <= i <= g.iE + 1
      ensures forall st :: st in POx3Ghost3(g, ifr)(j, i) ==> MirrorMoves(g, Ox3, ifs, ife)(st)
    {
      POx3Ghost3Moves(g, ifs, ife, ifr, j, i);
    }
  }

  lemma PeriodicOx3GhostRowsMoves(g: Grid, ifs: int, ife: int, ifr: int)
    requires Valid(g) && ifs <= ifr <= ife
    ensures NestAll(PeriodicOx3Nests(g, ifr)[2], MirrorMoves(g, Ox3, ifs, ife))
    ensures NestAll(PeriodicOx3Nests(g, ifr)[3], MirrorMoves(g, Ox3, ifs, ife))
  {
    forall j, m | g.jS - 1 <= j <= g.jE + 1 && 0 <= m <= g.nang - 1
      ensures forall st :: st in POx3Ghost1(g, ifr)(j, m) ==> MirrorMoves(g, Ox3, ifs, ife)(st)
    {
      POx3Ghost1Moves(g, ifs, ife, ifr, j, m);
    }
    forall i, m | g.iS - 1 <= i <= g.iE + 1 && 0 <= m <= g.nang - 1
      ensures forall st :: st in POx3Ghost2(g, ifr)(i, m) ==> MirrorMoves(g, Ox3, ifs, ife)(st)
    {
      POx3Ghost2Moves(g, ifs, ife, ifr, i, m);
    }
  }

  lemma PeriodicOx3FrameMoves(g: Grid, ifs: int, ife: int, ifr: int)
    requires Valid(g) && ifs <= ifr <= ife
    ensures forall st :: st in PeriodicOx3Frame(g, ifr) ==> MirrorMove(g, Ox3, ifs, ife, st)
  {
    var ns := PeriodicOx3Nests(g, ifr);
    PeriodicOx3CellNestMoves(g, ifs, ife, ifr);
    PeriodicOx3Ghost3NestMoves(g, ifs, ife, ifr);
    PeriodicOx3GhostRowsMoves(g, ifs, ife, ifr);
    RunAll(ns, MirrorMoves(g, Ox3, ifs, ife));
  }

  // Every slot of the outer x3 face is the target of a move of the pass
  // for its frequency.

  lemma POx3CellCovers(g: Grid, ifs: int, ife: int, x: Loc)
    requires WriteSet(g, Ox3, ifs, ife)(x) && (x.S? || x.H?)
    ensures Copy(x, Mirror(g, Ox3, x)) in PeriodicOx3Frame(g, x.ifr)
  {
    CellCopiesCover(g.nDim, x.ifr, g.kE + 1, x.j, x.i, g.kS, x.j, x.i, if x.H? then x.n else 0);
    RunHas2(PeriodicOx3Nests(g, x.ifr), 0, x.j, x.i, Copy(x, Mirror(g, Ox3, x)));
  }

  lemma POx3Ghost3Covers(g: Grid, ifs: int, ife: int, x: Loc)
    requires WriteSet(g, Ox3, ifs, ife)(x) && x.Ghst? && x.dir == 3
    ensures Copy(x, Mirror(g, Ox3, x)) in PeriodicOx3Frame(g, x.ifr)
  {
    var e := Copy(x, Mirror(g, Ox3, x));
    Loop2Cover(4, 7, 0, g.nang - 1, POx3Ghost3At(g, x.ifr, x.a, x.b), x.oct, x.m, e);
    RunHas2(PeriodicOx3Nests(g, x.ifr), 1, x.a, x.b, e);
  }

  lemma POx3Ghost1Covers(g: Grid, ifs: int, ife: int, x: Loc)
    requires WriteSet(g, Ox3, ifs, ife)(x) && x.Ghst? && x.dir == 1
    ensures Copy(x, Mirror(g, Ox3, x)) in PeriodicOx3Frame(g, x.ifr)
  {
    RunHas2(PeriodicOx3Nests(g, x.ifr), 2, x.b, x.m, Copy(x, Mirror(g, Ox3, x)));
  }

  lemma POx3Ghost2Covers(g: Grid, ifs: int, ife: int, x: Loc)
    requires WriteSet(g, Ox3, ifs, ife)(x) && x.Ghst? && x.dir == 2
    ensures Copy(x, Mirror(g, Ox3, x)) in PeriodicOx3Frame(g, x.ifr)
  {
    RunHas2(PeriodicOx3Nests(g, x.ifr), 3, x.b, x.m, Copy(x, Mirror(g, Ox3, x)));
  }

  lemma PeriodicOx3FrameCovers(g: Grid, ifs: int, ife: int, x: Loc)
    requires WriteSet(g, Ox3, ifs, ife)(x)
    ensures x in Dsts(PeriodicOx3Frame(g, x.ifr))
  {
    if x.S? || x.H? {
      POx3CellCovers(g, ifs, ife, x);
    } else if x.dir == 3 {
      POx3Ghost3Covers(g, ifs, ife, x);
    } else if x.dir == 1 {
      POx3Ghost1Covers(g, ifs, ife, x);
    } else {
      POx3Ghost2Covers(g, ifs, ife, x);
    }
    DstsMember(PeriodicOx3Frame(g, x.ifr), Copy(x, Mirror(g, Ox3, x)));
  }

  /** `periodic_ox3_rad` leaves the grid `s` as `Fill(Ox3, s, s)`: every
      slot of the outer x3 face holds its mirror's value, every other slot
      is unchanged. */
  lemma PeriodicOx3Fills(g: Grid, ifs: int, ife: int, s: Store)
    requires Valid(g) && Total(s)
    ensures Recvd(PeriodicOx3(g, ifs, ife)) == []
    ensures Exec(s, PeriodicOx3(g, ifs, ife), []) == Fill(g, Ox3, ifs, ife, s, s)
  {
    forall ifr, st | ifs <= ifr <= ife && st in PeriodicOx3Body(g)(ifr)
      ensures MirrorMove(g, Ox3, ifs, ife, st)
    {
      PeriodicOx3FrameMoves(g, ifs, ife, ifr);
    }
    forall x | WriteSet(g, Ox3, ifs, ife)(x) ensures x in Dsts(PeriodicOx3Body(g)(x.ifr)) {
      PeriodicOx3FrameCovers(g, ifs, ife, x);
    }
    PeriodicLoopFills(g, Ox3, ifs, ife, PeriodicOx3Body(g), s);
  }

  // =====================================================================
  // pack_ix3_rad: what the inner x3 face sends to the outer x3 face
  // of its neighbour

  function PackIx3(g: Grid, ifs: int, ife: int): seq<Loc>
  {
    Loop1(ifs, ife, PackIx3Body(g))
  }

  function PackIx3Body(g: Grid): int -> seq<Loc>
  {
    ifr => Run(PackIx3Nests(g, ifr))
  }

  function PackIx3Nests(g: Grid, ifr: int): seq<Nest<Loc>>
  {
    [Nest2(g.jS - 1, g.jE + 1, g.iS - 1, g.iE + 1, X3Cells(g, ifr, g.kS)),
     Nest2(g.jS - 1, g.jE + 1, g.iS - 1, g.iE + 1, SIx3Ghost3(g, ifr)),
     Nest2(g.jS - 1, g.jE + 1, 0, g.nang - 1, SIx3Ghost1(g, ifr)),
     Nest2(g.iS - 1, g.iE + 1, 0, g.nang - 1, SIx3Ghost2(g, ifr))]
  }

  function SIx3Ghost3(g: Grid, ifr: int): (int, int) -> seq<Loc>
  {
    (j, i) => Loop2(4, 7, 0, g.nang - 1, SIx3Ghost3At(g, ifr, j, i))
  }

  function SIx3Ghost3At(g: Grid, ifr: int, j: int, i: int): (int, int) -> seq<Loc>
  {
    (o, m) => [Imu(Left, 3, ifr, j, i, o, m)]
  }

  function SIx3Ghost1(g: Grid, ifr: int): (int, int) -> seq<Loc>
  {
    (j, m) =>
      [Ghst(Left, 1, ifr, g.kS, j, 0, m), Ghst(Left, 1, ifr, g.kS, j, 2, m), Ghst(Left, 1, ifr, g.kS, j, 4, m), Ghst(Left, 1, ifr, g.kS, j, 6, m),
       Ghst(Right, 1, ifr, g.kS, j, 1, m), Ghst(Right, 1, ifr, g.kS, j, 3, m), Ghst(Right, 1, ifr, g.kS, j, 5, m), Ghst(Right, 1, ifr, g.kS, j, 7, m)]
  }

  function SIx3Ghost2(g: Grid, ifr: int): (int, int) -> seq<Loc>
  {
    (i, m) =>
      [Ghst(Left, 2, ifr, g.kS, i, 0, m), Ghst(Left, 2, ifr, g.kS, i, 1, m), Ghst(Left, 2, ifr, g.kS, i, 4, m), Ghst(Left, 2, ifr, g.kS, i, 5, m),
       Ghst(Right, 2, ifr, g.kS, i, 2, m), Ghst(Right, 2, ifr, g.kS, i, 3, m), Ghst(Right, 2, ifr, g.kS, i, 6, m), Ghst(Right, 2, ifr, g.kS, i, 7, m)]
  }

  // =====================================================================
  // unpack_ox3_rad: each pass receives into `S`, `H`, the x3 ghost
  // intensities and the x1 and x2 ghost intensities of the ghost plane,
  // and copies nothing

  function UnpackOx3(g: Grid, ifs: int, ife: int): seq<Step>
  {
    Unpacking(ifs, ife, UnpackOx3RecvBody(g), NoCopies())
  }

  function UnpackOx3RecvBody(g: Grid): int -> seq<Loc>
  {
    ifr => Run(UnpackOx3RecvNests(g, ifr))
  }

  function UnpackOx3RecvNests(g: Grid, ifr: int): seq<Nest<Loc>>
  {
    [Nest2(g.jS - 1, g.jE + 1, g.iS - 1, g.iE + 1, X3Cells(g, ifr, g.kE + 1)),
     Nest2(g.jS - 1, g.jE + 1, g.iS - 1, g.iE + 1, UOx3Ghost3(g, ifr)),
     Nest2(g.jS - 1, g.jE + 1, 0, g.nang - 1, UOx3Ghost1(g, ifr)),
     Nest2(g.iS - 1, g.iE + 1, 0, g.nang - 1, UOx3Ghost2(g, ifr))]
  }

  function UOx3Ghost3(g: Grid, ifr: int): (int, int) -> seq<Loc>
  {
    (j, i) => Loop2(4, 7, 0, g.nang - 1, UOx3Ghost3At(g, ifr, j, i))
  }

  function UOx3Ghost3At(g: Grid, ifr: int, j: int, i: int): (int, int) -> seq<Loc>
  {
    (o, m) => [Ghst(Right, 3, ifr, j, i, o, m)]
  }

  function UOx3Ghost1(g: Grid, ifr: int): (int, int) -> seq<Loc>
  {
    (j, m) =>
      [Ghst(Left, 1, ifr, g.kE + 1, j, 0, m), Ghst(Left, 1, ifr, g.kE + 1, j, 2, m), Ghst(Left, 1, ifr, g.kE + 1, j, 4, m), Ghst(Left, 1, ifr, g.kE + 1, j, 6, m),
       Ghst(Right, 1, ifr, g.kE + 1, j, 1, m), Ghst(Right, 1, ifr, g.kE + 1, j, 3, m), Ghst(Right, 1, ifr, g.kE + 1, j, 5, m), Ghst(Right, 1, ifr, g.kE + 1, j, 7, m)]
  }

  function UOx3Ghost2(g: Grid, ifr: int): (int, int) -> seq<Loc>
  {
    (i, m) =>
      [Ghst(Left, 2, ifr, g.kE + 1, i, 0, m), Ghst(Left, 2, ifr, g.kE + 1, i, 1, m), Ghst(Left, 2, ifr, g.kE + 1, i, 4, m), Ghst(Left, 2, ifr, g.kE + 1, i, 5, m),
       Ghst(Right, 2, ifr, g.kE + 1, i, 2, m), Ghst(Right, 2, ifr, g.kE + 1, i, 3, m), Ghst(Right, 2, ifr, g.kE + 1, i, 6, m), Ghst(Right, 2, ifr, g.kE + 1, i, 7, m)]
  }

  // ---------------------------------------------------------------------
  // What unpack_ox3_rad receives lines up, double by double, with the
  // mirror slots pack_ix3_rad sends.

  lemma Ix3ToOx3CellPairwise(g: Grid, ifr: int, j: int, i: int)
    ensures Pairwise(X3Cells(g, ifr, g.kE + 1)(j, i), X3Cells(g, ifr, g.kS)(j, i), MirrorRel(g, Ox3))
  {
    var rel := MirrorRel(g, Ox3);
    assert Mirror(g, Ox3, S(ifr, g.kE + 1, j, i)) == S(ifr, g.kS, j, i);
    forall n | 0 <= n < g.nDim ensures rel(H(ifr, g.kE + 1, j, i, n), H(ifr, g.kS, j, i, n)) {
      assert Mirror(g, Ox3, H(ifr, g.kE + 1, j, i, n)) == H(ifr, g.kS, j, i, n);
    }
    CellPairwise(g.nDim, ifr, g.kE + 1, j, i, g.kS, j, i, rel);
  }

  lemma Ix3ToOx3Ghost3Pairwise(g: Grid, ifr: int, j: int, i: int)
    ensures Pairwise(UOx3Ghost3(g, ifr)(j, i), SIx3Ghost3(g, ifr)(j, i), MirrorRel(g, Ox3))
  {
    var rel := MirrorRel(g, Ox3);
    forall o, m ensures Pairwise(UOx3Ghost3At(g, ifr, j, i)(o, m), SIx3Ghost3At(g, ifr, j, i)(o, m), rel) {
      assert rel(Ghst(Right, 3, ifr, j, i, o, m), Imu(Left, 3, ifr, j, i, o, m));
    }
    Loop2Pairwise(4, 7, 0, g.nang - 1, UOx3Ghost3At(g, ifr, j, i), SIx3Ghost3At(g, ifr, j, i), rel);
  }

  lemma Ix3ToOx3Ghost1Pairwise(g: Grid, ifr: int, j: int, m: int)
    ensures Pairwise(UOx3Ghost1(g, ifr)(j, m), SIx3Ghost1(g, ifr)(j, m), MirrorRel(g, Ox3))
  {
    var u, p := UOx3Ghost1(g, ifr)(j, m), SIx3Ghost1(g, ifr)(j, m);
    forall t | 0 <= t < |u| ensures MirrorRel(g, Ox3)(u[t], p[t]) {
      assert p[t] == Mirror(g, Ox3, u[t]);
    }
  }

  lemma Ix3ToOx3Ghost2Pairwise(g: Grid, ifr: int, i: int, m: int)
    ensures Pairwise(UOx3Ghost2(g, ifr)(i, m), SIx3Ghost2(g, ifr)(i, m), MirrorRel(g, Ox3))
  {
    var u, p := UOx3Ghost2(g, ifr)(i, m), SIx3Ghost2(g, ifr)(i, m);
    forall t | 0 <= t < |u| ensures MirrorRel(g, Ox3)(u[t], p[t]) {
      assert p[t] == Mirror(g, Ox3, u[t]);
    }
  }

  lemma Ix3ToOx3Pairwise(g: Grid, ifr: int)
    ensures Pairwise(UnpackOx3RecvBody(g)(ifr), PackIx3Body(g)(ifr), MirrorRel(g, Ox3))
  {
    var rel := MirrorRel(g, Ox3);
    var us, ps := UnpackOx3RecvNests(g, ifr), PackIx3Nests(g, ifr);
    var ku, ks := g.kE + 1, g.kS;
    forall j, i ensures Pairwise(X3Cells(g, ifr, ku)(j, i), X3Cells(g, ifr, ks)(j, i), rel) {
      Ix3ToOx3CellPairwise(g, ifr, j, i);
    }
    forall j, i ensures Pairwise(UOx3Ghost3(g, ifr)(j, i), SIx3Ghost3(g, ifr)(j, i), rel) {
      Ix3ToOx3Ghost3Pairwise(g, ifr, j, i);
    }
    forall j, m ensures Pairwise(UOx3Ghost1(g, ifr)(j, m), SIx3Ghost1(g, ifr)(j, m), rel) {
      Ix3ToOx3Ghost1Pairwise(g, ifr, j, m);
    }
    forall i, m ensures Pairwise(UOx3Ghost2(g, ifr)(i, m), SIx3Ghost2(g, ifr)(i, m), rel) {
      Ix3ToOx3Ghost2Pairwise(g, ifr, i, m);
    }
    assert NestPairwise(us[0], ps[0], rel) && NestPairwise(us[1], ps[1], rel);
    assert NestPairwise(us[2], ps[2], rel) && NestPairwise(us[3], ps[3], rel);
    RunPairwise(us, ps, rel);
  }

  // ---------------------------------------------------------------------
  // Every slot unpack_ox3_rad receives into belongs to the outer x3 face.

  lemma UOx3CellWrites(g: Grid, ifs: int, ife: int, ifr: int, j: int, i: int)
    requires ifs <= ifr <= ife && g.jS - 1 <= j <= g.jE + 1 && g.iS - 1 <= i <= g.iE + 1
    ensures forall x :: x in X3Cells(g, ifr, g.kE + 1)(j, i) ==> WriteSet(g, Ox3, ifs, ife)(x)
  {
    forall x | x in X3Cells(g, ifr, g.kE + 1)(j, i) ensures WriteSet(g, Ox3, ifs, ife)(x) {
      var n := CellLocsPick(g.nDim, ifr, g.kE + 1, j, i, x);
    }
  }

  lemma UOx3Ghost3Writes(g: Grid, ifs: int, ife: int, ifr: int, j: int, i: int)
    requires ifs <= ifr <= ife && g.jS - 1 <= j <= g.jE + 1 && g.iS - 1 <= i <= g.iE + 1
    ensures forall x :: x in UOx3Ghost3(g, ifr)(j, i) ==> WriteSet(g, Ox3, ifs, ife)(x)
  {
    Loop2All(4, 7, 0, g.nang - 1, UOx3Ghost3At(g, ifr, j, i), WriteSet(g, Ox3, ifs, ife));
  }

  lemma UOx3Ghost1Writes(g: Grid, ifs: int, ife: int, ifr: int, j: int, m: int)
    requires ifs <= ifr <= ife && g.jS - 1 <= j <= g.jE + 1 && 0 <= m < g.nang
    ensures forall x :: x in UOx3Ghost1(g, ifr)(j, m) ==> WriteSet(g, Ox3, ifs, ife)(x)
  {
  }

  lemma UOx3Ghost2Writes(g: Grid, ifs: int, ife: int, ifr: int, i: int, m: int)
    requires ifs <= ifr <= ife && g.iS - 1 <= i <= g.iE + 1 && 0 <= m < g.nang
    ensures forall x :: x in UOx3Ghost2(g, ifr)(i, m) ==> WriteSet(g, Ox3, ifs, ife)(x)
  {
  }

  lemma UnpackOx3RecvWrites(g: Grid, ifs: int, ife: int, ifr: int)
    requires ifs <= ifr <= ife
    ensures forall x :: x in UnpackOx3RecvBody(g)(ifr) ==> WriteSet(g, Ox3, ifs, ife)(x)
  {
    var P, ns := WriteSet(g, Ox3, ifs, ife), UnpackOx3RecvNests(g, ifr);
    var ku := g.kE + 1;
    forall j, i | g.jS - 1 <= j <= g.jE + 1 && g.iS - 1 <= i <= g.iE + 1
      ensures forall x :: x in X3Cells(g, ifr, ku)(j, i) ==> P(x)
    {
      UOx3CellWrites(g, ifs, ife, ifr, j, i);
    }
    forall j, i | g.jS - 1 <= j <= g.jE + 1 && g.iS - 1 <= i <= g.iE + 1
      ensures forall x :: x in UOx3Ghost3(g, ifr)(j, i) ==> P(x)
    {
      UOx3Ghost3Writes(g, ifs, ife, ifr, j, i);
    }
    forall j, m | g.jS - 1 <= j <= g.jE + 1 && 0 <= m <= g.nang - 1
      ensures forall x :: x in UOx3Ghost1(g, ifr)(j, m) ==> P(x)
    {
      UOx3Ghost1Writes(g, ifs, ife, ifr, j, m);
    }
    forall i, m | g.iS - 1 <= i <= g.iE + 1 && 0 <= m <= g.nang - 1
      ensures forall x :: x in UOx3Ghost2(g, ifr)(i, m) ==> P(x)
    {
      UOx3Ghost2Writes(g, ifs, ife, ifr, i, m);
    }
    assert NestAll(ns[0], P) && NestAll(ns[1], P) && NestAll(ns[2], P) && NestAll(ns[3], P);
    RunAll(ns, P);
  }

  // ---------------------------------------------------------------------
  // Every slot of the outer x3 face is received by the pass for its
  // frequency.

  lemma UOx3CellCovers(g: Grid, ifs: int, ife: int, x: Loc)
    requires WriteSet(g, Ox3, ifs, ife)(x) && (x.S? || x.H?)
    ensures x in UnpackOx3RecvBody(g)(x.ifr)
  {
    CellLocsCover(g.nDim, x.ifr, x.k, x.j, x.i, if x.H? then x.n else 0);
    RunHas2(UnpackOx3RecvNests(g, x.ifr), 0, x.j, x.i, x);
  }

  lemma UOx3Ghost3Covers(g: Grid, ifs: int, ife: int, x: Loc)
    requires WriteSet(g, Ox3, ifs, ife)(x) && x.Ghst? && x.dir == 3
    ensures x in UnpackOx3RecvBody(g)(x.ifr)
  {
    Loop2Cover(4, 7, 0, g.nang - 1, UOx3Ghost3At(g, x.ifr, x.a, x.b), x.oct, x.m, x);
    RunHas2(UnpackOx3RecvNests(g, x.ifr), 1, x.a, x.b, x);
  }

  lemma UOx3Ghost1Covers(g: Grid, ifs: int, ife: int, x: Loc)
    requires WriteSet(g, Ox3, ifs, ife)(x) && x.Ghst? && x.dir == 1
    ensures x in UnpackOx3RecvBody(g)(x.ifr)
  {
    RunHas2(UnpackOx3RecvNests(g, x.ifr), 2, x.b, x.m, x);
  }

  lemma UOx3Ghost2Covers(g: Grid, ifs: int, ife: int, x: Loc)
    requires WriteSet(g, Ox3, ifs, ife)(x) && x.Ghst? && x.dir == 2
    ensures x in UnpackOx3RecvBody(g)(x.ifr)
  {
    RunHas2(UnpackOx3RecvNests(g, x.ifr), 3, x.b, x.m, x);
  }

  lemma UnpackOx3Covers(g: Grid, ifs: int, ife: int, x: Loc)
    requires WriteSet(g, Ox3, ifs, ife)(x)
    ensures x in UnpackOx3RecvBody(g)(x.ifr)
  {
    if x.S? || x.H? {
      UOx3CellCovers(g, ifs, ife, x);
    } else if x.dir == 3 {
      UOx3Ghost3Covers(g, ifs, ife, x);
    } else if x.dir == 1 {
      UOx3Ghost1Covers(g, ifs, ife, x);
    } else {
      UOx3Ghost2Covers(g, ifs, ife, x);
    }
  }

  /** The outer x3 exchange: unpack_ox3_rad run on the grid `r` over the
      buffer pack_ix3_rad filled from the neighbour's grid `s` consumes
      the whole buffer and leaves `Fill(Ox3, r, s)`. */
  lemma ExchangeOx3Fills(g: Grid, ifs: int, ife: int, r: Store, s: Store)
    requires Valid(g) && Total(r)
    ensures |Recvd(UnpackOx3(g, ifs, ife))| == |PackIx3(g, ifs, ife)|
    ensures Exec(r, UnpackOx3(g, ifs, ife), Read(s, PackIx3(g, ifs, ife))) == Fill(g, Ox3, ifs, ife, r, s)
  {
    forall ifr | ifs <= ifr <= ife
      ensures Pairwise(UnpackOx3RecvBody(g)(ifr), PackIx3Body(g)(ifr), MirrorRel(g, Ox3))
      ensures forall x :: x in UnpackOx3RecvBody(g)(ifr) ==> WriteSet(g, Ox3, ifs, ife)(x)
    {
      Ix3ToOx3Pairwise(g, ifr);
      UnpackOx3RecvWrites(g, ifs, ife, ifr);
    }
    forall x | WriteSet(g, Ox3, ifs, ife)(x) ensures x in UnpackOx3RecvBody(g)(x.ifr) {
      UnpackOx3Covers(g, ifs, ife, x);
    }
    UnpackLoopFills(g, Ox3, ifs, ife, UnpackOx3RecvBody(g), NoCopies(), PackIx3Body(g), r, s);
  }
  // =====================================================================
  // unpack_ox3_rad as the source writes it

  /** The slot the as-written `unpack_ox3_rad` fills in place of `x`: an
      x1 or x2 ghost intensity of the ghost plane goes to the boundary
      intensity with the same indices (`Ghstl1i` to `l1imu`, `Ghstr2i` to
      `r2imu`, ...); every other slot is filled as intended. */
  function Misplaced(x: Loc): (y: Loc)
    ensures x.Ghst? && x.dir != 3 ==> y.Imu? && y.side == x.side && y.dir == x.dir && y.ifr == x.ifr &&
                                      y.a == x.a && y.b == x.b && y.oct == x.oct && y.m == x.m
    ensures !(x.Ghst? && x.dir != 3) ==> y == x
  {
    match x
    case Ghst(side, dir, ifr, a, b, o, m) => if dir != 3 then Imu(side, dir, ifr, a, b, o, m) else x
    case _ => x
  }

  function MisplacedRel(): (Loc, Loc) -> bool
  {
    (c, w) => w == Misplaced(c)
  }

  /** `unpack_ox3_rad` as written: `S`, `H` and the x3 ghost intensities
      as in `UnpackOx3`, then the two ghost rows of plane `ke+1` received
      into `l1imu`/`r1imu` and `l2imu`/`r2imu`. */
  function UnpackOx3AsWritten(g: Grid, ifs: int, ife: int): seq<Step>
  {
    Unpacking(ifs, ife, UnpackOx3AsWrittenBody(g), NoCopies())
  }

  function UnpackOx3AsWrittenBody(g: Grid): int -> seq<Loc>
  {
    ifr => Run(UnpackOx3AsWrittenNests(g, ifr))
  }

  function UnpackOx3AsWrittenNests(g: Grid, ifr: int): seq<Nest<Loc>>
  {
    [Nest2(g.jS - 1, g.jE + 1, g.iS - 1, g.iE + 1, X3Cells(g, ifr, g.kE + 1)),
     Nest2(g.jS - 1, g.jE + 1, g.iS - 1, g.iE + 1, UOx3Ghost3(g, ifr)),
     Nest2(g.jS - 1, g.jE + 1, 0, g.nang - 1, WOx3Row1(g, ifr)),
     Nest2(g.iS - 1, g.iE + 1, 0, g.nang - 1, WOx3Row2(g, ifr))]
  }

  function WOx3Row1(g: Grid, ifr: int): (int, int) -> seq<Loc>
  {
    (j, m) =>
      var ku := g.kE + 1;
      [Imu(Left, 1, ifr, ku, j, 0, m), Imu(Left, 1, ifr, ku, j, 2, m),
       Imu(Left, 1, ifr, ku, j, 4, m), Imu(Left, 1, ifr, ku, j, 6, m),
       Imu(Right, 1, ifr, ku, j, 1, m), Imu(Right, 1, ifr, ku, j, 3, m),
       Imu(Right, 1, ifr, ku, j, 5, m), Imu(Right, 1, ifr, ku, j, 7, m)]
  }

  function WOx3Row2(g: Grid, ifr: int): (int, int) -> seq<Loc>
  {
    (i, m) =>
      var ku := g.kE + 1;
      [Imu(Left, 2, ifr, ku, i, 0, m), Imu(Left, 2, ifr, ku, i, 1, m),
       Imu(Left, 2, ifr, ku, i, 4, m), Imu(Left, 2, ifr, ku, i, 5, m),
       Imu(Right, 2, ifr, ku, i, 2, m), Imu(Right, 2, ifr, ku, i, 3, m),
       Imu(Right, 2, ifr, ku, i, 6, m), Imu(Right, 2, ifr, ku, i, 7, m)]
  }

  // ---------------------------------------------------------------------
  // The as-written routine receives, value for value, what `UnpackOx3`
  // receives, each into the `Misplaced` slot.

  lemma CellsNotMisplaced(g: Grid, ifr: int, j: int, i: int)
    ensures Pairwise(X3Cells(g, ifr, g.kE + 1)(j, i), X3Cells(g, ifr, g.kE + 1)(j, i), MisplacedRel())
  {
    var c := X3Cells(g, ifr, g.kE + 1)(j, i);
    forall t | 0 <= t < |c| ensures MisplacedRel()(c[t], c[t]) {
      var n := CellLocsPick(g.nDim, ifr, g.kE + 1, j, i, c[t]);
    }
  }

  lemma Ghost3NotMisplaced(g: Grid, ifr: int, j: int, i: int)
    ensures Pairwise(UOx3Ghost3(g, ifr)(j, i), UOx3Ghost3(g, ifr)(j, i), MisplacedRel())
  {
    var at := UOx3Ghost3At(g, ifr, j, i);
    forall o, m ensures Pairwise(at(o, m), at(o, m), MisplacedRel()) {
      var x := Ghst(Right, 3, ifr, j, i, o, m);
      assert Misplaced(x) == x;
      assert at(o, m) == [x];
    }
    Loop2Pairwise(4, 7, 0, g.nang - 1, at, at, MisplacedRel());
  }

  lemma Row1Misplaced(g: Grid, ifr: int, j: int, m: int)
    ensures Pairwise(UOx3Ghost1(g, ifr)(j, m), WOx3Row1(g, ifr)(j, m), MisplacedRel())
  {
    var u, w := UOx3Ghost1(g, ifr)(j, m), WOx3Row1(g, ifr)(j, m);
    forall t | 0 <= t < |u| ensures MisplacedRel()(u[t], w[t]) {
      assert w[t] == Misplaced(u[t]);
    }
  }

  lemma Row2Misplaced(g: Grid, ifr: int, i: int, m: int)
    ensures Pairwise(UOx3Ghost2(g, ifr)(i, m), WOx3Row2(g, ifr)(i, m), MisplacedRel())
  {
    var u, w := UOx3Ghost2(g, ifr)(i, m), WOx3Row2(g, ifr)(i, m);
    forall t | 0 <= t < |u| ensures MisplacedRel()(u[t], w[t]) {
      assert w[t] == Misplaced(u[t]);
    }
  }

  lemma UnpackOx3AsWrittenPass(g: Grid, ifr: int)
    ensures Pairwise(UnpackOx3RecvBody(g)(ifr), UnpackOx3AsWrittenBody(g)(ifr), MisplacedRel())
  {
    var rel := MisplacedRel();
    var us, ws := UnpackOx3RecvNests(g, ifr), UnpackOx3AsWrittenNests(g, ifr);
    var ku := g.kE + 1;
    forall j, i ensures Pairwise(X3Cells(g, ifr, ku)(j, i), X3Cells(g, ifr, ku)(j, i), rel) {
      CellsNotMisplaced(g, ifr, j, i);
    }
    forall j, i ensures Pairwise(UOx3Ghost3(g, ifr)(j, i), UOx3Ghost3(g, ifr)(j, i), rel) {
      Ghost3NotMisplaced(g, ifr, j, i);
    }
    forall j, m ensures Pairwise(UOx3Ghost1(g, ifr)(j, m), WOx3Row1(g, ifr)(j, m), rel) {
      Row1Misplaced(g, ifr, j, m);
    }
    forall i, m ensures Pairwise(UOx3Ghost2(g, ifr)(i, m), WOx3Row2(g, ifr)(i, m), rel) {
      Row2Misplaced(g, ifr, i, m);
    }
    assert NestPairwise(us[0], ws[0], rel) && NestPairwise(us[1], ws[1], rel);
    assert NestPairwise(us[2], ws[2], rel) && NestPairwise(us[3], ws[3], rel);
    RunPairwise(us, ws, rel);
  }

  /** The as-written routine takes from the buffer exactly the doubles
      `UnpackOx3` takes, in the same order, and puts each in the
      `Misplaced` slot of the one `UnpackOx3` fills. */
  lemma UnpackOx3AsWrittenReceives(g: Grid, ifs: int, ife: int)
    ensures Pairwise(Recvd(UnpackOx3(g, ifs, ife)), Recvd(UnpackOx3AsWritten(g, ifs, ife)), MisplacedRel())
    ensures |Recvd(UnpackOx3AsWritten(g, ifs, ife))| == |PackIx3(g, ifs, ife)|
  {
    UnpackingRecvd(ifs, ife, UnpackOx3RecvBody(g), NoCopies());
    UnpackingRecvd(ifs, ife, UnpackOx3AsWrittenBody(g), NoCopies());
    forall ifr | ifs <= ifr <= ife
      ensures Pairwise(UnpackOx3RecvBody(g)(ifr), UnpackOx3AsWrittenBody(g)(ifr), MisplacedRel())
      ensures Pairwise(UnpackOx3RecvBody(g)(ifr), PackIx3Body(g)(ifr), MirrorRel(g, Ox3))
    {
      UnpackOx3AsWrittenPass(g, ifr);
      Ix3ToOx3Pairwise(g, ifr);
    }
    Loop1Pairwise(ifs, ife, UnpackOx3RecvBody(g), UnpackOx3AsWrittenBody(g), MisplacedRel());
    Loop1Pairwise(ifs, ife, UnpackOx3RecvBody(g), PackIx3Body(g), MirrorRel(g, Ox3));
  }

  function NotGhostRow(): Loc -> bool
  {
    (y: Loc) => !(y.Ghst? && y.dir != 3)
  }

  lemma AsWrittenCellsNotGhostRow(g: Grid, ifr: int)
    ensures NestAll(UnpackOx3AsWrittenNests(g, ifr)[0], NotGhostRow())
  {
    var ku := g.kE + 1;
    forall j, i, y | y in X3Cells(g, ifr, ku)(j, i) ensures NotGhostRow()(y) {
      var n := CellLocsPick(g.nDim, ifr, ku, j, i, y);
    }
  }

  lemma AsWrittenGhost3NotGhostRow(g: Grid, ifr: int)
    ensures NestAll(UnpackOx3AsWrittenNests(g, ifr)[1], NotGhostRow())
  {
    forall j, i ensures forall y :: y in UOx3Ghost3(g, ifr)(j, i) ==> NotGhostRow()(y) {
      Loop2All(4, 7, 0, g.nang - 1, UOx3Ghost3At(g, ifr, j, i), NotGhostRow());
    }
  }

  /** Whatever the as-written routine writes is `S`, `H`, an x3 ghost
      intensity or a boundary intensity: never an x1 or x2 ghost
      intensity. */
  lemma UnpackOx3AsWrittenSkipsGhostRows(g: Grid, ifs: int, ife: int, x: Loc)
    requires x in Dsts(UnpackOx3AsWritten(g, ifs, ife))
    ensures !(x.Ghst? && x.dir != 3)
  {
    var P := NotGhostRow();
    forall ifr | ifs <= ifr <= ife ensures forall y :: y in UnpackOx3AsWrittenBody(g)(ifr) ==> P(y) {
      AsWrittenPassNotGhostRow(g, ifr);
    }
    UnpackingDstsWithin(P, ifs, ife, UnpackOx3AsWrittenBody(g), NoCopies());
  }

  lemma AsWrittenPassNotGhostRow(g: Grid, ifr: int)
    ensures forall y :: y in UnpackOx3AsWrittenBody(g)(ifr) ==> NotGhostRow()(y)
  {
    var P, ns := NotGhostRow(), UnpackOx3AsWrittenNests(g, ifr);
    AsWrittenCellsNotGhostRow(g, ifr);
    AsWrittenGhost3NotGhostRow(g, ifr);
    assert NestAll(ns[2], P) && NestAll(ns[3], P);
    RunAll(ns, P);
  }

  /** The as-written x3 outer exchange leaves every x1 and x2 ghost
      intensity of plane `ke+1` as it was, where `Fill(Ox3)` (and
      `periodic_ox3_rad`, and `unpack_ix3_rad` on the other face) puts the
      neighbour's plane `ks` value: the result differs from the fill
      exactly when the two differ. Shown for `Ghstl1i[ifr][ke+1][j][0][m]`. */
  lemma UnpackOx3AsWrittenMissesGhost(g: Grid, ifs: int, ife: int, r: Store, s: Store, ifr: int, j: int, m: int)
    requires Valid(g) && Total(r)
    requires ifs <= ifr <= ife && g.jS - 1 <= j <= g.jE + 1 && 0 <= m < g.nang
    ensures |Recvd(UnpackOx3AsWritten(g, ifs, ife))| == |Read(s, PackIx3(g, ifs, ife))|
    ensures var x := Ghst(Left, 1, ifr, g.kE + 1, j, 0, m);
      Writes(g, Ox3, ifs, ife, x) &&
      Get(Exec(r, UnpackOx3AsWritten(g, ifs, ife), Read(s, PackIx3(g, ifs, ife))), x) == Get(r, x) &&
      Get(Fill(g, Ox3, ifs, ife, r, s), x) == Get(s, Ghst(Left, 1, ifr, g.kS, j, 0, m))
  {
    var x := Ghst(Left, 1, ifr, g.kE + 1, j, 0, m);
    UnpackOx3AsWrittenReceives(g, ifs, ife);
    if x in Dsts(UnpackOx3AsWritten(g, ifs, ife)) {
      UnpackOx3AsWrittenSkipsGhostRows(g, ifs, ife, x);
    }
    ExecOutside(r, UnpackOx3AsWritten(g, ifs, ife), Read(s, PackIx3(g, ifs, ife)), x);
  }

  /** ... and it overwrites the boundary intensity
      `l1imu[ifr][ke+1][j][0][m]`, which lies outside the face. */
  lemma UnpackOx3AsWrittenClobbers(g: Grid, ifs: int, ife: int, ifr: int, j: int, m: int)
    requires ifs <= ifr <= ife && g.jS - 1 <= j <= g.jE + 1 && 0 <= m < g.nang
    ensures Imu(Left, 1, ifr, g.kE + 1, j, 0, m) in Recvd(UnpackOx3AsWritten(g, ifs, ife))
    ensures !Writes(g, Ox3, ifs, ife, Imu(Left, 1, ifr, g.kE + 1, j, 0, m))
  {
    var y := Imu(Left, 1, ifr, g.kE + 1, j, 0, m);
    X3WritesNoImu(g, Ox3, ifs, ife, y);
    RunHas2(UnpackOx3AsWrittenNests(g, ifr), 2, j, m, y);
    assert y in UnpackOx3AsWrittenBody(g)(ifr);
    Loop1Cover(ifs, ife, UnpackOx3AsWrittenBody(g), ifr, y);
    UnpackingRecvd(ifs, ife, UnpackOx3AsWrittenBody(g), NoCopies());
  }
}
