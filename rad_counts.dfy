/** The message sizes `bvals_rad_init` computes (`x1cnt`, `x2cnt`,
    `x3cnt`: the number of doubles one grid exchanges across each face,
    over all frequencies), set against the number of values the pack
    routines of `bvals_rad.c` actually write into the send buffer. */
module RadCounts {
  import opened Loops
  import opened RadFaces
  import opened RadCells
  import opened RadX1
  import opened RadX2
  import opened RadX3

  /** The octant counts the solver uses: 2 in one dimension, 4 in two, 8 in three. */
  predicate Octants(noct: int)
  {
    noct == 2 || noct == 4 || noct == 8
  }

  /** A grid whose loop bounds a pack routine can run over. */
  predicate Sized(g: Grid)
  {
    Valid(g) && Octants(g.noct) && g.nang >= 0 && g.nDim >= 0
  }

  /** The active cells along x1, x2 and x3 (`Nx[0]`, `Nx[1]`, `Nx[2]`). */
  function Nx1(g: Grid): int { g.iE - g.iS + 1 }
  function Nx2(g: Grid): int { g.jE - g.jS + 1 }
  function Nx3(g: Grid): int { g.kE - g.kS + 1 }

  // =====================================================================
  // What one pass of a pack routine's frequency loop sends, read off its
  // loop nests

  /** x1 faces: `S` and `H` of the face column, the x1 ghost intensities,
      and with four or eight octants the x2 corner octants, with eight the
      x3 edge octants. */
  function X1Words(g: Grid): (w: nat)
    requires Sized(g)
  {
    var h := g.noct / 2;
    Nx3(g) * (Nx2(g) * (1 + g.nDim)) + Nx3(g) * (Nx2(g) * (g.nang * h))
    + (if g.noct > 2 then Nx3(g) * (g.nang * h) else 0)
    + (if g.noct == 8 then Nx2(g) * (g.nang * 4) else 0)
  }

  /** x2 faces: the face row spans the x1 ghost columns. */
  function X2Words(g: Grid): (w: nat)
    requires Sized(g)
  {
    var n1 := Nx1(g) + 2;
    Nx3(g) * (n1 * (1 + g.nDim))
    + Nx3(g) * (n1 * (g.nang * (if g.noct == 8 then 4 else 2)))
    + Nx3(g) * (g.nang * (if g.noct == 8 then 8 else 4))
    + (if g.noct == 8 then n1 * (g.nang * 4) else 0)
  }

  /** x3 faces: the face plane spans the x1 and x2 ghost cells. */
  function X3Words(g: Grid): (w: nat)
    requires Sized(g)
  {
    var n1 := Nx1(g) + 2;
    var n2 := Nx2(g) + 2;
    n2 * (n1 * (1 + g.nDim)) + n2 * (n1 * (4 * g.nang)) + n2 * (g.nang * 8) + n1 * (g.nang * 8)
  }

  /** `Loop2Len` with the trip counts named by the caller. */
  lemma Len2<T>(a0: int, a1: int, b0: int, b1: int, f: (int, int) -> seq<T>, n: nat, ta: nat, tb: nat)
    requires ta == Trips(a0, a1) && tb == Trips(b0, b1)
    requires forall a, b :: a0 <= a <= a1 && b0 <= b <= b1 ==> |f(a, b)| == n
    ensures |Loop2(a0, a1, b0, b1, f)| == ta * (tb * n)
  {
    Loop2Len(a0, a1, b0, b1, f, n);
  }

  /** `Loop3Len` with the trip counts named by the caller. */
  lemma Len3<T>(a0: int, a1: int, b0: int, b1: int, c0: int, c1: int, f: (int, int, int) -> seq<T>,
                n: nat, ta: nat, tb: nat, tc: nat)
    requires ta == Trips(a0, a1) && tb == Trips(b0, b1) && tc == Trips(c0, c1)
    requires forall a, b, c :: a0 <= a <= a1 && b0 <= b <= b1 && c0 <= c <= c1 ==> |f(a, b, c)| == n
    ensures |Loop3(a0, a1, b0, b1, c0, c1, f)| == ta * (tb * (tc * n))
  {
    Loop3Len(a0, a1, b0, b1, c0, c1, f, n);
  }

  /** The face column of an x1 pack: `1 + nDim` values per cell. */
  lemma X1FaceLen(g: Grid, ifr: int, i: int)
    requires Sized(g)
    ensures |Loop2(g.kS, g.kE, g.jS, g.jE, X1Cells(g, ifr, i))| == Nx3(g) * (Nx2(g) * (1 + g.nDim))
  {
    forall k, j ensures |X1Cells(g, ifr, i)(k, j)| == 1 + g.nDim {
      CellLen(g.nDim, ifr, k, j, i);
    }
    Len2(g.kS, g.kE, g.jS, g.jE, X1Cells(g, ifr, i), 1 + g.nDim, Nx3(g), Nx2(g));
  }

  /** The face row of an x2 pack, over the x1 ghost columns too. */
  lemma X2FaceLen(g: Grid, ifr: int, j: int)
    requires Sized(g)
    ensures |Loop2(g.kS, g.kE, g.iS - 1, g.iE + 1, X2Cells(g, ifr, j))| == Nx3(g) * ((Nx1(g) + 2) * (1 + g.nDim))
  {
    forall k, i ensures |X2Cells(g, ifr, j)(k, i)| == 1 + g.nDim {
      CellLen(g.nDim, ifr, k, j, i);
    }
    Len2(g.kS, g.kE, g.iS - 1, g.iE + 1, X2Cells(g, ifr, j), 1 + g.nDim, Nx3(g), Nx1(g) + 2);
  }

  /** The face plane of an x3 pack, over the x1 and x2 ghost cells too. */
  lemma X3FaceLen(g: Grid, ifr: int, k: int)
    requires Sized(g)
    ensures |Loop2(g.jS - 1, g.jE + 1, g.iS - 1, g.iE + 1, X3Cells(g, ifr, k))| == (Nx2(g) + 2) * ((Nx1(g) + 2) * (1 + g.nDim))
  {
    forall j, i ensures |X3Cells(g, ifr, k)(j, i)| == 1 + g.nDim {
      CellLen(g.nDim, ifr, k, j, i);
    }
    Len2(g.jS - 1, g.jE + 1, g.iS - 1, g.iE + 1, X3Cells(g, ifr, k), 1 + g.nDim, Nx2(g) + 2, Nx1(g) + 2);
  }

  lemma PackIx1Pass(g: Grid, ifr: int)
    requires Sized(g)
    ensures |PackIx1Body(g)(ifr)| == X1Words(g)
  {
    var h := g.noct / 2;
    X1FaceLen(g, ifr, g.iS);
    Len3(g.kS, g.kE, g.jS, g.jE, 0, g.nang - 1, SIx1Ghost(g, ifr), h, Nx3(g), Nx2(g), g.nang);
    if g.noct > 2 {
      Len2(g.kS, g.kE, 0, g.nang - 1, SIx1Corner(g, ifr), h, Nx3(g), g.nang);
    }
    if g.noct == 8 {
      Len2(g.jS, g.jE, 0, g.nang - 1, SIx1Edge(g, ifr), 4, Nx2(g), g.nang);
    }
    RunLen4(PackIx1Nests(g, ifr));
  }

  lemma PackOx1Pass(g: Grid, ifr: int)
    requires Sized(g)
    ensures |PackOx1Body(g)(ifr)| == X1Words(g)
  {
    var h := g.noct / 2;
    X1FaceLen(g, ifr, g.iE);
    Len3(g.kS, g.kE, g.jS, g.jE, 0, g.nang - 1, SOx1Ghost(g, ifr), h, Nx3(g), Nx2(g), g.nang);
    if g.noct > 2 {
      Len2(g.kS, g.kE, 0, g.nang - 1, SOx1Corner(g, ifr), h, Nx3(g), g.nang);
    }
    if g.noct == 8 {
      Len2(g.jS, g.jE, 0, g.nang - 1, SOx1Edge(g, ifr), 4, Nx2(g), g.nang);
    }
    RunLen4(PackOx1Nests(g, ifr));
  }

  lemma PackIx2Pass(g: Grid, ifr: int)
    requires Sized(g)
    ensures |PackIx2Body(g)(ifr)| == X2Words(g)
  {
    X2FaceLen(g, ifr, g.jS);
    Len3(g.kS, g.kE, g.iS - 1, g.iE + 1, 0, g.nang - 1, SIx2Ghost2(g, ifr), if g.noct == 8 then 4 else 2,
         Nx3(g), Nx1(g) + 2, g.nang);
    Len2(g.kS, g.kE, 0, g.nang - 1, SIx2Ghost1(g, ifr), if g.noct == 8 then 8 else 4, Nx3(g), g.nang);
    if g.noct == 8 {
      Len2(g.iS - 1, g.iE + 1, 0, g.nang - 1, SIx2Edge(g, ifr), 4, Nx1(g) + 2, g.nang);
    }
    RunLen4(PackIx2Nests(g, ifr));
  }

  lemma PackOx2Pass(g: Grid, ifr: int)
    requires Sized(g)
    ensures |PackOx2Body(g)(ifr)| == X2Words(g)
  {
    X2FaceLen(g, ifr, g.jE);
    Len3(g.kS, g.kE, g.iS - 1, g.iE + 1, 0, g.nang - 1, SOx2Ghost2(g, ifr), if g.noct == 8 then 4 else 2,
         Nx3(g), Nx1(g) + 2, g.nang);
    Len2(g.kS, g.kE, 0, g.nang - 1, SOx2Ghost1(g, ifr), if g.noct == 8 then 8 else 4, Nx3(g), g.nang);
    if g.noct == 8 {
      Len2(g.iS - 1, g.iE + 1, 0, g.nang - 1, SOx2Edge(g, ifr), 4, Nx1(g) + 2, g.nang);
    }
    RunLen4(PackOx2Nests(g, ifr));
  }

  /** Each cell of the x3 face plane sends four octants of every angle. */
  lemma Ix3Ghost3Len(g: Grid, ifr: int)
    requires Sized(g)
    ensures forall j, i :: |SIx3Ghost3(g, ifr)(j, i)| == 4 * g.nang
  {
    forall j, i ensures |SIx3Ghost3(g, ifr)(j, i)| == 4 * g.nang {
      Loop2Len(4, 7, 0, g.nang - 1, SIx3Ghost3At(g, ifr, j, i), 1);
    }
  }

  lemma Ox3Ghost3Len(g: Grid, ifr: int)
    requires Sized(g)
    ensures forall j, i :: |SOx3Ghost3(g, ifr)(j, i)| == 4 * g.nang
  {
    forall j, i ensures |SOx3Ghost3(g, ifr)(j, i)| == 4 * g.nang {
      Loop2Len(0, 3, 0, g.nang - 1, SOx3Ghost3At(g, ifr, j, i), 1);
    }
  }

  /** The ix3 pack emits its four loop nests one after the other. */
  lemma PackIx3Nests4(g: Grid, ifr: int)
    ensures |PackIx3Body(g)(ifr)| ==
            |Loop2(g.jS - 1, g.jE + 1, g.iS - 1, g.iE + 1, X3Cells(g, ifr, g.kS))| +
            |Loop2(g.jS - 1, g.jE + 1, g.iS - 1, g.iE + 1, SIx3Ghost3(g, ifr))| +
            |Loop2(g.jS - 1, g.jE + 1, 0, g.nang - 1, SIx3Ghost1(g, ifr))| +
            |Loop2(g.iS - 1, g.iE + 1, 0, g.nang - 1, SIx3Ghost2(g, ifr))|
  {
    RunLen4(PackIx3Nests(g, ifr));
  }

  /** The four loop nests of the ix3 pack send `X3Words` values together. */
  lemma PackIx3Words(g: Grid, ifr: int)
    requires Sized(g)
    ensures |Loop2(g.jS - 1, g.jE + 1, g.iS - 1, g.iE + 1, X3Cells(g, ifr, g.kS))| +
            |Loop2(g.jS - 1, g.jE + 1, g.iS - 1, g.iE + 1, SIx3Ghost3(g, ifr))| +
            |Loop2(g.jS - 1, g.jE + 1, 0, g.nang - 1, SIx3Ghost1(g, ifr))| +
            |Loop2(g.iS - 1, g.iE + 1, 0, g.nang - 1, SIx3Ghost2(g, ifr))| == X3Words(g)
  {
    var n1, n2 := Nx1(g) + 2, Nx2(g) + 2;
    X3FaceLen(g, ifr, g.kS);
    Ix3Ghost3Len(g, ifr);
    Len2(g.jS - 1, g.jE + 1, g.iS - 1, g.iE + 1, SIx3Ghost3(g, ifr), 4 * g.nang, n2, n1);
    Len2(g.jS - 1, g.jE + 1, 0, g.nang - 1, SIx3Ghost1(g, ifr), 8, n2, g.nang);
    Len2(g.iS - 1, g.iE + 1, 0, g.nang - 1, SIx3Ghost2(g, ifr), 8, n1, g.nang);
  }

  lemma PackIx3Pass(g: Grid, ifr: int)
    requires Sized(g)
    ensures |PackIx3Body(g)(ifr)| == X3Words(g)
  {
    PackIx3Nests4(g, ifr);
    PackIx3Words(g, ifr);
  }

  /** The ox3 pack emits its four loop nests one after the other. */
  lemma PackOx3Nests4(g: Grid, ifr: int)
    ensures |PackOx3Body(g)(ifr)| ==
            |Loop2(g.jS - 1, g.jE + 1, g.iS - 1, g.iE + 1, X3Cells(g, ifr, g.kE))| +
            |Loop2(g.jS - 1, g.jE + 1, g.iS - 1, g.iE + 1, SOx3Ghost3(g, ifr))| +
            |Loop2(g.jS - 1, g.jE + 1, 0, g.nang - 1, SOx3Ghost1(g, ifr))| +
            |Loop2(g.iS - 1, g.iE + 1, 0, g.nang - 1, SOx3Ghost2(g, ifr))|
  {
    RunLen4(PackOx3Nests(g, ifr));
  }

  /** The four loop nests of the ox3 pack send `X3Words` values together. */
  lemma PackOx3Words(g: Grid, ifr: int)
    requires Sized(g)
    ensures |Loop2(g.jS - 1, g.jE + 1, g.iS - 1, g.iE + 1, X3Cells(g, ifr, g.kE))| +
            |Loop2(g.jS - 1, g.jE + 1, g.iS - 1, g.iE + 1, SOx3Ghost3(g, ifr))| +
            |Loop2(g.jS - 1, g.jE + 1, 0, g.nang - 1, SOx3Ghost1(g, ifr))| +
            |Loop2(g.iS - 1, g.iE + 1, 0, g.nang - 1, SOx3Ghost2(g, ifr))| == X3Words(g)
  {
    var n1, n2 := Nx1(g) + 2, Nx2(g) + 2;
    X3FaceLen(g, ifr, g.kE);
    Ox3Ghost3Len(g, ifr);
    Len2(g.jS - 1, g.jE + 1, g.iS - 1, g.iE + 1, SOx3Ghost3(g, ifr), 4 * g.nang, n2, n1);
    Len2(g.jS - 1, g.jE + 1, 0, g.nang - 1, SOx3Ghost1(g, ifr), 8, n2, g.nang);
    Len2(g.iS - 1, g.iE + 1, 0, g.nang - 1, SOx3Ghost2(g, ifr), 8, n1, g.nang);
  }

  lemma PackOx3Pass(g: Grid, ifr: int)
    requires Sized(g)
    ensures |PackOx3Body(g)(ifr)| == X3Words(g)
  {
    PackOx3Nests4(g, ifr);
    PackOx3Words(g, ifr);
  }

  /** Both x1 pack routines send `X1Words` values per frequency. */
  lemma PackX1Len(g: Grid, ifs: int, ife: int)
    requires Sized(g)
    ensures |PackIx1(g, ifs, ife)| == Trips(ifs, ife) * X1Words(g)
    ensures |PackOx1(g, ifs, ife)| == Trips(ifs, ife) * X1Words(g)
  {
    forall ifr ensures |PackIx1Body(g)(ifr)| == X1Words(g) { PackIx1Pass(g, ifr); }
    forall ifr ensures |PackOx1Body(g)(ifr)| == X1Words(g) { PackOx1Pass(g, ifr); }
    Loop1Len(ifs, ife, PackIx1Body(g), X1Words(g));
    Loop1Len(ifs, ife, PackOx1Body(g), X1Words(g));
  }

  /** Both x2 pack routines send `X2Words` values per frequency. */
  lemma PackX2Len(g: Grid, ifs: int, ife: int)
    requires Sized(g)
    ensures |PackIx2(g, ifs, ife)| == Trips(ifs, ife) * X2Words(g)
    ensures |PackOx2(g, ifs, ife)| == Trips(ifs, ife) * X2Words(g)
  {
    forall ifr ensures |PackIx2Body(g)(ifr)| == X2Words(g) { PackIx2Pass(g, ifr); }
    forall ifr ensures |PackOx2Body(g)(ifr)| == X2Words(g) { PackOx2Pass(g, ifr); }
    Loop1Len(ifs, ife, PackIx2Body(g), X2Words(g));
    Loop1Len(ifs, ife, PackOx2Body(g), X2Words(g));
  }

  /** Both x3 pack routines send `X3Words` values per frequency. */
  lemma PackX3Len(g: Grid, ifs: int, ife: int)
    requires Sized(g)
    ensures |PackIx3(g, ifs, ife)| == Trips(ifs, ife) * X3Words(g)
    ensures |PackOx3(g, ifs, ife)| == Trips(ifs, ife) * X3Words(g)
  {
    forall ifr ensures |PackIx3Body(g)(ifr)| == X3Words(g) { PackIx3Pass(g, ifr); }
    forall ifr ensures |PackOx3Body(g)(ifr)| == X3Words(g) { PackOx3Pass(g, ifr); }
    Loop1Len(ifs, ife, PackIx3Body(g), X3Words(g));
    Loop1Len(ifs, ife, PackOx3Body(g), X3Words(g));
  }

  lemma MulLe(a: int, b: int, w: int)
    requires a <= b && w >= 0
    ensures a * w <= b * w
  {
  }

  /** A pack over part of the frequencies sends no more than one over all `nf`. */
  lemma PackWithin(g: Grid, ifs: int, ife: int)
    requires Sized(g) && g.nf >= 0 && 0 <= ifs && ife < g.nf
    ensures |PackIx1(g, ifs, ife)| <= |PackIx1(g, 0, g.nf - 1)|
    ensures |PackOx1(g, ifs, ife)| <= |PackOx1(g, 0, g.nf - 1)|
    ensures |PackIx2(g, ifs, ife)| <= |PackIx2(g, 0, g.nf - 1)|
    ensures |PackOx2(g, ifs, ife)| <= |PackOx2(g, 0, g.nf - 1)|
    ensures |PackIx3(g, ifs, ife)| <= |PackIx3(g, 0, g.nf - 1)|
    ensures |PackOx3(g, ifs, ife)| <= |PackOx3(g, 0, g.nf - 1)|
  {
    PackX1Len(g, ifs, ife);
    PackX1Len(g, 0, g.nf - 1);
    MulLe(Trips(ifs, ife), Trips(0, g.nf - 1), X1Words(g));
    PackX2Len(g, ifs, ife);
    PackX2Len(g, 0, g.nf - 1);
    MulLe(Trips(ifs, ife), Trips(0, g.nf - 1), X2Words(g));
    PackX3Len(g, ifs, ife);
    PackX3Len(g, 0, g.nf - 1);
    MulLe(Trips(ifs, ife), Trips(0, g.nf - 1), X3Words(g));
  }

  // =====================================================================
  // The counts of bvals_rad_init, for one grid of the domain whose sizes
  // are `nx1`, `nx2`, `nx3` (the `Nx` of its `GridsData` entry)

  /** `x1cnt` as the source computes it: the x3 corner column is counted
      only with four octants, so with eight it is left out. */
  function X1CountAsWritten(nx2: int, nx3: int, noct: int, nang: int, nDim: int, nf: int): int
  {
    var x := nx2 * nx3 + (if noct == 4 then nx3 else 0) + (if noct == 8 then nx2 else 0);
    (x * (noct * nang / 2) + (nDim + 1) * nx2 * nx3) * nf
  }

  /** With eight octants the as-written `x1cnt` of a non-empty grid is positive. */
  lemma CountAsWrittenPositive(nx2: int, nx3: int, nang: int, nDim: int, nf: int)
    requires nx2 >= 1 && nx3 >= 1 && nang >= 1 && nDim >= 0 && nf >= 1
    ensures X1CountAsWritten(nx2, nx3, 8, nang, nDim, nf) > 0
  {
    var x := nx2 * nx3 + nx2;
    assert nx2 * nx3 >= 1;
    assert x * (8 * nang / 2) >= 1;
    assert (nDim + 1) * nx2 * nx3 >= 0;
  }

  /** `x1cnt` with the x2 corner octants counted whenever the grid has more
      than two octants, as `pack_ix1_rad` and `pack_ox1_rad` send them. */
  function X1Count(nx2: int, nx3: int, noct: int, nang: int, nDim: int, nf: int): int
  {
    var x := nx2 * nx3 + (if noct > 2 then nx3 else 0) + (if noct == 8 then nx2 else 0);
    (x * (noct * nang / 2) + (nDim + 1) * nx2 * nx3) * nf
  }

  /** `x2cnt`: the face row with two ghost columns on each side. */
  function X2Count(nx1: int, nx3: int, noct: int, nang: int, nDim: int, nf: int): int
  {
    var nx1t := nx1 + 2;
    var x := nx3 * (nx1t + 2) + (if noct == 8 then nx1t + nx3 else 0);
    (x * (noct * nang / 2) + (nDim + 1) * nx3 * nx1t) * nf
  }

  /** `x3cnt`: the face plane with its ghost rows and columns. */
  function X3Count(nx1: int, nx2: int, noct: int, nang: int, nDim: int, nf: int): int
  {
    var nx1t := nx1 + 2;
    var nx2t := nx2 + 2;
    var x := nx1t * nx2t + 2 * (nx1t + nx2t);
    (x * (noct * nang / 2) + (nDim + 1) * nx2t * nx1t) * nf
  }

  /** The per-frequency x1 count, spelled as the pack's loop nests. */
  lemma X1CountWords(g: Grid)
    requires Sized(g)
    ensures X1Count(Nx2(g), Nx3(g), g.noct, g.nang, g.nDim, 1) == X1Words(g)
  {
    X1CountForm(Nx2(g), Nx3(g), g.noct, g.nang, g.nDim);
  }

  /** `X1Count` for one frequency, regrouped term by term as `X1Words`. */
  lemma X1CountForm(a: int, b: int, noct: int, n: int, d: int)
    requires Octants(noct)
    ensures X1Count(a, b, noct, n, d, 1)
            == b * (a * (1 + d)) + b * (a * (n * (noct / 2)))
               + (if noct > 2 then b * (n * (noct / 2)) else 0)
               + (if noct == 8 then a * (n * 4) else 0)
  {
    var h := noct / 2;
    var c := (if noct > 2 then b else 0) + (if noct == 8 then a else 0);
    assert noct * n / 2 == n * h;
    assert (d + 1) * a * b == b * (a * (1 + d));
    assert (a * b + c) * (n * h) == b * (a * (n * h)) + c * (n * h);
    if noct == 8 {
      assert c * (n * h) == b * (n * h) + a * (n * 4);
    }
  }

  /** The corrected `x1cnt` is exactly what either x1 pack routine sends
      over all `nf` frequencies. */
  lemma X1CountExact(g: Grid)
    requires Sized(g) && g.nf >= 0
    ensures X1Count(Nx2(g), Nx3(g), g.noct, g.nang, g.nDim, g.nf) == |PackIx1(g, 0, g.nf - 1)|
    ensures X1Count(Nx2(g), Nx3(g), g.noct, g.nang, g.nDim, g.nf) == |PackOx1(g, 0, g.nf - 1)|
  {
    PackX1Len(g, 0, g.nf - 1);
    X1CountWords(g);
    X1CountScale(Nx2(g), Nx3(g), g.noct, g.nang, g.nDim, g.nf);
  }

  lemma X1CountScale(nx2: int, nx3: int, noct: int, nang: int, nDim: int, nf: int)
    ensures X1Count(nx2, nx3, noct, nang, nDim, nf) == nf * X1Count(nx2, nx3, noct, nang, nDim, 1)
  {
  }

  /** The count as written falls short of what the x1 pack routines send
      by `nx3 * nang * 4` values per frequency when there are eight
      octants, and is exact otherwise. */
  lemma X1CountAsWrittenShort(g: Grid)
    requires Sized(g) && g.nf >= 0
    ensures X1CountAsWritten(Nx2(g), Nx3(g), g.noct, g.nang, g.nDim, g.nf)
            + (if g.noct == 8 then g.nf * (Nx3(g) * (g.nang * 4)) else 0)
            == |PackIx1(g, 0, g.nf - 1)|
  {
    X1CountExact(g);
    X1CountGap(Nx2(g), Nx3(g), g.noct, g.nang, g.nDim, g.nf);
  }

  /** The two x1 counts differ by the x3 corner column with eight octants only. */
  lemma X1CountGap(a: int, b: int, noct: int, n: int, d: int, f: int)
    requires Octants(noct)
    ensures X1CountAsWritten(a, b, noct, n, d, f) + (if noct == 8 then f * (b * (n * 4)) else 0)
            == X1Count(a, b, noct, n, d, f)
  {
    if noct == 8 {
      var x := a * b + a;
      assert 8 * n / 2 == n * 4;
      assert X1Count(a, b, 8, n, d, f) == ((x + b) * (n * 4) + (d + 1) * a * b) * f;
      assert X1CountAsWritten(a, b, 8, n, d, f) == (x * (n * 4) + (d + 1) * a * b) * f;
      assert (x + b) * (n * 4) == x * (n * 4) + b * (n * 4);
      assert ((x + b) * (n * 4) + (d + 1) * a * b) * f
             == (x * (n * 4) + (d + 1) * a * b) * f + f * (b * (n * 4));
    }
  }

  /** A three-dimensional grid of 2 x 2 x 2 cells, one angle and one
      frequency: `x1cnt` as written is 40, yet either x1 pack routine
      writes 48 values into the send buffer. */
  lemma X1CountAsWrittenOverflow()
    ensures X1CountAsWritten(2, 2, 8, 1, 3, 1) == 40
    ensures |PackIx1(Grid(0, 1, 0, 1, 0, 1, 1, 1, 8, 3), 0, 0)| == 48
  {
    X1CountAsWrittenShort(Grid(0, 1, 0, 1, 0, 1, 1, 1, 8, 3));
  }

  /** The per-frequency x2 count, spelled as the pack's loop nests plus
      what it counts beyond them. */
  lemma X2CountWords(g: Grid)
    requires Sized(g) && g.noct != 2
    ensures X2Count(Nx1(g), Nx3(g), g.noct, g.nang, g.nDim, 1)
            == X2Words(g) + (if g.noct == 8 then Nx3(g) * (g.nang * 4) else 0)
  {
    X2CountForm(Nx1(g), Nx3(g), g.noct, g.nang, g.nDim);
  }

  /** `X2Count` for one frequency, regrouped term by term as `X2Words`. */
  lemma X2CountForm(nx1: int, b: int, noct: int, n: int, d: int)
    requires noct == 4 || noct == 8
    ensures X2Count(nx1, b, noct, n, d, 1)
            == b * ((nx1 + 2) * (1 + d))
               + b * ((nx1 + 2) * (n * (if noct == 8 then 4 else 2)))
               + b * (n * (if noct == 8 then 8 else 4))
               + (if noct == 8 then (nx1 + 2) * (n * 4) else 0)
               + (if noct == 8 then b * (n * 4) else 0)
  {
    var a := nx1 + 2;
    assert (d + 1) * b * a == b * (a * (1 + d));
    if noct == 8 {
      assert 8 * n / 2 == n * 4;
      assert (b * (a + 2) + (a + b)) * (n * 4)
             == b * (a * (n * 4)) + b * (n * 8) + a * (n * 4) + b * (n * 4);
    } else {
      assert 4 * n / 2 == n * 2;
      assert (b * (a + 2)) * (n * 2) == b * (a * (n * 2)) + b * (n * 4);
    }
  }

  /** `x2cnt` covers what either x2 pack routine sends, with four octants
      exactly and with eight `nx3 * nang * 4` values per frequency to spare. */
  lemma X2CountCovers(g: Grid)
    requires Sized(g) && g.noct != 2 && g.nf >= 0
    ensures X2Count(Nx1(g), Nx3(g), g.noct, g.nang, g.nDim, g.nf)
            == |PackIx2(g, 0, g.nf - 1)| + (if g.noct == 8 then g.nf * (Nx3(g) * (g.nang * 4)) else 0)
    ensures |PackOx2(g, 0, g.nf - 1)| == |PackIx2(g, 0, g.nf - 1)|
    ensures X2Count(Nx1(g), Nx3(g), g.noct, g.nang, g.nDim, g.nf) >= |PackIx2(g, 0, g.nf - 1)|
  {
    PackX2Len(g, 0, g.nf - 1);
    X2CountWords(g);
    X2CountScale(Nx1(g), Nx3(g), g.noct, g.nang, g.nDim, g.nf);
    Distribute(g.nf, X2Words(g), if g.noct == 8 then Nx3(g) * (g.nang * 4) else 0);
    if g.noct == 8 {
      NonnegProduct(g.nf, Nx3(g), g.nang * 4);
    }
  }

  lemma NonnegProduct(a: int, b: int, c: int)
    requires a >= 0 && b >= 0 && c >= 0
    ensures a * (b * c) >= 0
  {
  }

  lemma X2CountScale(nx1: int, nx3: int, noct: int, nang: int, nDim: int, nf: int)
    ensures X2Count(nx1, nx3, noct, nang, nDim, nf) == nf * X2Count(nx1, nx3, noct, nang, nDim, 1)
  {
  }

  lemma Distribute(f: int, w: int, e: int)
    ensures f * (w + e) == f * w + f * e
  {
  }

  /** With eight octants `x3cnt` is exactly what either x3 pack routine sends. */
  lemma X3CountExact(g: Grid)
    requires Sized(g) && g.noct == 8 && g.nf >= 0
    ensures X3Count(Nx1(g), Nx2(g), g.noct, g.nang, g.nDim, g.nf) == |PackIx3(g, 0, g.nf - 1)|
    ensures X3Count(Nx1(g), Nx2(g), g.noct, g.nang, g.nDim, g.nf) == |PackOx3(g, 0, g.nf - 1)|
  {
    PackX3Len(g, 0, g.nf - 1);
    X3CountForm(Nx1(g), Nx2(g), g.nang, g.nDim);
    X3CountScale(Nx1(g), Nx2(g), g.noct, g.nang, g.nDim, g.nf);
  }

  /** `X3Count` with eight octants for one frequency, regrouped term by term as `X3Words`. */
  lemma X3CountForm(nx1: int, nx2: int, n: int, d: int)
    ensures X3Count(nx1, nx2, 8, n, d, 1)
            == (nx2 + 2) * ((nx1 + 2) * (1 + d)) + (nx2 + 2) * ((nx1 + 2) * (4 * n))
               + (nx2 + 2) * (n * 8) + (nx1 + 2) * (n * 8)
  {
    var a, b := nx1 + 2, nx2 + 2;
    assert 8 * n / 2 == n * 4;
    assert (d + 1) * b * a == b * (a * (1 + d));
    assert (a * b + 2 * (a + b)) * (n * 4) == b * (a * (4 * n)) + b * (n * 8) + a * (n * 8);
  }

  lemma X3CountScale(nx1: int, nx2: int, noct: int, nang: int, nDim: int, nf: int)
    ensures X3Count(nx1, nx2, noct, nang, nDim, nf) == nf * X3Count(nx1, nx2, noct, nang, nDim, 1)
  {
  }
}
