/** What each boundary face of a radiation grid should look like after its
    ghost zones are filled: the slots a face fill writes, and for each such
    slot the slot whose value it receives (its "mirror").  The routines of
    `bvals_rad.c` are proved against these descriptions in the `RadX1`,
    `RadX2` and `RadX3` modules. */
module RadFaces {
  import opened RadMemory

  /** The index bounds and sizes a boundary routine reads from `RadGridS`
      (`iS..iE` is `is..ie`, the active cells in x1, and so on), plus `nDim`, the number of flux components (a static of
      `bvals_rad.c`). */
  datatype Grid = Grid(iS: int, iE: int, jS: int, jE: int, kS: int, kE: int,
                       nf: int, nang: int, noct: int, nDim: int)

  /** Every direction holds at least one active cell. */
  predicate Valid(g: Grid)
  {
    g.iS <= g.iE && g.jS <= g.jE && g.kS <= g.kE
  }

  /** The six faces: `ix1` is the inner x1 face, `ox1` the outer one, ... */
  datatype Face = Ix1 | Ox1 | Ix2 | Ox2 | Ix3 | Ox3

  predicate Within(lo: int, v: int, hi: int)
  {
    lo <= v && v <= hi
  }

  // ---------------------------------------------------------------------
  // Octant sets of the default build

  /** `Ghstl1i` (first = 0) or `Ghstr1i` (first = 1) on an x1 face, and the
      matching `r1imu`/`l1imu` octants: guarded by `noct > 2` and
      `noct == 8`. */
  predicate X1Octant(noct: int, first: int, o: int)
  {
    o == first || (noct > 2 && o == first + 2) ||
    (noct == 8 && (o == first + 4 || o == first + 6))
  }

  /** Octants whose x2 cosine has one sign: `first` 0 gives 0,1 (,4,5),
      `first` 2 gives 2,3 (,6,7); the second pair only when `noct == 8`. */
  predicate X2Octant(noct: int, first: int, o: int)
  {
    o == first || o == first + 1 ||
    (noct == 8 && (o == first + 4 || o == first + 5))
  }

  /** Octants 0..3 (first = 0) or 4..7 (first = 4). */
  predicate X3Octant(first: int, o: int)
  {
    first <= o <= first + 3
  }

  /** Octants whose x1 cosine has one sign, all eight present. */
  predicate AllX1Octant(first: int, o: int)
  {
    o == first || o == first + 2 || o == first + 4 || o == first + 6
  }

  /** Octants whose x2 cosine has one sign, all eight present. */
  predicate AllX2Octant(first: int, o: int)
  {
    o == first || o == first + 1 || o == first + 4 || o == first + 5
  }

  /** Octants of `l2imu` (`Left`) and `r2imu` (`Right`) on an x1 face. */
  predicate X1CornerOctant(noct: int, side: Side, o: int)
  {
    noct > 2 && X2Octant(noct, if side == Left then 2 else 0, o)
  }

  /** Octants of `l3imu` (`Left`) and `r3imu` (`Right`) on an x1 or x2
      face: only when `noct == 8`. */
  predicate EdgeOctant(noct: int, side: Side, o: int)
  {
    noct == 8 && X3Octant(if side == Left then 4 else 0, o)
  }

  // ---------------------------------------------------------------------
  // Slots written

  /** The slots `periodic_ix1_rad` writes (and the x1 unpack routines the
      mirror image of): column `is-1` (`iu`=`ie+1` for the outer face) of
      `S` and `H`, the x1 ghost intensities, and the `l2imu`/`r2imu`
      corners and `l3imu`/`r3imu` edges in that column. */
  predicate WritesX1(g: Grid, col: int, ghost1: Side, ifs: int, ife: int, x: Loc)
  {
    Within(ifs, x.ifr, ife) &&
    match x
    case S(_, k, j, i) => i == col && Within(g.kS, k, g.kE) && Within(g.jS, j, g.jE)
    case H(_, k, j, i, n) =>
      i == col && Within(g.kS, k, g.kE) && Within(g.jS, j, g.jE) && 0 <= n < g.nDim
    case Ghst(side, dir, _, k, j, o, m) =>
      side == ghost1 && dir == 1 && Within(g.kS, k, g.kE) && Within(g.jS, j, g.jE) &&
      0 <= m < g.nang && X1Octant(g.noct, if ghost1 == Left then 0 else 1, o)
    case Imu(side, dir, _, a, i, o, m) =>
      i == col && 0 <= m < g.nang &&
      ((dir == 2 && Within(g.kS, a, g.kE) && X1CornerOctant(g.noct, side, o)) ||
       (dir == 3 && Within(g.jS, a, g.jE) && EdgeOctant(g.noct, side, o)))
  }

  /** The slots `periodic_ix2_rad` (row `js-1`) and `periodic_ox2_rad` (row
      `je+1`) write: `S`, `H`, the x2 ghost intensities over `is-1..ie+1`,
      the x1 ghost intensities in that row and the `l3imu`/`r3imu` edges. */
  predicate WritesX2(g: Grid, row: int, ghost2: Side, ifs: int, ife: int, x: Loc)
  {
    Within(ifs, x.ifr, ife) &&
    match x
    case S(_, k, j, i) => j == row && Within(g.kS, k, g.kE) && Within(g.iS - 1, i, g.iE + 1)
    case H(_, k, j, i, n) =>
      j == row && Within(g.kS, k, g.kE) && Within(g.iS - 1, i, g.iE + 1) && 0 <= n < g.nDim
    case Ghst(side, dir, _, k, b, o, m) =>
      Within(g.kS, k, g.kE) && 0 <= m < g.nang &&
      ((dir == 2 && side == ghost2 && Within(g.iS - 1, b, g.iE + 1) &&
        X2Octant(g.noct, if ghost2 == Left then 0 else 2, o)) ||
       (dir == 1 && b == row &&
        (o == (if side == Left then 0 else 1) || o == (if side == Left then 2 else 3) ||
         (g.noct == 8 && (o == (if side == Left then 4 else 5) || o == (if side == Left then 6 else 7))))))
    case Imu(side, dir, _, j, i, o, m) =>
      dir == 3 && j == row && Within(g.iS - 1, i, g.iE + 1) && 0 <= m < g.nang &&
      EdgeOctant(g.noct, side, o)
  }

  /** The slots `periodic_ix3_rad` (plane `ks-1`) and `periodic_ox3_rad`
      (plane `ke+1`) write: `S`, `H` and the x3 ghost intensities over the
      whole `is-1..ie+1` by `js-1..je+1` plane, and the x1 and x2 ghost
      intensities of that plane. */
  predicate WritesX3(g: Grid, plane: int, ghost3: Side, ifs: int, ife: int, x: Loc)
  {
    Within(ifs, x.ifr, ife) &&
    match x
    case S(_, k, j, i) =>
      k == plane && Within(g.jS - 1, j, g.jE + 1) && Within(g.iS - 1, i, g.iE + 1)
    case H(_, k, j, i, n) =>
      k == plane && Within(g.jS - 1, j, g.jE + 1) && Within(g.iS - 1, i, g.iE + 1) && 0 <= n < g.nDim
    case Ghst(side, dir, _, a, b, o, m) =>
      0 <= m < g.nang &&
      ((dir == 3 && side == ghost3 && Within(g.jS - 1, a, g.jE + 1) && Within(g.iS - 1, b, g.iE + 1) &&
        X3Octant(if ghost3 == Left then 0 else 4, o)) ||
       (dir == 1 && a == plane && Within(g.jS - 1, b, g.jE + 1) &&
        AllX1Octant(if side == Left then 0 else 1, o)) ||
       (dir == 2 && a == plane && Within(g.iS - 1, b, g.iE + 1) &&
        AllX2Octant(if side == Left then 0 else 2, o)))
    case Imu(_, _, _, _, _, _, _) => false
  }

  predicate Writes(g: Grid, f: Face, ifs: int, ife: int, x: Loc)
  {
    match f
    case Ix1 => WritesX1(g, g.iS - 1, Left, ifs, ife, x)
    case Ox1 => WritesX1(g, g.iE + 1, Right, ifs, ife, x)
    case Ix2 => WritesX2(g, g.jS - 1, Left, ifs, ife, x)
    case Ox2 => WritesX2(g, g.jE + 1, Right, ifs, ife, x)
    case Ix3 => WritesX3(g, g.kS - 1, Left, ifs, ife, x)
    case Ox3 => WritesX3(g, g.kE + 1, Right, ifs, ife, x)
  }

  // ---------------------------------------------------------------------
  // Mirror slots

  /** Where a written slot of face `f` takes its value from.  `S`, `H` and
      the copied ghost rows come from the last active cell on the opposite
      side (`ie` for `ix1`, `is` for `ox1`, ...).  Ghost intensities come
      from the opposite boundary intensities (`Ghstl1i` from `r1imu`).  On
      the x1 faces, the corner and edge octants whose x1 cosine points
      into the grid come from the x1 boundary intensities of the first or
      last row or plane; on the x2 faces the same holds for the edge
      octants whose x2 cosine points into the grid.  The neighbour's slots
      are located with this grid's extent, so a neighbour is taken to have
      as many cells as this grid along the exchange direction. */
  function Mirror(g: Grid, f: Face, x: Loc): Loc
  {
    match f
    case Ix1 => MirrorX1(g, g.iE, Right, x)
    case Ox1 => MirrorX1(g, g.iS, Left, x)
    case Ix2 => MirrorX2(g, g.jE, Right, x)
    case Ox2 => MirrorX2(g, g.jS, Left, x)
    case Ix3 => MirrorX3(g, g.kE, Right, x)
    case Ox3 => MirrorX3(g, g.kS, Left, x)
  }

  /** `from` is the opposite active column; `imu1` names the x1 boundary
      intensities the ghost intensities come from (`r1imu` for `ix1`). */
  function MirrorX1(g: Grid, from: int, imu1: Side, x: Loc): Loc
  {
    match x
    case S(ifr, k, j, _) => S(ifr, k, j, from)
    case H(ifr, k, j, _, n) => H(ifr, k, j, from, n)
    case Ghst(_, _, ifr, k, j, o, m) => Imu(imu1, 1, ifr, k, j, o, m)
    case Imu(side, dir, ifr, a, _, o, m) =>
      // octants 1,3,5,7 point towards +x1: taken through l1imu at ox1
      if (o % 2 == 1) == (imu1 == Left) then
        if dir == 2 then Imu(imu1, 1, ifr, a, if side == Left then g.jS else g.jE, o, m)
        else Imu(imu1, 1, ifr, if side == Left then g.kS else g.kE, a, o, m)
      else Imu(side, dir, ifr, a, from, o, m)
  }

  /** `from` is the opposite active row; `imu2` names the x2 boundary
      intensities the x2 ghost intensities come from. */
  function MirrorX2(g: Grid, from: int, imu2: Side, x: Loc): Loc
  {
    match x
    case S(ifr, k, _, i) => S(ifr, k, from, i)
    case H(ifr, k, _, i, n) => H(ifr, k, from, i, n)
    case Ghst(side, dir, ifr, k, b, o, m) =>
      if dir == 2 then Imu(imu2, 2, ifr, k, b, o, m) else Ghst(side, dir, ifr, k, from, o, m)
    case Imu(side, dir, ifr, _, i, o, m) =>
      // octants 2,3,6,7 point towards -x2: taken through l2imu at ox2
      if (o % 4 >= 2) == (imu2 == Left) then
        Imu(imu2, 2, ifr, if side == Left then g.kS else g.kE, i, o, m)
      else Imu(side, dir, ifr, from, i, o, m)
  }

  /** `from` is the opposite active plane; `imu3` names the x3 boundary
      intensities the x3 ghost intensities come from. */
  function MirrorX3(g: Grid, from: int, imu3: Side, x: Loc): Loc
  {
    match x
    case S(ifr, _, j, i) => S(ifr, from, j, i)
    case H(ifr, _, j, i, n) => H(ifr, from, j, i, n)
    case Ghst(side, dir, ifr, a, b, o, m) =>
      if dir == 3 then Imu(imu3, 3, ifr, a, b, o, m) else Ghst(side, dir, ifr, from, b, o, m)
    case Imu(_, _, _, _, _, _, _) => x
  }

  // ---------------------------------------------------------------------
  // The filled grid

  /** The slots face `f` writes, and the mirror map, as values: lemmas
      state facts about single slots through these. */
  function WriteSet(g: Grid, f: Face, ifs: int, ife: int): Loc -> bool
  {
    x => Writes(g, f, ifs, ife, x)
  }

  function MirrorOf(g: Grid, f: Face): Loc -> Loc
  {
    x => Mirror(g, f, x)
  }

  /** `st` copies into a written slot of face `f` from that slot's mirror,
      which the face does not write. */
  predicate MirrorMove(g: Grid, f: Face, ifs: int, ife: int, st: Step)
  {
    st.Copy? && WriteSet(g, f, ifs, ife)(st.dst) && !WriteSet(g, f, ifs, ife)(st.src) &&
    st.src == MirrorOf(g, f)(st.dst)
  }

  function MirrorMoves(g: Grid, f: Face, ifs: int, ife: int): Step -> bool
  {
    st => MirrorMove(g, f, ifs, ife, st)
  }

  /** A received slot `d` and the sent slot `p` that feeds it. */
  function MirrorRel(g: Grid, f: Face): (Loc, Loc) -> bool
  {
    FedBy(MirrorOf(g, f))
  }

  /** The grid `r` with the ghost slots of face `f`, for frequencies
      `ifs..ife`, filled from the mirror slots of the grid `s`: `s` is `r`
      itself for a periodic face and the neighbour for an exchange. */
  ghost function Fill(g: Grid, f: Face, ifs: int, ife: int, r: Store, s: Store): Store
  {
    Overlay(WriteSet(g, f, ifs, ife), MirrorOf(g, f), r, s)
  }

  // ---------------------------------------------------------------------
  // Properties of the description

  /** No face reads a slot it writes: every mirror slot lies outside the
      written set. */
  lemma MirrorUnwritten(g: Grid, f: Face, ifs: int, ife: int, x: Loc)
    requires Valid(g) && Writes(g, f, ifs, ife, x)
    ensures !Writes(g, f, ifs, ife, Mirror(g, f, x))
    ensures Mirror(g, f, x).ifr == x.ifr
  {
  }

  /** The x3 faces write no boundary intensity. */
  lemma X3WritesNoImu(g: Grid, f: Face, ifs: int, ife: int, x: Loc)
    requires (f == Ix3 || f == Ox3) && x.Imu?
    ensures !Writes(g, f, ifs, ife, x)
  {
  }

  /** Filling a face twice from the same source is filling it once. */
  lemma {:induction false} FillIdempotent(g: Grid, f: Face, ifs: int, ife: int, r: Store, s: Store)
    ensures Fill(g, f, ifs, ife, Fill(g, f, ifs, ife, r, s), s) == Fill(g, f, ifs, ife, r, s)
  {
  }

  /** A periodic fill read from its own result is the same fill: the
      values it copies are not among the values it overwrites. */
  lemma {:induction false} FillSelfIdempotent(g: Grid, f: Face, ifs: int, ife: int, s: Store)
    requires Valid(g)
    ensures var t := Fill(g, f, ifs, ife, s, s); Fill(g, f, ifs, ife, t, t) == t
  {
    var W, F := WriteSet(g, f, ifs, ife), MirrorOf(g, f);
    forall x | W(x) ensures !W(F(x)) {
      MirrorUnwritten(g, f, ifs, ife, x);
    }
    OverlaySelf(W, F, s);
  }
}
