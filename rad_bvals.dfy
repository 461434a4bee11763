/** `bvals_rad`: the dispatcher that fills the ghost zones of one radiation
    grid for the frequencies `ifs..ife`, direction by direction.  Across a
    face with a neighbouring grid the values come over MPI (pack into a send
    buffer, receive, unpack); across a physical face the face's boundary
    function runs.  The grid's memory is a `RadMemory.Store`, and each
    routine is run statement by statement from the step sequences of the
    `RadX1`, `RadX2` and `RadX3` modules. */
module RadBvals {
  import opened Wrappers
  import opened RadMemory
  import opened RadFaces
  import opened RadX1
  import opened RadX2
  import opened RadX3
  import opened RadCounts
  import opened RadInit

  // =====================================================================
  // The routines of each face

  /** `periodic_<f>_rad` as the copies it makes. */
  function PeriodicSteps(g: Grid, f: Face, ifs: int, ife: int): seq<Step>
  {
    match f
    case Ix1 => PeriodicIx1(g, ifs, ife)
    case Ox1 => PeriodicOx1(g, ifs, ife)
    case Ix2 => PeriodicIx2(g, ifs, ife)
    case Ox2 => PeriodicOx2(g, ifs, ife)
    case Ix3 => PeriodicIx3(g, ifs, ife)
    case Ox3 => PeriodicOx3(g, ifs, ife)
  }

  /** The slots `pack_<f>_rad` reads, in the order it writes them into the
      send buffer. */
  function PackLocs(g: Grid, f: Face, ifs: int, ife: int): seq<Loc>
  {
    match f
    case Ix1 => PackIx1(g, ifs, ife)
    case Ox1 => PackOx1(g, ifs, ife)
    case Ix2 => PackIx2(g, ifs, ife)
    case Ox2 => PackOx2(g, ifs, ife)
    case Ix3 => PackIx3(g, ifs, ife)
    case Ox3 => PackOx3(g, ifs, ife)
  }

  /** `unpack_<f>_rad` as its statements; for `ox3` the corrected routine
      (`RadX3.UnpackOx3`, against `RadX3.UnpackOx3AsWritten`). */
  function UnpackSteps(g: Grid, f: Face, ifs: int, ife: int): seq<Step>
  {
    match f
    case Ix1 => UnpackIx1(g, ifs, ife)
    case Ox1 => UnpackOx1(g, ifs, ife)
    case Ix2 => UnpackIx2(g, ifs, ife)
    case Ox2 => UnpackOx2(g, ifs, ife)
    case Ix3 => UnpackIx3(g, ifs, ife)
    case Ox3 => UnpackOx3(g, ifs, ife)
  }

  /** The other face of the same direction: the neighbour across `f` packs
      its own opposite face (the grid to the left sends its `ox1` values). */
  function Opposite(f: Face): (o: Face)
    ensures Dir(o) == Dir(f) && IsInner(o) != IsInner(f)
  {
    match f
    case Ix1 => Ox1
    case Ox1 => Ix1
    case Ix2 => Ox2
    case Ox2 => Ix2
    case Ix3 => Ox3
    case Ox3 => Ix3
  }

  /** Every periodic routine fills its face from the grid itself. */
  lemma PeriodicFills(g: Grid, f: Face, ifs: int, ife: int, s: Store)
    requires Valid(g) && Total(s)
    ensures Recvd(PeriodicSteps(g, f, ifs, ife)) == []
    ensures Exec(s, PeriodicSteps(g, f, ifs, ife), []) == Fill(g, f, ifs, ife, s, s)
  {
    match f
    case Ix1 => PeriodicIx1Fills(g, ifs, ife, s);
    case Ox1 => PeriodicOx1Fills(g, ifs, ife, s);
    case Ix2 => PeriodicIx2Fills(g, ifs, ife, s);
    case Ox2 => PeriodicOx2Fills(g, ifs, ife, s);
    case Ix3 => PeriodicIx3Fills(g, ifs, ife, s);
    case Ox3 => PeriodicOx3Fills(g, ifs, ife, s);
  }

  /** Unpacking at `f` what the neighbour `s` packed for the opposite face
      reads exactly the values sent and fills `f` from `s`. */
  lemma ExchangeFills(g: Grid, f: Face, ifs: int, ife: int, r: Store, s: Store)
    requires Valid(g) && Total(r)
    ensures |Recvd(UnpackSteps(g, f, ifs, ife))| == |PackLocs(g, Opposite(f), ifs, ife)|
    ensures Exec(r, UnpackSteps(g, f, ifs, ife), Read(s, PackLocs(g, Opposite(f), ifs, ife)))
            == Fill(g, f, ifs, ife, r, s)
  {
    match f
    case Ix1 => ExchangeIx1Fills(g, ifs, ife, r, s);
    case Ox1 => ExchangeOx1Fills(g, ifs, ife, r, s);
    case Ix2 => ExchangeIx2Fills(g, ifs, ife, r, s);
    case Ox2 => ExchangeOx2Fills(g, ifs, ife, r, s);
    case Ix3 => ExchangeIx3Fills(g, ifs, ife, r, s);
    case Ox3 => ExchangeOx3Fills(g, ifs, ife, r, s);
  }

  // =====================================================================
  // Properties of the face routines

  /** On one grid, packing the opposite face and unpacking the result at
      `f` leaves the grid exactly as `periodic_<f>_rad` does.  For `ox3`
      this holds of the corrected unpack routine only. */
  lemma SelfExchangeIsPeriodic(g: Grid, f: Face, ifs: int, ife: int, s: Store)
    requires Valid(g) && Total(s)
    ensures |Recvd(UnpackSteps(g, f, ifs, ife))| == |PackLocs(g, Opposite(f), ifs, ife)|
    ensures Recvd(PeriodicSteps(g, f, ifs, ife)) == []
    ensures Exec(s, UnpackSteps(g, f, ifs, ife), Read(s, PackLocs(g, Opposite(f), ifs, ife)))
            == Exec(s, PeriodicSteps(g, f, ifs, ife), [])
  {
    ExchangeFills(g, f, ifs, ife, s, s);
    PeriodicFills(g, f, ifs, ife, s);
  }

  /** `unpack_ox3_rad` as written, fed by `pack_ix3_rad` of the same grid,
      does not leave the grid as `periodic_ox3_rad` does: in a grid whose
      values differ only in one x1 ghost intensity of plane `ke+1`, that
      value is filled by the periodic routine and left alone by the unpack. */
  lemma SelfExchangeOx3AsWrittenDiffers(g: Grid, ifs: int, ife: int)
    requires Valid(g) && ifs <= ife && g.nang >= 1
    ensures |Recvd(UnpackOx3AsWritten(g, ifs, ife))| == |PackIx3(g, ifs, ife)|
    ensures Recvd(PeriodicOx3(g, ifs, ife)) == []
    ensures exists s: Store :: Total(s) &&
              Exec(s, UnpackOx3AsWritten(g, ifs, ife), Read(s, PackIx3(g, ifs, ife)))
              != Exec(s, PeriodicOx3(g, ifs, ife), [])
  {
    var x := Ghst(Left, 1, ifs, g.kE + 1, g.jS, 0, 0);
    var s: Store := imap y | true :: Spike(x, y);
    UnpackOx3AsWrittenMissesGhost(g, ifs, ife, s, s, ifs, g.jS, 0);
    PeriodicOx3Fills(g, ifs, ife, s);
    assert Get(Exec(s, UnpackOx3AsWritten(g, ifs, ife), Read(s, PackIx3(g, ifs, ife))), x)
           != Get(Exec(s, PeriodicOx3(g, ifs, ife), []), x);
  }

  /** A grid holding 1 in the slot `x` and 0 everywhere else. */
  function Spike(x: Loc, y: Loc): Val
  {
    if y == x then Val(1) else Val(0)
  }

  /** Running a periodic routine twice leaves the grid as running it once. */
  lemma PeriodicIdempotent(g: Grid, f: Face, ifs: int, ife: int, s: Store)
    requires Valid(g) && Total(s)
    ensures Recvd(PeriodicSteps(g, f, ifs, ife)) == []
    ensures var t := Exec(s, PeriodicSteps(g, f, ifs, ife), []);
            Exec(t, PeriodicSteps(g, f, ifs, ife), []) == t
  {
    PeriodicFills(g, f, ifs, ife, s);
    var t := Fill(g, f, ifs, ife, s, s);
    PeriodicFills(g, f, ifs, ife, t);
    FillSelfIdempotent(g, f, ifs, ife, s);
  }

  /** A periodic routine changes no slot outside the ones its face writes. */
  lemma PeriodicFrame(g: Grid, f: Face, ifs: int, ife: int, s: Store, x: Loc)
    requires Valid(g) && Total(s) && !Writes(g, f, ifs, ife, x)
    ensures Recvd(PeriodicSteps(g, f, ifs, ife)) == []
    ensures Get(Exec(s, PeriodicSteps(g, f, ifs, ife), []), x) == Get(s, x)
  {
    PeriodicFills(g, f, ifs, ife, s);
  }

  /** `periodic_ix1_rad` leaves every other frequency, every column but
      `is-1`, the outer x1 ghost intensities and the x1 boundary
      intensities unchanged. */
  lemma PeriodicIx1Leaves(g: Grid, ifs: int, ife: int, s: Store, x: Loc)
    requires Valid(g) && Total(s)
    requires x.ifr < ifs || x.ifr > ife || ((x.S? || x.H?) && x.i != g.iS - 1)
             || (x.Ghst? && (x.side == Right || x.dir != 1)) || (x.Imu? && x.dir == 1)
    ensures Recvd(PeriodicIx1(g, ifs, ife)) == []
    ensures Get(Exec(s, PeriodicIx1(g, ifs, ife), []), x) == Get(s, x)
  {
    PeriodicFrame(g, Ix1, ifs, ife, s, x);
  }

  /** After `periodic_ix1_rad`, column `is-1` holds the `S` and `H` of
      column `ie`, and `Ghstl1i` holds `r1imu` for each octant present. */
  lemma PeriodicIx1Column(g: Grid, ifs: int, ife: int, s: Store, ifr: int, k: int, j: int)
    requires Valid(g) && Total(s)
    requires ifs <= ifr <= ife && g.kS <= k <= g.kE && g.jS <= j <= g.jE
    ensures Recvd(PeriodicIx1(g, ifs, ife)) == []
    ensures Get(Exec(s, PeriodicIx1(g, ifs, ife), []), S(ifr, k, j, g.iS - 1)) == Get(s, S(ifr, k, j, g.iE))
    ensures forall n :: 0 <= n < g.nDim ==>
      Get(Exec(s, PeriodicIx1(g, ifs, ife), []), H(ifr, k, j, g.iS - 1, n)) == Get(s, H(ifr, k, j, g.iE, n))
    ensures forall o, m :: 0 <= m < g.nang && X1Octant(g.noct, 0, o) ==>
      Get(Exec(s, PeriodicIx1(g, ifs, ife), []), Ghst(Left, 1, ifr, k, j, o, m)) == Get(s, Imu(Right, 1, ifr, k, j, o, m))
  {
    PeriodicFills(g, Ix1, ifs, ife, s);
  }

  /** After `periodic_ox1_rad`, column `ie+1` holds the `S` and `H` of
      column `is`, and `Ghstr1i` holds `l1imu` for each octant present. */
  lemma PeriodicOx1Column(g: Grid, ifs: int, ife: int, s: Store, ifr: int, k: int, j: int)
    requires Valid(g) && Total(s)
    requires ifs <= ifr <= ife && g.kS <= k <= g.kE && g.jS <= j <= g.jE
    ensures Recvd(PeriodicOx1(g, ifs, ife)) == []
    ensures Get(Exec(s, PeriodicOx1(g, ifs, ife), []), S(ifr, k, j, g.iE + 1)) == Get(s, S(ifr, k, j, g.iS))
    ensures forall n :: 0 <= n < g.nDim ==>
      Get(Exec(s, PeriodicOx1(g, ifs, ife), []), H(ifr, k, j, g.iE + 1, n)) == Get(s, H(ifr, k, j, g.iS, n))
    ensures forall o, m :: 0 <= m < g.nang && X1Octant(g.noct, 1, o) ==>
      Get(Exec(s, PeriodicOx1(g, ifs, ife), []), Ghst(Right, 1, ifr, k, j, o, m)) == Get(s, Imu(Left, 1, ifr, k, j, o, m))
  {
    PeriodicFills(g, Ox1, ifs, ife, s);
  }

  /** The two faces of a direction write disjoint sets of slots. */
  lemma FacesDisjoint(g: Grid, d: int, ifs: int, ife: int, x: Loc)
    requires Valid(g) && 1 <= d <= 3
    ensures !(Writes(g, FaceOf(d, true), ifs, ife, x) && Writes(g, FaceOf(d, false), ifs, ife, x))
  {
  }

  /** Filling the two faces of a direction from two sources gives the
      same grid in either order. */
  lemma FillsCommute(g: Grid, d: int, ifs: int, ife: int, r: Store, a: Store, b: Store)
    requires Valid(g) && 1 <= d <= 3
    ensures var ix, ox := FaceOf(d, true), FaceOf(d, false);
      Fill(g, ox, ifs, ife, Fill(g, ix, ifs, ife, r, a), b)
      == Fill(g, ix, ifs, ife, Fill(g, ox, ifs, ife, r, b), a)
  {
    var ix, ox := FaceOf(d, true), FaceOf(d, false);
    var lhs := Fill(g, ox, ifs, ife, Fill(g, ix, ifs, ife, r, a), b);
    var rhs := Fill(g, ix, ifs, ife, Fill(g, ox, ifs, ife, r, b), a);
    forall x ensures lhs[x] == rhs[x] {
      FacesDisjoint(g, d, ifs, ife, x);
    }
  }

  // =====================================================================
  // The order of the routines

  /** A routine `bvals_rad` calls: `pack_<f>_rad`, `unpack_<f>_rad`, or
      the boundary function of a physical face (`<f>_RBCFun`). */
  datatype Action = Pack(face: Face) | Unpack(face: Face) | Boundary(face: Face)

  /** The packs of direction `d`: the inner face when there is a neighbour
      on the inner side (`lx1_id >= 0`), then the outer face when there is
      one on the outer side (`rx1_id >= 0`). */
  function DirPacks(d: int, lnbr: bool, rnbr: bool): seq<Action>
    requires 1 <= d <= 3
  {
    (if lnbr then [Pack(FaceOf(d, true))] else []) + (if rnbr then [Pack(FaceOf(d, false))] else [])
  }

  /** What fills the faces of direction `d` once the sends are posted:
      with two neighbours, the two unpacks in the order `MPI_Waitany`
      returns them (`innerFirst`: the inner neighbour's message first);
      with one, the other face's boundary function and then the unpack;
      with none, the inner and then the outer boundary function. */
  function DirFills(d: int, lnbr: bool, rnbr: bool, innerFirst: bool): seq<Action>
    requires 1 <= d <= 3
  {
    var ix, ox := FaceOf(d, true), FaceOf(d, false);
    if lnbr && rnbr then (if innerFirst then [Unpack(ix), Unpack(ox)] else [Unpack(ox), Unpack(ix)])
    else if rnbr then [Boundary(ix), Unpack(ox)]
    else if lnbr then [Boundary(ox), Unpack(ix)]
    else [Boundary(ix), Boundary(ox)]
  }

  /** The calls of one direction. */
  function DirSchedule(d: int, lnbr: bool, rnbr: bool, innerFirst: bool): seq<Action>
    requires 1 <= d <= 3
  {
    DirPacks(d, lnbr, rnbr) + DirFills(d, lnbr, rnbr, innerFirst)
  }

  /** A direction is processed only when the grid has more than one cell
      along it (`pRG->Nx[d-1] > 1`). */
  predicate Spans(g: Grid, d: int)
  {
    if d == 1 then Nx1(g) > 1 else if d == 2 then Nx2(g) > 1 else Nx3(g) > 1
  }

  /** The calls for direction `d`: none when the grid is flat along it.
      `links(f)` is the neighbour across `f` (`None`: a physical face). */
  function DirPart(g: Grid, links: Face -> Option<Store>, innerFirst: int -> bool, d: int): seq<Action>
    requires 1 <= d <= 3
  {
    if Spans(g, d) then
      DirSchedule(d, links(FaceOf(d, true)).Some?, links(FaceOf(d, false)).Some?, innerFirst(d))
    else []
  }

  /** All the calls of one `bvals_rad`: x1, then x2, then x3. */
  function Schedule(g: Grid, links: Face -> Option<Store>, innerFirst: int -> bool): seq<Action>
  {
    DirPart(g, links, innerFirst, 1) + DirPart(g, links, innerFirst, 2) + DirPart(g, links, innerFirst, 3)
  }

  /** Where the calls of direction `d` start in the schedule. */
  function Offset(g: Grid, links: Face -> Option<Store>, innerFirst: int -> bool, d: int): int
  {
    if d == 1 then 0
    else if d == 2 then |DirPart(g, links, innerFirst, 1)|
    else |DirPart(g, links, innerFirst, 1)| + |DirPart(g, links, innerFirst, 2)|
  }

  /** How often `a` occurs in `acts`. */
  function Count(acts: seq<Action>, a: Action): nat
  {
    if acts == [] then 0 else (if acts[0] == a then 1 else 0) + Count(acts[1..], a)
  }

  /** How often `acts` fills face `f`, by unpacking or by its boundary function. */
  function FillCount(acts: seq<Action>, f: Face): nat
  {
    Count(acts, Unpack(f)) + Count(acts, Boundary(f))
  }

  lemma {:induction false} CountConcat(x: seq<Action>, y: seq<Action>, a: Action)
    ensures Count(x + y, a) == Count(x, a) + Count(y, a)
  {
    if x == [] {
      assert x + y == y;
    } else {
      assert (x + y)[1..] == x[1..] + y;
      CountConcat(x[1..], y, a);
    }
  }

  lemma CountPair(x: Action, y: Action, a: Action)
    ensures Count([x], a) == if x == a then 1 else 0
    ensures Count([x, y], a) == (if x == a then 1 else 0) + (if y == a then 1 else 0)
  {
    assert [x][1..] == [];
    assert [x, y][1..] == [y];
    assert [y][1..] == [];
  }

  /** Every call of direction `d` names a face of direction `d` the grid
      spans; a face is packed and unpacked exactly when it has a
      neighbour, and handed to its boundary function exactly when it has
      none. */
  lemma DirPartFaces(g: Grid, links: Face -> Option<Store>, innerFirst: int -> bool, d: int)
    requires 1 <= d <= 3
    ensures var part := DirPart(g, links, innerFirst, d);
      forall t :: 0 <= t < |part| ==>
        Dir(part[t].face) == d && Spans(g, d) && (part[t].Boundary? <==> links(part[t].face).None?)
  {
  }

  /** The `t`-th call of the schedule is call `t - off` of its direction. */
  lemma Locate(g: Grid, links: Face -> Option<Store>, innerFirst: int -> bool, t: int) returns (d: int, off: int)
    requires 0 <= t < |Schedule(g, links, innerFirst)|
    ensures d == Dir(Schedule(g, links, innerFirst)[t].face)
    ensures off == Offset(g, links, innerFirst, d)
    ensures off <= t < off + |DirPart(g, links, innerFirst, d)|
    ensures Schedule(g, links, innerFirst)[t] == DirPart(g, links, innerFirst, d)[t - off]
  {
    var p1, p2, p3 := DirPart(g, links, innerFirst, 1), DirPart(g, links, innerFirst, 2), DirPart(g, links, innerFirst, 3);
    var acts := Schedule(g, links, innerFirst);
    DirPartFaces(g, links, innerFirst, 1);
    DirPartFaces(g, links, innerFirst, 2);
    DirPartFaces(g, links, innerFirst, 3);
    if t < |p1| {
      assert acts[t] == p1[t];
      d, off := 1, 0;
    } else if t < |p1| + |p2| {
      assert acts[t] == p2[t - |p1|];
      d, off := 2, |p1|;
    } else {
      assert acts[t] == p3[t - |p1| - |p2|];
      d, off := 3, |p1| + |p2|;
    }
  }

  /** Every call is for a direction the grid spans, and a face goes
      through MPI exactly when it has a neighbour. */
  lemma ScheduleFaces(g: Grid, links: Face -> Option<Store>, innerFirst: int -> bool)
    ensures var acts := Schedule(g, links, innerFirst);
      forall t :: 0 <= t < |acts| ==>
        Spans(g, Dir(acts[t].face)) && (acts[t].Boundary? <==> links(acts[t].face).None?)
  {
    var acts := Schedule(g, links, innerFirst);
    forall t | 0 <= t < |acts|
      ensures Spans(g, Dir(acts[t].face)) && (acts[t].Boundary? <==> links(acts[t].face).None?)
    {
      var d, off := Locate(g, links, innerFirst, t);
      DirPartFaces(g, links, innerFirst, d);
    }
  }

  /** One direction fills each of its faces once and touches no face of
      another direction. */
  lemma DirPartFills(g: Grid, links: Face -> Option<Store>, innerFirst: int -> bool, d: int, f: Face)
    requires 1 <= d <= 3
    ensures FillCount(DirPart(g, links, innerFirst, d), f) == if Spans(g, d) && Dir(f) == d then 1 else 0
  {
    if Spans(g, d) {
      DirScheduleCounts(d, links(FaceOf(d, true)).Some?, links(FaceOf(d, false)).Some?, innerFirst(d), f);
      if Dir(f) == d {
        assert f == FaceOf(d, IsInner(f));
      }
    }
  }

  /** One direction packs a face of its own exactly when the face has a
      neighbour, and no face of another direction. */
  lemma DirPartPacks(g: Grid, links: Face -> Option<Store>, innerFirst: int -> bool, d: int, f: Face)
    requires 1 <= d <= 3
    ensures Count(DirPart(g, links, innerFirst, d), Pack(f))
            == if Spans(g, d) && Dir(f) == d && links(f).Some? then 1 else 0
  {
    if Spans(g, d) {
      var l, r := links(FaceOf(d, true)).Some?, links(FaceOf(d, false)).Some?;
      DirScheduleCounts(d, l, r, innerFirst(d), f);
      if Dir(f) == d {
        assert f == FaceOf(d, IsInner(f));
      }
    }
  }

  lemma DirScheduleCounts(d: int, lnbr: bool, rnbr: bool, innerFirst: bool, f: Face)
    requires 1 <= d <= 3
    ensures FillCount(DirSchedule(d, lnbr, rnbr, innerFirst), f)
            == (if f == FaceOf(d, true) then 1 else 0) + (if f == FaceOf(d, false) then 1 else 0)
    ensures Count(DirSchedule(d, lnbr, rnbr, innerFirst), Pack(f))
            == (if f == FaceOf(d, true) && lnbr then 1 else 0) + (if f == FaceOf(d, false) && rnbr then 1 else 0)
  {
    var P, R := DirPacks(d, lnbr, rnbr), DirFills(d, lnbr, rnbr, innerFirst);
    DirPacksCounts(d, lnbr, rnbr, f);
    DirFillsCounts(d, lnbr, rnbr, innerFirst, f);
    CountConcat(P, R, Pack(f));
    CountConcat(P, R, Unpack(f));
    CountConcat(P, R, Boundary(f));
  }

  lemma DirPacksCounts(d: int, lnbr: bool, rnbr: bool, f: Face)
    requires 1 <= d <= 3
    ensures FillCount(DirPacks(d, lnbr, rnbr), f) == 0
    ensures Count(DirPacks(d, lnbr, rnbr), Pack(f))
            == (if f == FaceOf(d, true) && lnbr then 1 else 0) + (if f == FaceOf(d, false) && rnbr then 1 else 0)
  {
    var ix, ox := FaceOf(d, true), FaceOf(d, false);
    var P := DirPacks(d, lnbr, rnbr);
    var x := if lnbr then Pack(ix) else Pack(ox);
    if lnbr && rnbr {
      assert P == [Pack(ix), Pack(ox)];
    } else if lnbr || rnbr {
      assert P == [x];
    } else {
      assert P == [];
    }
    CountPair(x, Pack(ox), Pack(f));
    CountPair(x, Pack(ox), Unpack(f));
    CountPair(x, Pack(ox), Boundary(f));
  }

  lemma DirFillsCounts(d: int, lnbr: bool, rnbr: bool, innerFirst: bool, f: Face)
    requires 1 <= d <= 3
    ensures FillCount(DirFills(d, lnbr, rnbr, innerFirst), f)
            == (if f == FaceOf(d, true) then 1 else 0) + (if f == FaceOf(d, false) then 1 else 0)
    ensures Count(DirFills(d, lnbr, rnbr, innerFirst), Pack(f)) == 0
  {
    var R := DirFills(d, lnbr, rnbr, innerFirst);
    assert R == [R[0], R[1]];
    CountPair(R[0], R[1], Pack(f));
    CountPair(R[0], R[1], Unpack(f));
    CountPair(R[0], R[1], Boundary(f));
  }

  /** Within a direction the packs come first, and the inner face's
      boundary function runs before the outer face's. */
  lemma DirPartOrder(g: Grid, links: Face -> Option<Store>, innerFirst: int -> bool, d: int)
    requires 1 <= d <= 3
    ensures var part := DirPart(g, links, innerFirst, d);
      forall i, j :: 0 <= i < j < |part| && part[j].Pack? ==> part[i].Pack?
    ensures var part := DirPart(g, links, innerFirst, d);
      forall i, j :: (0 <= i < |part| && 0 <= j < |part| &&
        part[i] == Boundary(FaceOf(d, true)) && part[j] == Boundary(FaceOf(d, false))) ==> i < j
  {
  }

  /** Each face of a direction the grid spans is filled exactly once, and
      packed once if it has a neighbour; no face of a flat direction is
      touched. */
  lemma EachFaceFilledOnce(g: Grid, links: Face -> Option<Store>, innerFirst: int -> bool, f: Face)
    ensures FillCount(Schedule(g, links, innerFirst), f) == if Spans(g, Dir(f)) then 1 else 0
    ensures Count(Schedule(g, links, innerFirst), Pack(f))
            == if Spans(g, Dir(f)) && links(f).Some? then 1 else 0
  {
    DirPartFills(g, links, innerFirst, 1, f);
    DirPartFills(g, links, innerFirst, 2, f);
    DirPartFills(g, links, innerFirst, 3, f);
    DirPartPacks(g, links, innerFirst, 1, f);
    DirPartPacks(g, links, innerFirst, 2, f);
    DirPartPacks(g, links, innerFirst, 3, f);
    var p1, p2, p3 := DirPart(g, links, innerFirst, 1), DirPart(g, links, innerFirst, 2), DirPart(g, links, innerFirst, 3);
    CountConcat(p1 + p2, p3, Pack(f));
    CountConcat(p1 + p2, p3, Unpack(f));
    CountConcat(p1 + p2, p3, Boundary(f));
    CountConcat(p1, p2, Pack(f));
    CountConcat(p1, p2, Unpack(f));
    CountConcat(p1, p2, Boundary(f));
  }

  /** x1 calls come before x2 calls, and x2 calls before x3 calls. */
  lemma DirectionsInOrder(g: Grid, links: Face -> Option<Store>, innerFirst: int -> bool)
    ensures var acts := Schedule(g, links, innerFirst);
      forall p, q :: 0 <= p < q < |acts| ==> Dir(acts[p].face) <= Dir(acts[q].face)
  {
    var acts := Schedule(g, links, innerFirst);
    forall p, q | 0 <= p < q < |acts| ensures Dir(acts[p].face) <= Dir(acts[q].face) {
      var dp, op := Locate(g, links, innerFirst, p);
      var dq, oq := Locate(g, links, innerFirst, q);
    }
  }

  /** Within a direction every pack comes before every other call. */
  lemma PacksFirst(g: Grid, links: Face -> Option<Store>, innerFirst: int -> bool)
    ensures var acts := Schedule(g, links, innerFirst);
      forall p, q :: 0 <= p < q < |acts| && Dir(acts[p].face) == Dir(acts[q].face) && acts[q].Pack? ==> acts[p].Pack?
  {
    var acts := Schedule(g, links, innerFirst);
    forall p, q | 0 <= p < q < |acts| && Dir(acts[p].face) == Dir(acts[q].face) && acts[q].Pack?
      ensures acts[p].Pack?
    {
      var d, off := Locate(g, links, innerFirst, p);
      var d', off' := Locate(g, links, innerFirst, q);
      DirPartOrder(g, links, innerFirst, d);
    }
  }

  /** With both faces of a direction physical, the inner face's boundary
      function runs before the outer face's. */
  lemma InnerBoundaryFirst(g: Grid, links: Face -> Option<Store>, innerFirst: int -> bool, d: int)
    requires 1 <= d <= 3
    ensures var acts := Schedule(g, links, innerFirst);
      forall p, q ::
        (0 <= p < |acts| && 0 <= q < |acts| &&
         acts[p] == Boundary(FaceOf(d, true)) && acts[q] == Boundary(FaceOf(d, false))) ==> p < q
  {
    var acts := Schedule(g, links, innerFirst);
    forall p, q | 0 <= p < |acts| && 0 <= q < |acts| &&
      acts[p] == Boundary(FaceOf(d, true)) && acts[q] == Boundary(FaceOf(d, false))
      ensures p < q
    {
      var e, off := Locate(g, links, innerFirst, p);
      var e', off' := Locate(g, links, innerFirst, q);
      DirPartOrder(g, links, innerFirst, d);
    }
  }

  // =====================================================================
  // What the calls do to the grid

  /** The grid after one call.  A pack changes nothing; an unpack fills the
      face from the neighbour; a boundary function fills a periodic face
      from the grid itself, and `ProlongateLater` and `const_incident_rad`
      change nothing. */
  ghost function Effect(g: Grid, bc: map<Face, BcFun>, links: Face -> Option<Store>, ifs: int, ife: int,
                        s: Store, a: Action): Store
  {
    match a
    case Pack(_) => s
    case Unpack(f) => if links(f).Some? then Fill(g, f, ifs, ife, s, links(f).value) else s
    case Boundary(f) => if f in bc && bc[f] == Periodic then Fill(g, f, ifs, ife, s, s) else s
  }

  /** The grid after the calls `acts`. */
  ghost function Perform(g: Grid, bc: map<Face, BcFun>, links: Face -> Option<Store>, ifs: int, ife: int,
                         s: Store, acts: seq<Action>): Store
    decreases |acts|
  {
    if acts == [] then s
    else Effect(g, bc, links, ifs, ife, Perform(g, bc, links, ifs, ife, s, acts[..|acts| - 1]), acts[|acts| - 1])
  }

  /** The buffers the packs among `acts` hand to `MPI_Isend`, in order. */
  ghost function Sends(g: Grid, bc: map<Face, BcFun>, links: Face -> Option<Store>, ifs: int, ife: int,
                       s: Store, acts: seq<Action>): seq<seq<Val>>
    decreases |acts|
  {
    if acts == [] then []
    else
      var before := acts[..|acts| - 1];
      var a := acts[|acts| - 1];
      Sends(g, bc, links, ifs, ife, s, before)
      + (if a.Pack? then [Read(Perform(g, bc, links, ifs, ife, s, before), PackLocs(g, a.face, ifs, ife))] else [])
  }

  lemma PerformSnoc(g: Grid, bc: map<Face, BcFun>, links: Face -> Option<Store>, ifs: int, ife: int,
                    s: Store, acts: seq<Action>, a: Action)
    ensures Perform(g, bc, links, ifs, ife, s, acts + [a])
            == Effect(g, bc, links, ifs, ife, Perform(g, bc, links, ifs, ife, s, acts), a)
    ensures Sends(g, bc, links, ifs, ife, s, acts + [a])
            == Sends(g, bc, links, ifs, ife, s, acts)
               + (if a.Pack? then [Read(Perform(g, bc, links, ifs, ife, s, acts), PackLocs(g, a.face, ifs, ife))] else [])
  {
    assert (acts + [a])[..|acts|] == acts;
  }

  lemma {:induction false} PerformConcat(g: Grid, bc: map<Face, BcFun>, links: Face -> Option<Store>, ifs: int, ife: int,
                                         s: Store, a: seq<Action>, b: seq<Action>)
    ensures Perform(g, bc, links, ifs, ife, s, a + b)
            == Perform(g, bc, links, ifs, ife, Perform(g, bc, links, ifs, ife, s, a), b)
    ensures Sends(g, bc, links, ifs, ife, s, a + b)
            == Sends(g, bc, links, ifs, ife, s, a)
               + Sends(g, bc, links, ifs, ife, Perform(g, bc, links, ifs, ife, s, a), b)
    decreases |b|
  {
    if b == [] {
      assert a + b == a;
    } else {
      var b0, z := b[..|b| - 1], b[|b| - 1];
      assert a + b == (a + b0) + [z];
      assert b == b0 + [z];
      PerformConcat(g, bc, links, ifs, ife, s, a, b0);
      PerformSnoc(g, bc, links, ifs, ife, s, a + b0, z);
      PerformSnoc(g, bc, links, ifs, ife, Perform(g, bc, links, ifs, ife, s, a), b0, z);
    }
  }

  /** The grid after two calls. */
  lemma PerformTwo(g: Grid, bc: map<Face, BcFun>, links: Face -> Option<Store>, ifs: int, ife: int,
                   s: Store, a: Action, b: Action)
    ensures Perform(g, bc, links, ifs, ife, s, [a, b])
            == Effect(g, bc, links, ifs, ife, Effect(g, bc, links, ifs, ife, s, a), b)
    ensures Sends(g, bc, links, ifs, ife, s, [a, b])
            == (if a.Pack? then [Read(s, PackLocs(g, a.face, ifs, ife))] else [])
               + (if b.Pack? then [Read(Effect(g, bc, links, ifs, ife, s, a), PackLocs(g, b.face, ifs, ife))] else [])
  {
    PerformSnoc(g, bc, links, ifs, ife, s, [], a);
    assert [] + [a] == [a];
    PerformSnoc(g, bc, links, ifs, ife, s, [a], b);
    assert [a] + [b] == [a, b];
  }

  /** The packs of a direction leave the grid alone and send the faces'
      values as they stand. */
  lemma DirPacksEffect(g: Grid, bc: map<Face, BcFun>, links: Face -> Option<Store>, ifs: int, ife: int,
                       s: Store, d: int, lnbr: bool, rnbr: bool)
    requires 1 <= d <= 3
    ensures Perform(g, bc, links, ifs, ife, s, DirPacks(d, lnbr, rnbr)) == s
    ensures Sends(g, bc, links, ifs, ife, s, DirPacks(d, lnbr, rnbr))
            == (if lnbr then [Read(s, PackLocs(g, FaceOf(d, true), ifs, ife))] else [])
               + (if rnbr then [Read(s, PackLocs(g, FaceOf(d, false), ifs, ife))] else [])
  {
    var ix, ox := FaceOf(d, true), FaceOf(d, false);
    if lnbr && rnbr {
      assert DirPacks(d, lnbr, rnbr) == [Pack(ix), Pack(ox)];
      PerformTwo(g, bc, links, ifs, ife, s, Pack(ix), Pack(ox));
    } else if lnbr {
      assert DirPacks(d, lnbr, rnbr) == [Pack(ix)];
      PackAlone(g, bc, links, ifs, ife, s, ix);
    } else if rnbr {
      assert DirPacks(d, lnbr, rnbr) == [Pack(ox)];
      PackAlone(g, bc, links, ifs, ife, s, ox);
    }
  }

  lemma PackAlone(g: Grid, bc: map<Face, BcFun>, links: Face -> Option<Store>, ifs: int, ife: int,
                  s: Store, f: Face)
    ensures Perform(g, bc, links, ifs, ife, s, [Pack(f)]) == s
    ensures Sends(g, bc, links, ifs, ife, s, [Pack(f)]) == [Read(s, PackLocs(g, f, ifs, ife))]
  {
    PerformSnoc(g, bc, links, ifs, ife, s, [], Pack(f));
    assert [] + [Pack(f)] == [Pack(f)];
  }

  /** Boundary functions and unpacks send nothing. */
  lemma {:induction false} NoPacksSendNothing(g: Grid, bc: map<Face, BcFun>, links: Face -> Option<Store>, ifs: int, ife: int,
                                              s: Store, acts: seq<Action>)
    requires forall t :: 0 <= t < |acts| ==> !acts[t].Pack?
    ensures Sends(g, bc, links, ifs, ife, s, acts) == []
    decreases |acts|
  {
    if acts != [] {
      NoPacksSendNothing(g, bc, links, ifs, ife, s, acts[..|acts| - 1]);
    }
  }

  /** What one direction sends: the faces with a neighbour, read from the
      grid as the direction finds it. */
  lemma DirSends(g: Grid, bc: map<Face, BcFun>, links: Face -> Option<Store>, ifs: int, ife: int,
                 s: Store, d: int, lnbr: bool, rnbr: bool, innerFirst: bool)
    requires 1 <= d <= 3
    ensures Sends(g, bc, links, ifs, ife, s, DirSchedule(d, lnbr, rnbr, innerFirst))
            == (if lnbr then [Read(s, PackLocs(g, FaceOf(d, true), ifs, ife))] else [])
               + (if rnbr then [Read(s, PackLocs(g, FaceOf(d, false), ifs, ife))] else [])
  {
    var P, R := DirPacks(d, lnbr, rnbr), DirFills(d, lnbr, rnbr, innerFirst);
    PerformConcat(g, bc, links, ifs, ife, s, P, R);
    DirPacksEffect(g, bc, links, ifs, ife, s, d, lnbr, rnbr);
    FillsSendNothing(g, bc, links, ifs, ife, s, d, lnbr, rnbr, innerFirst);
  }

  lemma FillsSendNothing(g: Grid, bc: map<Face, BcFun>, links: Face -> Option<Store>, ifs: int, ife: int,
                         s: Store, d: int, lnbr: bool, rnbr: bool, innerFirst: bool)
    requires 1 <= d <= 3
    ensures Sends(g, bc, links, ifs, ife, s, DirFills(d, lnbr, rnbr, innerFirst)) == []
  {
    var R := DirFills(d, lnbr, rnbr, innerFirst);
    assert |R| == 2 && !R[0].Pack? && !R[1].Pack?;
    NoPacksSendNothing(g, bc, links, ifs, ife, s, R);
  }

  /** With neighbours on both sides, a direction fills both faces from
      them, in the order the messages arrive. */
  lemma BothUnpacks(g: Grid, bc: map<Face, BcFun>, links: Face -> Option<Store>, ifs: int, ife: int,
                    s: Store, d: int, innerFirst: bool)
    requires 1 <= d <= 3 && links(FaceOf(d, true)).Some? && links(FaceOf(d, false)).Some?
    ensures var ix, ox := FaceOf(d, true), FaceOf(d, false);
      var a, b := links(ix).value, links(ox).value;
      Perform(g, bc, links, ifs, ife, s, DirSchedule(d, true, true, innerFirst))
      == if innerFirst then Fill(g, ox, ifs, ife, Fill(g, ix, ifs, ife, s, a), b)
         else Fill(g, ix, ifs, ife, Fill(g, ox, ifs, ife, s, b), a)
  {
    var P, R := DirPacks(d, true, true), DirFills(d, true, true, innerFirst);
    PerformConcat(g, bc, links, ifs, ife, s, P, R);
    DirPacksEffect(g, bc, links, ifs, ife, s, d, true, true);
    PerformTwo(g, bc, links, ifs, ife, s, R[0], R[1]);
    assert R == [R[0], R[1]];
  }

  /** Within one direction the arrival order does not matter. */
  lemma DirOrderIrrelevant(g: Grid, bc: map<Face, BcFun>, links: Face -> Option<Store>, ifs: int, ife: int,
                           s: Store, o1: int -> bool, o2: int -> bool, d: int)
    requires Valid(g) && 1 <= d <= 3
    ensures Perform(g, bc, links, ifs, ife, s, DirPart(g, links, o1, d))
            == Perform(g, bc, links, ifs, ife, s, DirPart(g, links, o2, d))
    ensures Sends(g, bc, links, ifs, ife, s, DirPart(g, links, o1, d))
            == Sends(g, bc, links, ifs, ife, s, DirPart(g, links, o2, d))
  {
    var ix, ox := FaceOf(d, true), FaceOf(d, false);
    var l, r := links(ix).Some?, links(ox).Some?;
    if Spans(g, d) && l && r && o1(d) != o2(d) {
      DirSends(g, bc, links, ifs, ife, s, d, l, r, o1(d));
      DirSends(g, bc, links, ifs, ife, s, d, l, r, o2(d));
      FillsCommute(g, d, ifs, ife, s, links(ix).value, links(ox).value);
      BothUnpacks(g, bc, links, ifs, ife, s, d, true);
      BothUnpacks(g, bc, links, ifs, ife, s, d, false);
    }
  }

  /** The order in which the two receives of a direction complete changes
      neither the grid `bvals_rad` leaves nor what it sends. */
  lemma ArrivalOrderIrrelevant(g: Grid, bc: map<Face, BcFun>, links: Face -> Option<Store>, ifs: int, ife: int,
                               s: Store, o1: int -> bool, o2: int -> bool)
    requires Valid(g)
    ensures Perform(g, bc, links, ifs, ife, s, Schedule(g, links, o1))
            == Perform(g, bc, links, ifs, ife, s, Schedule(g, links, o2))
    ensures Sends(g, bc, links, ifs, ife, s, Schedule(g, links, o1))
            == Sends(g, bc, links, ifs, ife, s, Schedule(g, links, o2))
  {
    var a1, a2, a3 := DirPart(g, links, o1, 1), DirPart(g, links, o1, 2), DirPart(g, links, o1, 3);
    var b1, b2, b3 := DirPart(g, links, o2, 1), DirPart(g, links, o2, 2), DirPart(g, links, o2, 3);
    DirOrderIrrelevant(g, bc, links, ifs, ife, s, o1, o2, 1);
    var s2 := Perform(g, bc, links, ifs, ife, s, a1);
    DirOrderIrrelevant(g, bc, links, ifs, ife, s2, o1, o2, 2);
    var s3 := Perform(g, bc, links, ifs, ife, s2, a2);
    DirOrderIrrelevant(g, bc, links, ifs, ife, s3, o1, o2, 3);
    PerformConcat(g, bc, links, ifs, ife, s, a1 + a2, a3);
    PerformConcat(g, bc, links, ifs, ife, s, a1, a2);
    PerformConcat(g, bc, links, ifs, ife, s, b1 + b2, b3);
    PerformConcat(g, bc, links, ifs, ife, s, b1, b2);
  }

  lemma Assoc<T>(a: seq<T>, b: seq<T>, c: seq<T>)
    ensures a + b + c == a + (b + c)
  {
  }

  // =====================================================================
  // The grid and the dispatcher

  /** `a` can be called: a pack or an unpack has a neighbour to send to or
      receive from, and a boundary face has a boundary function. */
  predicate Ready(bc: map<Face, BcFun>, links: Face -> Option<Store>, a: Action)
  {
    match a
    case Pack(f) => links(f).Some?
    case Unpack(f) => links(f).Some?
    case Boundary(f) => f in bc
  }

  /** A send buffer of `n` values holds what any face with a neighbour
      packs; the buffers `bvals_rad_init` allocates are this large
      (`RadInit.X1PackFits` and its x2 and x3 companions). */
  ghost predicate BufferFits(g: Grid, links: Face -> Option<Store>, ifs: int, ife: int, n: int)
  {
    forall f :: links(f).Some? ==> |PackLocs(g, f, ifs, ife)| <= n
  }

  /** The buffers `bvals_rad_init` allocates need not be `BufferFits`: with
      eight octants, in a domain split only along x1 into two grids of this
      size, `x2cnt` and `x3cnt` stay 0, the buffer takes the as-written
      `x1cnt`, and a grid with a neighbour on its inner x1 face packs more
      than that. */
  lemma AsWrittenBufferTooShort(g: Grid, links: Face -> Option<Store>, x1: int, x2: int, x3: int, size: int)
    requires Sized(g) && g.noct == 8 && g.nang >= 1 && g.nf >= 1 && links(Ix1).Some?
    requires x1 == DomainMax(0, [[[GridData(Nx1(g), Nx2(g), Nx3(g)), GridData(Nx1(g), Nx2(g), Nx3(g))]]],
                             X1Of(g.noct, g.nang, g.nDim, g.nf), true, 1)
    requires x2 == DomainMax(0, [[[GridData(Nx1(g), Nx2(g), Nx3(g)), GridData(Nx1(g), Nx2(g), Nx3(g))]]],
                             X2Of(g.noct, g.nang, g.nDim, g.nf), false, 1)
    requires x3 == DomainMax(0, [[[GridData(Nx1(g), Nx2(g), Nx3(g)), GridData(Nx1(g), Nx2(g), Nx3(g))]]],
                             X3Of(g.noct, g.nang, g.nDim, g.nf), false, 1)
    requires size >= x1 && size >= x2 && size >= x3
    requires size == x1 || size == x2 || size == x3
    ensures !BufferFits(g, links, 0, g.nf - 1, size)
  {
    var gd := [[[GridData(Nx1(g), Nx2(g), Nx3(g)), GridData(Nx1(g), Nx2(g), Nx3(g))]]];
    DomainMaxIsMax(0, gd, X2Of(g.noct, g.nang, g.nDim, g.nf), false, 1);
    DomainMaxIsMax(0, gd, X3Of(g.noct, g.nang, g.nDim, g.nf), false, 1);
    DomainMaxIsMax(0, gd, X1Of(g.noct, g.nang, g.nDim, g.nf), true, 1);
    assert size == x1;
    CountAsWrittenPositive(Nx2(g), Nx3(g), g.nang, g.nDim, g.nf);
    X1PackOverflows(g, x1, 0);
    assert |PackLocs(g, Ix1, 0, g.nf - 1)| > size;
  }

  /** One radiation grid (`RadGridS`) as `bvals_rad` sees it: its geometry,
      its memory, and a record of the routines called and of the buffers
      sent. */
  class RadGrid {
    const g: Grid
    var store: Store
    ghost var trace: seq<Action>
    ghost var sent: seq<seq<Val>>

    ghost predicate Valid()
      reads this
    {
      RadFaces.Valid(g) && Total(store)
    }

    constructor (g0: Grid, s0: Store)
      requires RadFaces.Valid(g0) && Total(s0)
      ensures Valid() && g == g0 && store == s0 && trace == [] && sent == []
    {
      g := g0;
      store := s0;
      trace := [];
      sent := [];
    }

    /** Runs the statements of a routine in order; each receive takes the
        next value of `buf` (the cursor `pRcv`). */
    method Apply(steps: seq<Step>, buf: seq<Val>)
      requires Valid() && |Recvd(steps)| <= |buf|
      modifies this
      ensures Valid() && store == Exec(old(store), steps, buf)
      ensures trace == old(trace) && sent == old(sent)
    {
      ExecTotal(store, steps, buf);
      var t, c := 0, 0;
      while t < |steps|
        invariant 0 <= t <= |steps| && 0 <= c <= |buf|
        invariant |Recvd(steps[t..])| <= |buf| - c
        invariant Exec(store, steps[t..], buf[c..]) == Exec(old(store), steps, buf)
        invariant trace == old(trace) && sent == old(sent)
      {
        assert steps[t..][1..] == steps[t + 1..];
        match steps[t] {
          case Copy(d, x) =>
            store := store[d := Get(store, x)];
          case Recv(d) =>
            assert buf[c..][1..] == buf[c + 1..];
            store := store[d := buf[c]];
            c := c + 1;
        }
        t := t + 1;
      }
      assert steps[t..] == [];
    }

    /** `pack_<f>_rad`: writes the face's values into the send buffer
        with an advancing cursor (`*(pSnd++)`), then hands them to
        `MPI_Isend`. */
    method Pack(f: Face, ifs: int, ife: int, buf: array<Val>)
      requires Valid() && |PackLocs(g, f, ifs, ife)| <= buf.Length
      modifies this, buf
      ensures Valid() && store == old(store)
      ensures buf[..|PackLocs(g, f, ifs, ife)|] == Read(store, PackLocs(g, f, ifs, ife))
      ensures buf[|PackLocs(g, f, ifs, ife)|..] == old(buf[|PackLocs(g, f, ifs, ife)|..])
      ensures trace == old(trace) + [Action.Pack(f)]
      ensures sent == old(sent) + [Read(store, PackLocs(g, f, ifs, ife))]
    {
      var locs := PackLocs(g, f, ifs, ife);
      Gather(locs, buf);
      trace := trace + [Action.Pack(f)];
      sent := sent + [buf[..|locs|]];
    }

    /** Copies the slots `locs` into the front of `buf`, advancing the
        cursor one value at a time. */
    method Gather(locs: seq<Loc>, buf: array<Val>)
      requires |locs| <= buf.Length
      modifies buf
      ensures buf[..|locs|] == Read(store, locs)
      ensures buf[|locs|..] == old(buf[|locs|..])
    {
      var t := 0;
      while t < |locs|
        invariant 0 <= t <= |locs|
        invariant forall u :: 0 <= u < t ==> buf[u] == Get(store, locs[u])
        invariant forall u :: t <= u < buf.Length ==> buf[u] == old(buf[u])
      {
        buf[t] := Get(store, locs[t]);
        t := t + 1;
      }
    }

    /** `unpack_<f>_rad` run on what the neighbour `nbr` packed for the
        opposite face: the face is filled from the neighbour. */
    method Unpack(f: Face, ifs: int, ife: int, nbr: Store)
      requires Valid()
      modifies this
      ensures Valid() && store == Fill(g, f, ifs, ife, old(store), nbr)
      ensures trace == old(trace) + [Action.Unpack(f)] && sent == old(sent)
    {
      var msg := Read(nbr, PackLocs(g, Opposite(f), ifs, ife));
      ExchangeFills(g, f, ifs, ife, store, nbr);
      Apply(UnpackSteps(g, f, ifs, ife), msg);
      trace := trace + [Action.Unpack(f)];
    }

    /** The boundary function of a physical face (`<f>_RBCFun`). */
    method Boundary(bc: map<Face, BcFun>, f: Face, ifs: int, ife: int)
      requires Valid() && f in bc
      modifies this
      ensures Valid()
      ensures store == (if bc[f] == Periodic then Fill(g, f, ifs, ife, old(store), old(store)) else old(store))
      ensures trace == old(trace) + [Action.Boundary(f)] && sent == old(sent)
    {
      match bc[f] {
        case Periodic =>
          PeriodicFills(g, f, ifs, ife, store);
          Apply(PeriodicSteps(g, f, ifs, ife), []);
        case ProlongateLater =>
        case ConstIncident =>
      }
      trace := trace + [Action.Boundary(f)];
    }

    /** Makes the call `a`. */
    method Call(a: Action, bc: map<Face, BcFun>, links: Face -> Option<Store>, ifs: int, ife: int,
                sendL: array<Val>, sendR: array<Val>)
      requires Valid() && Ready(bc, links, a)
      requires BufferFits(g, links, ifs, ife, sendL.Length) && BufferFits(g, links, ifs, ife, sendR.Length)
      modifies this, sendL, sendR
      ensures Valid() && store == Effect(g, bc, links, ifs, ife, old(store), a)
      ensures trace == old(trace) + [a]
      ensures sent == old(sent) + (if a.Pack? then [Read(old(store), PackLocs(g, a.face, ifs, ife))] else [])
    {
      match a {
        case Pack(f) =>
          Pack(f, ifs, ife, if IsInner(f) then sendL else sendR);
        case Unpack(f) =>
          Unpack(f, ifs, ife, links(f).value);
        case Boundary(f) =>
          Boundary(bc, f, ifs, ife);
      }
    }

    /** Makes the calls `acts` in order: those before the last, then the last. */
    method Run(acts: seq<Action>, bc: map<Face, BcFun>, links: Face -> Option<Store>, ifs: int, ife: int,
               sendL: array<Val>, sendR: array<Val>)
      requires Valid()
      requires forall t :: 0 <= t < |acts| ==> Ready(bc, links, acts[t])
      requires BufferFits(g, links, ifs, ife, sendL.Length) && BufferFits(g, links, ifs, ife, sendR.Length)
      modifies this, sendL, sendR
      ensures Valid() && store == Perform(g, bc, links, ifs, ife, old(store), acts)
      ensures trace == old(trace) + acts
      ensures sent == old(sent) + Sends(g, bc, links, ifs, ife, old(store), acts)
      decreases |acts|
    {
      if acts != [] {
        var before, last := acts[..|acts| - 1], acts[|acts| - 1];
        assert acts == before + [last];
        ghost var s0 := store;
        Run(before, bc, links, ifs, ife, sendL, sendR);
        Call(last, bc, links, ifs, ife, sendL, sendR);
        PerformSnoc(g, bc, links, ifs, ife, s0, before, last);
      }
    }

    /** The x`d` step of `bvals_rad`, taken only when the grid has more
        than one cell along x`d`: the packs for the neighbours there are,
        then the unpacks and boundary functions `DirSchedule` orders. */
    method Direction(d: int, bc: map<Face, BcFun>, links: Face -> Option<Store>, innerFirst: int -> bool,
                     ifs: int, ife: int, sendL: array<Val>, sendR: array<Val>)
      requires Valid() && 1 <= d <= 3
      requires Spans(g, d) ==> forall f :: Dir(f) == d && links(f).None? ==> f in bc
      requires BufferFits(g, links, ifs, ife, sendL.Length) && BufferFits(g, links, ifs, ife, sendR.Length)
      modifies this, sendL, sendR
      ensures Valid()
      ensures store == Perform(g, bc, links, ifs, ife, old(store), DirPart(g, links, innerFirst, d))
      ensures trace == old(trace) + DirPart(g, links, innerFirst, d)
      ensures sent == old(sent) + Sends(g, bc, links, ifs, ife, old(store), DirPart(g, links, innerFirst, d))
    {
      if Spans(g, d) {
        var ix, ox := FaceOf(d, true), FaceOf(d, false);
        var acts := DirSchedule(d, links(ix).Some?, links(ox).Some?, innerFirst(d));
        forall t | 0 <= t < |acts| ensures Ready(bc, links, acts[t]) {
          assert acts[t].face == ix || acts[t].face == ox;
        }
        Run(acts, bc, links, ifs, ife, sendL, sendR);
      }
    }

    /** `bvals_rad`: x1, then x2, then x3.  `innerFirst(d)` says which
        receive of direction `d` `MPI_Waitany` returns first. */
    method BvalsRad(bc: map<Face, BcFun>, links: Face -> Option<Store>, innerFirst: int -> bool,
                    ifs: int, ife: int, sendL: array<Val>, sendR: array<Val>)
      requires Valid()
      requires forall f :: Spans(g, Dir(f)) && links(f).None? ==> f in bc
      requires BufferFits(g, links, ifs, ife, sendL.Length) && BufferFits(g, links, ifs, ife, sendR.Length)
      modifies this, sendL, sendR
      ensures Valid()
      ensures store == Perform(g, bc, links, ifs, ife, old(store), Schedule(g, links, innerFirst))
      ensures trace == old(trace) + Schedule(g, links, innerFirst)
      ensures sent == old(sent) + Sends(g, bc, links, ifs, ife, old(store), Schedule(g, links, innerFirst))
    {
      ghost var p1, p2, p3 := DirPart(g, links, innerFirst, 1), DirPart(g, links, innerFirst, 2), DirPart(g, links, innerFirst, 3);
      ghost var s0, t0, m0 := store, trace, sent;
      Direction(1, bc, links, innerFirst, ifs, ife, sendL, sendR);
      ghost var s1, m1 := store, sent;
      Direction(2, bc, links, innerFirst, ifs, ife, sendL, sendR);
      PerformConcat(g, bc, links, ifs, ife, s0, p1, p2);
      Assoc(t0, p1, p2);
      Assoc(m0, Sends(g, bc, links, ifs, ife, s0, p1), Sends(g, bc, links, ifs, ife, s1, p2));
      Direction(3, bc, links, innerFirst, ifs, ife, sendL, sendR);
      PerformConcat(g, bc, links, ifs, ife, s0, p1 + p2, p3);
      Assoc(t0, p1 + p2, p3);
      Assoc(m0, Sends(g, bc, links, ifs, ife, s0, p1 + p2), Sends(g, bc, links, ifs, ife, Perform(g, bc, links, ifs, ife, s0, p1 + p2), p3));
    }
  }
}
