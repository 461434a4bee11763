/** `bvals_rad_init`: for the grid of one domain, the boundary function
    each face gets (from the refinement geometry and the mesh's boundary
    flags), the flux-component count `nDim`, and the message sizes
    `x1cnt`, `x2cnt`, `x3cnt` that the MPI build sizes its buffers with.
    The module statics of `bvals_rad.c` are the fields of `BvalsRad`; the
    function pointers of a domain are the `bc` map of `RadDomain`. */
module RadInit {
  import opened Wrappers
  import opened Loops
  import opened RadFaces
  import opened RadCounts
  import opened RadX1
  import opened RadX2
  import opened RadX3

  /** The boundary functions `bvals_rad_init` installs. */
  datatype BcFun = ProlongateLater | Periodic | ConstIncident

  /** The direction a face bounds. */
  function Dir(f: Face): (d: int)
    ensures 1 <= d <= 3
  {
    match f
    case Ix1 | Ox1 => 1
    case Ix2 | Ox2 => 2
    case Ix3 | Ox3 => 3
  }

  predicate IsInner(f: Face)
  {
    f == Ix1 || f == Ix2 || f == Ix3
  }

  /** The inner (`inner`) or outer face of direction `d`. */
  function FaceOf(d: int, inner: bool): (f: Face)
    requires 1 <= d <= 3
    ensures Dir(f) == d && IsInner(f) == inner
  {
    if d == 1 then (if inner then Ix1 else Ox1)
    else if d == 2 then (if inner then Ix2 else Ox2)
    else (if inner then Ix3 else Ox3)
  }

  /** The position of a face in the order `bvals_rad_init` handles them:
      ix1, ox1, ix2, ox2, ix3, ox3. */
  function Rank(f: Face): int
  {
    2 * (Dir(f) - 1) + (if IsInner(f) then 0 else 1)
  }

  function Pow2(n: nat): (p: nat)
    ensures p >= 1
  {
    if n == 0 then 1 else 2 * Pow2(n - 1)
  }

  /** `irefine`: the ratio of the cell size of the root level to that of
      level `nl`, by repeated doubling. */
  method Irefine(nl: nat) returns (irefine: int)
    ensures irefine == Pow2(nl)
  {
    irefine := 1;
    var i := 1;
    while i <= nl
      invariant 1 <= i <= nl + 1
      invariant irefine == Pow2(i - 1)
    {
      irefine := irefine * 2;
      i := i + 1;
    }
  }

  /** What `bvals_rad_init` reads of the mesh: the root domain's cell
      counts and the six boundary flags (`RBCFlag_ix1`, ...). */
  datatype Mesh = Mesh(rootNx: seq<int>, flag: Face -> int)

  /** The face lies on the edge of the root domain: an inner face when the
      domain starts at offset 0, an outer face when the domain's end, in
      root cells, equals the root's size. */
  predicate OnRootEdge(f: Face, disp: seq<int>, dnx: seq<int>, rootNx: seq<int>, irefine: int)
    requires |disp| == 3 && |dnx| == 3 && |rootNx| == 3 && irefine >= 1
  {
    var d := Dir(f) - 1;
    if IsInner(f) then disp[d] == 0 else (disp[d] + dnx[d]) / irefine == rootNx[d]
  }

  /** For a domain inside the root domain, the division test of an outer
      face holds exactly when the domain ends where the root does. */
  lemma OuterEdgeExact(disp: int, nx: int, rootNx: int, irefine: int)
    requires irefine >= 1 && disp >= 0 && nx >= 1 && disp + nx <= rootNx * irefine
    ensures (disp + nx) / irefine == rootNx <==> disp + nx == rootNx * irefine
  {
    var x := disp + nx;
    var q, r := x / irefine, x % irefine;
    assert x == q * irefine + r && 0 <= r < irefine;
    if q == rootNx {
      assert x >= rootNx * irefine;
    }
    if x == rootNx * irefine {
      QuotientUnique(q, rootNx, r, irefine);
    }
  }

  /** Two multiples of `b` that differ by less than `b` are equal. */
  lemma QuotientUnique(q: int, a: int, r: int, b: int)
    requires b >= 1 && 0 <= r < b && q * b + r == a * b
    ensures q == a
  {
    var k := q - a;
    assert k * b == -r by {
      assert q * b - a * b == (q - a) * b;
    }
    MulSign(k, b);
  }

  lemma MulSign(k: int, b: int)
    requires b >= 1
    ensures k >= 1 ==> k * b >= b
    ensures k <= -1 ==> k * b <= -b
  {
  }

  /** The function a face gets: `ProlongateLater` off the root edge, and
      on it the one the flag names (4 periodic, 2 fixed incident
      radiation); `None` for any other flag, which is a fatal error. */
  function Choice(onEdge: bool, flag: int): Option<BcFun>
  {
    if !onEdge then Some(ProlongateLater)
    else if flag == 4 then Some(Periodic)
    else if flag == 2 then Some(ConstIncident)
    else None
  }

  /** The sizes `Nx` of one grid of a domain (an entry of `GData`). */
  datatype GridData = GridData(nx1: int, nx2: int, nx3: int)

  /** `GData` holds `NGrid[2]` planes of `NGrid[1]` rows of `NGrid[0]` grids. */
  predicate Shaped(gd: seq<seq<seq<GridData>>>, ng: seq<int>)
  {
    |ng| == 3 && |gd| == ng[2]
    && (forall n :: 0 <= n < |gd| ==> |gd[n]| == ng[1])
    && (forall n, m :: 0 <= n < |gd| && 0 <= m < |gd[n]| ==> |gd[n][m]| == ng[0])
  }

  /** A domain with a grid on this process, as `bvals_rad_init` sees it. */
  class RadDomain {
    /** `Nx` of this process's grid. */
    const gridNx: seq<int>
    /** `Disp` and `Nx` of the domain, in cells of its level. */
    const disp: seq<int>
    const dnx: seq<int>
    /** `NGrid` and the sizes of all grids of the domain. */
    const nGrid: seq<int>
    const gdata: seq<seq<seq<GridData>>>
    /** `ix1_RBCFun`, ...: the faces set so far. */
    var bc: map<Face, BcFun>

    ghost predicate Valid()
    {
      |gridNx| == 3 && |disp| == 3 && |dnx| == 3 && Shaped(gdata, nGrid)
    }

    constructor (gridNx: seq<int>, disp: seq<int>, dnx: seq<int>, nGrid: seq<int>,
                 gdata: seq<seq<seq<GridData>>>)
      requires |gridNx| == 3 && |disp| == 3 && |dnx| == 3 && Shaped(gdata, nGrid)
      ensures Valid() && bc == map[]
      ensures this.gridNx == gridNx && this.disp == disp && this.dnx == dnx
      ensures this.nGrid == nGrid && this.gdata == gdata
    {
      this.gridNx := gridNx;
      this.disp := disp;
      this.dnx := dnx;
      this.nGrid := nGrid;
      this.gdata := gdata;
      bc := map[];
    }

    /** Direction `Dir(f)` has more than one cell in this grid, so its faces are handled. */
    predicate Active(f: Face)
      requires |gridNx| == 3
    {
      gridNx[Dir(f) - 1] > 1
    }

    /** The function face `f` gets at refinement level `nl`. */
    function Chosen(f: Face, nl: nat, mesh: Mesh): Option<BcFun>
      requires |disp| == 3 && |dnx| == 3 && |mesh.rootNx| == 3
    {
      Choice(OnRootEdge(f, disp, dnx, mesh.rootNx, Pow2(nl)), mesh.flag(f))
    }
  }

  /** `nDim` after the faces of a grid with sizes `nx` are set: the highest
      direction with more than one cell. */
  function NDimAfter(nx: seq<int>, nDim: int): int
    requires |nx| == 3
  {
    if nx[2] > 1 then 3 else if nx[1] > 1 then 2 else if nx[0] > 1 then 1 else nDim
  }

  // =====================================================================
  // The message sizes: each is the largest count over the grids seen

  /** One step of the counts loop: the count of grid `g` replaces `c` when
      it is larger and the domain is split along the direction (`on`). */
  function Bump(c: int, g: GridData, cnt: GridData -> int, on: bool): int
  {
    if on && cnt(g) > c then cnt(g) else c
  }

  /** The count after the first `l` grids of a row, starting from `c`. */
  function RowMax(c: int, row: seq<GridData>, cnt: GridData -> int, on: bool, l: nat): int
    requires l <= |row|
  {
    if l == 0 then c else Bump(RowMax(c, row, cnt, on, l - 1), row[l - 1], cnt, on)
  }

  /** The count after the first `m` rows of a plane. */
  function PlaneMax(c: int, plane: seq<seq<GridData>>, cnt: GridData -> int, on: bool, m: nat): int
    requires m <= |plane|
  {
    if m == 0 then c else RowMax(PlaneMax(c, plane, cnt, on, m - 1), plane[m - 1], cnt, on, |plane[m - 1]|)
  }

  /** The count after the first `n` planes of `GData`. */
  function DomainMax(c: int, gd: seq<seq<seq<GridData>>>, cnt: GridData -> int, on: bool, n: nat): int
    requires n <= |gd|
  {
    if n == 0 then c else PlaneMax(DomainMax(c, gd, cnt, on, n - 1), gd[n - 1], cnt, on, |gd[n - 1]|)
  }

  /** `RowMax` is the largest of `c` and the counts of the grids it has seen. */
  lemma {:induction false} RowMaxIsMax(c: int, row: seq<GridData>, cnt: GridData -> int, on: bool, l: nat)
    requires l <= |row|
    ensures RowMax(c, row, cnt, on, l) >= c
    ensures on ==> forall i :: 0 <= i < l ==> RowMax(c, row, cnt, on, l) >= cnt(row[i])
    ensures RowMax(c, row, cnt, on, l) == c
            || (on && exists i :: 0 <= i < l && RowMax(c, row, cnt, on, l) == cnt(row[i]))
  {
    if l > 0 {
      RowMaxIsMax(c, row, cnt, on, l - 1);
      var p := RowMax(c, row, cnt, on, l - 1);
      var r := RowMax(c, row, cnt, on, l);
      if r != p {
        assert r == cnt(row[l - 1]);
      } else if r != c {
        var i :| 0 <= i < l - 1 && p == cnt(row[i]);
        assert 0 <= i < l && r == cnt(row[i]);
      }
    }
  }

  /** `PlaneMax` is the largest of `c` and the counts of the grids it has seen. */
  lemma {:induction false} PlaneMaxIsMax(c: int, plane: seq<seq<GridData>>, cnt: GridData -> int, on: bool, m: nat)
    requires m <= |plane|
    ensures PlaneMax(c, plane, cnt, on, m) >= c
    ensures on ==> forall j, i :: 0 <= j < m && 0 <= i < |plane[j]| ==> PlaneMax(c, plane, cnt, on, m) >= cnt(plane[j][i])
    ensures PlaneMax(c, plane, cnt, on, m) == c
            || (on && exists j, i :: 0 <= j < m && 0 <= i < |plane[j]| && PlaneMax(c, plane, cnt, on, m) == cnt(plane[j][i]))
  {
    if m > 0 {
      PlaneMaxIsMax(c, plane, cnt, on, m - 1);
      var p := PlaneMax(c, plane, cnt, on, m - 1);
      var row := plane[m - 1];
      RowMaxIsMax(p, row, cnt, on, |row|);
      var r := PlaneMax(c, plane, cnt, on, m);
      assert r == RowMax(p, row, cnt, on, |row|);
      if r != p {
        var i :| 0 <= i < |row| && r == cnt(row[i]);
        assert 0 <= m - 1 < m && 0 <= i < |plane[m - 1]| && r == cnt(plane[m - 1][i]);
      } else if r != c {
        var j, i :| 0 <= j < m - 1 && 0 <= i < |plane[j]| && p == cnt(plane[j][i]);
        assert 0 <= j < m && r == cnt(plane[j][i]);
      }
    }
  }

  /** `DomainMax` is the largest of `c` and the counts of the grids it has seen. */
  lemma {:induction false} DomainMaxIsMax(c: int, gd: seq<seq<seq<GridData>>>, cnt: GridData -> int, on: bool, n: nat)
    requires n <= |gd|
    ensures DomainMax(c, gd, cnt, on, n) >= c
    ensures on ==> forall k, j, i :: 0 <= k < n && 0 <= j < |gd[k]| && 0 <= i < |gd[k][j]| ==>
                     DomainMax(c, gd, cnt, on, n) >= cnt(gd[k][j][i])
    ensures DomainMax(c, gd, cnt, on, n) == c
            || (on && exists k, j, i :: 0 <= k < n && 0 <= j < |gd[k]| && 0 <= i < |gd[k][j]|
                                        && DomainMax(c, gd, cnt, on, n) == cnt(gd[k][j][i]))
  {
    if n > 0 {
      DomainMaxIsMax(c, gd, cnt, on, n - 1);
      var p := DomainMax(c, gd, cnt, on, n - 1);
      var plane := gd[n - 1];
      PlaneMaxIsMax(p, plane, cnt, on, |plane|);
      var r := DomainMax(c, gd, cnt, on, n);
      assert r == PlaneMax(p, plane, cnt, on, |plane|);
      if r != p {
        var j, i :| 0 <= j < |plane| && 0 <= i < |plane[j]| && r == cnt(plane[j][i]);
        assert 0 <= n - 1 < n && 0 <= j < |gd[n - 1]| && 0 <= i < |gd[n - 1][j]| && r == cnt(gd[n - 1][j][i]);
      } else if r != c {
        var k, j, i :| 0 <= k < n - 1 && 0 <= j < |gd[k]| && 0 <= i < |gd[k][j]| && p == cnt(gd[k][j][i]);
        assert 0 <= k < n && r == cnt(gd[k][j][i]);
      }
    }
  }

  /** The x1 count of one grid as `bvals_rad_init` computes it. */
  function X1Of(noct: int, nang: int, nDim: int, nf: int): GridData -> int
  {
    (gd: GridData) => X1CountAsWritten(gd.nx2, gd.nx3, noct, nang, nDim, nf)
  }

  /** The x1 count of one grid with the x3 edge octants counted, as the x1
      pack routines send them. */
  function X1OfIntended(noct: int, nang: int, nDim: int, nf: int): GridData -> int
  {
    (gd: GridData) => X1Count(gd.nx2, gd.nx3, noct, nang, nDim, nf)
  }

  function X2Of(noct: int, nang: int, nDim: int, nf: int): GridData -> int
  {
    (gd: GridData) => X2Count(gd.nx1, gd.nx3, noct, nang, nDim, nf)
  }

  function X3Of(noct: int, nang: int, nDim: int, nf: int): GridData -> int
  {
    (gd: GridData) => X3Count(gd.nx1, gd.nx2, noct, nang, nDim, nf)
  }

  /** The statics of `bvals_rad.c` that `bvals_rad_init` sets. */
  class BvalsRad {
    var nDim: int
    var x1cnt: int
    var x2cnt: int
    var x3cnt: int

    constructor ()
      ensures nDim == 0 && x1cnt == 0 && x2cnt == 0 && x3cnt == 0
    {
      nDim := 0;
      x1cnt := 0;
      x2cnt := 0;
      x3cnt := 0;
    }

    /** The faces of direction `d`, when the grid has more than one cell
        along it: inner face first, then outer; a fatal error names the
        face whose flag is unknown. */
    method SetDirection(dom: RadDomain, d: int, nl: nat, irefine: int, mesh: Mesh) returns (fail: Option<Face>)
      requires dom.Valid() && |mesh.rootNx| == 3 && 1 <= d <= 3 && irefine == Pow2(nl)
      modifies this, dom
      ensures x1cnt == old(x1cnt) && x2cnt == old(x2cnt) && x3cnt == old(x3cnt)
      ensures !dom.Active(FaceOf(d, true)) ==> fail == None && dom.bc == old(dom.bc) && nDim == old(nDim)
      ensures dom.Active(FaceOf(d, true)) ==> nDim == d
      ensures fail.Some? ==>
                dom.Active(fail.value) && Dir(fail.value) == d && dom.Chosen(fail.value, nl, mesh) == None
                && (!IsInner(fail.value) ==> dom.Chosen(FaceOf(d, true), nl, mesh).Some?)
      ensures fail == None ==>
                forall f :: (Dir(f) == d && dom.Active(f) ==>
                               dom.Chosen(f, nl, mesh).Some? && f in dom.bc && dom.bc[f] == dom.Chosen(f, nl, mesh).value)
                            && (!(Dir(f) == d && dom.Active(f)) ==>
                                  (f in dom.bc <==> f in old(dom.bc)) && (f in dom.bc ==> dom.bc[f] == old(dom.bc)[f]))
    {
      fail := None;
      if dom.gridNx[d - 1] > 1 {
        nDim := d;
        var inner := FaceOf(d, true);
        var c := Choice(OnRootEdge(inner, dom.disp, dom.dnx, mesh.rootNx, irefine), mesh.flag(inner));
        if c == None {
          return Some(inner);
        }
        dom.bc := dom.bc[inner := c.value];
        var outer := FaceOf(d, false);
        c := Choice(OnRootEdge(outer, dom.disp, dom.dnx, mesh.rootNx, irefine), mesh.flag(outer));
        if c == None {
          return Some(outer);
        }
        dom.bc := dom.bc[outer := c.value];
      }
    }

    /** The counts loop over the grids of a domain: each of `x1cnt`,
        `x2cnt`, `x3cnt` ends as the largest of its old value and the
        counts of the grids, when the domain is split along that direction. */
    method AddCounts(dom: RadDomain, noct: int, nang: int, nf: int)
      requires dom.Valid()
      modifies this
      ensures nDim == old(nDim)
      ensures x1cnt == DomainMax(old(x1cnt), dom.gdata, X1Of(noct, nang, nDim, nf), dom.nGrid[0] > 1, |dom.gdata|)
      ensures x2cnt == DomainMax(old(x2cnt), dom.gdata, X2Of(noct, nang, nDim, nf), dom.nGrid[1] > 1, |dom.gdata|)
      ensures x3cnt == DomainMax(old(x3cnt), dom.gdata, X3Of(noct, nang, nDim, nf), dom.nGrid[2] > 1, |dom.gdata|)
    {
      var gd, ng := dom.gdata, dom.nGrid;
      var f1, f2, f3 := X1Of(noct, nang, nDim, nf), X2Of(noct, nang, nDim, nf), X3Of(noct, nang, nDim, nf);
      var n := 0;
      while n < ng[2]
        invariant 0 <= n <= ng[2] && nDim == old(nDim)
        invariant x1cnt == DomainMax(old(x1cnt), gd, f1, ng[0] > 1, n)
        invariant x2cnt == DomainMax(old(x2cnt), gd, f2, ng[1] > 1, n)
        invariant x3cnt == DomainMax(old(x3cnt), gd, f3, ng[2] > 1, n)
      {
        assert |gd[n]| == ng[1];
        ghost var p1, p2, p3 := x1cnt, x2cnt, x3cnt;
        var m := 0;
        while m < ng[1]
          invariant 0 <= m <= ng[1] && nDim == old(nDim)
          invariant x1cnt == PlaneMax(p1, gd[n], f1, ng[0] > 1, m)
          invariant x2cnt == PlaneMax(p2, gd[n], f2, ng[1] > 1, m)
          invariant x3cnt == PlaneMax(p3, gd[n], f3, ng[2] > 1, m)
        {
          CountRow(dom, n, m, f1, f2, f3);
          m := m + 1;
        }
        n := n + 1;
      }
    }

    /** The innermost loop of `AddCounts`: the grids of row `m` of plane
        `n`, with `f1`, `f2`, `f3` the count formulas of one grid. */
    method CountRow(dom: RadDomain, n: int, m: int, f1: GridData -> int, f2: GridData -> int, f3: GridData -> int)
      requires dom.Valid() && 0 <= n < dom.nGrid[2] && 0 <= m < dom.nGrid[1]
      modifies this
      ensures nDim == old(nDim) && |dom.gdata[n]| == dom.nGrid[1]
      ensures x1cnt == RowMax(old(x1cnt), dom.gdata[n][m], f1, dom.nGrid[0] > 1, |dom.gdata[n][m]|)
      ensures x2cnt == RowMax(old(x2cnt), dom.gdata[n][m], f2, dom.nGrid[1] > 1, |dom.gdata[n][m]|)
      ensures x3cnt == RowMax(old(x3cnt), dom.gdata[n][m], f3, dom.nGrid[2] > 1, |dom.gdata[n][m]|)
    {
      var gd, ng := dom.gdata, dom.nGrid;
      assert |gd[n]| == ng[1];
      assert |gd[n][m]| == ng[0];
      var l := 0;
      while l < ng[0]
        invariant 0 <= l <= ng[0] && nDim == old(nDim)
        invariant x1cnt == RowMax(old(x1cnt), gd[n][m], f1, ng[0] > 1, l)
        invariant x2cnt == RowMax(old(x2cnt), gd[n][m], f2, ng[1] > 1, l)
        invariant x3cnt == RowMax(old(x3cnt), gd[n][m], f3, ng[2] > 1, l)
      {
        var gdl: GridData := gd[n][m][l];
        if ng[0] > 1 {
          var xcnt := f1(gdl);
          if xcnt > x1cnt { x1cnt := xcnt; }
        }
        if ng[1] > 1 {
          var xcnt := f2(gdl);
          if xcnt > x2cnt { x2cnt := xcnt; }
        }
        if ng[2] > 1 {
          var xcnt := f3(gdl);
          if xcnt > x3cnt { x3cnt := xcnt; }
        }
        l := l + 1;
      }
    }

    /** One pass of the domain loop of `bvals_rad_init`: `irefine`, the six
        faces in order, and in the MPI build the counts. The first face
        with an unknown flag ends the run (`exit`). */
    method InitDomain(dom: RadDomain, nl: nat, mesh: Mesh, noct: int, nang: int, nf: int, mpi: bool)
      returns (fail: Option<Face>)
      requires dom.Valid() && |mesh.rootNx| == 3
      modifies this, dom
      ensures fail.Some? ==>
                dom.Active(fail.value) && dom.Chosen(fail.value, nl, mesh) == None
                && forall f :: Rank(f) < Rank(fail.value) && dom.Active(f) ==> dom.Chosen(f, nl, mesh).Some?
      ensures fail == None ==> forall f :: dom.Active(f) ==> dom.Chosen(f, nl, mesh).Some?
      ensures fail == None ==>
                forall f :: (dom.Active(f) ==> f in dom.bc && dom.bc[f] == dom.Chosen(f, nl, mesh).value)
                            && (!dom.Active(f) ==> (f in dom.bc <==> f in old(dom.bc))
                                                   && (f in dom.bc ==> dom.bc[f] == old(dom.bc)[f]))
      ensures fail == None ==> nDim == NDimAfter(dom.gridNx, old(nDim))
      ensures fail == None && !mpi ==> x1cnt == old(x1cnt) && x2cnt == old(x2cnt) && x3cnt == old(x3cnt)
      ensures fail == None && mpi ==>
                x1cnt == DomainMax(old(x1cnt), dom.gdata, X1Of(noct, nang, nDim, nf), dom.nGrid[0] > 1, |dom.gdata|)
                && x2cnt == DomainMax(old(x2cnt), dom.gdata, X2Of(noct, nang, nDim, nf), dom.nGrid[1] > 1, |dom.gdata|)
                && x3cnt == DomainMax(old(x3cnt), dom.gdata, X3Of(noct, nang, nDim, nf), dom.nGrid[2] > 1, |dom.gdata|)
    {
      var irefine := Irefine(nl);
      fail := SetDirection(dom, 1, nl, irefine, mesh);
      if fail.Some? { return; }
      fail := SetDirection(dom, 2, nl, irefine, mesh);
      if fail.Some? { return; }
      fail := SetDirection(dom, 3, nl, irefine, mesh);
      if fail.Some? { return; }
      if mpi {
        AddCounts(dom, noct, nang, nf);
      }
    }

    /** The length of each send and receive buffer (`size`): the largest
        of the three counts; none is allocated when it is 0. */
    method BufferSize() returns (size: int)
      ensures size >= x1cnt && size >= x2cnt && size >= x3cnt
      ensures size == x1cnt || size == x2cnt || size == x3cnt
    {
      size := if x1cnt > x2cnt then x1cnt else x2cnt;
      size := if x3cnt > size then x3cnt else size;
    }
  }

  // =====================================================================
  // What the pack routines send fits the messages

  /** The largest count over a domain is at least the count of each of its grids. */
  lemma MaxCovers(c: int, c0: int, gd: seq<seq<seq<GridData>>>, cnt: GridData -> int, n: int, m: int, l: int)
    requires c == DomainMax(c0, gd, cnt, true, |gd|)
    requires 0 <= n < |gd| && 0 <= m < |gd[n]| && 0 <= l < |gd[n][m]|
    ensures c >= cnt(gd[n][m][l])
  {
    DomainMaxIsMax(c0, gd, cnt, true, |gd|);
  }

  /** With the counts of `AddCounts` and two or four octants, what either
      x1 pack routine of a grid of the domain sends, for any frequency
      range, fits an `x1cnt` message. */
  lemma X1PackFits(g: Grid, c: int, c0: int, gd: seq<seq<seq<GridData>>>, n: int, m: int, l: int, ifs: int, ife: int)
    requires Sized(g) && g.noct != 8 && g.nf >= 0 && 0 <= ifs && ife < g.nf
    requires c == DomainMax(c0, gd, X1Of(g.noct, g.nang, g.nDim, g.nf), true, |gd|)
    requires 0 <= n < |gd| && 0 <= m < |gd[n]| && 0 <= l < |gd[n][m]|
    requires gd[n][m][l] == GridData(Nx1(g), Nx2(g), Nx3(g))
    ensures |PackIx1(g, ifs, ife)| <= c && |PackOx1(g, ifs, ife)| <= c
  {
    MaxCovers(c, c0, gd, X1Of(g.noct, g.nang, g.nDim, g.nf), n, m, l);
    X1CountAsWrittenShort(g);
    X1CountExact(g);
    PackWithin(g, ifs, ife);
  }

  /** With eight octants the count of `AddCounts` is too small: in a domain
      split along x1 into two grids of this size (so `NGrid[0] > 1` and the
      count is taken), starting from a count no larger than the grid's,
      `x1cnt` ends `nf * nx3 * nang * 4` values short of what either x1
      pack routine sends over all frequencies. */
  lemma X1PackOverflows(g: Grid, c: int, c0: int)
    requires Sized(g) && g.noct == 8 && g.nang >= 1 && g.nf >= 1
    requires c0 <= X1CountAsWritten(Nx2(g), Nx3(g), g.noct, g.nang, g.nDim, g.nf)
    requires c == DomainMax(c0, [[[GridData(Nx1(g), Nx2(g), Nx3(g)), GridData(Nx1(g), Nx2(g), Nx3(g))]]],
                            X1Of(g.noct, g.nang, g.nDim, g.nf), true, 1)
    ensures |PackIx1(g, 0, g.nf - 1)| == c + g.nf * (Nx3(g) * (g.nang * 4))
    ensures |PackOx1(g, 0, g.nf - 1)| == c + g.nf * (Nx3(g) * (g.nang * 4))
    ensures c < |PackIx1(g, 0, g.nf - 1)|
  {
    var gd := [[[GridData(Nx1(g), Nx2(g), Nx3(g)), GridData(Nx1(g), Nx2(g), Nx3(g))]]];
    DomainMaxIsMax(c0, gd, X1Of(g.noct, g.nang, g.nDim, g.nf), true, 1);
    assert c == X1CountAsWritten(Nx2(g), Nx3(g), g.noct, g.nang, g.nDim, g.nf);
    X1CountAsWrittenShort(g);
    X1CountExact(g);
    assert Nx3(g) * (g.nang * 4) > 0;
  }

  /** With the intended count, what either x1 pack routine sends fits an
      `x1cnt` message for any number of octants. */
  lemma X1PackFitsIntended(g: Grid, c: int, c0: int, gd: seq<seq<seq<GridData>>>, n: int, m: int, l: int, ifs: int, ife: int)
    requires Sized(g) && g.nf >= 0 && 0 <= ifs && ife < g.nf
    requires c == DomainMax(c0, gd, X1OfIntended(g.noct, g.nang, g.nDim, g.nf), true, |gd|)
    requires 0 <= n < |gd| && 0 <= m < |gd[n]| && 0 <= l < |gd[n][m]|
    requires gd[n][m][l] == GridData(Nx1(g), Nx2(g), Nx3(g))
    ensures |PackIx1(g, ifs, ife)| <= c && |PackOx1(g, ifs, ife)| <= c
  {
    MaxCovers(c, c0, gd, X1OfIntended(g.noct, g.nang, g.nDim, g.nf), n, m, l);
    X1CountExact(g);
    PackWithin(g, ifs, ife);
  }

  /** The same for the x2 pack routines, with four or eight octants. */
  lemma X2PackFits(g: Grid, c: int, c0: int, gd: seq<seq<seq<GridData>>>, n: int, m: int, l: int, ifs: int, ife: int)
    requires Sized(g) && g.noct != 2 && g.nf >= 0 && 0 <= ifs && ife < g.nf
    requires c == DomainMax(c0, gd, X2Of(g.noct, g.nang, g.nDim, g.nf), true, |gd|)
    requires 0 <= n < |gd| && 0 <= m < |gd[n]| && 0 <= l < |gd[n][m]|
    requires gd[n][m][l] == GridData(Nx1(g), Nx2(g), Nx3(g))
    ensures |PackIx2(g, ifs, ife)| <= c && |PackOx2(g, ifs, ife)| <= c
  {
    MaxCovers(c, c0, gd, X2Of(g.noct, g.nang, g.nDim, g.nf), n, m, l);
    X2CountCovers(g);
    PackWithin(g, ifs, ife);
  }

  /** The same for the x3 pack routines, with eight octants. */
  lemma X3PackFits(g: Grid, c: int, c0: int, gd: seq<seq<seq<GridData>>>, n: int, m: int, l: int, ifs: int, ife: int)
    requires Sized(g) && g.noct == 8 && g.nf >= 0 && 0 <= ifs && ife < g.nf
    requires c == DomainMax(c0, gd, X3Of(g.noct, g.nang, g.nDim, g.nf), true, |gd|)
    requires 0 <= n < |gd| && 0 <= m < |gd[n]| && 0 <= l < |gd[n][m]|
    requires gd[n][m][l] == GridData(Nx1(g), Nx2(g), Nx3(g))
    ensures |PackIx3(g, ifs, ife)| <= c && |PackOx3(g, ifs, ife)| <= c
  {
    MaxCovers(c, c0, gd, X3Of(g.noct, g.nang, g.nDim, g.nf), n, m, l);
    X3CountExact(g);
    PackWithin(g, ifs, ife);
  }
}
