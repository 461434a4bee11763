/** The cell data every boundary routine moves first: the source function
    `R[ifr][k][j][i].S` followed by the flux components
    `R[ifr][k][j][i].H[0..nDim-1]`. */
module RadCells {
  import opened Loops
  import opened RadMemory

  function FluxAt(ifr: int, k: int, j: int, i: int): int -> seq<Loc>
  {
    n => [H(ifr, k, j, i, n)]
  }

  /** The slots of one cell, in the order the routines visit them. */
  function CellLocs(nDim: int, ifr: int, k: int, j: int, i: int): seq<Loc>
  {
    [S(ifr, k, j, i)] + Loop1(0, nDim - 1, FluxAt(ifr, k, j, i))
  }

  function FluxCopy(ifr: int, k: int, j: int, i: int, k': int, j': int, i': int): int -> seq<Step>
  {
    n => [Copy(H(ifr, k, j, i, n), H(ifr, k', j', i', n))]
  }

  /** Cell `(k, j, i)` takes `S` and `H` of cell `(k', j', i')`. */
  function CellCopies(nDim: int, ifr: int, k: int, j: int, i: int, k': int, j': int, i': int): seq<Step>
  {
    [Copy(S(ifr, k, j, i), S(ifr, k', j', i'))] + Loop1(0, nDim - 1, FluxCopy(ifr, k, j, i, k', j', i'))
  }

  lemma CellLocsPick(nDim: int, ifr: int, k: int, j: int, i: int, e: Loc) returns (n: int)
    requires e in CellLocs(nDim, ifr, k, j, i)
    ensures e == S(ifr, k, j, i) || (0 <= n < nDim && e == H(ifr, k, j, i, n))
  {
    n := 0;
    if e != S(ifr, k, j, i) {
      n := Loop1Pick(0, nDim - 1, FluxAt(ifr, k, j, i), e);
    }
  }

  lemma CellLocsCover(nDim: int, ifr: int, k: int, j: int, i: int, n: int)
    ensures S(ifr, k, j, i) in CellLocs(nDim, ifr, k, j, i)
    ensures 0 <= n < nDim ==> H(ifr, k, j, i, n) in CellLocs(nDim, ifr, k, j, i)
  {
    assert CellLocs(nDim, ifr, k, j, i)[0] == S(ifr, k, j, i);
    if 0 <= n < nDim {
      Loop1Cover(0, nDim - 1, FluxAt(ifr, k, j, i), n, H(ifr, k, j, i, n));
    }
  }

  lemma CellCopiesPick(nDim: int, ifr: int, k: int, j: int, i: int, k': int, j': int, i': int, st: Step)
    returns (n: int)
    requires st in CellCopies(nDim, ifr, k, j, i, k', j', i')
    ensures st == Copy(S(ifr, k, j, i), S(ifr, k', j', i')) ||
            (0 <= n < nDim && st == Copy(H(ifr, k, j, i, n), H(ifr, k', j', i', n)))
  {
    n := 0;
    if st != Copy(S(ifr, k, j, i), S(ifr, k', j', i')) {
      n := Loop1Pick(0, nDim - 1, FluxCopy(ifr, k, j, i, k', j', i'), st);
    }
  }

  lemma CellCopiesCover(nDim: int, ifr: int, k: int, j: int, i: int, k': int, j': int, i': int, n: int)
    ensures Copy(S(ifr, k, j, i), S(ifr, k', j', i')) in CellCopies(nDim, ifr, k, j, i, k', j', i')
    ensures 0 <= n < nDim ==>
      Copy(H(ifr, k, j, i, n), H(ifr, k', j', i', n)) in CellCopies(nDim, ifr, k, j, i, k', j', i')
  {
    assert CellCopies(nDim, ifr, k, j, i, k', j', i')[0] == Copy(S(ifr, k, j, i), S(ifr, k', j', i'));
    if 0 <= n < nDim {
      Loop1Cover(0, nDim - 1, FluxCopy(ifr, k, j, i, k', j', i'), n,
                 Copy(H(ifr, k, j, i, n), H(ifr, k', j', i', n)));
    }
  }

  /** Two cells' slots, position by position. */
  lemma CellPairwise(nDim: int, ifr: int, k: int, j: int, i: int, k': int, j': int, i': int,
                     rel: (Loc, Loc) -> bool)
    requires rel(S(ifr, k, j, i), S(ifr, k', j', i'))
    requires forall n :: 0 <= n < nDim ==> rel(H(ifr, k, j, i, n), H(ifr, k', j', i', n))
    ensures Pairwise(CellLocs(nDim, ifr, k, j, i), CellLocs(nDim, ifr, k', j', i'), rel)
  {
    Loop1Pairwise(0, nDim - 1, FluxAt(ifr, k, j, i), FluxAt(ifr, k', j', i'), rel);
    PairwiseAppend([S(ifr, k, j, i)], [S(ifr, k', j', i')],
                   Loop1(0, nDim - 1, FluxAt(ifr, k, j, i)), Loop1(0, nDim - 1, FluxAt(ifr, k', j', i')), rel);
  }

  /** A cell is `1 + nDim` doubles. */
  lemma CellLen(nDim: int, ifr: int, k: int, j: int, i: int)
    requires nDim >= 0
    ensures |CellLocs(nDim, ifr, k, j, i)| == 1 + nDim
  {
    Loop1Len(0, nDim - 1, FluxAt(ifr, k, j, i), 1);
  }
}
