/** The storage of one radiation grid, as the boundary routines of
    `bvals_rad.c` see it, and the two ways those routines touch it:
    a copy from one slot to another, and a store of the next value
    taken from a receive buffer. */
module RadMemory {
  import opened Loops

  /** A double of the grid.  The boundary routines only move values and
      never compute with them, so a value is kept as its 64-bit pattern. */
  datatype Val = Val(bits: bv64)

  /** `l` or `r` in the array names: `Ghstl1i`/`Ghstr1i`, `l2imu`/`r2imu`. */
  datatype Side = Left | Right

  /** Every storage slot the routines read or write.  `a` and `b` are the
      two transverse indices in the arrays' own order: `(k, j)` for
      direction 1, `(k, i)` for direction 2, `(j, i)` for direction 3. */
  datatype Loc =
    | S(ifr: int, k: int, j: int, i: int)            // R[ifr][k][j][i].S
    | H(ifr: int, k: int, j: int, i: int, n: int)    // R[ifr][k][j][i].H[n]
    | Ghst(side: Side, dir: int, ifr: int, a: int, b: int, oct: int, m: int)
    | Imu(side: Side, dir: int, ifr: int, a: int, b: int, oct: int, m: int)

  /** The grid's memory: one value per slot. */
  type Store = imap<Loc, Val>

  ghost predicate Total(s: Store)
  {
    forall x :: x in s
  }

  function Get(s: Store, x: Loc): Val
  {
    if x in s then s[x] else Val(0)
  }

  /** One statement of a boundary routine: `dst = src;` or `dst = *(pRcv++);`. */
  datatype Step = Copy(dst: Loc, src: Loc) | Recv(dst: Loc)

  /** The slots that receive buffer values, in the order the cursor
      reaches them. */
  function Recvd(steps: seq<Step>): seq<Loc>
  {
    if steps == [] then []
    else if steps[0].Recv? then [steps[0].dst] + Recvd(steps[1..])
    else Recvd(steps[1..])
  }

  /** Every slot some step writes. */
  function Dsts(steps: seq<Step>): set<Loc>
  {
    set st | st in steps :: st.dst
  }

  /** Runs `steps` in order against `s`; each `Recv` takes the next value
      of `buf`. */
  function Exec(s: Store, steps: seq<Step>, buf: seq<Val>): Store
    requires |Recvd(steps)| <= |buf|
  {
    if steps == [] then s
    else match steps[0]
      case Copy(d, x) => Exec(s[d := Get(s, x)], steps[1..], buf)
      case Recv(d) => Exec(s[d := buf[0]], steps[1..], buf[1..])
  }

  /** The values a packing routine sends: the slots `locs`, in order. */
  function Read(s: Store, locs: seq<Loc>): (vals: seq<Val>)
    ensures |vals| == |locs|
    ensures forall t :: 0 <= t < |locs| ==> vals[t] == Get(s, locs[t])
  {
    if locs == [] then [] else [Get(s, locs[0])] + Read(s, locs[1..])
  }

  /** Stores `locs` as receive statements. */
  function AsRecvs(locs: seq<Loc>): (steps: seq<Step>)
    ensures |steps| == |locs|
    ensures forall t :: 0 <= t < |locs| ==> steps[t] == Recv(locs[t])
  {
    if locs == [] then [] else [Recv(locs[0])] + AsRecvs(locs[1..])
  }

  // ---------------------------------------------------------------------
  // Structural facts

  lemma AsRecvsMember(locs: seq<Loc>, st: Step)
    requires st in AsRecvs(locs)
    ensures st == Recv(st.dst) && st.dst in locs
  {
    var t :| 0 <= t < |AsRecvs(locs)| && AsRecvs(locs)[t] == st;
    assert st == Recv(locs[t]);
  }

  lemma AsRecvsCover(locs: seq<Loc>, x: Loc)
    requires x in locs
    ensures Recv(x) in AsRecvs(locs) && x in Dsts(AsRecvs(locs))
  {
    var t :| 0 <= t < |locs| && locs[t] == x;
    assert AsRecvs(locs)[t] == Recv(x);
  }

  lemma DstsMember(steps: seq<Step>, st: Step)
    requires st in steps
    ensures st.dst in Dsts(steps)
  {
  }

  lemma {:induction false} RecvdAppend(a: seq<Step>, b: seq<Step>)
    ensures Recvd(a + b) == Recvd(a) + Recvd(b)
  {
    if a != [] {
      assert (a + b)[0] == a[0] && (a + b)[1..] == a[1..] + b;
      RecvdAppend(a[1..], b);
    } else {
      assert a + b == b;
    }
  }

  lemma {:induction false} RecvdAsRecvs(locs: seq<Loc>)
    ensures Recvd(AsRecvs(locs)) == locs
  {
    if locs != [] {
      assert AsRecvs(locs)[1..] == AsRecvs(locs[1..]);
      RecvdAsRecvs(locs[1..]);
    }
  }

  lemma {:induction false} RecvdNone(steps: seq<Step>)
    requires forall st :: st in steps ==> st.Copy?
    ensures Recvd(steps) == []
  {
    if steps != [] {
      assert steps[0] in steps;
      RecvdNone(steps[1..]);
    }
  }

  lemma {:induction false} RecvdLoop1(lo: int, hi: int, f: int -> seq<Step>, h: int -> seq<Loc>)
    requires forall v :: lo <= v <= hi ==> Recvd(f(v)) == h(v)
    ensures Recvd(Loop1(lo, hi, f)) == Loop1(lo, hi, h)
    decreases Trips(lo, hi)
  {
    if lo <= hi {
      RecvdAppend(f(lo), Loop1(lo + 1, hi, f));
      RecvdLoop1(lo + 1, hi, f, h);
    }
  }

  lemma ExecTotal(s: Store, steps: seq<Step>, buf: seq<Val>)
    requires |Recvd(steps)| <= |buf|
    requires Total(s)
    ensures Total(Exec(s, steps, buf))
    decreases |steps|
  {
    if steps != [] {
      match steps[0]
      case Copy(d, x) => ExecTotal(s[d := Get(s, x)], steps[1..], buf);
      case Recv(d) => ExecTotal(s[d := buf[0]], steps[1..], buf[1..]);
    }
  }

  /** A slot no step writes keeps its value. */
  lemma {:induction false} ExecOutside(s: Store, steps: seq<Step>, buf: seq<Val>, x: Loc)
    requires |Recvd(steps)| <= |buf|
    requires x !in Dsts(steps)
    ensures Get(Exec(s, steps, buf), x) == Get(s, x)
    decreases |steps|
  {
    if steps != [] {
      assert steps[0] in steps;
      assert forall st :: st in steps[1..] ==> st in steps;
      match steps[0]
      case Copy(d, y) => ExecOutside(s[d := Get(s, y)], steps[1..], buf, x);
      case Recv(d) => ExecOutside(s[d := buf[0]], steps[1..], buf[1..], x);
    }
  }

  // ---------------------------------------------------------------------
  // Copies whose sources no step writes

  /** Every step is a copy into a slot that `W` marks as written, from the
      slot `F` names for it, which `W` does not mark. */
  ghost predicate CopiesFromUnwritten(steps: seq<Step>, W: Loc -> bool, F: Loc -> Loc)
  {
    forall st :: st in steps ==> st.Copy? && W(st.dst) && !W(st.src) && st.src == F(st.dst)
  }

  /** Running such copies leaves in each written slot `x` the value that
      `F(x)` held at the start, and every other slot as it was. */
  lemma {:induction false} ExecCopies(cur: Store, s: Store, steps: seq<Step>, W: Loc -> bool, F: Loc -> Loc)
    requires CopiesFromUnwritten(steps, W, F) && Recvd(steps) == []
    requires forall y :: !W(y) ==> Get(cur, y) == Get(s, y)
    ensures forall x :: Get(Exec(cur, steps, []), x) == if x in Dsts(steps) then Get(s, F(x)) else Get(cur, x)
    decreases |steps|
  {
    if steps != [] {
      assert steps[0] in steps;
      var d, x := steps[0].dst, steps[0].src;
      var cur' := cur[d := Get(cur, x)];
      assert Get(cur', d) == Get(s, F(d));
      forall st | st in steps[1..] ensures st in steps { }
      RecvdNone(steps[1..]);
      ExecCopies(cur', s, steps[1..], W, F);
      assert Dsts(steps) == {d} + Dsts(steps[1..]) by {
        forall st | st in steps ensures st == steps[0] || st in steps[1..] {
          var t :| 0 <= t < |steps| && steps[t] == st;
          if t > 0 { assert steps[1..][t - 1] == st; }
        }
      }
    }
  }

  // ---------------------------------------------------------------------
  // Receives, and copies from slots already received

  /** Every copy reads a slot that an earlier step (or `D`) has written and
      that `F` maps to the same mirror slot as the copy's destination. */
  ghost predicate ReadsWritten(steps: seq<Step>, D: set<Loc>, F: Loc -> Loc)
    decreases |steps|
  {
    steps == [] ||
    match steps[0]
      case Recv(d) => ReadsWritten(steps[1..], D + {d}, F)
      case Copy(d, x) => x in D && F(x) == F(d) && ReadsWritten(steps[1..], D + {d}, F)
  }

  lemma {:induction false} ReadsWrittenMono(steps: seq<Step>, D: set<Loc>, D': set<Loc>, F: Loc -> Loc)
    requires D <= D' && ReadsWritten(steps, D, F)
    ensures ReadsWritten(steps, D', F)
    decreases |steps|
  {
    if steps != [] {
      ReadsWrittenMono(steps[1..], D + {steps[0].dst}, D' + {steps[0].dst}, F);
    }
  }

  lemma {:induction false} DstsAppend(a: seq<Step>, b: seq<Step>)
    ensures Dsts(a + b) == Dsts(a) + Dsts(b)
  {
    forall st | st in a + b ensures st in a || st in b { }
    forall st | st in a ensures st in a + b { }
    forall st | st in b ensures st in a + b { }
  }

  lemma {:induction false} ReadsWrittenAppend(a: seq<Step>, b: seq<Step>, D: set<Loc>, F: Loc -> Loc)
    requires ReadsWritten(a, D, F) && ReadsWritten(b, D + Dsts(a), F)
    ensures ReadsWritten(a + b, D, F)
    decreases |a|
  {
    if a != [] {
      assert (a + b)[0] == a[0] && (a + b)[1..] == a[1..] + b;
      var d := a[0].dst;
      assert Dsts(a) == {d} + Dsts(a[1..]) by {
        DstsAppend([a[0]], a[1..]);
        assert a == [a[0]] + a[1..];
      }
      assert D + {d} + Dsts(a[1..]) == D + Dsts(a);
      ReadsWrittenAppend(a[1..], b, D + {d}, F);
      match a[0]
      case Recv(_) =>
      case Copy(_, x) =>
    } else {
      assert a + b == b;
      assert D + Dsts(a) == D;
    }
  }

  lemma {:induction false} ReadsWrittenRecvs(locs: seq<Loc>, D: set<Loc>, F: Loc -> Loc)
    ensures ReadsWritten(AsRecvs(locs), D, F)
    decreases |locs|
  {
    if locs != [] {
      assert AsRecvs(locs)[1..] == AsRecvs(locs[1..]);
      ReadsWrittenRecvs(locs[1..], D + {locs[0]}, F);
    }
  }

  lemma {:induction false} ReadsWrittenCopies(steps: seq<Step>, D: set<Loc>, F: Loc -> Loc)
    requires forall st :: st in steps ==> st.Copy? && st.src in D && F(st.src) == F(st.dst)
    ensures ReadsWritten(steps, D, F)
    decreases |steps|
  {
    if steps != [] {
      assert steps[0] in steps;
      forall st | st in steps[1..] ensures st in steps { }
      ReadsWrittenCopies(steps[1..], D, F);
      ReadsWrittenMono(steps[1..], D, D + {steps[0].dst}, F);
    }
  }

  /** A loop whose every iteration only reads what it wrote itself. */
  lemma {:induction false} ReadsWrittenLoop1(lo: int, hi: int, f: int -> seq<Step>, D: set<Loc>, F: Loc -> Loc)
    requires forall v :: lo <= v <= hi ==> ReadsWritten(f(v), {}, F)
    ensures ReadsWritten(Loop1(lo, hi, f), D, F)
    decreases Trips(lo, hi)
  {
    if lo <= hi {
      ReadsWrittenMono(f(lo), {}, D, F);
      ReadsWrittenLoop1(lo + 1, hi, f, D + Dsts(f(lo)), F);
      ReadsWrittenAppend(f(lo), Loop1(lo + 1, hi, f), D, F);
    }
  }

  /** Running receives and copies that satisfy `ReadsWritten`, with a
      buffer whose values are those of the mirror slots `F(x)` of `s`,
      leaves in every written slot `x` the value of `F(x)` in `s`. */
  lemma {:induction false} ExecReceives(cur: Store, s: Store, steps: seq<Step>, buf: seq<Val>,
                                        D: set<Loc>, F: Loc -> Loc)
    requires |Recvd(steps)| <= |buf|
    requires forall c :: 0 <= c < |Recvd(steps)| ==> buf[c] == Get(s, F(Recvd(steps)[c]))
    requires forall x :: x in D ==> Get(cur, x) == Get(s, F(x))
    requires ReadsWritten(steps, D, F)
    ensures forall x :: Get(Exec(cur, steps, buf), x) ==
              if x in D || x in Dsts(steps) then Get(s, F(x)) else Get(cur, x)
    decreases |steps|
  {
    if steps != [] {
      var d := steps[0].dst;
      assert Dsts(steps) == {d} + Dsts(steps[1..]) by {
        DstsAppend([steps[0]], steps[1..]);
        assert steps == [steps[0]] + steps[1..];
      }
      var cur' := if steps[0].Copy? then cur[d := Get(cur, steps[0].src)] else cur[d := buf[0]];
      var buf' := if steps[0].Copy? then buf else buf[1..];
      assert Exec(cur, steps, buf) == Exec(cur', steps[1..], buf');
      assert Get(cur', d) == Get(s, F(d)) by {
        if steps[0].Recv? {
          assert Recvd(steps)[0] == d;
        }
      }
      forall y | y in D + {d} ensures Get(cur', y) == Get(s, F(y)) {
        if y != d {
          assert Get(cur', y) == Get(cur, y);
        }
      }
      assert Recvd(steps[1..]) == if steps[0].Recv? then Recvd(steps)[1..] else Recvd(steps);
      ExecReceives(cur', s, steps[1..], buf', D + {d}, F);
      forall y ensures Get(Exec(cur, steps, buf), y) ==
        if y in D || y in Dsts(steps) then Get(s, F(y)) else Get(cur, y)
      {
        if y != d {
          assert Get(cur', y) == Get(cur, y);
        }
      }
    }
  }

  // ---------------------------------------------------------------------
  // Overlays

  /** Overlays `s` seen through `F` on `r`, on the slots `W` selects. */
  ghost function Overlay(W: Loc -> bool, F: Loc -> Loc, r: Store, s: Store): (t: Store)
    ensures Total(t)
  {
    imap x | true :: if W(x) then Get(s, F(x)) else Get(r, x)
  }

  /** Reading an overlay from itself changes nothing when no selected
      slot is read through `F` from another selected slot. */
  lemma OverlaySelf(W: Loc -> bool, F: Loc -> Loc, s: Store)
    requires forall x :: W(x) ==> !W(F(x))
    ensures var t := Overlay(W, F, s, s); Overlay(W, F, t, t) == t
  {
    var t := Overlay(W, F, s, s);
    forall x ensures Get(Overlay(W, F, t, t), x) == Get(t, x) {
      if W(x) {
        assert !W(F(x));
      }
    }
  }

  /** `p` is the slot `F` names for `d`: the relation between a received
      slot and the sent slot that feeds it. */
  function FedBy(F: Loc -> Loc): (Loc, Loc) -> bool
  {
    (d, p) => p == F(d)
  }
}
