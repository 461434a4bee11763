/** The two ways a face gets filled, proved once for every face: a
    periodic routine (copies inside one grid) and an exchange (the
    neighbour's pack routine fills a buffer that this grid's unpack
    routine consumes).  The first half works for any set of written slots
    `W` and any mirror map `F`; the second half instantiates it with a
    face's `Writes` and `Mirror`. */
module RadFill {
  import opened Loops
  import opened RadMemory
  import opened RadFaces

  /** Copies `x = F(x)` that reach every slot of `W`, none of whose sources
      is in `W`, leave `Overlay(W, F, s, s)`. */
  lemma CopiesOverlay(W: Loc -> bool, F: Loc -> Loc, steps: seq<Step>, s: Store)
    requires Total(s)
    requires CopiesFromUnwritten(steps, W, F)
    requires forall x :: W(x) ==> x in Dsts(steps)
    ensures Recvd(steps) == []
    ensures Exec(s, steps, []) == Overlay(W, F, s, s)
  {
    RecvdNone(steps);
    ExecCopies(s, s, steps, W, F);
    ExecTotal(s, steps, []);
    var t := Exec(s, steps, []);
    assert forall x :: x in t;
    forall x ensures t[x] == Overlay(W, F, s, s)[x]
    {
      assert Get(t, x) == t[x];
    }
  }

  /** An unpack routine whose receives line up, position by position, with
      the slots `F` names for them on the sender's side, whose copies only
      repeat slots already received, and which writes exactly `W`, leaves
      `Overlay(W, F, r, s)`. */
  lemma ExchangeOverlay(W: Loc -> bool, F: Loc -> Loc, unpack: seq<Step>, pack: seq<Loc>,
                        r: Store, s: Store)
    requires Total(r)
    requires Pairwise(Recvd(unpack), pack, FedBy(F))
    requires ReadsWritten(unpack, {}, F)
    requires forall x :: x in Dsts(unpack) <==> W(x)
    ensures |Recvd(unpack)| == |Read(s, pack)|
    ensures Exec(r, unpack, Read(s, pack)) == Overlay(W, F, r, s)
  {
    var buf := Read(s, pack);
    forall c | 0 <= c < |Recvd(unpack)|
      ensures buf[c] == Get(s, F(Recvd(unpack)[c]))
    {
      assert FedBy(F)(Recvd(unpack)[c], pack[c]);
    }
    ExecReceives(r, s, unpack, buf, {}, F);
    ExecTotal(r, unpack, buf);
    var t := Exec(r, unpack, buf);
    assert forall x :: x in t;
    forall x ensures t[x] == Overlay(W, F, r, s)[x]
    {
      assert Get(t, x) == t[x];
    }
  }

  // ---------------------------------------------------------------------
  // Routines as loops over the frequencies `ifs..ife`

  /** A loop over the frequencies whose every pass makes copies `x = F(x)`
      from outside `W` into `W`, and whose pass for a slot's frequency
      reaches that slot. */
  lemma CopyLoopOverlay(W: Loc -> bool, F: Loc -> Loc, ifs: int, ife: int, B: int -> seq<Step>, s: Store)
    requires Total(s)
    requires forall ifr, st :: ifs <= ifr <= ife && st in B(ifr) ==>
      st.Copy? && W(st.dst) && !W(st.src) && st.src == F(st.dst)
    requires forall x :: W(x) ==> ifs <= x.ifr <= ife && x in Dsts(B(x.ifr))
    ensures Recvd(Loop1(ifs, ife, B)) == []
    ensures Exec(s, Loop1(ifs, ife, B), []) == Overlay(W, F, s, s)
  {
    var P := Loop1(ifs, ife, B);
    forall st | st in P ensures st.Copy? && W(st.dst) && !W(st.src) && st.src == F(st.dst) {
      var ifr := Loop1Pick(ifs, ife, B, st);
    }
    forall x | W(x) ensures x in Dsts(P) {
      var st :| st in B(x.ifr) && st.dst == x;
      Loop1Cover(ifs, ife, B, x.ifr, st);
      DstsMember(P, st);
    }
    CopiesOverlay(W, F, P, s);
  }

  /** The moves of an unpack routine: the pass for frequency `ifr`
      receives the slots `R(ifr)`, in order, then makes the copies
      `C(ifr)`. */
  function Unpacking(ifs: int, ife: int, R: int -> seq<Loc>, C: int -> seq<Step>): seq<Step>
  {
    Loop1(ifs, ife, UnpackPass(R, C))
  }

  function UnpackPass(R: int -> seq<Loc>, C: int -> seq<Step>): int -> seq<Step>
  {
    ifr => AsRecvs(R(ifr)) + C(ifr)
  }

  /** The values an unpack routine takes from the buffer, in order, go to
      the slots it receives. */
  lemma UnpackingRecvd(ifs: int, ife: int, R: int -> seq<Loc>, C: int -> seq<Step>)
    requires forall ifr, st :: ifs <= ifr <= ife && st in C(ifr) ==> st.Copy?
    ensures Recvd(Unpacking(ifs, ife, R, C)) == Loop1(ifs, ife, R)
  {
    forall ifr | ifs <= ifr <= ife ensures Recvd(UnpackPass(R, C)(ifr)) == R(ifr) {
      RecvdAppend(AsRecvs(R(ifr)), C(ifr));
      RecvdAsRecvs(R(ifr));
      RecvdNone(C(ifr));
    }
    RecvdLoop1(ifs, ife, UnpackPass(R, C), R);
  }

  /** Each pass of an unpack routine whose copies repeat a slot received
      earlier in the same pass only reads what it wrote itself. */
  lemma UnpackingReadsWritten(F: Loc -> Loc, ifs: int, ife: int, R: int -> seq<Loc>, C: int -> seq<Step>)
    requires forall ifr, st :: ifs <= ifr <= ife && st in C(ifr) ==>
      st.Copy? && st.src in R(ifr) && F(st.src) == F(st.dst)
    ensures ReadsWritten(Unpacking(ifs, ife, R, C), {}, F)
  {
    forall ifr | ifs <= ifr <= ife ensures ReadsWritten(UnpackPass(R, C)(ifr), {}, F) {
      ReadsWrittenRecvs(R(ifr), {}, F);
      forall st | st in C(ifr) ensures st.Copy? && st.src in {} + Dsts(AsRecvs(R(ifr))) && F(st.src) == F(st.dst) {
        AsRecvsCover(R(ifr), st.src);
      }
      ReadsWrittenCopies(C(ifr), {} + Dsts(AsRecvs(R(ifr))), F);
      ReadsWrittenAppend(AsRecvs(R(ifr)), C(ifr), {}, F);
    }
    ReadsWrittenLoop1(ifs, ife, UnpackPass(R, C), {}, F);
  }

  /** An unpack routine writes only slots it receives or copies into. */
  lemma UnpackingDstsWithin(W: Loc -> bool, ifs: int, ife: int, R: int -> seq<Loc>, C: int -> seq<Step>)
    requires forall ifr, x :: ifs <= ifr <= ife && x in R(ifr) ==> W(x)
    requires forall ifr, st :: ifs <= ifr <= ife && st in C(ifr) ==> W(st.dst)
    ensures forall x :: x in Dsts(Unpacking(ifs, ife, R, C)) ==> W(x)
  {
    var U := Unpacking(ifs, ife, R, C);
    forall x | x in Dsts(U) ensures W(x) {
      var st :| st in U && st.dst == x;
      var ifr := Loop1Pick(ifs, ife, UnpackPass(R, C), st);
      if st in AsRecvs(R(ifr)) {
        AsRecvsMember(R(ifr), st);
      } else {
        assert st in C(ifr);
      }
    }
  }

  /** The slots an unpack routine writes are those it receives or copies. */
  lemma UnpackingDsts(W: Loc -> bool, ifs: int, ife: int, R: int -> seq<Loc>, C: int -> seq<Step>)
    requires forall ifr, x :: ifs <= ifr <= ife && x in R(ifr) ==> W(x)
    requires forall ifr, st :: ifs <= ifr <= ife && st in C(ifr) ==> W(st.dst)
    requires forall x :: W(x) ==> ifs <= x.ifr <= ife && (x in R(x.ifr) || x in Dsts(C(x.ifr)))
    ensures forall x :: x in Dsts(Unpacking(ifs, ife, R, C)) <==> W(x)
  {
    var U := Unpacking(ifs, ife, R, C);
    UnpackingDstsWithin(W, ifs, ife, R, C);
    forall x | W(x) ensures x in Dsts(U) {
      DstsAppend(AsRecvs(R(x.ifr)), C(x.ifr));
      if x in R(x.ifr) {
        AsRecvsCover(R(x.ifr), x);
      }
      var st :| st in UnpackPass(R, C)(x.ifr) && st.dst == x;
      Loop1Cover(ifs, ife, UnpackPass(R, C), x.ifr, st);
      DstsMember(U, st);
    }
  }

  /** An unpack routine whose receives line up with what the sender packs
      (`P`), whose receives and copies stay in `W`, whose copies repeat a
      slot received earlier in the same pass, and which reaches every slot
      of `W`, leaves `Overlay(W, F, r, s)`. */
  lemma UnpackLoopOverlay(W: Loc -> bool, F: Loc -> Loc, ifs: int, ife: int, R: int -> seq<Loc>,
                          C: int -> seq<Step>, P: int -> seq<Loc>, r: Store, s: Store)
    requires Total(r)
    requires forall ifr :: ifs <= ifr <= ife ==> Pairwise(R(ifr), P(ifr), FedBy(F))
    requires forall ifr, x :: ifs <= ifr <= ife && x in R(ifr) ==> W(x)
    requires forall ifr, st :: ifs <= ifr <= ife && st in C(ifr) ==>
      st.Copy? && W(st.dst) && st.src in R(ifr) && F(st.src) == F(st.dst)
    requires forall x :: W(x) ==> ifs <= x.ifr <= ife && (x in R(x.ifr) || x in Dsts(C(x.ifr)))
    ensures |Recvd(Unpacking(ifs, ife, R, C))| == |Loop1(ifs, ife, P)|
    ensures Exec(r, Unpacking(ifs, ife, R, C), Read(s, Loop1(ifs, ife, P))) == Overlay(W, F, r, s)
  {
    UnpackingRecvd(ifs, ife, R, C);
    Loop1Pairwise(ifs, ife, R, P, FedBy(F));
    UnpackingReadsWritten(F, ifs, ife, R, C);
    UnpackingDsts(W, ifs, ife, R, C);
    ExchangeOverlay(W, F, Unpacking(ifs, ife, R, C), Loop1(ifs, ife, P), r, s);
  }

  // ---------------------------------------------------------------------
  // The same, for a face

  /** A periodic routine whose pass for each frequency only makes mirror
      moves, and whose pass for a slot's own frequency reaches that slot,
      fills its face. */
  lemma PeriodicLoopFills(g: Grid, f: Face, ifs: int, ife: int, B: int -> seq<Step>, s: Store)
    requires Total(s)
    requires forall ifr, st :: ifs <= ifr <= ife && st in B(ifr) ==> MirrorMove(g, f, ifs, ife, st)
    requires forall x :: WriteSet(g, f, ifs, ife)(x) ==> x in Dsts(B(x.ifr))
    ensures Recvd(Loop1(ifs, ife, B)) == []
    ensures Exec(s, Loop1(ifs, ife, B), []) == Fill(g, f, ifs, ife, s, s)
  {
    var W, F := WriteSet(g, f, ifs, ife), MirrorOf(g, f);
    forall ifr, st | ifs <= ifr <= ife && st in B(ifr)
      ensures st.Copy? && W(st.dst) && !W(st.src) && st.src == F(st.dst)
    {
      assert MirrorMove(g, f, ifs, ife, st);
    }
    CopyLoopOverlay(WriteSet(g, f, ifs, ife), MirrorOf(g, f), ifs, ife, B, s);
  }

  /** An unpack routine whose receives line up with the mirror slots the
      neighbour packs, whose receives and copies stay on the face, whose
      copies repeat a slot with the same mirror received earlier in the
      same pass, and which reaches every slot of the face, fills the face
      from the neighbour's grid. */
  lemma UnpackLoopFills(g: Grid, f: Face, ifs: int, ife: int, R: int -> seq<Loc>, C: int -> seq<Step>,
                        P: int -> seq<Loc>, r: Store, s: Store)
    requires Total(r)
    requires forall ifr :: ifs <= ifr <= ife ==> Pairwise(R(ifr), P(ifr), MirrorRel(g, f))
    requires forall ifr, x :: ifs <= ifr <= ife && x in R(ifr) ==> WriteSet(g, f, ifs, ife)(x)
    requires forall ifr, st :: ifs <= ifr <= ife && st in C(ifr) ==>
      st.Copy? && WriteSet(g, f, ifs, ife)(st.dst) && st.src in R(ifr) &&
      Mirror(g, f, st.src) == Mirror(g, f, st.dst)
    requires forall x :: WriteSet(g, f, ifs, ife)(x) ==> x in R(x.ifr) || x in Dsts(C(x.ifr))
    ensures |Recvd(Unpacking(ifs, ife, R, C))| == |Loop1(ifs, ife, P)|
    ensures Exec(r, Unpacking(ifs, ife, R, C), Read(s, Loop1(ifs, ife, P))) == Fill(g, f, ifs, ife, r, s)
  {
    UnpackLoopOverlay(WriteSet(g, f, ifs, ife), MirrorOf(g, f), ifs, ife, R, C, P, r, s);
  }
}
