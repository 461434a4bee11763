/**
 * The restart-file name each MPI process opens (src/main.c, the MPI branch
 * of step 2).
 *
 * Every process receives the parent's restart-file name, of the form
 * `[dir/]basename.NNNN.rst`.  The name is rejected when it, with its
 * terminating NUL, would leave fewer than ten bytes free in the `MAXLEN`
 * buffer, or when the character four before its end is not a period.  A
 * backward walk from that period then looks for the period before it, and
 * the name is rejected if the walk reaches the first character.  The parent
 * keeps the name; a child with rank N inserts `-idN` just before the period
 * found, so `run.0003.rst` becomes `run-id2.0003.rst` for rank 2.
 */
module MainRestart {
  import opened Wrappers

  /** What the rewrite yields: the name to open, or the fatal error raised. */
  datatype Renamed = Renamed(name: string) | TooLong(len: int) | BadName

  /** The character `%d` prints for a digit. */
  function Digit(d: nat): (c: char)
    requires d < 10
    ensures '0' <= c <= '9' && c as int - '0' as int == d
  {
    (d + '0' as int) as char
  }

  /** The value of a string of decimal digits. */
  function DigitsValue(s: string): nat
    requires forall k :: 0 <= k < |s| ==> '0' <= s[k] <= '9'
  {
    if s == [] then 0
    else 10 * DigitsValue(s[..|s| - 1]) + (s[|s| - 1] as int - '0' as int)
  }

  /** What `sprintf("%d", n)` prints for a rank `n >= 0`: decimal digits
      with no leading zero, reading back as `n`. */
  function Decimal(n: nat): (s: string)
    ensures 1 <= |s|
    ensures forall k :: 0 <= k < |s| ==> '0' <= s[k] <= '9'
    ensures s[0] == '0' ==> n == 0
    ensures DigitsValue(s) == n
  {
    if n < 10 then [Digit(n)]
    else
      var s := Decimal(n / 10) + [Digit(n % 10)];
      assert s[..|s| - 1] == Decimal(n / 10);
      s
  }

  function Pow10(k: nat): (p: nat)
    ensures p >= 1
  {
    if k == 0 then 1 else 10 * Pow10(k - 1)
  }

  /** A rank below `10^k` prints in at most `k` digits. */
  lemma {:induction false} DecimalLength(n: nat, k: nat)
    requires 1 <= k && n < Pow10(k)
    ensures |Decimal(n)| <= k
  {
    if n >= 10 {
      assert Pow10(k) == 10 * Pow10(k - 1);
      DecimalLength(n / 10, k - 1);
    }
  }

  /** The period the backward walk stops at, starting just before index
      `p0`: the last period strictly between index 0 and `p0`. */
  function DotBefore(s: string, p0: int): (r: Option<nat>)
    requires p0 <= |s|
    decreases p0
    ensures r.Some? ==> 0 < r.value < p0 && s[r.value] == '.'
                        && forall q :: r.value < q < p0 ==> s[q] != '.'
    ensures r.None? ==> forall q :: 0 < q < p0 ==> s[q] != '.'
  {
    if p0 <= 1 then None
    else if s[p0 - 1] == '.' then Some(p0 - 1)
    else DotBefore(s, p0 - 1)
  }

  /** The period before the block number: the name ends in `.` and three
      more characters, and the period found is the last one before that,
      not at index 0.  `None` when the name has no such shape. */
  function BlockPeriod(name: string): (r: Option<nat>)
    ensures r.Some? ==> 4 <= |name| && name[|name| - 4] == '.'
                        && 0 < r.value < |name| - 4 && name[r.value] == '.'
                        && forall q :: r.value < q < |name| - 4 ==> name[q] != '.'
    ensures r.None? <==> |name| < 4 || name[|name| - 4] != '.'
                         || forall q :: 0 < q < |name| - 4 ==> name[q] != '.'
  {
    if |name| < 4 || name[|name| - 4] != '.' then None
    else DotBefore(name, |name| - 4)
  }

  /** The restart name process `myId` opens, with buffer size `maxlen`. */
  function RestartName(name: string, maxlen: int, myId: nat): Renamed
  {
    var len := |name| + 1;
    if len + 10 > maxlen then TooLong(len)
    else match BlockPeriod(name)
      case None => BadName
      case Some(p) =>
        if myId == 0 then Renamed(name)
        else Renamed(name[..p] + "-id" + Decimal(myId) + name[p..])
  }

  /** The rewrite as `main` does it: the length check, the period check at
      `new_name[len - 5]`, the backward walk `pc--`, then the insertion. */
  method Rename(name: string, maxlen: int, myId: nat) returns (r: Renamed)
    ensures r == RestartName(name, maxlen, myId)
  {
    var len := |name| + 1;
    if len + 10 > maxlen {
      return TooLong(len);
    }
    if len < 5 {
      return BadName;
    }
    var pc := len - 5;
    if name[pc] != '.' {
      return BadName;
    }
    pc := pc - 1;
    if pc <= 0 {
      return BadName;
    }
    while name[pc] != '.'
      invariant 0 < pc < |name| - 4
      invariant DotBefore(name, pc + 1) == DotBefore(name, |name| - 4)
      decreases pc
    {
      pc := pc - 1;
      if pc == 0 {
        return BadName;
      }
    }
    if myId == 0 {
      return Renamed(name);
    }
    return Renamed(name[..pc] + "-id" + Decimal(myId) + name[pc..]);
  }

  /** A child's name takes back apart: the part before the period, then
      `-id`, then digits reading back as the rank, then the original name
      from the period on.  The parent's name is the one it was given. */
  lemma ChildNameParts(name: string, maxlen: int, myId: nat)
    requires RestartName(name, maxlen, myId).Renamed?
    ensures myId == 0 ==> RestartName(name, maxlen, myId).name == name
    ensures myId > 0 ==> InsertedAt(RestartName(name, maxlen, myId).name, name, BlockPeriod(name).value, myId)
  {
    if myId > 0 {
      var p := BlockPeriod(name).value;
      InsertParts(name[..p], Decimal(myId), name[p..]);
      assert name[..p] + name[p..] == name;
    }
  }

  /** `n` is `name` with `-id` and the digits of `myId` inserted at `p`,
      told apart piece by piece. */
  ghost predicate InsertedAt(n: string, name: string, p: nat, myId: nat)
  {
    var tail := |name| - p;
    && p <= |name|
    && |n| == |name| + 3 + |Decimal(myId)|
    && n[..p] == name[..p]
    && n[p..p + 3] == "-id"
    && n[|n| - tail..] == name[p..]
    && (forall k :: p + 3 <= k < |n| - tail ==> '0' <= n[k] <= '9')
    && DigitsValue(n[p + 3..|n| - tail]) == myId
  }

  lemma InsertParts(a: string, d: string, b: string)
    ensures var n := a + "-id" + d + b;
            && n[..|a|] == a && n[|a|..|a| + 3] == "-id"
            && n[|a| + 3..|n| - |b|] == d && n[|n| - |b|..] == b
  {
  }

  /** Ten spare bytes are room for `-id` and a rank of up to seven digits:
      the child's name and its NUL then fit in the buffer. */
  lemma RenamedFits(name: string, maxlen: int, myId: nat)
    requires RestartName(name, maxlen, myId).Renamed?
    requires myId < 10000000
    ensures |RestartName(name, maxlen, myId).name| + 1 <= maxlen
  {
    assert Pow10(7) == 10000000;
    DecimalLength(myId, 7);
  }

  /** A typical restart file, as opened by rank 2 and by the parent, with a
      256-byte buffer. */
  lemma RenameExample()
    ensures RestartName("run.0003.rst", 256, 2) == Renamed("run-id2.0003.rst")
    ensures RestartName("run.0003.rst", 256, 0) == Renamed("run.0003.rst")
  {
    var s := "run.0003.rst";
    assert s[8] == '.' && s[3] == '.';
    assert DotBefore(s, 4) == Some(3);
    assert DotBefore(s, 8) == DotBefore(s, 4) by {
      assert s[7] != '.' && s[6] != '.' && s[5] != '.' && s[4] != '.';
    }
    assert Decimal(2) == "2";
    assert s[..3] + "-id" + "2" + s[3..] == "run-id2.0003.rst";
  }

  /** The same walk as written, where the check `pc == new_name` comes only
      after the decrement and nothing checks that `len - 5 >= 0`: it either
      finds a period, raises the error, or goes on to read before the start
      of the buffer (reported with the first such index). */
  datatype Walk = Found(p: int) | Fatal | ReadsOutside(index: int)

  function PeriodAsWritten(name: string): Walk
  {
    var start := |name| - 4;
    if start < 0 then ReadsOutside(start)
    else if name[start] != '.' then Fatal
    else WalkBackAsWritten(name, start - 1)
  }

  function WalkBackAsWritten(name: string, pc: int): Walk
    requires pc < |name|
    decreases pc
  {
    if pc < 0 then ReadsOutside(pc)
    else if pc == 0 then Fatal
    else if name[pc] == '.' then Found(pc)
    else WalkBackAsWritten(name, pc - 1)
  }

  /** Where the walk as written stays inside the name, it agrees with
      `BlockPeriod`; it leaves the name exactly for names shorter than four
      characters and for four-character names starting with a period, and
      `BlockPeriod` rejects those. */
  lemma PeriodAsWrittenAgrees(name: string)
    ensures PeriodAsWritten(name).ReadsOutside? <==> |name| < 4 || (|name| == 4 && name[0] == '.')
    ensures PeriodAsWritten(name).ReadsOutside? ==> BlockPeriod(name).None?
    ensures PeriodAsWritten(name).Found? <==> BlockPeriod(name).Some?
    ensures PeriodAsWritten(name).Found? ==> PeriodAsWritten(name).p == BlockPeriod(name).value
  {
    if |name| > 4 && name[|name| - 4] == '.' {
      WalkBackMatches(name, |name| - 5);
    }
  }

  lemma {:induction false} WalkBackMatches(name: string, pc: int)
    requires 0 <= pc < |name|
    ensures WalkBackAsWritten(name, pc) == match DotBefore(name, pc + 1)
                                           case Some(p) => Found(p)
                                           case None => Fatal
    decreases pc
  {
    if pc > 0 && name[pc] != '.' {
      WalkBackMatches(name, pc - 1);
    }
  }

  /** The name `.rst` makes the walk as written read `new_name[-1]`. */
  lemma PeriodAsWrittenReadsOutside()
    ensures PeriodAsWritten(".rst") == ReadsOutside(-1)
    ensures PeriodAsWritten("rst") == ReadsOutside(-1)
    ensures BlockPeriod(".rst").None? && BlockPeriod("rst").None?
  {
    PeriodAsWrittenAgrees(".rst");
  }
}
