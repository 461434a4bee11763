# Radiation boundary values and the driver's start-up rules, in Dafny

This project models two files of the code: the radiation boundary-value
module (`src/radiation/bvals_rad.c`) and the parts of the driver
(`src/main.c`) that decide something without doing I/O.

**Radiation ghost zones.** A radiation grid holds, for every frequency
`ifr`, the source function `S` and the flux moments `H` of each cell. It
also holds the ghost intensities `Ghst{l,r}{1,2,3}i` and the boundary
intensities `{l,r}{1,2,3}imu` for every octant and angle. `bvals_rad` walks
x1, then x2, then x3, and only along directions in which the grid has more
than one cell. For each face of such a direction it does one of two things:

- it calls the face's boundary function, for a face on the edge of the
  domain;
- it packs values for the neighbour grid that shares the face and later
  unpacks what that neighbour sent.

The model works on values throughout:
- A grid's memory is a `Store`: a map from slot (`Loc`) to value.
- Each face routine (`periodic_*`, `pack_*` and `unpack_*`) is the sequence
  of reads, copies and receives it performs. Its loops are written as
  nested loop lists (`Loops`), in the routines' own order.
- `Exec` runs such a sequence on a store, and `Read` gathers a packed
  buffer.

For every face the central statement is `Fill(g, f, ifs, ife, r, s)`:
every slot the face writes receives the value of its mirror slot in grid
`s`, and every other slot of `r` is left alone.

Each periodic routine is proved to be `Fill` from the grid itself. Each
unpack routine, run on what the neighbour packed for the opposite face, is
proved to read exactly what was sent and to be `Fill` from the neighbour.
The corrected `unpack_ox3_rad` is used for the x3 outer face (see
Findings).

`RadBvals.RadGrid` is the imperative layer:
- a class whose `store` the methods update;
- send buffers that are `array`s which `Pack` writes in order;
- `BvalsRad` running the schedule of calls that `bvals_rad` makes.

Properties of that schedule are proved as lemmas:
- each face is filled exactly once;
- directions come in order;
- packs come first;
- the order in which the two receives of a direction complete changes
  nothing.

`bvals_rad_init` is modelled as the class `RadInit.BvalsRad`. It chooses a
boundary function or a neighbour for each face, and in the MPI build it
computes the message counts `x1cnt`, `x2cnt` and `x3cnt` as maxima over
the grids of the domain, with the formulas as written. The counts are
compared with what the pack routines really send (`RadCounts`); with eight
octants the x1 count falls short (see Findings).

**The driver.**
- `MainArgs` models the command-line loop of `main` as a recursive
  specification (`Parse`) and an imperative scan (`ScanArgs`) proved equal
  to it. Lemmas state the effect of each option.
- `MainRestart` models how each MPI process renames the restart file.
- `MainSteps` models the clamp on `iflush`, the wall-time limit and the
  guard of the main integration loop.

Only the default build is modelled: no `QUADRATIC_INTENSITY` and no
`SHEARING_BOX`. The number of octants is 2, 4 or 8.

## Model

| member | source | states |
|---|---|---|
| RadX1.PeriodicIx1Fills | src/radiation/bvals_rad.c:698-794 | `periodic_ix1_rad` receives nothing and leaves the grid as `Fill(Ix1)` from itself: column `is-1`, the `Ghstl1i` and edge ghosts hold their mirrors, and nothing else changes |
| RadX1.PeriodicOx1Fills | src/radiation/bvals_rad.c:799-893 | `periodic_ox1_rad` leaves the grid as `Fill(Ox1)` from itself |
| RadX2.PeriodicIx2Fills | src/radiation/bvals_rad.c:898-991 | `periodic_ix2_rad` leaves the grid as `Fill(Ix2)` from itself |
| RadX2.PeriodicOx2Fills | src/radiation/bvals_rad.c:996-1089 | `periodic_ox2_rad` leaves the grid as `Fill(Ox2)` from itself |
| RadX3.PeriodicIx3Fills | src/radiation/bvals_rad.c:1095-1175 | `periodic_ix3_rad` leaves the grid as `Fill(Ix3)` from itself |
| RadX3.PeriodicOx3Fills | src/radiation/bvals_rad.c:1181-1260 | `periodic_ox3_rad` leaves the grid as `Fill(Ox3)` from itself |
| RadX1.Ox1ToIx1Pairwise | src/radiation/bvals_rad.c:1381-1470 | word `t` that `pack_ox1_rad` sends is the mirror of the slot into which `unpack_ix1_rad` (1831-1941) stores word `t` |
| RadX1.Ix1ToOx1Pairwise | src/radiation/bvals_rad.c:1287-1376 | the same pairing for `pack_ix1_rad` and `unpack_ox1_rad` (1946-2056) |
| RadX2.Ox2ToIx2Pairwise | src/radiation/bvals_rad.c:1569-1658 | the same pairing for `pack_ox2_rad` and `unpack_ix2_rad` (2061-2160) |
| RadX2.Ix2ToOx2Pairwise | src/radiation/bvals_rad.c:1475-1564 | the same pairing for `pack_ix2_rad` and `unpack_ox2_rad` (2165-2264) |
| RadX3.Ox3ToIx3Pairwise | src/radiation/bvals_rad.c:1747-1826 | the same pairing for `pack_ox3_rad` and `unpack_ix3_rad` (2269-2348) |
| RadX3.Ix3ToOx3Pairwise | src/radiation/bvals_rad.c:1663-1742 | the same pairing for `pack_ix3_rad` and the corrected `unpack_ox3_rad` |
| RadX1.ExchangeIx1Fills | src/radiation/bvals_rad.c:1831-1941 | `unpack_ix1_rad`, on the buffer `pack_ox1_rad` filled from the neighbour, receives exactly as many values as were sent and leaves `Fill(Ix1)` from the neighbour |
| RadX1.ExchangeOx1Fills | src/radiation/bvals_rad.c:1946-2056 | `unpack_ox1_rad` on `pack_ix1_rad`'s buffer leaves `Fill(Ox1)` from the neighbour and consumes the whole message |
| RadX2.ExchangeIx2Fills | src/radiation/bvals_rad.c:2061-2160 | `unpack_ix2_rad` on `pack_ox2_rad`'s buffer leaves `Fill(Ix2)` from the neighbour and consumes the whole message |
| RadX2.ExchangeOx2Fills | src/radiation/bvals_rad.c:2165-2264 | `unpack_ox2_rad` on `pack_ix2_rad`'s buffer leaves `Fill(Ox2)` from the neighbour and consumes the whole message |
| RadX3.ExchangeIx3Fills | src/radiation/bvals_rad.c:2269-2348 | `unpack_ix3_rad` on `pack_ox3_rad`'s buffer leaves `Fill(Ix3)` from the neighbour and consumes the whole message |
| RadX3.ExchangeOx3Fills | src/radiation/bvals_rad.c:2353-2432 | the corrected `unpack_ox3_rad` (ghost intensities of plane `ke+1` written to `Ghstl1i`/`Ghstr1i`/`Ghstl2i`/`Ghstr2i`) on `pack_ix3_rad`'s buffer leaves `Fill(Ox3)` from the neighbour |
| RadX3.UnpackOx3AsWrittenReceives | src/radiation/bvals_rad.c:2353-2432 | `unpack_ox3_rad` as written receives as many values as `pack_ix3_rad` sends |
| RadX3.UnpackOx3AsWrittenMissesGhost | src/radiation/bvals_rad.c:2404-2428 | `unpack_ox3_rad` as written leaves the x1 and x2 ghost intensities of plane `ke+1` as they were, although `Fill(Ox3)` must write them |
| RadX3.UnpackOx3AsWrittenClobbers | src/radiation/bvals_rad.c:2404-2428 | `unpack_ox3_rad` as written overwrites boundary intensities `l1imu`/`r1imu`/`l2imu`/`r2imu` of plane `ke+1`, which `Fill(Ox3)` leaves alone |
| RadBvals.Opposite | src/radiation/bvals_rad.c:80-373 | the face a neighbour packs for is in the same direction and on the other side |
| RadBvals.PeriodicFills | src/radiation/bvals_rad.c:698-1260 | every periodic routine fills its face from the grid itself and receives nothing |
| RadBvals.ExchangeFills | src/radiation/bvals_rad.c:1287-2432 | for every face, unpacking what the neighbour packed for the opposite face consumes the message and fills the face from the neighbour; for `ox3` this is the corrected `unpack_ox3_rad` |
| RadBvals.SelfExchangeIsPeriodic | src/radiation/bvals_rad.c:698-1260 | on one grid, packing the opposite face and unpacking at `f` gives the same grid as the periodic routine of `f`; for `ox3` with the corrected `unpack_ox3_rad` only |
| RadBvals.SelfExchangeOx3AsWrittenDiffers | src/radiation/bvals_rad.c:2404-2428 | with `unpack_ox3_rad` as written there is a grid on which the self-exchange and `periodic_ox3_rad` disagree |
| RadBvals.PeriodicIdempotent | src/radiation/bvals_rad.c:698-1260 | running a periodic routine twice leaves the grid as running it once |
| RadBvals.PeriodicFrame | src/radiation/bvals_rad.c:698-1260 | a periodic routine changes no slot outside its face |
| RadBvals.PeriodicIx1Leaves | src/radiation/bvals_rad.c:698-794 | `periodic_ix1_rad` leaves other frequencies, other columns, the right x1 ghosts and the x1 boundary intensities unchanged |
| RadBvals.PeriodicIx1Column | src/radiation/bvals_rad.c:698-794 | after `periodic_ix1_rad`, `S` and `H` of column `is-1` equal those of column `ie`, and `Ghstl1i` holds `r1imu` for each inner octant |
| RadBvals.PeriodicOx1Column | src/radiation/bvals_rad.c:799-893 | after `periodic_ox1_rad`, column `ie+1` equals column `is`, and `Ghstr1i` holds `l1imu` |
| RadBvals.FacesDisjoint | src/radiation/bvals_rad.c:698-1260 | the two faces of a direction write disjoint slots |
| RadBvals.FillsCommute | src/radiation/bvals_rad.c:103-110 | filling the two faces of a direction from two sources gives the same grid in either order |
| RadBvals.EachFaceFilledOnce | src/radiation/bvals_rad.c:80-373 | every face of a spanned direction is filled exactly once, and packed once when it has a neighbour; flat directions are untouched |
| RadBvals.DirectionsInOrder | src/radiation/bvals_rad.c:80-373 | x1 calls precede x2 calls, which precede x3 calls |
| RadBvals.PacksFirst | src/radiation/bvals_rad.c:80-168 | within a direction every pack comes before any unpack or boundary call |
| RadBvals.InnerBoundaryFirst | src/radiation/bvals_rad.c:163-166 | with both faces physical, the inner face's boundary function runs before the outer one's |
| RadBvals.DirSends | src/radiation/bvals_rad.c:80-168 | a direction sends the packed inner face if it has a left neighbour, then the outer face if it has a right neighbour |
| RadBvals.BothUnpacks | src/radiation/bvals_rad.c:84-110 | with neighbours on both sides, a direction fills both faces from the two neighbours in arrival order |
| RadBvals.DirOrderIrrelevant | src/radiation/bvals_rad.c:103-110 | within a direction, which receive completes first changes neither the grid nor what is sent |
| RadBvals.ArrivalOrderIrrelevant | src/radiation/bvals_rad.c:66-375 | the grid `bvals_rad` leaves and the messages it sends do not depend on the order in which the receives complete |
| RadBvals.RadGrid.Pack | src/radiation/bvals_rad.c:1287-1826 | a pack routine writes the face's values into the front of the send buffer in order, leaves the rest of the buffer and the grid unchanged, and records what it sent |
| RadBvals.RadGrid.Unpack | src/radiation/bvals_rad.c:1831-2432 | an unpack routine leaves the grid as `Fill` from the neighbour; for `ox3` it runs the corrected `unpack_ox3_rad` |
| RadBvals.RadGrid.Boundary | src/radiation/bvals_rad.c:1267-1280 | a periodic boundary function fills the face from the grid; `ProlongateLater` and `const_incident_rad` leave the grid unchanged |
| RadBvals.RadGrid.Direction | src/radiation/bvals_rad.c:80-168 | one direction step performs that direction's calls, updating the grid and the messages sent; the x3 outer face is unpacked by the corrected `unpack_ox3_rad` |
| RadBvals.RadGrid.BvalsRad | src/radiation/bvals_rad.c:66-375 | `bvals_rad` performs the whole schedule: the new grid and the messages sent are those of the schedule; the x3 outer face is unpacked by the corrected `unpack_ox3_rad` |
| RadBvals.AsWrittenBufferTooShort | src/radiation/bvals_rad.c:601-674 | with eight octants, in a domain split only along x1 into two equal grids, the buffer size `bvals_rad_init` computes (the largest of the three counts) is too small for the x1 pack of a grid with an inner x1 neighbour, so `BufferFits` fails |
| RadFaces.MirrorUnwritten | src/radiation/bvals_rad.c:698-1260 | the slot a face copies from is never one the face writes, so the copies within one routine do not interfere |
| RadCounts.PackX1Len | src/radiation/bvals_rad.c:1287-1470 | both x1 pack routines send `X1Words` values per frequency |
| RadCounts.PackX2Len | src/radiation/bvals_rad.c:1475-1658 | both x2 pack routines send `X2Words` values per frequency |
| RadCounts.PackX3Len | src/radiation/bvals_rad.c:1663-1826 | both x3 pack routines send `X3Words` values per frequency |
| RadCounts.PackWithin | src/radiation/bvals_rad.c:1287-1658 | a pack over a sub-range of frequencies sends no more than one over all `nf` |
| RadCounts.X1CountForm | src/radiation/bvals_rad.c:608-627 | the corrected x1 count for one frequency, term by term |
| RadCounts.X1CountExact | src/radiation/bvals_rad.c:608-627 | the corrected `x1cnt` equals what either x1 pack routine sends over all frequencies |
| RadCounts.X1CountAsWrittenShort | src/radiation/bvals_rad.c:619-623 | `x1cnt` as written falls short of the x1 packs by `nf * nx3 * nang * 4` with eight octants and is exact otherwise |
| RadCounts.CountAsWrittenPositive | src/radiation/bvals_rad.c:619-623 | with eight octants the `x1cnt` of a grid with at least one cell, angle and frequency is positive |
| RadCounts.X1CountGap | src/radiation/bvals_rad.c:619-623 | the as-written and corrected x1 counts differ by the x3 corner column with eight octants only |
| RadCounts.X1CountAsWrittenOverflow | src/radiation/bvals_rad.c:608-627 | on a 2x2x2 grid with one angle and one frequency, `x1cnt` as written is 40 but an x1 pack writes 48 values |
| RadCounts.X2CountWords | src/radiation/bvals_rad.c:630-647 | the x2 count per frequency is what an x2 pack sends, plus `nx3 * nang * 4` with eight octants |
| RadCounts.X2CountForm | src/radiation/bvals_rad.c:630-647 | the x2 count for one frequency, term by term |
| RadCounts.X2CountCovers | src/radiation/bvals_rad.c:630-647 | `x2cnt` is at least what either x2 pack sends: exact with four octants, with `nf * nx3 * nang * 4` to spare with eight |
| RadCounts.X3CountForm | src/radiation/bvals_rad.c:650-662 | the x3 count for one frequency, term by term |
| RadCounts.X3CountExact | src/radiation/bvals_rad.c:650-662 | with eight octants `x3cnt` equals what either x3 pack sends |
| RadInit.Dir | src/radiation/bvals_rad.c:80-373 | each face bounds one of the directions 1 to 3 |
| RadInit.FaceOf | src/radiation/bvals_rad.c:411-594 | the inner or outer face of a direction has that direction and side |
| RadInit.Irefine | src/radiation/bvals_rad.c:402-403 | the doubling loop computes `irefine = 2^nl` |
| RadInit.OuterEdgeExact | src/radiation/bvals_rad.c:446 | for a domain inside the root domain, the integer-division test of an outer face holds exactly when the domain ends where the root ends (also lines 509 and 572) |
| RadInit.RowMaxIsMax | src/radiation/bvals_rad.c:608-627 | the running maximum over a row of grids is at least each count, and is the old value or one of the counts |
| RadInit.PlaneMaxIsMax | src/radiation/bvals_rad.c:608-627 | the same over a plane of grids |
| RadInit.DomainMaxIsMax | src/radiation/bvals_rad.c:601-665 | the same over all the grids of a domain |
| RadInit.RadDomain.constructor | src/radiation/bvals_rad.c:396-400 | a domain with its grid layout and per-face flags |
| RadInit.BvalsRad.constructor | src/radiation/bvals_rad.c:27-32 | the module state starts with zero counts |
| RadInit.BvalsRad.SetDirection | src/radiation/bvals_rad.c:411-594 | a spanned direction sets `nDim` and chooses both faces' boundary functions; an unknown flag fails, naming the face |
| RadInit.BvalsRad.AddCounts | src/radiation/bvals_rad.c:601-665 | each count ends as the largest of its old value and the counts of the domain's grids, when the domain is split along that direction; the x1 count is the formula as written (`X1CountAsWritten`) |
| RadInit.BvalsRad.CountRow | src/radiation/bvals_rad.c:608-627 | the innermost count loop over one row of grids gives the row maximum of the counts as written |
| RadInit.BvalsRad.InitDomain | src/radiation/bvals_rad.c:395-666 | one domain pass: a failure names the first face, in order, whose flag is unknown, and every earlier active face got a function; otherwise the faces' functions, `nDim` and, in the MPI build, the counts as written are set |
| RadInit.BvalsRad.BufferSize | src/radiation/bvals_rad.c:673-674 | the buffer size is the largest of the three counts |
| RadInit.MaxCovers | src/radiation/bvals_rad.c:601-665 | a domain maximum is at least each grid's count |
| RadInit.X1PackFits | src/radiation/bvals_rad.c:608-627 | with two or four octants, what either x1 pack of any grid of the domain sends fits in the `x1cnt` the code computes |
| RadInit.X1PackOverflows | src/radiation/bvals_rad.c:608-627 | with eight octants, in a domain split along x1 into two equal grids (so the count is taken), the `x1cnt` the code computes is `nf * nx3 * nang * 4` short of what either x1 pack sends |
| RadInit.X1PackFitsIntended | src/radiation/bvals_rad.c:608-627 | with the intended x1 count (`X1Count`), what either x1 pack sends fits for any number of octants |
| RadInit.X2PackFits | src/radiation/bvals_rad.c:630-647 | what either x2 pack sends fits in `x2cnt` |
| RadInit.X3PackFits | src/radiation/bvals_rad.c:650-662 | with eight octants, what either x3 pack sends fits in `x3cnt` |
| MainArgs.Positions | src/main.c:94-96 | the option positions the loop visits: each is a two-character `-x` argument, they are in order, the argument after a value-taking option is skipped, and every other option argument is visited |
| MainArgs.ScanArgs | src/main.c:94-135 | the imperative scan of `argv` gives the same outcome as applying the options in order to the initial settings |
| MainArgs.ApplyOutcome | src/main.c:113-132 | the run goes on exactly when no option stops it; `-c` shows the configuration; `-h`, or an unknown option in the serial build, prints the usage |
| MainArgs.InputFileRule | src/main.c:98-106 | the input file is the last `-i` value; without `-i` it is the first `-r` value when the default was still in force; otherwise it is unchanged |
| MainArgs.RestartRule | src/main.c:101-106 | restart is on exactly when some `-r` is given, and the restart file is the last `-r` value |
| MainArgs.RundirRule | src/main.c:107-109 | the run directory is the last `-d` value |
| MainArgs.DoneRule | src/main.c:110-112 | `done` is set exactly when some `-n` is given |
| MainArgs.WallLimitRule | src/main.c:120-127 | in the MPI build a wall-time limit is used exactly when `-t` is given, with the last `-t` value |
| MainSteps.ClampFlush | src/main.c:259 | `iflush` is kept when non-negative and becomes 0 otherwise |
| MainSteps.WallSeconds | src/main.c:124 | `s + 60*(m + 60*h)` decodes back to hours, minutes and seconds for in-range fields |
| MainSteps.Continues | src/main.c:406 | the loop goes on only while `time < tlim` and, when `nlim >= 0`, `nstep < nlim`; it stops exactly when one of them fails |
| MainSteps.StepLimitBounds | src/main.c:406 | with `nlim >= 0` the loop runs at most `nlim - nstep` passes |
| MainRestart.Decimal | src/main.c:211 | the rank `%d` prints: digits with no leading zero that read back as the rank |
| MainRestart.DecimalLength | src/main.c:183 | a rank below `10^k` prints in at most `k` digits |
| MainRestart.BlockPeriod | src/main.c:195-204 | the period the walk finds: the name has `.` four from its end, and the result is the last period before it that is not at index 0; none exactly when there is no such period |
| MainRestart.Rename | src/main.c:183-214 | the rewrite as done in `main`, with the corrected bounds checks, gives `RestartName`: too long, bad name, unchanged for the parent, `-idN` inserted for child `N` |
| MainRestart.ChildNameParts | src/main.c:207-214 | the parent keeps its name; a child's name is the name up to the period, `-id`, digits reading back as the rank, then the rest of the name |
| MainRestart.RenamedFits | src/main.c:183 | ten spare bytes leave room for `-id` and a rank of up to seven digits |
| MainRestart.RenameExample | src/main.c:207-214 | `run.0003.rst` becomes `run-id2.0003.rst` for rank 2 and stays as it is for the parent |
| MainRestart.PeriodAsWrittenAgrees | src/main.c:195-204 | the walk as written reads before the name exactly for names shorter than four characters or four characters starting with `.`; elsewhere it agrees with `BlockPeriod` |
| MainRestart.PeriodAsWrittenReadsOutside | src/main.c:195-204 | for `.rst` and for `rst` the walk as written reads index -1 |

## Left out

- MPI transport: `MPI_Irecv`, `MPI_Isend`, `MPI_Waitany` and `MPI_Waitall` are not modelled. A message is the sequence `Read` returns. Which receive completes first is the parameter `innerFirst`.
- The rewiring of neighbour ranks, and the `NULL` versus periodic choice when a neighbour is the grid itself, are left out. A face's neighbour is a parameter (`links`).
- `SHEARING_BOX` and `QUADRATIC_INTENSITY` builds are left out. Only the default `#else` branches are modelled.
- Values are opaque: no floating-point arithmetic is modelled. Times in `MainSteps` are mathematical reals.
- Allocation failures (`calloc_2d_array`, the request arrays) and the `ath_error` exits they raise are left out.
- C `int` overflow in counts and indices is not modelled; integers are unbounded.
- RadInit.BvalsRad.InitDomain: the per-face `ath_error` exit is an `Option<Face>` result, and processing stops at that domain.
- RadBvals.ExchangeFills: for the x3 outer face it is about the corrected `unpack_ox3_rad`, not the routine as written; see Findings.
- RadBvals.SelfExchangeIsPeriodic: for the x3 outer face it holds of the corrected `unpack_ox3_rad` only; `SelfExchangeOx3AsWrittenDiffers` shows it fails as written.
- RadBvals.RadGrid.Unpack: the x3 outer face runs the corrected `unpack_ox3_rad`; see Findings.
- RadBvals.RadGrid.Direction: the x3 outer face runs the corrected `unpack_ox3_rad`; see Findings.
- RadBvals.RadGrid.BvalsRad: the x3 outer face runs the corrected `unpack_ox3_rad`; see Findings.
- RadX1.Ox1ToIx1Pairwise: the sender's column is located with the receiver's `ie`, so the pairing is proved only for an x1 neighbour with this grid's extent along x1; grids of different `Nx[0]` in one domain are not covered.
- RadX2.Ox2ToIx2Pairwise: the sender's row is located with the receiver's `je`, so the pairing is proved only for an x2 neighbour with this grid's extent along x2.
- RadX3.Ox3ToIx3Pairwise: the sender's plane is located with the receiver's `ke`, so the pairing is proved only for an x3 neighbour with this grid's extent along x3.
- RadX1.ExchangeIx1Fills: the neighbour's packed column is mirrored with this grid's `ie`; a neighbour with a different extent along x1 is not covered.
- RadX2.ExchangeIx2Fills: the neighbour's packed row is mirrored with this grid's `je`; a neighbour with a different extent along x2 is not covered.
- RadX3.ExchangeIx3Fills: the neighbour's packed plane is mirrored with this grid's `ke`; a neighbour with a different extent along x3 is not covered.
- RadBvals.BothUnpacks: `Fill` mirrors the neighbours' cells with this grid's extent, so neighbours of a different size along the exchange direction are not covered.
- RadBvals.ExchangeFills: `Fill` mirrors the neighbour's cells with this grid's extent, so a neighbour of a different size along the exchange direction is not covered.
- RadBvals.RadGrid.Unpack: `Fill` mirrors the neighbour's cells with this grid's extent, so a neighbour of a different size along the exchange direction is not covered.
- RadBvals.RadGrid.Pack: requires the buffer to hold what the face packs; the overrun past `send_buf` that `RadBvals.AsWrittenBufferTooShort` exhibits is not modelled.
- RadBvals.RadGrid.Call: requires `BufferFits` for both send buffers; the overrun that `RadBvals.AsWrittenBufferTooShort` exhibits is not modelled.
- RadBvals.RadGrid.Run: requires `BufferFits` for both send buffers; the overrun that `RadBvals.AsWrittenBufferTooShort` exhibits is not modelled.
- RadBvals.RadGrid.Direction: requires `BufferFits` for both send buffers, which the buffers `bvals_rad_init` allocates miss with eight octants in a domain split only along x1 (`RadBvals.AsWrittenBufferTooShort`); the overrun there is not modelled. Neighbours are also assumed to share this grid's extent along the exchange direction.
- RadBvals.RadGrid.BvalsRad: requires `BufferFits` for both send buffers, which fails with eight octants in a domain split only along x1 (`RadBvals.AsWrittenBufferTooShort`); the overrun there is not modelled. Neighbours are also assumed to share this grid's extent along the exchange direction.
- RadInit.X1PackFits: stated for two or four octants only; with eight the `x1cnt` the code computes is too small, as `RadInit.X1PackOverflows` states.
- RadInit.X3PackFits: stated for eight octants; with fewer a grid has one cell along x3 and no x3 message is sent.
- RadInit.X2PackFits: stated for four or eight octants; with two octants a grid has one cell along x2 and no x2 message is sent.
- `sscanf("%d:%d:%d")` of the `-t` value is left out. `MainArgs` stores the `-t` text, and `MainSteps.WallSeconds` models only the sum on line 124.
- `MPI_Wtime`, the clock, is left out. The wall-time test at line 478 is not modelled.
- A value-taking option in the last position stores `argv[argc]`, which is `NULL` (`CStr.Null`). Later use of that pointer is not modelled.
- `usage` and `show_config` print and exit. They are the outcomes `Usage` and `ShowConfig`.
- The `MPI_Bcast` calls of the restart name are left out. Each process gets the parent's name.
- `MAXLEN` is defined outside `src/main.c` and is a parameter.
- The in-place `sprintf` into `new_name` is modelled as sequence concatenation.
- MainRestart.RenamedFits: holds for ranks below 10^7 only. A larger rank prints more digits than the ten spare bytes hold.
- Parameter-file input (`par_*`), logging, `change_rundir`, output, the integrators and the rest of `main` are not part of this model.

## Findings

| source | as written | input that shows it | evidently intended | confidence | as-written member | corrected member |
|---|---|---|---|---|---|---|
| src/radiation/bvals_rad.c:619-623 | with eight octants, `x1cnt` adds `nx2` but not `nx3` to the face area before scaling, so it omits the `nx3 * nang * 4` values per frequency that the loop over `k` in `pack_ix1_rad` (1351-1361) and `pack_ox1_rad` also sends | a 2x2x2 grid, 8 octants, one angle, one frequency: `x1cnt` is 40 and an x1 pack writes 48 values | `x1cnt` equals what an x1 pack sends, so the buffers hold the message | high, not executed | RadCounts.X1CountAsWrittenOverflow | RadCounts.X1CountExact |
| src/radiation/bvals_rad.c:2404-2428 | `unpack_ox3_rad` stores the received x1 and x2 edge intensities of plane `ke+1` in `l1imu`/`r1imu`/`l2imu`/`r2imu` | any grid whose x1 ghost intensity `Ghstl1i[ifr][ke+1][j][0][m]` differs from its neighbour's source slot | store them in `Ghstl1i`/`Ghstr1i`/`Ghstl2i`/`Ghstr2i`, as `periodic_ox3_rad` and `unpack_ix3_rad` do | medium, not executed | RadX3.UnpackOx3AsWrittenMissesGhost | RadX3.ExchangeOx3Fills |
| src/main.c:195-204 | the walk starts at `new_name[len-5]` without checking `len >= 5`, and tests `pc == new_name` only after decrementing | restart file name `.rst` (or `rst`) | reject such names as a bad restart file name without reading before the buffer | high, not executed | MainRestart.PeriodAsWrittenReadsOutside | MainRestart.Rename |
