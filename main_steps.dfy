/**
 * The single-expression settings of `main` (src/main.c): the clamp on the
 * log flush interval, the wall-time limit given as `hh:mm:ss`, and the guard
 * of the main integration loop.
 */
module MainSteps {

  /** `iflush = iflush > 0 ? iflush : 0`: a negative flush interval is
      treated as zero, any other is kept. */
  function ClampFlush(iflush: int): (r: nat)
    ensures iflush >= 0 ==> r == iflush
    ensures iflush < 0 ==> r == 0
  {
    if iflush > 0 then iflush else 0
  }

  /** Seconds in the wall-time limit `h:m:s`, `s + 60*(m + 60*h)`. */
  function WallSeconds(h: int, m: int, s: int): (t: int)
    ensures 0 <= h && 0 <= m < 60 && 0 <= s < 60 ==>
              0 <= t && t / 3600 == h && (t % 3600) / 60 == m && t % 60 == s
  {
    var t := s + 60 * (m + 60 * h);
    if 0 <= h && 0 <= m < 60 && 0 <= s < 60 then
      WallSecondsDigits(h, m, s);
      t
    else t
  }

  lemma WallSecondsDigits(h: nat, m: nat, s: nat)
    requires m < 60 && s < 60
    ensures var t := s + 60 * (m + 60 * h);
            t / 3600 == h && (t % 3600) / 60 == m && t % 60 == s
  {
    var t := s + 60 * (m + 60 * h);
    assert t == 3600 * h + (60 * m + s);
    assert 0 <= 60 * m + s < 3600;
    assert t % 3600 == 60 * m + s;
  }

  /** The main loop goes on while the time is short of `tlim` and, when a
      step limit `nlim >= 0` is set, the step count is short of it. */
  function Continues(time: real, tlim: real, nlim: int, nstep: int): (b: bool)
    ensures b ==> time < tlim
    ensures b && nlim >= 0 ==> nstep < nlim
    ensures !b ==> tlim <= time || 0 <= nlim <= nstep
  {
    time < tlim && (nlim < 0 || nstep < nlim)
  }

  /** Each pass of the loop adds one to the step count, so from `nstep`
      with a step limit `nlim >= 0` the guard holds for at most
      `nlim - nstep` passes, whatever the time does. */
  lemma StepLimitBounds(times: seq<real>, tlim: real, nlim: int, nstep: int)
    requires nlim >= 0
    requires forall k :: 0 <= k < |times| ==> Continues(times[k], tlim, nlim, nstep + k)
    ensures |times| <= if nlim - nstep > 0 then nlim - nstep else 0
  {
    if |times| > 0 {
      assert Continues(times[|times| - 1], tlim, nlim, nstep + |times| - 1);
    }
  }
}
