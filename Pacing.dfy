/**
 * The vblank pacing policy of `drm_kms_wait_for_post`, as a function of the
 * handle's fields and of the kernel's two answers.  All sequence arithmetic
 * is on C `unsigned int`, so it wraps modulo 2^32.
 */
module Pacing {
  import opened DrmTypes

  /** The answer to one `drmWaitVBlank` call. */
  datatype VBlankReply = VBlankOk(sequence: u32) | VBlankFailed

  /** One `drmWaitVBlank` request: relative or absolute, the sequence, and
      the `DRM_VBLANK_SECONDARY` and `DRM_VBLANK_NEXTONMISS` flags. */
  datatype VBlankRequest = VBlankRequest(absolute: bool, sequence: u32, secondary: bool, nextOnMiss: bool)

  /** `query`: the request for the current vblank (None when none is made);
      `request`: the blocking wait (None when none is issued); `lastSwap`:
      the new baseline. */
  datatype Pacing = Pacing(query: Option<VBlankRequest>, request: Option<VBlankRequest>, lastSwap: u32)

  function Max(a: u32, b: u32): u32
  {
    if a < b then b else a
  }

  /** The vblank a post aims at: the current one on the first post, else
      one swap interval after the last swap, one earlier when a flip will
      follow (the flip itself lands on the next vblank). */
  function PaceTarget(firstPost: bool, current: u32, lastSwap: u32, interval: int, flip: bool): u32
  {
    if firstPost then current else Wrap(lastSwap + interval - (if flip then 1 else 0))
  }

  /** The blocking wait for vblank `target`: absolute, on the secondary
      CRTC when so configured, and for a non-flip post moved to the next
      vblank when `target` has already passed. */
  function WaitRequest(secondary: bool, flip: bool, target: u32): VBlankRequest
  {
    VBlankRequest(true, target, secondary, !flip)
  }

  function Pace(quirkVmwgfx: bool, secondary: bool, firstPost: bool, lastSwap: u32, interval: int, flip: bool,
                query: VBlankReply, wait: VBlankReply): (p: Pacing)
    // the vmwgfx quirk: no request at all, nothing recorded
    ensures quirkVmwgfx ==> p == Pacing(None, None, lastSwap)
    // otherwise the current vblank is asked for, relative, on the configured CRTC
    ensures !quirkVmwgfx ==> p.query == Some(VBlankRequest(false, 0, secondary, false))
    // a failed query: no wait, nothing recorded
    ensures query.VBlankFailed? ==> p.request.None? && p.lastSwap == lastSwap
    // every wait is absolute, on the configured CRTC, with NEXTONMISS exactly when not flipping
    ensures p.request.Some? ==>
      p.request.value.absolute && p.request.value.secondary == secondary && p.request.value.nextOnMiss == !flip
    // before a copy or set-crtc the wait always happens, never for a vblank already past
    ensures !quirkVmwgfx && query.VBlankOk? && !flip ==>
      p.request.Some? &&
      p.request.value.sequence == Max(PaceTarget(firstPost, query.sequence, lastSwap, interval, flip), query.sequence)
    // before a flip it happens only when the target is still ahead
    ensures !quirkVmwgfx && query.VBlankOk? && flip ==>
      (p.request.Some? <==> query.sequence < PaceTarget(firstPost, query.sequence, lastSwap, interval, flip)) &&
      (p.request.Some? ==> p.request.value.sequence == PaceTarget(firstPost, query.sequence, lastSwap, interval, flip))
    // a completed wait records the vblank it returned on (plus one before a flip)
    ensures p.request.Some? && wait.VBlankOk? ==> p.lastSwap == Wrap(wait.sequence + (if flip then 1 else 0))
    // a failed wait records nothing
    ensures p.request.Some? && wait.VBlankFailed? ==> p.lastSwap == lastSwap
    // no wait before a flip: the flip lands on the vblank after the current one
    ensures !quirkVmwgfx && query.VBlankOk? && p.request.None? ==> p.lastSwap == Wrap(query.sequence + 1)
  {
    if quirkVmwgfx then Pacing(None, None, lastSwap)
    else
      var q := Some(VBlankRequest(false, 0, secondary, false));
      match query
      case VBlankFailed => Pacing(q, None, lastSwap)
      case VBlankOk(current) =>
        var target := PaceTarget(firstPost, current, lastSwap, interval, flip);
        if current < target || !flip then
          var request := Some(WaitRequest(secondary, flip, if !flip && target < current then current else target));
          match wait
          case VBlankFailed => Pacing(q, request, lastSwap)
          case VBlankOk(reached) => Pacing(q, request, Wrap(reached + (if flip then 1 else 0)))
        else
          Pacing(q, None, Wrap(current + 1))
  }

  /** Throttling: when the kernel returns on or after the vblank it was
      asked for and no counter wraps, successive swaps are at least
      `interval` vblanks apart, for flips and for the other swap modes alike.
      When no wait is issued the baseline moves past the target anyway. */
  lemma PacingThrottles(secondary: bool, lastSwap: u32, interval: int, flip: bool, current: u32, replied: u32)
    requires interval >= 1
    requires lastSwap + interval < U32_MODULUS && current + 1 < U32_MODULUS && replied + 1 < U32_MODULUS
    ensures var p0 := Pace(false, secondary, false, lastSwap, interval, flip, VBlankOk(current), VBlankFailed);
            p0.request.None? ==> p0.lastSwap >= lastSwap + interval
    ensures var p0 := Pace(false, secondary, false, lastSwap, interval, flip, VBlankOk(current), VBlankFailed);
            p0.request.Some? && replied >= p0.request.value.sequence ==>
            Pace(false, secondary, false, lastSwap, interval, flip, VBlankOk(current), VBlankOk(replied)).lastSwap >= lastSwap + interval
  {
  }
}
