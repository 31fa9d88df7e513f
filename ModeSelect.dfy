/**
 * Mode selection: `find_mode`, the CRTC choice of
 * `drm_kms_init_with_connector`, and the framebuffer format derived from the
 * operator's bit-depth hint.
 */
module ModeSelect {
  import opened DrmTypes

  /** The `debug.drm.mode` property as the code parses it: `<xres>x<yres>[@<bpp>]`.
      Fields the parse did not produce are 0 (no property at all: all three 0). */
  datatype ModeHint = ModeHint(xres: int, yres: int, bpp: int)

  /** Distance matching is used only when both resolutions are non-zero. */
  predicate HasResolution(h: ModeHint)
  {
    h.xres != 0 && h.yres != 0
  }

  /** Squared Euclidean distance between a mode's resolution and the hint. */
  function Distance(m: ModeInfo, h: ModeHint): (d: int)
    ensures d >= 0
    ensures d == 0 <==> m.hdisplay == h.xres && m.vdisplay == h.yres
  {
    (m.hdisplay - h.xres) * (m.hdisplay - h.xres) + (m.vdisplay - h.yres) * (m.vdisplay - h.yres)
  }

  predicate Preferred(m: ModeInfo)
  {
    m.modeType & DRM_MODE_TYPE_PREFERRED != 0
  }

  /** What `find_mode` promises of the index it picks: with a resolution
      hint, the first mode of least distance (or the first mode when every
      distance reaches INT_MAX, the loop's starting bound); without one, the
      first preferred mode, or the first mode when none is preferred. */
  ghost predicate ChosenMode(modes: seq<ModeInfo>, h: ModeHint, k: int)
  {
    0 <= k < |modes| &&
    if HasResolution(h) then
      if exists j :: 0 <= j < |modes| && Distance(modes[j], h) < INT_MAX then
        (forall j :: 0 <= j < |modes| ==> Distance(modes[k], h) <= Distance(modes[j], h)) &&
        (forall j :: 0 <= j < k ==> Distance(modes[j], h) > Distance(modes[k], h))
      else k == 0
    else
      if exists j :: 0 <= j < |modes| && Preferred(modes[j]) then
        Preferred(modes[k]) && forall j :: 0 <= j < k ==> !Preferred(modes[j])
      else k == 0
  }

  /** The policy picks exactly one mode. */
  lemma ChosenModeUnique(modes: seq<ModeInfo>, h: ModeHint, k1: int, k2: int)
    requires ChosenMode(modes, h, k1) && ChosenMode(modes, h, k2)
    ensures k1 == k2
  {
  }

  /** C's `/` on `int`: the quotient truncated toward zero. */
  function CDiv(a: int, b: int): (q: int)
    requires b > 0
    ensures (a >= 0 ==> q * b <= a < q * b + b) && (a < 0 ==> q * b - b < a <= q * b)
  {
    if a >= 0 then a / b else -((-a) / b)
  }

  /** `find_mode`; the hint is passed in instead of read from the property store. */
  method FindMode(modes: seq<ModeInfo>, h: ModeHint) returns (index: nat, bpp: int)
    requires |modes| > 0
    ensures ChosenMode(modes, h, index)
    ensures bpp == CDiv(h.bpp, 8)
  {
    var found := false;
    var dist := INT_MAX;
    index := 0;
    var i := 0;
    while i < |modes|
      invariant 0 <= i <= |modes|
      invariant found ==> index < i && dist == Score(modes[index], h) && dist < INT_MAX
      invariant !found ==> index == 0 && dist == INT_MAX
      invariant forall j :: 0 <= j < i ==> Score(modes[j], h) >= dist
      invariant found ==> forall j :: 0 <= j < index ==> Score(modes[j], h) > dist
    {
      var m := modes[i];
      var tmp;
      if HasResolution(h) {
        tmp := Distance(m, h);
      } else {
        tmp := if Preferred(m) then 0 else dist;
      }
      if tmp < dist {
        found, index, dist := true, i, tmp;
        if dist == 0 {
          assert forall j :: i <= j < |modes| ==> Score(modes[j], h) >= 0;
          break;
        }
      }
      i := i + 1;
    }
    ScoreChoice(modes, h, index, found);
    bpp := CDiv(h.bpp, 8);
  }

  /** The quantity the loop minimises: the distance with a hint; without one,
      0 for a preferred mode and the starting bound for any other. */
  function Score(m: ModeInfo, h: ModeHint): int
  {
    if HasResolution(h) then Distance(m, h) else if Preferred(m) then 0 else INT_MAX
  }

  /** The first minimum of `Score` below the starting bound is the mode the policy picks. */
  lemma ScoreChoice(modes: seq<ModeInfo>, h: ModeHint, index: nat, found: bool)
    requires index < |modes|
    requires found ==> Score(modes[index], h) < INT_MAX
    requires !found ==> index == 0
    requires forall j :: 0 <= j < |modes| ==> Score(modes[j], h) >= (if found then Score(modes[index], h) else INT_MAX)
    requires found ==> forall j :: 0 <= j < index ==> Score(modes[j], h) > Score(modes[index], h)
    ensures ChosenMode(modes, h, index)
  {
    if !HasResolution(h) && found {
      assert Preferred(modes[index]);
    }
  }

  // ---------------------------------------------------------------- CRTC choice

  /** CRTC position `i` is the lowest one, below `count`, allowed by the encoder's mask. */
  ghost predicate FirstCrtcBit(mask: bv32, count: nat, i: nat)
  {
    i < count && HasBit(mask, i) && forall j :: 0 <= j < i ==> !HasBit(mask, j)
  }

  /** The loop of `drm_kms_init_with_connector` over `possible_crtcs`;
      `count` is returned when no position below it is allowed. */
  method FirstPossibleCrtc(mask: bv32, count: nat) returns (i: nat)
    ensures i <= count
    ensures i < count ==> FirstCrtcBit(mask, count, i)
    ensures i == count ==> forall j :: 0 <= j < count ==> !HasBit(mask, j)
  {
    i := 0;
    while i < count
      invariant i <= count
      invariant forall j :: 0 <= j < i ==> !HasBit(mask, j)
    {
      if HasBit(mask, i) {
        break;
      }
      i := i + 1;
    }
  }

  // ---------------------------------------------------------------- fb format

  /** The `switch (bpp)` of `drm_kms_init_with_connector`, on bytes per pixel. */
  function FbFormatForBpp(bytes: int): (f: int)
    ensures f == HAL_PIXEL_FORMAT_RGB_565 || f == HAL_PIXEL_FORMAT_BGRA_8888
  {
    if bytes == 2 then HAL_PIXEL_FORMAT_RGB_565 else HAL_PIXEL_FORMAT_BGRA_8888
  }

  /** A hinted depth selects RGB_565 exactly when it lies in 16..23 bits;
      every other hint, and no hint, selects BGRA_8888. */
  lemma HintDepthFormat(bits: int)
    ensures FbFormatForBpp(CDiv(bits, 8)) == HAL_PIXEL_FORMAT_RGB_565 <==> 16 <= bits <= 23
    ensures !(16 <= bits <= 23) ==> FbFormatForBpp(CDiv(bits, 8)) == HAL_PIXEL_FORMAT_BGRA_8888
  {
  }

  // ---------------------------------------------------------------- scenarios

  /** Two modes, no hint, the second one preferred: the second is chosen. */
  lemma PreferredModeScenario()
    ensures var modes := [ModeInfo(1920, 1080, 60, 0, "1920x1080"),
                          ModeInfo(1280, 720, 60, DRM_MODE_TYPE_PREFERRED, "1280x720")];
            forall k :: ChosenMode(modes, ModeHint(0, 0, 0), k) <==> k == 1
  {
    var modes := [ModeInfo(1920, 1080, 60, 0, "1920x1080"),
                  ModeInfo(1280, 720, 60, DRM_MODE_TYPE_PREFERRED, "1280x720")];
    var h := ModeHint(0, 0, 0);
    assert Preferred(modes[1]) && !Preferred(modes[0]);
    assert ChosenMode(modes, h, 1);
    forall k | ChosenMode(modes, h, k) ensures k == 1 {
      ChosenModeUnique(modes, h, k, 1);
    }
  }

  /** A 1024x768 hint against three modes picks the exact match. */
  lemma ExactHintScenario()
    ensures var modes := [ModeInfo(1920, 1080, 60, 0, "1920x1080"),
                          ModeInfo(1280, 720, 60, 0, "1280x720"),
                          ModeInfo(1024, 768, 60, 0, "1024x768")];
            forall k :: ChosenMode(modes, ModeHint(1024, 768, 0), k) <==> k == 2
  {
    var modes := [ModeInfo(1920, 1080, 60, 0, "1920x1080"),
                  ModeInfo(1280, 720, 60, 0, "1280x720"),
                  ModeInfo(1024, 768, 60, 0, "1024x768")];
    var h := ModeHint(1024, 768, 0);
    assert Distance(modes[2], h) == 0;
    assert Distance(modes[0], h) > 0 && Distance(modes[1], h) > 0;
    assert ChosenMode(modes, h, 2);
    forall k | ChosenMode(modes, h, k) ensures k == 2 {
      ChosenModeUnique(modes, h, k, 2);
    }
  }
}
