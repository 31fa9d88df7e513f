/**
 * The OMAP allocator backend: its `init_kms_features` hook, which fixes the
 * scheduler's configuration, and the result rules of its allocation and
 * mapping entry points.  The `omap_bo_*` library is not modelled: its
 * answers are supplied as values.
 */
module Omap {
  import opened DrmTypes

  /** The two formats the hook lets through unchanged. */
  predicate OmapScanoutFormat(f: int)
  {
    f == HAL_PIXEL_FORMAT_BGRA_8888 || f == HAL_PIXEL_FORMAT_RGB_565
  }

  /** The framebuffer format the hook leaves: a scanout format stays, any
      other becomes BGRA_8888. */
  function OmapFbFormat(f: int): int
  {
    if OmapScanoutFormat(f) then f else HAL_PIXEL_FORMAT_BGRA_8888
  }

  /** The scheduler configuration the OMAP hook leaves behind. */
  predicate OmapConfigured(s: DrmState)
  {
    OmapScanoutFormat(s.fbFormat) && s.modeSyncFlip && s.swapMode == Flip &&
    s.swapInterval == 0 && !s.vblankSecondary
  }

  /** The effect of `omap_init_kms_features` on the display handle. */
  function OmapConfigure(s: DrmState): (r: DrmState)
    ensures OmapConfigured(r)
    ensures OmapScanoutFormat(s.fbFormat) ==> r.fbFormat == s.fbFormat
    ensures r.fbFormat != s.fbFormat ==> r.fbFormat == HAL_PIXEL_FORMAT_BGRA_8888
    // no other field of the handle is touched
    ensures r.(fbFormat := s.fbFormat, modeSyncFlip := s.modeSyncFlip, swapMode := s.swapMode,
               swapInterval := s.swapInterval, vblankSecondary := s.vblankSecondary) == s
  {
    s.(fbFormat := OmapFbFormat(s.fbFormat), modeSyncFlip := true, swapMode := Flip, swapInterval := 0, vblankSecondary := false)
  }

  /** `omap_init_kms_features`. */
  method OmapInitKmsFeatures(drm: Drm)
    modifies drm
    ensures drm.State() == OmapConfigure(old(drm.State()))
  {
    drm.fbFormat := OmapFbFormat(drm.fbFormat);
    drm.modeSyncFlip := true;
    drm.swapMode := Flip;
    drm.swapInterval := 0;
    drm.vblankSecondary := false;
  }

  // ---------------------------------------------------------------- buffers

  /** An opaque `struct omap_bo`; `omap_bo_handle` yields its GEM handle. */
  datatype OmapBo = OmapBo(gemHandle: nat)

  /** The answers of the calls `omap_alloc` makes: whether `calloc` succeeds,
      what `omap_bo_from_name` and `omap_bo_new` return. */
  datatype OmapAllocReplies = OmapAllocReplies(callocOk: bool, fromName: Option<OmapBo>, created: Option<OmapBo>)

  /** `struct omap_buffer`: the generic buffer object and the OMAP buffer behind it. */
  class OmapBuffer {
    const base: Bo
    const bo: OmapBo

    constructor (base: Bo, bo: OmapBo)
      ensures this.base == base && this.bo == bo
    {
      this.base, this.bo := base, bo;
    }
  }

  /** `omap_alloc`.  A handle with a name imports the named buffer; one
      without gets a new buffer and its stride is set to 0. */
  method OmapAlloc(handle: Handle, r: OmapAllocReplies) returns (buf: OmapBuffer?)
    modifies handle
    ensures buf == null <==>
      !r.callocOk || (handle.name != 0 && r.fromName.None?) || (handle.name == 0 && r.created.None?)
    ensures buf != null ==>
      fresh(buf) && fresh(buf.base) && buf.base.handle == handle && buf.base.fbId == 0 &&
      buf.bo == (if handle.name != 0 then r.fromName.value else r.created.value) &&
      buf.base.fbHandle == (if handle.usage & GRALLOC_USAGE_HW_FB != 0 then buf.bo.gemHandle else 0)
    ensures handle.stride == (if buf != null && handle.name == 0 then 0 else old(handle.stride))
  {
    if !r.callocOk {
      return null;
    }
    var obo: OmapBo;
    if handle.name != 0 {
      if r.fromName.None? {
        return null;
      }
      obo := r.fromName.value;
    } else {
      var stride := 0;
      if r.created.None? {
        return null;
      }
      obo := r.created.value;
      handle.stride := stride;
    }
    var fbHandle := 0;
    if handle.usage & GRALLOC_USAGE_HW_FB != 0 {
      fbHandle := obo.gemHandle;
    }
    var base := new Bo(handle, fbHandle);
    buf := new OmapBuffer(base, obo);
  }

  /** `omap_map`: `mapped` is what `omap_bo_map` returns (0 for NULL). */
  method OmapMap(buf: OmapBuffer, mapped: nat) returns (err: int, addr: nat)
    ensures addr == mapped
    ensures err == 0 || err == -1
    ensures err == -1 <==> addr == 0
  {
    addr := mapped;
    err := 0;
    if addr == 0 {
      err := -1;
    }
  }
}
