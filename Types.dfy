/**
 * Shared data model of the KMS posting layer: the display handle (the
 * C `struct gralloc_drm_t`), the buffer object (`struct gralloc_drm_bo_t`)
 * and its gralloc handle, and the values the kernel mode-setting interface
 * hands back.  Kernel calls are not executed: their answers are values of
 * the datatypes below, supplied by the caller of each operation.
 */
module DrmTypes {

  datatype Option<+T> = None | Some(value: T)

  // ---------------------------------------------------------------- integers

  const U32_MODULUS: int := 0x1_0000_0000

  /** A C `unsigned int`. */
  type u32 = x: int | 0 <= x < U32_MODULUS

  /** Conversion of an `int` result to `unsigned int` (reduction modulo 2^32). */
  function Wrap(x: int): (r: u32)
    ensures (r - x) % U32_MODULUS == 0
  {
    x % U32_MODULUS
  }

  /** C `INT_MAX` on the 32-bit targets this code runs on. */
  const INT_MAX: int := 0x7fff_ffff

  /** errno values returned by the code (negated where the code negates them). */
  const EINVAL: int := 22
  const ENOMEM: int := 12

  /** A positive errno left by a failed library call. */
  type Errno = e: int | e > 0 witness ENOMEM

  /** A framebuffer id the kernel handed out (ids start at 1; 0 means "no fb"). */
  type FbId = id: nat | id > 0 witness 1

  /** True when bit `i` of a 32-bit mask is set, i.e. C `mask & (1 << i)`. */
  predicate HasBit(mask: bv32, i: nat)
  {
    i < 32 && mask & ((1 as bv32) << i) != 0
  }

  // ---------------------------------------------------------------- formats

  /** HAL pixel formats (Android `system/graphics.h`). */
  const HAL_PIXEL_FORMAT_RGBA_8888: int := 1
  const HAL_PIXEL_FORMAT_RGBX_8888: int := 2
  const HAL_PIXEL_FORMAT_RGB_888: int := 3
  const HAL_PIXEL_FORMAT_RGB_565: int := 4
  const HAL_PIXEL_FORMAT_BGRA_8888: int := 5
  const HAL_PIXEL_FORMAT_RGBA_5551: int := 6
  const HAL_PIXEL_FORMAT_RGBA_4444: int := 7
  const HAL_PIXEL_FORMAT_YCbCr_422_SP: int := 0x10
  const HAL_PIXEL_FORMAT_YCrCb_420_SP: int := 0x11
  const HAL_PIXEL_FORMAT_YV12: int := 0x32315659

  /** Gralloc usage bits. */
  const GRALLOC_USAGE_SW_WRITE_MASK: bv32 := 0x0000_00F0
  const GRALLOC_USAGE_HW_FB: bv32 := 0x0000_1000

  /** `DRM_MODE_TYPE_PREFERRED`, a bit of a mode's `type`. */
  const DRM_MODE_TYPE_PREFERRED: bv32 := 0x8

  // ---------------------------------------------------------------- kernel answers

  /** A display timing (`drmModeModeInfo`); only what the layer reads. */
  datatype ModeInfo = ModeInfo(hdisplay: nat, vdisplay: nat, vrefresh: nat, modeType: bv32, name: string)

  /** The encoder `drmModeGetEncoder` returned for a connector's first encoder. */
  datatype Encoder = Encoder(possibleCrtcs: bv32)

  /** A connector as `drmModeGetConnector` reports it. */
  datatype Connector = Connector(
    connectorId: nat,
    connected: bool,          // connection == DRM_MODE_CONNECTED
    modes: seq<ModeInfo>,
    encoder: Option<Encoder>) // None when drmModeGetEncoder fails

  /** `drmModeGetResources`: the CRTC ids in kernel order, and what
      `drmModeGetConnector` answers for each connector id in order. */
  datatype Resources = Resources(crtcs: seq<nat>, connectors: seq<Option<Connector>>)

  /** The dirty rectangle used with the vmwgfx quirk. */
  datatype Clip = Clip(x1: int, y1: int, x2: int, y2: int)

  /** One overlay plane kept by the plane inventory (`struct gralloc_kms_plane`). */
  datatype KmsPlane = KmsPlane(id: nat, formats: seq<nat>)

  datatype SwapMode = NoOp | Flip | Copy | SetCrtc

  /** What a backend's `init_kms_features` hook may set. */
  datatype KmsFeatures = KmsFeatures(
    fbFormat: int, swapMode: SwapMode, swapInterval: int,
    vblankSecondary: bool, modeSyncFlip: bool, quirkVmwgfx: bool)

  /** The allocator backend behind `drm->drv`: the OMAP one, whose hook is
      modelled exactly, or another one whose hook installs fixed features and
      whose copy operation blits pixels. */
  datatype Backend = Omap | Generic(features: KmsFeatures)

  // ---------------------------------------------------------------- objects

  /** The gralloc native handle; the layer only ever writes `stride`. */
  class Handle {
    const width: nat
    const height: nat
    const format: int
    const usage: bv32
    const name: nat
    var stride: nat

    constructor (width: nat, height: nat, format: int, usage: bv32, name: nat)
      ensures this.width == width && this.height == height && this.format == format
      ensures this.usage == usage && this.name == name && stride == 0
    {
      this.width, this.height, this.format := width, height, format;
      this.usage, this.name, stride := usage, name, 0;
    }
  }

  /** A buffer object.  `content` is an abstract token for its pixels. */
  class Bo {
    const handle: Handle
    var fbId: nat
    var fbHandle: nat
    var content: int

    constructor (handle: Handle, fbHandle: nat)
      ensures this.handle == handle && this.fbHandle == fbHandle && fbId == 0 && content == 0
    {
      this.handle, this.fbHandle := handle, fbHandle;
      fbId, content := 0, 0;
    }
  }

  /** Every field of the display handle, as one value. */
  datatype DrmState = DrmState(
    resources: Option<Resources>, crtcId: nat, connectorId: nat, mode: ModeInfo,
    fbFormat: int, clip: Clip,
    swapMode: SwapMode, swapInterval: int, vblankSecondary: bool, modeSyncFlip: bool,
    quirkVmwgfx: bool,
    firstPost: bool, currentFront: Bo?, nextFront: Bo?, waitingFlip: bool, lastSwap: u32,
    planes: seq<KmsPlane>, signalTarget: bool, destroyed: seq<Bo>)

  /** The display handle.  `signalTarget` is "the process-wide signal
      handler points at this handle"; `destroyed` logs the buffers handed to
      `gralloc_drm_bo_destroy`. */
  class Drm {
    const drv: Backend
    var resources: Option<Resources>
    var crtcId: nat
    var connectorId: nat
    var mode: ModeInfo
    var fbFormat: int
    var clip: Clip
    var swapMode: SwapMode
    var swapInterval: int
    var vblankSecondary: bool
    var modeSyncFlip: bool
    var quirkVmwgfx: bool
    var firstPost: bool
    var currentFront: Bo?
    var nextFront: Bo?
    var waitingFlip: bool
    var lastSwap: u32
    var planes: seq<KmsPlane>
    var signalTarget: bool
    ghost var destroyed: seq<Bo>

    /** A freshly zero-allocated handle, before KMS initialisation. */
    constructor (drv: Backend)
      ensures this.drv == drv
      ensures State() == DrmState(None, 0, 0, ModeInfo(0, 0, 0, 0, ""), 0, Clip(0, 0, 0, 0),
                                  NoOp, 0, false, false, false,
                                  false, null, null, false, 0, [], false, [])
    {
      this.drv := drv;
      resources, crtcId, connectorId := None, 0, 0;
      mode, fbFormat, clip := ModeInfo(0, 0, 0, 0, ""), 0, Clip(0, 0, 0, 0);
      swapMode, swapInterval, vblankSecondary, modeSyncFlip, quirkVmwgfx := NoOp, 0, false, false, false;
      firstPost, currentFront, nextFront, waitingFlip, lastSwap := false, null, null, false, 0;
      planes, signalTarget, destroyed := [], false, [];
    }

    ghost function State(): DrmState
      reads this
    {
      DrmState(resources, crtcId, connectorId, mode, fbFormat, clip,
               swapMode, swapInterval, vblankSecondary, modeSyncFlip, quirkVmwgfx,
               firstPost, currentFront, nextFront, waitingFlip, lastSwap,
               planes, signalTarget, destroyed)
    }
  }
}
