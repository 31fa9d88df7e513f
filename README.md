# KMS posting layer of the DRM gralloc module, in Dafny

This project models the kernel mode-setting (KMS) layer of the Android DRM gralloc module and proves properties of the model. That layer is `gralloc_drm_kms.c`, plus the OMAP backend's `gralloc_drm_omap.c`.

The layer covers:
- **Mode selection.** It finds a connector, an encoder-compatible CRTC and a display mode.
- **Framebuffer binding and posting.** It binds buffers to kernel framebuffers (fbs) and posts them by page flip, by copy into a private front buffer, or by reprogramming the CRTC.
- **Vblank pacing.** Posts are paced against the vertical-blank counter.
- **Plane inventory.** It keeps an inventory of overlay planes.
- **The OMAP backend** fixes the scheduler configuration and gives the allocation and mapping rules.

Kernel and library calls are not executed. Their answers are parameters, given as values of datatypes (`PostReplies`, `FrontReplies`, `PlanesReplies`, `VBlankReply`, `AddFbReply`, `OmapAllocReplies`, ...). Each operation is modelled for every combination of answers.

Files:
- `Types.dfy` (module `DrmTypes`)
  - `Handle` is the gralloc handle, `Bo` is `struct gralloc_drm_bo_t` and `Drm` is `struct gralloc_drm_t`.
  - `State()` is a snapshot of the display handle as one `DrmState` value.
  - It also holds the kernel answer types, the HAL constants and `unsigned int` wrap-around.
- `Formats.dfy`: the HAL-to-DRM format table and its two lookups.
- `ModeSelect.dfy`: the mode chooser `find_mode`, the CRTC choice and the fb-format choice of `drm_kms_init_with_connector`.
- `Pacing.dfy`: the arithmetic of `drm_kms_wait_for_post`, as the function `Pace`.
- `Planes.dfy`: `gralloc_kms_planes_init` and `gralloc_kms_plane_add`.
- `Omap.dfy`: `omap_init_kms_features`, `omap_alloc` and `omap_map`.
- `Kms.dfy`: fb binding, `drm_kms_set_crtc`, the flip scheduler, posting, initialisation and teardown.

How the model is written:
- Each method that changes the display handle has an `ensures` that gives the new `State()` in terms of the old one.
  - Most equate it with a function of the old state: `Scheduled(Drained(...))` for page flips, `PostOutcome` for posts, and `Configure`, `TornDown`, `ScanPlanes` and `OmapConfigure`.
  - Where the source makes a choice or allocates, the new state is given by a predicate instead. `FrontCreated` covers the fresh front buffer. `ApplyConnector` names the chosen mode through `exists k :: ChosenMode(..) && .. Configured(..)`. `ConfiguredFor` and `Initialised` also name the chosen CRTC position (and, for `Initialised`, the connector) as witnesses; `InitWithConnector`, `SelectConnector`, `Connect`, `Activate` and `InitKms` use them.
  - Where the handle holds a freshly allocated front buffer, the methods also state, outside the snapshot, that it is fresh and which fb it carries.
- Methods that change a buffer rather than the handle (`AddFb`, `RmFb`, `BackendCopy`, `OmapAlloc`) state the buffer's new fields directly.
- Lemmas about those functions state what the layer promises.
- `content` on a `Bo` is an abstract token for its pixels, so the backend copy is a transfer of that token.
- `destroyed` on `Drm` logs the buffers handed to `gralloc_drm_bo_destroy`.
- `signalTarget` on `Drm` records whether the process-wide signal handler points at the handle.

## Behaviour of the code worth noting

- **Bit-depth hint.** `drm_kms_init_with_connector` maps `bpp / 8 == 2` to RGB_565, with C truncating division. Any hint from 16 to 23 bits therefore selects RGB_565 (`ModeSelect.HintDepthFormat`).
- **Vblank wait test.** A flip post issues the blocking wait only while the current vblank is still before the target (`current < target`). Once the target has been reached it does not wait. A non-flip post always waits, for the later of the target and the current vblank, with `DRM_VBLANK_NEXTONMISS` (`Pacing.Pace`).
- **First post.** It never reaches the pacing code, because `gralloc_drm_bo_post` returns from its first-post branch before any pacing. The `first_post` case of `drm_kms_wait_for_post` is still modelled in `Pace`.
- **Copy-mode dirty rectangle.** A post in copy mode under the vmwgfx quirk ignores the result of `drmModeDirtyFB` and returns 0.

## Model

| member | source | states |
|---|---|---|
| `Formats.HalToDrmFormat` | gralloc_drm_kms.c:63-73 | The loop returns exactly the reference lookup `DrmForHal` over the table, end marker included. |
| `Formats.FormatBpp` | gralloc_drm_kms.c:75-85 | The loop returns exactly the reference lookup `BppForDrm` keyed on the DRM fourcc. |
| `Formats.DrmForHalFirstMatch` | gralloc_drm_kms.c:63-73 | The HAL lookup yields the `drm` of the first row that matches before the end marker, and 0 when no row does. |
| `Formats.BppForDrmFirstMatch` | gralloc_drm_kms.c:75-85 | The fourcc lookup yields the `bpp` of the first matching row before the end marker, and 0 when no row matches. |
| `Formats.TableKeysDistinct` | gralloc_drm_kms.c:41-61 | The ten real rows have non-zero and pairwise distinct HAL and DRM keys. |
| `Formats.TableRoundTrip` | gralloc_drm_kms.c:41-85 | For every real row, HAL lookup gives its fourcc, and looking that fourcc up gives the row's bits per pixel. |
| `Formats.UnknownHalFormat` | gralloc_drm_kms.c:63-73 | A HAL format absent from the table, 0 included, maps to 0. |
| `ModeSelect.Distance` | gralloc_drm_kms.c:443-446 | The squared distance is non-negative, and 0 exactly for the hinted resolution. |
| `ModeSelect.FindMode` | gralloc_drm_kms.c:413-467 | With a resolution hint: the first mode of least squared distance. When every distance reaches INT_MAX: mode 0. Without a hint: the first preferred mode, else mode 0. The depth output is the hint divided by 8 with C truncation. |
| `ModeSelect.ChosenModeUnique` | gralloc_drm_kms.c:437-462 | The selection policy picks exactly one index. |
| `ModeSelect.CDiv` | gralloc_drm_kms.c:464 | C division truncating toward zero: the quotient brackets the dividend from the side of zero. |
| `ModeSelect.FirstPossibleCrtc` | gralloc_drm_kms.c:486-489 | Returns the lowest CRTC position whose bit is set in `possible_crtcs`. Returns the CRTC count when none is set. |
| `ModeSelect.FbFormatForBpp` | gralloc_drm_kms.c:516-524 | The fb format is always RGB_565 or BGRA_8888. |
| `ModeSelect.HintDepthFormat` | gralloc_drm_kms.c:516-524 | A hinted depth selects RGB_565 exactly when it lies in 16..23 bits. It selects BGRA_8888 otherwise, including with no hint. |
| `ModeSelect.PreferredModeScenario` | gralloc_drm_kms.c:447-450 | Modes 1920x1080 and 1280x720 (preferred) with no hint: the only choice is 1280x720. |
| `ModeSelect.ExactHintScenario` | gralloc_drm_kms.c:443-457 | Hint 1024x768 against 1920x1080, 1280x720 and 1024x768: the only choice is the exact match. |
| `Pacing.Pace` | gralloc_drm_kms.c:196-248 | All arithmetic is modulo 2^32. With the vmwgfx quirk no request is made. Otherwise the current vblank is queried relative, with `DRM_VBLANK_SECONDARY` exactly when `vblank_secondary` is set. A failed query means no wait and `last_swap` unchanged. Every blocking wait is absolute, carries the same secondary flag, and carries `DRM_VBLANK_NEXTONMISS` exactly for a non-flip post. The target is `current` on the first post, else `last_swap + interval - flip`. A non-flip post always waits for at least `current`. A flip post waits only while the target is ahead. The new `last_swap` is the reply plus `flip` after a wait. It is unchanged when the wait fails, and `current + 1` when no wait is issued. |
| `Pacing.PacingThrottles` | gralloc_drm_kms.c:221-247 | When the kernel returns on or after the requested vblank and no counter wraps, consecutive swaps are at least `swap_interval` vblanks apart. When no wait is needed, the baseline is already past the target. |
| `Omap.OmapConfigure` | gralloc_drm_omap.c:147-162 | The resulting configuration is flip mode, synchronous flips, interval 0 and primary vblank. The fb format is kept when it is BGRA_8888 or RGB_565, else it becomes BGRA_8888. No other field changes. |
| `Omap.OmapInitKmsFeatures` | gralloc_drm_omap.c:142-167 | The hook's new handle state is `OmapConfigure` of the old one. |
| `Omap.OmapAlloc` | gralloc_drm_omap.c:64-106 | Returns null exactly when `calloc`, `omap_bo_from_name` (named handle) or `omap_bo_new` (fresh allocation) fails. On success the buffer is fresh, points at the handle and has no fb. It gets `fb_handle` only with the HW_FB usage bit. A fresh allocation sets `stride` to 0. |
| `Omap.OmapMap` | gralloc_drm_omap.c:117-131 | The address is what `omap_bo_map` gave, and the result is -1 exactly when that address is NULL, 0 otherwise. |
| `Planes.FindCrtcOrder` | gralloc_drm_kms.c:710-718 | Returns the first position of the active CRTC in the kernel's CRTC list. Returns the list length exactly when the CRTC is absent. |
| `Planes.KeptExactly` | gralloc_drm_kms.c:728-748 | A plane record is kept exactly when some plane with the CRTC's bit in `possible_crtcs` produced it. No more planes are kept than listed. |
| `Planes.ScanAllOk` | gralloc_drm_kms.c:728-748 | When every fetch and allocation succeeds, the loop appends exactly the compatible planes in kernel order and returns 0. |
| `Planes.ScanOutcome` | gralloc_drm_kms.c:728-748 | The loop returns 0 exactly when every fetch succeeds and every kept plane's allocations succeed. A success only appends to the list it started from. |
| `Planes.InventoryWhenAllSucceed` | gralloc_drm_kms.c:694-767 | When every answer is favourable, the inventory gains exactly the planes compatible with the active CRTC. |
| `Planes.PlaneAdd` | gralloc_drm_kms.c:658-692 | A successful add appends the plane's id and formats verbatim. A failed record allocation changes nothing. A failed array growth empties the list. Both failures return ENOMEM. |
| `Planes.PlanesInit` | gralloc_drm_kms.c:694-767 | With no resources, no CRTC in the list or no plane resources: -EINVAL and nothing changes. Otherwise it matches the plane loop from the first position of the CRTC. |
| `Planes.AddCompatiblePlanes` | gralloc_drm_kms.c:728-750 | The plane loop as a change of the whole handle: the result and the final plane list of the reference `ScanPlanes`, and no other field changed. |
| `Planes.ScanPlaneLoop` | gralloc_drm_kms.c:728-748 | The imperative plane loop has the result and final plane list of the reference `ScanPlanes`. |
| `Kms.NeedFb` | gralloc_drm_kms.c:90-94 | No contract of its own: HW_FB usage outside copy mode. `Kms.NeedFbMatchesPost` ties it to the post guard. |
| `Kms.NeedFbMatchesPost` | gralloc_drm_kms.c:90-94 | For a scanout buffer, `need_fb` is false exactly when the post guard accepts the buffer without an fb. |
| `Kms.AddFb` | gralloc_drm_kms.c:99-112 | A buffer that already has an fb: returns 0 and keeps it. Otherwise it takes the kernel's new id or stays at 0 with the negated errno. The result is 0 exactly when the buffer ends with an fb. |
| `Kms.RmFb` | gralloc_drm_kms.c:117-123 | The fb id is always 0 afterwards, so a second call changes nothing. The kernel is asked to remove exactly the old non-zero id. |
| `Kms.SetCrtcResult` | gralloc_drm_kms.c:128-143 | Success exactly when `drmModeSetCrtc` succeeds and, under the vmwgfx quirk, `drmModeDirtyFB` succeeds too. A set-crtc failure is returned as is. |
| `Kms.PageFlipHandler` | gralloc_drm_kms.c:148-157 | The pending buffer becomes the current front and nothing is pending. |
| `Kms.PageFlip` | gralloc_drm_kms.c:162-191 | A pending flip is drained whether or not the event handler ran. The flip is then scheduled. The result is 0 for a drain-only call, else the flip's answer. |
| `Kms.PageFlipOutcome` | gralloc_drm_kms.c:166-190 | The old pending buffer, if any, becomes current. Only a successfully flipped buffer is pending. Nothing else changes but `waiting_flip`. |
| `Kms.WaitForPost` | gralloc_drm_kms.c:196-248 | The two `drmWaitVBlank` requests issued (type flags and sequence) and the new `last_swap` are those of `Pace`. Only `last_swap` changes. |
| `Kms.Post` | gralloc_drm_kms.c:253-327 | A buffer without fb outside copy mode: -EINVAL and nothing changes. Otherwise the result and the new state are `PostOutcome`. Of the buffers, only the copy target's pixels may change (the frame is its `content` field alone): they become the posted buffer's under a generic backend. The posted buffer's fb id never changes. |
| `Kms.FirstPost` | gralloc_drm_kms.c:265-287 | The first-post branch computes `PostOutcome` and copies into the target in copy mode, changing no other field of any buffer. |
| `Kms.PostOutcome` | gralloc_drm_kms.c:253-327 | No contract of its own: the reference definition of a post that passes the guard. Its properties are the lemmas in the rows that follow it. |
| `Kms.PostFrame` | gralloc_drm_kms.c:262-326 | A post changes only the front slots, the first-post flag, `last_swap` and `waiting_flip`. The mode, the configuration, the resources and the plane list stay. |
| `Kms.FirstPostSettles` | gralloc_drm_kms.c:265-287 | The first post either returns 0 and leaves the first-post state, or fails and changes nothing. A later post never re-enters the first-post state. |
| `Kms.FlipPostStep` | gralloc_drm_kms.c:289-305 | The flip branch paces only above interval one. It flips, then drains when synchronous flips are requested or the current front is CPU-written. |
| `Kms.FirstPostOutcome` | gralloc_drm_kms.c:265-287 | The presented buffer is the caller's, or in copy mode the parked front buffer first. On CRTC success: first-post cleared, the presented buffer current and no longer pending. On failure nothing changes. |
| `Kms.PostKeepsReady` | gralloc_drm_kms.c:253-327 | Posting preserves the facts later posts dereference: a copy target in copy mode, a current front in flip mode. |
| `Kms.PostPending` | gralloc_drm_kms.c:289-325 | Copy and no-op posts leave both fronts alone. Set-crtc makes the posted buffer current. A flip leaves nothing or the posted buffer pending. After a successful flip the posted buffer is pending or current. |
| `Kms.IsKmsInitialized` | gralloc_drm_kms.c:621-624 | No contract of its own: true exactly when the resources are held. `Kms.InitKms` ties it to a 0 result, and `Kms.TeardownOutcome` shows that teardown clears it. |
| `Kms.IsKmsPipelined` | gralloc_drm_kms.c:648-651 | No contract of its own: true for every swap mode but set-crtc. `Kms.PipelinedPosting` states what that means for a post. |
| `Kms.PipelinedPosting` | gralloc_drm_kms.c:648-651 | In the non-pipelined mode (set-crtc) the posted buffer is current at once. A successful flip with no forced drain leaves it pending. |
| `Kms.OmapFlipPost` | gralloc_drm_kms.c:289-304 | Under the OMAP configuration a flip post never paces and always ends with nothing pending. A successful flip makes the posted buffer current. |
| `Kms.BackendCopy` | gralloc_drm_omap.c:53-62 | A generic backend copies the source's pixels. The OMAP `copy` leaves the destination unchanged. |
| `Kms.InitKmsFeaturesHook` | gralloc_drm_kms.c:351-352 | The backend hook's effect is `Configure`: OMAP's fixed configuration, or the generic backend's features. |
| `Kms.InitFeatures` | gralloc_drm_kms.c:347-411 | The new state satisfies `FeaturesInstalled`. After the hook, flip mode points the signal handler at the handle, copy mode creates the front buffer (`FrontCreated`), and other modes change nothing more. If the handle ends in copy mode, the parked `next_front` is a freshly created buffer holding the fb id `drmModeAddFB` returned (`ParkedFront`). |
| `Kms.FeaturesInstalledKeeps` | gralloc_drm_kms.c:347-411 | Installing the features keeps the resources, connector, CRTC, mode, dirty rectangle, current front and first-post flag. |
| `Kms.FeaturesInstalledReady` | gralloc_drm_kms.c:374-393 | Once the first-post flag is set, the handle satisfies `PostReady`. In copy mode the front buffer exists, or the mode has fallen back to set-crtc. |
| `Kms.OmapFeaturesInstalled` | gralloc_drm_omap.c:147-162 | Under OMAP the features are `OmapConfigure` of the old state with the signal handler aimed at the handle. The result is always flip mode, never copy mode. |
| `Kms.CreateFront` | gralloc_drm_kms.c:374-393 | On success a fresh full-screen HW_FB buffer with the mode's geometry and its new fb is parked in `next_front`. If creation or `add_fb` fails, the mode falls back to set-crtc and a created buffer is destroyed. Nothing else changes. |
| `Kms.InitWithConnector` | gralloc_drm_kms.c:472-543 | Succeeds exactly for a connector with a mode, an encoder and a CRTC bit below the CRTC count, and then configures the handle (`ConfiguredFor`). Otherwise -EINVAL and nothing changes. |
| `Kms.ApplyConnector` | gralloc_drm_kms.c:494-541 | Sets the CRTC id at the chosen position and the connector id. Sets the mode `find_mode` picks, the hinted fb format and the full-screen dirty rectangle. |
| `Kms.SelectConnector` | gralloc_drm_kms.c:561-576 | Finds a connector exactly when some connector is usable. It configures the handle for the first usable one, and changes nothing when none is usable. |
| `Kms.InitKms` | gralloc_drm_kms.c:548-589 | An initialised handle is left alone with result 0. Otherwise the result is 0 exactly when the resources exist and some connector is usable. The whole handle snapshot is then `Initialised`: configured for the first usable connector, with the backend's features installed and the first post pending. In copy mode the parked front buffer is also fresh and holds its new fb (`ParkedFront`). On failure: -EINVAL and nothing changes. The handle is initialised afterwards exactly when the result is 0. |
| `Kms.Connect` | gralloc_drm_kms.c:555-583 | With the resources answered: success exactly when some connector is usable, and the handle then holds the resources and is `ConfiguredFor` the first usable connector. On failure the resources are released again and nothing changes. |
| `Kms.Activate` | gralloc_drm_kms.c:585-588 | From a handle configured for the first usable connector, installing the features and entering the first-post state gives `Initialised`. In copy mode the parked front buffer is fresh and holds its new fb (`ParkedFront`). |
| `Kms.InitialisedOutcome` | gralloc_drm_kms.c:548-589 | An initialised handle holds the resources, is in the first-post state and is ready to post. It drives the first usable connector through the first CRTC its encoder allows, in the mode `find_mode` picks. |
| `Kms.OmapInitialised` | gralloc_drm_kms.c:548-589 | Under OMAP an initialised handle is in OMAP's synchronous flip configuration (interval 0, primary CRTC) with the signal handler aimed at it. The first post takes the set-crtc branch; each later post is a flip post, to which the facts of `Kms.OmapFlipPost` apply. |
| `Kms.Fini` | gralloc_drm_kms.c:591-619 | The new state is `TornDown` of the old one. |
| `Kms.ReleaseFronts` | gralloc_drm_kms.c:593-609 | The mode-specific part of the teardown: a final drain in flip mode, and releasing one front buffer in copy mode. |
| `Kms.TeardownOutcome` | gralloc_drm_kms.c:591-619 | The handle ends uninitialised with no signal target. In flip mode nothing is pending. In copy mode the current front is destroyed and cleared, or else the parked front buffer is, and only that slot is cleared. Other modes destroy nothing. |

## Left out

- The hwcomposer modules. They are module lookup, logging and an EGL swap.
- `on_signal` and the `sigaction` setup, which cover signals, `usleep` and `exit`. Only the handler's target is kept, as `signalTarget`.
- The DPI computation, which uses floating point.
- `gralloc_drm_get_kms_info`, which only copies handle fields into the framebuffer device description; it is outside the modelled core.
- `property_get` and the `sscanf` parsing of `debug.drm.mode`. The parsed hint is the `ModeHint` parameter, with all fields 0 when there is no property.
- Logging and the fourcc dump at the end of `gralloc_kms_planes_init`.
- `calloc` / `realloc` / `free` bookkeeping. The plane array is a sequence, and the leak of the old array when `realloc` fails is not represented.
- libdrm and libdrm_omap internals. Their answers are parameters.
- `gralloc_drm_get_bpp`, which is not part of this model. The bpp passed to `drmModeAddFB` is therefore not modelled.
- `gralloc_drm_bo_create` and `gralloc_drm_bo_destroy` are not part of this model. The copy-mode front buffer is a fresh `Bo`, and destruction is a log entry.
- `omap_free`, `omap_unmap`, `omap_destroy` and `gralloc_drm_drv_create_for_omap`. They only free memory, log, or fill a function table. The backend is the `Backend` datatype.
- Which CRTC, fb and mode the kernel is actually showing. `drmModeSetCrtc` and `drmModePageFlip` only contribute their return codes.
- The generic (non-OMAP) backends' `init_kms_features`, which is not part of this model. It is represented as installing a fixed `KmsFeatures` value.
- `ModeSelect.Distance`: C `int` overflow of the squared distance for absurd hints is not modelled, because distances are unbounded integers.
- `DrmTypes.HasBit`: `1 << i` for `i >= 32` is undefined behaviour in C. The model treats such bits as clear.
- `Kms.InitWithConnector`: `connector->encoders[0]` is read even when the connector lists no encoders. The model only sees whether `drmModeGetEncoder` returned an encoder.
- `Kms.PageFlip`: `drmHandleEvent` is modelled as either delivering the one pending flip event or returning without it. Other events and error returns are not distinguished.
- `Pacing.Pace`: the answer of the blocking `drmWaitVBlank` is a parameter, not tied to the requested sequence. `Pacing.PacingThrottles` assumes the kernel returns on or after the requested vblank and that no counter wraps.
- `Kms.BackendCopy`: the copy rectangle `(0, 0, width, height)` of the posted buffer, which `gralloc_drm_bo_post` passes to `drv->copy`, is not modelled. The copy moves the whole abstract `content` token. Every generic backend is assumed to copy.
- `Kms.ApplyConnector`: the dirty rectangle is set unconditionally. The source sets it only when `DRM_MODE_FEATURE_DIRTYFB` is defined at build time, and the model takes that build.
