/**
 * The KMS posting layer: framebuffer binding of buffers, CRTC programming,
 * the flip scheduler (`current_front` / `next_front`), vblank pacing, the
 * post dispatcher, and KMS initialisation and teardown.
 *
 * The state-changing operations are methods on the display handle whose
 * `ensures` tie the new `State()` to a function of the old one; the
 * properties the layer promises are lemmas about those functions.
 */
module Kms {
  import opened DrmTypes
  import opened ModeSelect
  import opened Pacing
  import opened Omap

  // ---------------------------------------------------------------- framebuffer binding

  /** `gralloc_drm_bo_need_fb`: a scanout buffer needs a kernel fb unless
      posting copies it into the layer's own front buffer. */
  predicate NeedFb(usage: bv32, swapMode: SwapMode)
  {
    usage & GRALLOC_USAGE_HW_FB != 0 && swapMode != Copy
  }

  /** The guard of `gralloc_drm_bo_post`: a buffer without fb is refused
      unless the swap mode is copy. */
  predicate PostAccepts(fbId: nat, swapMode: SwapMode)
  {
    fbId != 0 || swapMode == Copy
  }

  /** The two agree: a scanout buffer that `need_fb` exempts from an fb is
      exactly one the post guard accepts without an fb. */
  lemma NeedFbMatchesPost(usage: bv32, swapMode: SwapMode)
    requires usage & GRALLOC_USAGE_HW_FB != 0
    ensures !NeedFb(usage, swapMode) <==> PostAccepts(0, swapMode)
  {
  }

  /** The answer of `drmModeAddFB`: a new fb id, or a failure. */
  datatype AddFbReply = AddFbOk(id: FbId) | AddFbFailed(errno: Errno)

  /** `gralloc_drm_bo_add_fb`.  The kernel is asked only when the buffer
      has no fb yet. */
  method AddFb(bo: Bo, reply: AddFbReply) returns (ret: int)
    modifies bo`fbId
    ensures old(bo.fbId) != 0 ==> ret == 0 && bo.fbId == old(bo.fbId)
    ensures old(bo.fbId) == 0 && reply.AddFbOk? ==> ret == 0 && bo.fbId == reply.id
    ensures old(bo.fbId) == 0 && reply.AddFbFailed? ==> ret == -(reply.errno as int) && bo.fbId == 0
    ensures ret == 0 <==> bo.fbId != 0
  {
    if bo.fbId != 0 {
      return 0;
    }
    match reply
    case AddFbOk(id) =>
      bo.fbId := id;
      ret := 0;
    case AddFbFailed(e) =>
      ret := -(e as int);
  }

  /** `gralloc_drm_bo_rm_fb`; `removed` is the fb id handed to
      `drmModeRmFB`, None when the kernel is not called. */
  method RmFb(bo: Bo) returns (removed: Option<FbId>)
    modifies bo`fbId
    ensures bo.fbId == 0
    ensures removed == (if old(bo.fbId) == 0 then None else Some(old(bo.fbId)))
  {
    removed := None;
    if bo.fbId != 0 {
      removed := Some(bo.fbId);
      bo.fbId := 0;
    }
  }

  // ---------------------------------------------------------------- CRTC programming

  /** `drm_kms_set_crtc` given the answers of `drmModeSetCrtc` and, under
      the vmwgfx quirk, of `drmModeDirtyFB`. */
  function SetCrtcResult(quirkVmwgfx: bool, setRet: int, dirtyRet: int): (ret: int)
    ensures ret == 0 <==> setRet == 0 && (quirkVmwgfx ==> dirtyRet == 0)
    ensures setRet != 0 ==> ret == setRet
    ensures setRet == 0 && quirkVmwgfx ==> ret == dirtyRet
  {
    if setRet != 0 then setRet
    else if quirkVmwgfx then dirtyRet
    else 0
  }

  // ---------------------------------------------------------------- the flip scheduler

  /** The state once no flip is pending: a pending buffer is promoted to
      current front, by the event handler or by the forced promotion. */
  function Drained(s: DrmState): DrmState
  {
    if s.nextFront == null then s
    else s.(currentFront := s.nextFront, nextFront := null, waitingFlip := false)
  }

  /** The state after `drmModePageFlip` for `bo` answered `flipRet`. */
  function Scheduled(s: DrmState, bo: Bo?, flipRet: int): DrmState
  {
    if bo != null && flipRet == 0 then s.(nextFront := bo) else s
  }

  /** `page_flip_handler`: the last scheduled flip is acknowledged. */
  method PageFlipHandler(drm: Drm)
    modifies drm
    ensures drm.State() == old(drm.State()).(currentFront := old(drm.nextFront), nextFront := null)
  {
    drm.currentFront := drm.nextFront;
    drm.nextFront := null;
  }

  /** `drm_kms_page_flip`.  `handlerRuns` says whether `drmHandleEvent`
      delivers the flip event; `flipRet` is the answer of `drmModePageFlip`. */
  method PageFlip(drm: Drm, bo: Bo?, handlerRuns: bool, flipRet: int) returns (ret: int)
    modifies drm
    ensures ret == (if bo == null then 0 else flipRet)
    ensures drm.State() == Scheduled(Drained(old(drm.State())), bo, flipRet)
  {
    while drm.nextFront != null
      invariant drm.State() == old(drm.State()) || drm.State() == Drained(old(drm.State()))
      invariant drm.nextFront == null ==> drm.State() == Drained(old(drm.State()))
      decreases if drm.nextFront == null then 0 else 1
    {
      drm.waitingFlip := true;
      if handlerRuns {
        PageFlipHandler(drm);
      }
      drm.waitingFlip := false;
      if drm.nextFront != null {
        drm.currentFront := drm.nextFront;
        drm.nextFront := null;
      }
    }
    if bo == null {
      return 0;
    }
    ret := flipRet;
    if ret == 0 {
      drm.nextFront := bo;
    }
  }

  /** After `drm_kms_page_flip`, an earlier pending buffer has become the
      current front, and only a successfully scheduled buffer is pending;
      nothing else changes but the `waiting_flip` flag. */
  lemma PageFlipOutcome(s: DrmState, bo: Bo?, flipRet: int)
    ensures var t := Scheduled(Drained(s), bo, flipRet);
      t.currentFront == (if s.nextFront != null then s.nextFront else s.currentFront) &&
      t.nextFront == (if bo != null && flipRet == 0 then bo else null) &&
      t.(currentFront := s.currentFront, nextFront := s.nextFront, waitingFlip := s.waitingFlip) == s
  {
    var d := Drained(s);
    assert d.(currentFront := s.currentFront, nextFront := s.nextFront, waitingFlip := s.waitingFlip) == s;
  }

  // ---------------------------------------------------------------- vblank pacing

  /** `drm_kms_wait_for_post`.  `query` answers the relative request for the
      current vblank, `wait` the blocking absolute request; `queried` and
      `request` are the two requests made, None for one not made. */
  method WaitForPost(drm: Drm, flip: bool, query: VBlankReply, wait: VBlankReply)
    returns (queried: Option<VBlankRequest>, request: Option<VBlankRequest>)
    modifies drm`lastSwap
    ensures var p := Pace(drm.quirkVmwgfx, drm.vblankSecondary, drm.firstPost, old(drm.lastSwap), drm.swapInterval,
                          flip, query, wait);
      queried == p.query && request == p.request && drm.lastSwap == p.lastSwap
  {
    queried, request := None, None;
    if drm.quirkVmwgfx {
      return;
    }
    var flipBit := if flip then 1 else 0;
    queried := Some(VBlankRequest(false, 0, drm.vblankSecondary, false));
    match query
    case VBlankFailed =>
      return;
    case VBlankOk(current) =>
      var target: u32;
      if drm.firstPost {
        target := current;
      } else {
        target := Wrap(drm.lastSwap + drm.swapInterval - flipBit);
      }
      var reply: int := current;
      if current < target || !flip {
        if !flip && target < current {
          target := current;
        }
        request := Some(VBlankRequest(true, target, drm.vblankSecondary, !flip));
        match wait
        case VBlankFailed =>
          return;
        case VBlankOk(reached) =>
          reply := reached;
      }
      drm.lastSwap := Wrap(reply + flipBit);
  }

  // ---------------------------------------------------------------- posting

  /** The answers of the kernel calls one post may make. */
  datatype PostReplies = PostReplies(
    setCrtcRet: int,          // drmModeSetCrtc
    dirtyFbRet: int,          // drmModeDirtyFB after it (vmwgfx quirk)
    query: VBlankReply,       // drmWaitVBlank for the current vblank
    wait: VBlankReply,        // drmWaitVBlank blocking on the target
    drainHandled: bool,       // drmHandleEvent before the flip
    flipRet: int,             // drmModePageFlip
    syncDrainHandled: bool)   // drmHandleEvent in the drain after the flip

  /** What the post dereferences without checking: in copy mode the buffer
      it copies into, in flip mode (after the first post) the current front. */
  ghost predicate PostReady(s: DrmState)
  {
    (s.swapMode == Copy && s.firstPost ==> s.nextFront != null || s.currentFront != null) &&
    (s.swapMode == Copy && !s.firstPost ==> s.currentFront != null) &&
    (s.swapMode == Flip && !s.firstPost ==> s.currentFront != null)
  }

  /** The buffer a copy-mode post writes into: on the first post the
      layer's front buffer still parked in `next_front` when there is one,
      else the current front; null outside copy mode. */
  function CopyTarget(s: DrmState): Bo?
  {
    if s.swapMode != Copy then null
    else if s.firstPost && s.nextFront != null then s.nextFront
    else s.currentFront
  }

  /** `CopyTarget` as a frame: the buffers whose pixels a post may overwrite. */
  function CopyTargets(s: DrmState): set<Bo>
  {
    if CopyTarget(s) == null then {} else {CopyTarget(s)}
  }

  /** The backend's `copy`: the generic backends blit the source into the
      destination; the OMAP `copy` entry point does nothing. */
  method BackendCopy(drv: Backend, dst: Bo, src: Bo)
    modifies dst`content
    ensures dst.content == (if drv.Generic? then old(src.content) else old(dst.content))
  {
    if drv.Generic? {
      dst.content := src.content;
    }
  }

  datatype Posted = Posted(state: DrmState, ret: int)

  /** Whether the drain after a flip is forced: the driver asks for
      synchronous flips, or the current front is written by the CPU. */
  predicate SyncAfterFlip(s: DrmState)
  {
    s.modeSyncFlip ||
    (s.currentFront != null && s.currentFront.handle.usage & GRALLOC_USAGE_SW_WRITE_MASK != 0)
  }

  /** A flip-mode post: pacing when the swap interval exceeds one, the flip,
      then a drain when a flip is pending and `SyncAfterFlip` holds. */
  function FlipPost(s: DrmState, bo: Bo, r: PostReplies): DrmState
  {
    var flipped := Scheduled(Drained(FlipPaced(s, r)), bo, r.flipRet);
    if flipped.nextFront != null && SyncAfterFlip(flipped) then Drained(flipped) else flipped
  }

  /** The pacing before a flip, which happens only for swap intervals above one. */
  function FlipPaced(s: DrmState, r: PostReplies): DrmState
  {
    if s.swapInterval > 1
    then s.(lastSwap := Pace(s.quirkVmwgfx, s.vblankSecondary, s.firstPost, s.lastSwap, s.swapInterval, true, r.query, r.wait).lastSwap)
    else s
  }

  /** `gralloc_drm_bo_post` for a buffer the guard accepts. */
  function PostOutcome(s: DrmState, bo: Bo, r: PostReplies): Posted
  {
    var crtc := SetCrtcResult(s.quirkVmwgfx, r.setCrtcRet, r.dirtyFbRet);
    if s.firstPost then
      var shown := if s.swapMode == Copy then CopyTarget(s) else bo;
      if crtc == 0 then
        Posted(s.(firstPost := false, currentFront := shown,
                  nextFront := if s.nextFront == shown then null else s.nextFront), 0)
      else Posted(s, crtc)
    else
      var paced := Pace(s.quirkVmwgfx, s.vblankSecondary, s.firstPost, s.lastSwap, s.swapInterval, false, r.query, r.wait).lastSwap;
      match s.swapMode
      case Flip => Posted(FlipPost(s, bo, r), r.flipRet)
      case Copy => Posted(s.(lastSwap := paced), 0)
      case SetCrtc => Posted(s.(lastSwap := paced, currentFront := bo), crtc)
      case NoOp => Posted(s, 0)
  }

  /** `t` differs from `s` at most in the front slots, the first-post flag,
      the pacing baseline and the flip-pending flag. */
  predicate FrontsOnly(s: DrmState, t: DrmState)
  {
    t.resources == s.resources && t.crtcId == s.crtcId && t.connectorId == s.connectorId &&
    t.mode == s.mode && t.fbFormat == s.fbFormat && t.clip == s.clip &&
    t.swapMode == s.swapMode && t.swapInterval == s.swapInterval &&
    t.vblankSecondary == s.vblankSecondary && t.modeSyncFlip == s.modeSyncFlip &&
    t.quirkVmwgfx == s.quirkVmwgfx && t.planes == s.planes &&
    t.signalTarget == s.signalTarget && t.destroyed == s.destroyed
  }

  /** A post changes only the front slots, the first-post flag, the pacing
      baseline and the flip-pending flag; the configuration, the mode, the
      resources and the plane list stay. */
  lemma PostFrame(s: DrmState, bo: Bo, r: PostReplies)
    ensures FrontsOnly(s, PostOutcome(s, bo, r).state)
  {
    if s.firstPost {
      FirstPostFrame(s, bo, r);
    } else if s.swapMode == Flip {
      FlipPostFrame(s, bo, r);
    } else {
      PacedPostFrame(s, bo, r);
    }
  }

  /** The first-post branch moves only the fronts and the first-post flag. */
  lemma FirstPostFrame(s: DrmState, bo: Bo, r: PostReplies)
    requires s.firstPost
    ensures FrontsOnly(s, PostOutcome(s, bo, r).state)
  {
  }

  /** Copy, set-crtc and no-op posts move at most the baseline and the
      current front. */
  lemma PacedPostFrame(s: DrmState, bo: Bo, r: PostReplies)
    requires !s.firstPost && s.swapMode != Flip
    ensures FrontsOnly(s, PostOutcome(s, bo, r).state)
  {
  }

  /** The flip-mode post: pacing, drain, flip and the forced drain each
      keep to the fronts, the baseline and the flip-pending flag. */
  lemma FlipPostFrame(s: DrmState, bo: Bo, r: PostReplies)
    ensures FrontsOnly(s, FlipPost(s, bo, r))
  {
    var p := FlipPaced(s, r);
    assert FrontsOnly(s, p);
    var d := Drained(p);
    assert FrontsOnly(s, d);
    var f := Scheduled(d, bo, r.flipRet);
    assert FrontsOnly(s, f);
    if f.nextFront != null && SyncAfterFlip(f) {
      assert FrontsOnly(s, Drained(f));
    }
  }

  /** The first post either succeeds and ends the first-post state or
      changes nothing; later posts never return to it. */
  lemma FirstPostSettles(s: DrmState, bo: Bo, r: PostReplies)
    ensures s.firstPost ==> (PostOutcome(s, bo, r).ret == 0 && !PostOutcome(s, bo, r).state.firstPost) ||
                            (PostOutcome(s, bo, r).ret != 0 && PostOutcome(s, bo, r).state == s)
    ensures !s.firstPost ==> !PostOutcome(s, bo, r).state.firstPost
  {
    if !s.firstPost && s.swapMode == Flip {
      FlipPostFrame(s, bo, r);
    }
  }

  /** `gralloc_drm_bo_post`. */
  method Post(drm: Drm, bo: Bo, r: PostReplies) returns (ret: int)
    requires PostReady(drm.State())
    modifies drm, CopyTargets(drm.State())`content
    ensures bo.fbId == old(bo.fbId)
    ensures !PostAccepts(old(bo.fbId), old(drm.swapMode)) ==>
      ret == -EINVAL && drm.State() == old(drm.State())
    ensures PostAccepts(old(bo.fbId), old(drm.swapMode)) ==>
      Posted(drm.State(), ret) == PostOutcome(old(drm.State()), bo, r)
    ensures var dst := CopyTarget(old(drm.State()));
      dst != null ==> dst.content == (if drm.drv.Generic? then old(bo.content) else old(dst.content))
  {
    if bo.fbId == 0 && drm.swapMode != Copy {
      return -EINVAL;
    }
    if drm.firstPost {
      ret := FirstPost(drm, bo, r);
      return;
    }
    match drm.swapMode
    case Flip =>
      ret := FlipPostStep(drm, bo, r);
    case Copy =>
      var _, _ := WaitForPost(drm, false, r.query, r.wait);
      BackendCopy(drm.drv, drm.currentFront, bo);
      ret := 0;
    case SetCrtc =>
      var _, _ := WaitForPost(drm, false, r.query, r.wait);
      ret := SetCrtcResult(drm.quirkVmwgfx, r.setCrtcRet, r.dirtyFbRet);
      drm.currentFront := bo;
    case NoOp =>
      ret := 0;
  }

  /** The first-post branch of `gralloc_drm_bo_post`. */
  method FirstPost(drm: Drm, bo: Bo, r: PostReplies) returns (ret: int)
    requires drm.firstPost && PostReady(drm.State())
    modifies drm, CopyTargets(drm.State())`content
    ensures Posted(drm.State(), ret) == PostOutcome(old(drm.State()), bo, r)
    ensures bo.fbId == old(bo.fbId)
    ensures var dst := CopyTarget(old(drm.State()));
      dst != null ==> dst.content == (if drm.drv.Generic? then old(bo.content) else old(dst.content))
  {
    var shown := bo;
    if drm.swapMode == Copy {
      var dst := if drm.nextFront != null then drm.nextFront else drm.currentFront;
      BackendCopy(drm.drv, dst, bo);
      shown := dst;
    }
    ret := SetCrtcResult(drm.quirkVmwgfx, r.setCrtcRet, r.dirtyFbRet);
    if ret == 0 {
      drm.firstPost := false;
      drm.currentFront := shown;
      if drm.nextFront == shown {
        drm.nextFront := null;
      }
    }
  }

  /** The flip branch of `gralloc_drm_bo_post`. */
  method FlipPostStep(drm: Drm, bo: Bo, r: PostReplies) returns (ret: int)
    requires !drm.firstPost && drm.swapMode == Flip && drm.currentFront != null
    modifies drm
    ensures ret == r.flipRet
    ensures drm.State() == FlipPost(old(drm.State()), bo, r)
  {
    ghost var s0 := drm.State();
    if drm.swapInterval > 1 {
      var _, _ := WaitForPost(drm, true, r.query, r.wait);
    }
    assert drm.State() == FlipPaced(s0, r);
    ret := PageFlip(drm, bo, r.drainHandled, r.flipRet);
    ghost var flipped := drm.State();
    assert flipped == Scheduled(Drained(FlipPaced(s0, r)), bo, r.flipRet);
    if drm.nextFront != null {
      assert drm.currentFront != null;
      if drm.modeSyncFlip || drm.currentFront.handle.usage & GRALLOC_USAGE_SW_WRITE_MASK != 0 {
        assert SyncAfterFlip(flipped);
        var _ := PageFlip(drm, null, r.syncDrainHandled, 0);
      } else {
        assert !SyncAfterFlip(flipped);
      }
    }
  }

  // ---------------------------------------------------------------- what posting promises

  /** The first post presents the caller's buffer, or in copy mode the
      buffer it copied into.  Only when the CRTC is programmed does it
      leave the first-post state, make that buffer the current front and
      stop it from being pending; otherwise nothing changes. */
  lemma FirstPostOutcome(s: DrmState, bo: Bo, r: PostReplies)
    requires s.firstPost && PostReady(s)
    ensures var o := PostOutcome(s, bo, r);
      var shown := if s.swapMode == Copy then CopyTarget(s) else bo;
      o.ret == SetCrtcResult(s.quirkVmwgfx, r.setCrtcRet, r.dirtyFbRet) &&
      (o.ret == 0 ==> !o.state.firstPost && o.state.currentFront == shown && o.state.nextFront != shown &&
                       (s.nextFront != shown ==> o.state.nextFront == s.nextFront)) &&
      (o.ret != 0 ==> o.state == s)
  {
  }

  /** Posting keeps what later posts dereference in place. */
  lemma PostKeepsReady(s: DrmState, bo: Bo, r: PostReplies)
    requires PostReady(s)
    ensures PostReady(PostOutcome(s, bo, r).state)
  {
    if !s.firstPost && s.swapMode == Flip {
      assert Drained(FlipPaced(s, r)).currentFront != null;
      assert Scheduled(Drained(FlipPaced(s, r)), bo, r.flipRet).currentFront != null;
    }
  }

  /** Outside the first post, nothing but the flip scheduler and the
      set-crtc mode changes which buffer is shown; only a flip ever leaves
      a buffer pending, and then it is the posted one; after a successful
      flip the posted buffer is pending or, once drained, the current front. */
  lemma PostPending(s: DrmState, bo: Bo, r: PostReplies)
    requires !s.firstPost
    ensures var o := PostOutcome(s, bo, r).state;
      (s.swapMode == Copy || s.swapMode == NoOp ==> o.currentFront == s.currentFront && o.nextFront == s.nextFront) &&
      (s.swapMode == SetCrtc ==> o.currentFront == bo && o.nextFront == s.nextFront) &&
      (s.swapMode == Flip ==> o.nextFront == null || o.nextFront == bo) &&
      (s.swapMode == Flip && r.flipRet == 0 ==> o.currentFront == bo || o.nextFront == bo)
  {
  }

  /** `gralloc_drm_is_kms_pipelined`: every mode but set-crtc may leave the
      posted buffer on screen later than the post returns. */
  predicate IsKmsPipelined(m: SwapMode)
  {
    m != SetCrtc
  }

  /** In the one mode that is not pipelined a post that gets past the guard
      shows the posted buffer at once; in flip mode, a successful flip
      without a forced drain leaves it pending. */
  lemma PipelinedPosting(s: DrmState, bo: Bo, r: PostReplies)
    requires !s.firstPost
    ensures !IsKmsPipelined(s.swapMode) ==> PostOutcome(s, bo, r).state.currentFront == bo
    ensures s.swapMode == Flip && r.flipRet == 0 && !SyncAfterFlip(Drained(s)) && s.swapInterval <= 1 ==>
      PostOutcome(s, bo, r).state.nextFront == bo
  {
  }

  /** Under the OMAP configuration a flip-mode post never paces (the swap
      interval is 0), and every scheduled flip is drained before the post
      returns (synchronous flips are requested): nothing stays pending and
      a successful flip makes the posted buffer the current front. */
  lemma OmapFlipPost(s: DrmState, bo: Bo, r: PostReplies)
    requires OmapConfigured(s) && !s.firstPost
    ensures var o := PostOutcome(s, bo, r);
      o.ret == r.flipRet &&
      o.state.lastSwap == s.lastSwap &&
      o.state.nextFront == null &&
      o.state.currentFront == (if r.flipRet == 0 then bo else Drained(s).currentFront)
  {
  }

  // ---------------------------------------------------------------- initialisation

  /** The configuration a generic backend's hook installs. */
  function GenericConfigure(s: DrmState, f: KmsFeatures): DrmState
  {
    s.(fbFormat := f.fbFormat, swapMode := f.swapMode, swapInterval := f.swapInterval,
       vblankSecondary := f.vblankSecondary, modeSyncFlip := f.modeSyncFlip, quirkVmwgfx := f.quirkVmwgfx)
  }

  /** The effect of `drm->drv->init_kms_features`. */
  function Configure(drv: Backend, s: DrmState): DrmState
  {
    match drv
    case Omap => OmapConfigure(s)
    case Generic(f) => GenericConfigure(s, f)
  }

  /** `drm->drv->init_kms_features`. */
  method InitKmsFeaturesHook(drm: Drm)
    modifies drm
    ensures drm.State() == Configure(drm.drv, old(drm.State()))
  {
    match drm.drv
    case Omap =>
      OmapInitKmsFeatures(drm);
    case Generic(f) =>
      GenericInitKmsFeatures(drm, f);
  }

  /** A generic backend's hook: it installs the configuration `f`. */
  method GenericInitKmsFeatures(drm: Drm, f: KmsFeatures)
    modifies drm
    ensures drm.State() == GenericConfigure(old(drm.State()), f)
  {
    drm.fbFormat, drm.swapMode, drm.swapInterval := f.fbFormat, f.swapMode, f.swapInterval;
    drm.vblankSecondary, drm.modeSyncFlip, drm.quirkVmwgfx := f.vblankSecondary, f.modeSyncFlip, f.quirkVmwgfx;
  }

  /** How creating the copy-mode front buffer goes: whether
      `gralloc_drm_bo_create` returns a buffer, the `fb_handle` the backend
      gives it, and the answer of `drmModeAddFB` for it. */
  datatype FrontReplies = FrontReplies(created: bool, fbHandle: nat, addFb: AddFbReply)

  /** What `drm_kms_init_features` turns state `s` into, `t`: the backend's
      configuration; then in flip mode the signal handler aimed at the
      handle, in copy mode the front buffer created (`FrontCreated`). */
  ghost predicate FeaturesInstalled(drv: Backend, s: DrmState, t: DrmState, front: FrontReplies)
  {
    var c := Configure(drv, s);
    (c.swapMode != Copy ==> t == c.(signalTarget := c.swapMode == Flip || c.signalTarget)) &&
    (c.swapMode == Copy ==> FrontCreated(c, t, front))
  }

  /** The backend hook touches only the scheduler configuration. */
  lemma ConfigureKeeps(drv: Backend, u: DrmState)
    ensures var c := Configure(drv, u);
      c.resources == u.resources && c.connectorId == u.connectorId && c.crtcId == u.crtcId &&
      c.mode == u.mode && c.clip == u.clip && c.currentFront == u.currentFront && c.firstPost == u.firstPost
  {
  }

  /** Creating the copy-mode front buffer touches only the front slots,
      the swap mode and the destroyed log. */
  lemma FrontCreatedKeeps(c: DrmState, t: DrmState, front: FrontReplies)
    requires FrontCreated(c, t, front)
    ensures t.resources == c.resources && t.connectorId == c.connectorId && t.crtcId == c.crtcId &&
      t.mode == c.mode && t.clip == c.clip && t.currentFront == c.currentFront && t.firstPost == c.firstPost
  {
  }

  /** Installing the features keeps the connection chosen before it:
      resources, connector, CRTC, mode, dirty rectangle and current front. */
  lemma FeaturesInstalledKeeps(drv: Backend, u: DrmState, t: DrmState, front: FrontReplies)
    requires FeaturesInstalled(drv, u, t, front)
    ensures t.resources == u.resources && t.connectorId == u.connectorId && t.crtcId == u.crtcId
    ensures t.mode == u.mode && t.clip == u.clip && t.currentFront == u.currentFront && t.firstPost == u.firstPost
  {
    var c := Configure(drv, u);
    ConfigureKeeps(drv, u);
    if c.swapMode == Copy {
      FrontCreatedKeeps(c, t, front);
    }
  }

  /** Installing the features leaves the handle ready for its first post:
      in copy mode the front buffer exists, or the mode fell back to set-crtc. */
  lemma FeaturesInstalledReady(drv: Backend, u: DrmState, t: DrmState, front: FrontReplies)
    requires FeaturesInstalled(drv, u, t, front)
    ensures PostReady(t.(firstPost := true))
  {
  }

  /** Under the OMAP backend, initialisation always ends in synchronous flip
      mode with interval 0 on the primary CRTC, with the signal handler
      aimed at the handle, since that configuration is never copy mode. */
  lemma OmapFeaturesInstalled(u: DrmState, t: DrmState, front: FrontReplies)
    requires FeaturesInstalled(Omap, u, t, front)
    ensures OmapConfigured(t) && t.swapMode == Flip && t.signalTarget
    ensures t == OmapConfigure(u).(signalTarget := true)
  {
  }

  /** The front buffer parked in copy mode: `gralloc_drm_bo_create`
      returned it and `drmModeAddFB` gave it the fb id `front` answers. */
  predicate ParkedFront(drm: Drm, front: FrontReplies)
    reads drm, drm.nextFront
  {
    front.created && front.addFb.AddFbOk? && drm.nextFront != null &&
    drm.nextFront.fbId == front.addFb.id && drm.nextFront.fbHandle == front.fbHandle
  }

  /** `drm_kms_init_features`. */
  method InitFeatures(drm: Drm, front: FrontReplies)
    modifies drm
    ensures FeaturesInstalled(drm.drv, old(drm.State()), drm.State(), front)
    ensures drm.swapMode == Copy ==> ParkedFront(drm, front) && fresh(drm.nextFront)
  {
    InitKmsFeaturesHook(drm);
    if drm.swapMode == Flip {
      drm.signalTarget := true;
    } else if drm.swapMode == Copy {
      CreateFront(drm, front);
    }
  }

  /** The outcome of creating the copy-mode front buffer, from state `c` to
      state `t`: on success it is parked in `next_front`, with its fb and the
      mode's geometry; on failure the layer falls back to set-crtc mode, and
      a buffer that was created is destroyed. */
  ghost predicate FrontCreated(c: DrmState, t: DrmState, front: FrontReplies)
  {
    if front.created && front.addFb.AddFbOk? then
      t.nextFront != null &&
      t.nextFront.handle.width == c.mode.hdisplay && t.nextFront.handle.height == c.mode.vdisplay &&
      t.nextFront.handle.format == c.fbFormat && t.nextFront.handle.usage == GRALLOC_USAGE_HW_FB &&
      t == c.(nextFront := t.nextFront)
    else
      t == c.(swapMode := SetCrtc, destroyed := t.destroyed) &&
      if front.created then |t.destroyed| == |c.destroyed| + 1 && t.destroyed[..|c.destroyed|] == c.destroyed
      else t.destroyed == c.destroyed
  }

  /** The copy-mode branch of `drm_kms_init_features`. */
  method CreateFront(drm: Drm, front: FrontReplies)
    modifies drm`nextFront, drm`swapMode, drm`destroyed
    ensures FrontCreated(old(drm.State()), drm.State(), front)
    ensures front.created && front.addFb.AddFbOk? ==>
      drm.nextFront != null && drm.nextFront.fbId == front.addFb.id && drm.nextFront.fbHandle == front.fbHandle
    ensures front.created && front.addFb.AddFbOk? ==> fresh(drm.nextFront)
    ensures drm.nextFront != old(drm.nextFront) ==> fresh(drm.nextFront)
    ensures |drm.destroyed| > |old(drm.destroyed)| ==> fresh(drm.destroyed[|old(drm.destroyed)|])
  {
    var frontBo: Bo? := null;
    if front.created {
      var handle := new Handle(drm.mode.hdisplay, drm.mode.vdisplay, drm.fbFormat, GRALLOC_USAGE_HW_FB, 0);
      frontBo := new Bo(handle, front.fbHandle);
      var ret := AddFb(frontBo, front.addFb);
      if ret != 0 {
        drm.destroyed := drm.destroyed + [frontBo];
        frontBo := null;
      }
    }
    if frontBo != null {
      drm.nextFront := frontBo;
    } else {
      drm.swapMode := SetCrtc;
    }
  }

  /** A connector the layer can drive: connected, with a mode, an encoder,
      and a CRTC position below `crtcCount` that the encoder allows. */
  ghost predicate Usable(oc: Option<Connector>, crtcCount: nat)
  {
    oc.Some? && oc.value.connected && |oc.value.modes| > 0 && oc.value.encoder.Some? &&
    exists j :: 0 <= j < crtcCount && HasBit(oc.value.encoder.value.possibleCrtcs, j)
  }

  /** The handle configured for connector `c`: the first CRTC its encoder
      allows, the mode `find_mode` picks, the fb format of the hinted depth,
      and the full-screen dirty rectangle. */
  ghost predicate ConfiguredFor(t: DrmState, s: DrmState, c: Connector, h: ModeHint)
    requires s.resources.Some?
  {
    c.encoder.Some? &&
    exists i: nat, k: nat :: FirstCrtcBit(c.encoder.value.possibleCrtcs, |s.resources.value.crtcs|, i) &&
      ChosenMode(c.modes, h, k) && t == Configured(s, c, h, i, k)
  }

  /** The handle configured with CRTC position `i` and mode `k` of `c`. */
  function Configured(s: DrmState, c: Connector, h: ModeHint, i: nat, k: nat): DrmState
    requires s.resources.Some? && i < |s.resources.value.crtcs| && k < |c.modes|
  {
    s.(crtcId := s.resources.value.crtcs[i], connectorId := c.connectorId, mode := c.modes[k],
       fbFormat := FbFormatForBpp(CDiv(h.bpp, 8)),
       clip := Clip(0, 0, c.modes[k].hdisplay, c.modes[k].vdisplay))
  }

  /** `drm_kms_init_with_connector`; `h` is the parsed `debug.drm.mode` hint. */
  method InitWithConnector(drm: Drm, c: Connector, h: ModeHint) returns (ret: int)
    requires drm.resources.Some?
    modifies drm
    ensures ret == 0 || ret == -EINVAL
    ensures ret == 0 <==> Usable(Some(c.(connected := true)), |old(drm.resources).value.crtcs|)
    ensures ret != 0 ==> drm.State() == old(drm.State())
    ensures ret == 0 ==> ConfiguredFor(drm.State(), old(drm.State()), c, h)
  {
    if |c.modes| == 0 {
      return -EINVAL;
    }
    if c.encoder.None? {
      return -EINVAL;
    }
    var crtcs := drm.resources.value.crtcs;
    var i := FirstPossibleCrtc(c.encoder.value.possibleCrtcs, |crtcs|);
    if i == |crtcs| {
      return -EINVAL;
    }
    assert HasBit(c.encoder.value.possibleCrtcs, i);
    ApplyConnector(drm, c, h, i);
    ret := 0;
  }

  /** The success path of `drm_kms_init_with_connector`, once CRTC position
      `i` is chosen: the mode `find_mode` picks and what follows from it. */
  method ApplyConnector(drm: Drm, c: Connector, h: ModeHint, i: nat)
    requires drm.resources.Some? && i < |drm.resources.value.crtcs| && |c.modes| > 0
    modifies drm
    ensures exists k: nat :: ChosenMode(c.modes, h, k) && drm.State() == Configured(old(drm.State()), c, h, i, k)
  {
    ghost var s0 := drm.State();
    var k, bpp := FindMode(c.modes, h);
    var m := c.modes[k];
    drm.crtcId, drm.connectorId := drm.resources.value.crtcs[i], c.connectorId;
    drm.mode, drm.fbFormat := m, FbFormatForBpp(bpp);
    drm.clip := Clip(0, 0, m.hdisplay, m.vdisplay);
    assert drm.State() == Configured(s0, c, h, i, k);
  }

  /** The first connector, in kernel order, that the layer can drive. */
  ghost predicate FirstUsable(res: Resources, i: int)
  {
    0 <= i < |res.connectors| && Usable(res.connectors[i], |res.crtcs|) &&
    forall j :: 0 <= j < i ==> !Usable(res.connectors[j], |res.crtcs|)
  }

  /** The connector loop of `gralloc_drm_init_kms`: the first connector that
      is connected and for which `drm_kms_init_with_connector` succeeds. */
  method SelectConnector(drm: Drm, h: ModeHint) returns (found: bool)
    requires drm.resources.Some?
    modifies drm
    ensures var res := old(drm.resources).value;
      found <==> exists i :: 0 <= i < |res.connectors| && Usable(res.connectors[i], |res.crtcs|)
    ensures !found ==> drm.State() == old(drm.State())
    ensures found ==> exists i :: (FirstUsable(old(drm.resources).value, i) &&
      ConfiguredFor(drm.State(), old(drm.State()), old(drm.resources).value.connectors[i].value, h))
  {
    var res := drm.resources.value;
    var i := 0;
    found := false;
    while i < |res.connectors|
      invariant 0 <= i <= |res.connectors|
      invariant forall j :: 0 <= j < i ==> !Usable(res.connectors[j], |res.crtcs|)
      invariant drm.State() == old(drm.State())
    {
      var oc := res.connectors[i];
      if oc.Some? && oc.value.connected {
        var ret := InitWithConnector(drm, oc.value, h);
        if ret == 0 {
          assert oc.value.(connected := true) == oc.value;
          assert FirstUsable(res, i);
          return true;
        }
        assert oc.value.(connected := true) == oc.value;
      }
      i := i + 1;
    }
  }

  /** The state `t` a successful `gralloc_drm_init_kms` makes of the
      uninitialised state `s` with resources `res`: configured for the first
      usable connector, the backend's features installed on top, and the
      first post pending. */
  ghost predicate Initialised(drv: Backend, s: DrmState, t: DrmState, res: Resources, h: ModeHint, front: FrontReplies)
  {
    t.firstPost &&
    exists i, j: nat, k: nat :: FirstUsable(res, i) && res.connectors[i].value.encoder.Some? &&
      FirstCrtcBit(res.connectors[i].value.encoder.value.possibleCrtcs, |res.crtcs|, j) &&
      ChosenMode(res.connectors[i].value.modes, h, k) &&
      FeaturesInstalled(drv, Configured(s.(resources := Some(res)), res.connectors[i].value, h, j, k),
                        t.(firstPost := s.firstPost), front)
  }

  /** After initialisation the handle holds the resources, drives the first
      usable connector through a CRTC its encoder allows, in the mode
      `find_mode` picks, is in the first-post state and is ready to post. */
  lemma InitialisedOutcome(drv: Backend, s: DrmState, t: DrmState, res: Resources, h: ModeHint, front: FrontReplies)
    requires Initialised(drv, s, t, res, h, front)
    ensures t.resources == Some(res) && t.firstPost && PostReady(t)
    ensures exists i :: (FirstUsable(res, i) && t.connectorId == res.connectors[i].value.connectorId &&
      exists j: nat, k: nat :: FirstCrtcBit(res.connectors[i].value.encoder.value.possibleCrtcs, |res.crtcs|, j) &&
                               ChosenMode(res.connectors[i].value.modes, h, k) &&
                               t.crtcId == res.crtcs[j] && t.mode == res.connectors[i].value.modes[k])
  {
    var i, j: nat, k: nat :| FirstUsable(res, i) && res.connectors[i].value.encoder.Some? &&
      FirstCrtcBit(res.connectors[i].value.encoder.value.possibleCrtcs, |res.crtcs|, j) &&
      ChosenMode(res.connectors[i].value.modes, h, k) &&
      FeaturesInstalled(drv, Configured(s.(resources := Some(res)), res.connectors[i].value, h, j, k),
                        t.(firstPost := s.firstPost), front);
    var u := Configured(s.(resources := Some(res)), res.connectors[i].value, h, j, k);
    var v := t.(firstPost := s.firstPost);
    FeaturesInstalledKeeps(drv, u, v, front);
    FeaturesInstalledReady(drv, u, v, front);
    assert v.(firstPost := true) == t;
  }

  /** Under the OMAP backend an initialised handle is in OMAP's fixed flip
      configuration with the signal handler aimed at it, so the facts of
      `OmapFlipPost` apply to its posts. */
  lemma OmapInitialised(s: DrmState, t: DrmState, res: Resources, h: ModeHint, front: FrontReplies)
    requires Initialised(Omap, s, t, res, h, front)
    ensures OmapConfigured(t) && t.swapMode == Flip && t.signalTarget && t.firstPost
  {
    var i, j: nat, k: nat :| FirstUsable(res, i) && res.connectors[i].value.encoder.Some? &&
      FirstCrtcBit(res.connectors[i].value.encoder.value.possibleCrtcs, |res.crtcs|, j) &&
      ChosenMode(res.connectors[i].value.modes, h, k) &&
      FeaturesInstalled(Omap, Configured(s.(resources := Some(res)), res.connectors[i].value, h, j, k),
                        t.(firstPost := s.firstPost), front);
    OmapFeaturesInstalled(Configured(s.(resources := Some(res)), res.connectors[i].value, h, j, k),
                          t.(firstPost := s.firstPost), front);
  }

  /** `gralloc_drm_init_kms`.  `resources` is what `drmModeGetResources`
      answers, `h` the mode hint, `front` how creating a copy-mode front
      buffer would go. */
  method InitKms(drm: Drm, resources: Option<Resources>, h: ModeHint, front: FrontReplies) returns (ret: int)
    modifies drm
    ensures IsKmsInitialized(old(drm.State())) ==> ret == 0 && drm.State() == old(drm.State())
    ensures ret == 0 <==> (IsKmsInitialized(old(drm.State())) ||
      (resources.Some? && exists i :: 0 <= i < |resources.value.connectors| &&
                                      Usable(resources.value.connectors[i], |resources.value.crtcs|)))
    ensures ret != 0 ==> ret == -EINVAL && drm.State() == old(drm.State())
    ensures IsKmsInitialized(drm.State()) <==> ret == 0
    ensures !IsKmsInitialized(old(drm.State())) && ret == 0 ==>
      resources.Some? && Initialised(drm.drv, old(drm.State()), drm.State(), resources.value, h, front)
    ensures !IsKmsInitialized(old(drm.State())) && ret == 0 && drm.swapMode == Copy ==>
      ParkedFront(drm, front) && fresh(drm.nextFront)
  {
    if drm.resources.Some? {
      return 0;
    }
    if resources.None? {
      return -EINVAL;
    }
    ghost var s0 := drm.State();
    var found := Connect(drm, resources.value, h);
    if !found {
      return -EINVAL;
    }
    Activate(drm, s0, s0.(resources := resources), resources.value, h, front);
    InitialisedOutcome(drm.drv, old(drm.State()), drm.State(), resources.value, h, front);
    ret := 0;
  }

  /** The connector loop of `gralloc_drm_init_kms` once `drmModeGetResources`
      answered `res`: the resources are held while the loop runs, and
      released again when no connector can be driven. */
  method Connect(drm: Drm, res: Resources, h: ModeHint) returns (found: bool)
    requires drm.resources.None?
    modifies drm
    ensures found <==> exists i :: 0 <= i < |res.connectors| && Usable(res.connectors[i], |res.crtcs|)
    ensures !found ==> drm.State() == old(drm.State())
    ensures found ==> exists i :: (FirstUsable(res, i) &&
      ConfiguredFor(drm.State(), old(drm.State()).(resources := Some(res)), res.connectors[i].value, h))
  {
    drm.resources := Some(res);
    found := SelectConnector(drm, h);
    if !found {
      drm.resources := None;
    }
  }

  /** The success path of `gralloc_drm_init_kms` once the connector loop
      configured the handle for the first usable connector: the features
      installed, then the first-post state entered. */
  method Activate(drm: Drm, ghost s0: DrmState, ghost s1: DrmState, res: Resources, h: ModeHint,
                  front: FrontReplies)
    requires s1 == s0.(resources := Some(res))
    requires exists i :: FirstUsable(res, i) && ConfiguredFor(drm.State(), s1, res.connectors[i].value, h)
    modifies drm
    ensures Initialised(drm.drv, s0, drm.State(), res, h, front)
    ensures drm.swapMode == Copy ==> ParkedFront(drm, front) && fresh(drm.nextFront)
  {
    ghost var i :| FirstUsable(res, i) && ConfiguredFor(drm.State(), s1, res.connectors[i].value, h);
    ghost var c := res.connectors[i].value;
    ghost var j: nat, k: nat :| FirstCrtcBit(c.encoder.value.possibleCrtcs, |res.crtcs|, j) &&
      ChosenMode(c.modes, h, k) && drm.State() == Configured(s1, c, h, j, k);
    ghost var u := drm.State();
    InitFeatures(drm, front);
    ghost var v := drm.State();
    FeaturesInstalledKeeps(drm.drv, u, v, front);
    assert v.firstPost == s0.firstPost;
    EnterFirstPost(drm, front);
    InitialisedIntro(drm.drv, s0, drm.State(), res, h, front, i, j, k, u, v);
  }

  /** The end of `gralloc_drm_init_kms`: the next post is the first one. */
  method EnterFirstPost(drm: Drm, front: FrontReplies)
    modifies drm`firstPost
    ensures drm.State() == old(drm.State()).(firstPost := true)
    ensures drm.nextFront == old(drm.nextFront) && ParkedFront(drm, front) == old(ParkedFront(drm, front))
  {
    drm.firstPost := true;
  }

  /** `Initialised` from its witnesses: connector `i`, CRTC position `j`, mode `k`. */
  lemma InitialisedIntro(drv: Backend, s: DrmState, t: DrmState, res: Resources, h: ModeHint, front: FrontReplies,
                         i: int, j: nat, k: nat, u: DrmState, v: DrmState)
    requires t.firstPost && FirstUsable(res, i) && res.connectors[i].value.encoder.Some?
    requires FirstCrtcBit(res.connectors[i].value.encoder.value.possibleCrtcs, |res.crtcs|, j)
    requires ChosenMode(res.connectors[i].value.modes, h, k)
    requires u == Configured(s.(resources := Some(res)), res.connectors[i].value, h, j, k)
    requires t == v.(firstPost := true) && v.firstPost == s.firstPost
    requires FeaturesInstalled(drv, u, v, front)
    ensures Initialised(drv, s, t, res, h, front)
  {
    assert v == t.(firstPost := s.firstPost);
  }

  /** What `gralloc_drm_fini_kms` leaves: in flip mode no flip pending; in
      copy mode the current front, or else the parked front buffer,
      destroyed and only that slot cleared; no resources, and the signal
      handler no longer pointing at the handle. */
  function TornDown(s: DrmState): DrmState
  {
    FrontsReleased(s).(resources := None, signalTarget := false)
  }

  /** The front buffers after the mode-specific part of the teardown. */
  function FrontsReleased(s: DrmState): DrmState
  {
    match s.swapMode
    case Flip => Drained(s)
    case Copy =>
      if s.currentFront != null then s.(currentFront := null, destroyed := s.destroyed + [s.currentFront])
      else s.(nextFront := null, destroyed := s.destroyed + (if s.nextFront != null then [s.nextFront] else []))
    case _ => s
  }

  /** `gralloc_drm_fini_kms`.  `handled` says whether `drmHandleEvent`
      delivers a pending flip event in flip mode. */
  method Fini(drm: Drm, handled: bool)
    modifies drm
    ensures drm.State() == TornDown(old(drm.State()))
  {
    ReleaseFronts(drm, handled);
    drm.resources := None;
    drm.signalTarget := false;
  }

  /** The `switch (drm->swap_mode)` of `gralloc_drm_fini_kms`. */
  method ReleaseFronts(drm: Drm, handled: bool)
    modifies drm
    ensures drm.State() == FrontsReleased(old(drm.State()))
  {
    if drm.swapMode == Flip {
      var _ := PageFlip(drm, null, handled, 0);
    } else if drm.swapMode == Copy {
      if drm.currentFront != null {
        drm.destroyed := drm.destroyed + [drm.currentFront];
        drm.currentFront := null;
      } else {
        if drm.nextFront != null {
          drm.destroyed := drm.destroyed + [drm.nextFront];
        }
        drm.nextFront := null;
      }
    }
  }

  /** Copy-mode teardown destroys exactly one front buffer when there is
      one, the current front first, and clears only its slot; every mode
      leaves the handle uninitialised and no flip pending in flip mode. */
  lemma TeardownOutcome(s: DrmState)
    ensures !IsKmsInitialized(TornDown(s)) && !TornDown(s).signalTarget
    ensures s.swapMode == Copy && s.currentFront != null ==>
      TornDown(s).currentFront == null && TornDown(s).nextFront == s.nextFront &&
      TornDown(s).destroyed == s.destroyed + [s.currentFront]
    ensures s.swapMode == Copy && s.currentFront == null ==>
      TornDown(s).currentFront == null && TornDown(s).nextFront == null &&
      TornDown(s).destroyed == s.destroyed + (if s.nextFront != null then [s.nextFront] else [])
    ensures s.swapMode == Flip ==> (TornDown(s).nextFront == null &&
      TornDown(s).currentFront == (if s.nextFront != null then s.nextFront else s.currentFront))
    ensures s.swapMode != Copy ==> TornDown(s).destroyed == s.destroyed
  {
  }

  /** `gralloc_drm_is_kms_initialized`. */
  predicate IsKmsInitialized(s: DrmState)
  {
    s.resources.Some?
  }
}
