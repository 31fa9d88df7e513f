/**
 * The plane inventory: `gralloc_kms_planes_init` locates the active CRTC in
 * the kernel's CRTC list and keeps, in kernel order, every overlay plane
 * whose `possible_crtcs` mask has that position's bit set;
 * `gralloc_kms_plane_add` appends one kept plane to the handle's list.
 */
module Planes {
  import opened DrmTypes

  /** An overlay plane as `drmModeGetPlane` reports it. */
  datatype Plane = Plane(planeId: nat, possibleCrtcs: bv32, formats: seq<nat>)

  /** Whether the two allocations of `gralloc_kms_plane_add` succeed: the
      plane record (`calloc`) and the grown plane array (`realloc`). */
  datatype AllocOutcome = AllocOk | PlaneAllocFails | ArrayAllocFails

  /** What `drmModeGetPlane` answers for one plane id, and, when it answers,
      how the allocations for that plane would go. */
  datatype PlaneFetch = Fetched(plane: Plane, alloc: AllocOutcome) | FetchFailed(errno: Errno)

  /** The answers of `drmModeGetResources` and of `drmModeGetPlaneResources`
      (one fetch per plane id it lists). */
  datatype PlanesReplies = PlanesReplies(resources: Option<Resources>, planes: Option<seq<PlaneFetch>>)

  /** The record kept for a plane: its id and its formats, verbatim. */
  function Record(p: Plane): KmsPlane
  {
    KmsPlane(p.planeId, p.formats)
  }

  // ---------------------------------------------------------------- CRTC position

  /** `order` is the first position of `crtcId` in the kernel's CRTC list. */
  ghost predicate IsCrtcOrder(crtcs: seq<nat>, crtcId: nat, order: nat)
  {
    order < |crtcs| && crtcs[order] == crtcId && forall j :: 0 <= j < order ==> crtcs[j] != crtcId
  }

  /** The linear search of `gralloc_kms_planes_init`; `|crtcs|` when absent. */
  method FindCrtcOrder(crtcs: seq<nat>, crtcId: nat) returns (order: nat)
    ensures order <= |crtcs|
    ensures order < |crtcs| ==> IsCrtcOrder(crtcs, crtcId, order)
    ensures order == |crtcs| <==> crtcId !in crtcs
  {
    order := 0;
    while order < |crtcs|
      invariant order <= |crtcs|
      invariant forall j :: 0 <= j < order ==> crtcs[j] != crtcId
    {
      if crtcs[order] == crtcId {
        break;
      }
      order := order + 1;
    }
  }

  // ---------------------------------------------------------------- reference definitions

  /** The planes compatible with CRTC position `order`, in kernel order. */
  function Kept(ps: seq<Plane>, order: nat): seq<KmsPlane>
    decreases |ps|
  {
    if ps == [] then []
    else (if HasBit(ps[0].possibleCrtcs, order) then [Record(ps[0])] else []) + Kept(ps[1..], order)
  }

  /** The outcome of the plane loop: the handle's plane list and the return code. */
  datatype Scan = Scan(planes: seq<KmsPlane>, ret: int)

  /** The plane loop over the fetch answers, starting from plane list `acc`.
      It stops at the first failed fetch or failed allocation; a failed
      array reallocation leaves the list empty. */
  function ScanPlanes(acc: seq<KmsPlane>, fs: seq<PlaneFetch>, order: nat): Scan
    decreases |fs|
  {
    if fs == [] then Scan(acc, 0)
    else match fs[0]
      case FetchFailed(e) => Scan(acc, e)
      case Fetched(p, a) =>
        if !HasBit(p.possibleCrtcs, order) then ScanPlanes(acc, fs[1..], order)
        else match a
          case AllocOk => ScanPlanes(acc + [Record(p)], fs[1..], order)
          case PlaneAllocFails => Scan(acc, ENOMEM)
          case ArrayAllocFails => Scan([], ENOMEM)
  }

  /** Every fetch answered and every allocation succeeded. */
  function AllFetched(ps: seq<Plane>): (fs: seq<PlaneFetch>)
    ensures |fs| == |ps|
    ensures forall i :: 0 <= i < |ps| ==> fs[i] == Fetched(ps[i], AllocOk)
  {
    seq(|ps|, i requires 0 <= i < |ps| => Fetched(ps[i], AllocOk))
  }

  /** A plane is kept exactly when its mask has the CRTC's bit. */
  lemma {:induction false} KeptExactly(ps: seq<Plane>, order: nat)
    ensures forall k :: k in Kept(ps, order) <==>
      exists i :: 0 <= i < |ps| && HasBit(ps[i].possibleCrtcs, order) && k == Record(ps[i])
    ensures |Kept(ps, order)| <= |ps|
  {
    if ps != [] {
      KeptExactly(ps[1..], order);
      forall k | k in Kept(ps, order)
        ensures exists i :: 0 <= i < |ps| && HasBit(ps[i].possibleCrtcs, order) && k == Record(ps[i])
      {
        if HasBit(ps[0].possibleCrtcs, order) && k == Record(ps[0]) {
        } else {
          assert k in Kept(ps[1..], order);
          var i :| 0 <= i < |ps[1..]| && HasBit(ps[1..][i].possibleCrtcs, order) && k == Record(ps[1..][i]);
          assert ps[1..][i] == ps[i + 1];
        }
      }
      forall k | exists i :: 0 <= i < |ps| && HasBit(ps[i].possibleCrtcs, order) && k == Record(ps[i])
        ensures k in Kept(ps, order)
      {
        var i :| 0 <= i < |ps| && HasBit(ps[i].possibleCrtcs, order) && k == Record(ps[i]);
        if i > 0 {
          assert ps[1..][i - 1] == ps[i];
        }
      }
    }
  }

  /** When nothing fails, the loop appends exactly the kept planes and returns 0. */
  lemma {:induction false} ScanAllOk(acc: seq<KmsPlane>, ps: seq<Plane>, order: nat)
    ensures ScanPlanes(acc, AllFetched(ps), order) == Scan(acc + Kept(ps, order), 0)
    decreases |ps|
  {
    if ps == [] {
      assert acc + [] == acc;
    } else {
      var fs := AllFetched(ps);
      assert fs[0] == Fetched(ps[0], AllocOk);
      assert fs[1..] == AllFetched(ps[1..]);
      if HasBit(ps[0].possibleCrtcs, order) {
        assert ScanPlanes(acc, fs, order) == ScanPlanes(acc + [Record(ps[0])], fs[1..], order);
        ScanAllOk(acc + [Record(ps[0])], ps[1..], order);
        assert Kept(ps, order) == [Record(ps[0])] + Kept(ps[1..], order);
        assert acc + Kept(ps, order) == (acc + [Record(ps[0])]) + Kept(ps[1..], order);
      } else {
        assert ScanPlanes(acc, fs, order) == ScanPlanes(acc, fs[1..], order);
        ScanAllOk(acc, ps[1..], order);
        assert Kept(ps, order) == [] + Kept(ps[1..], order);
        assert [] + Kept(ps[1..], order) == Kept(ps[1..], order);
      }
    }
  }

  /** A failure code comes only from a failed fetch or allocation, and a
      success only ever adds planes to the list it started from. */
  lemma {:induction false} ScanOutcome(acc: seq<KmsPlane>, fs: seq<PlaneFetch>, order: nat)
    ensures var sc := ScanPlanes(acc, fs, order);
            sc.ret == 0 <==> forall i :: 0 <= i < |fs| ==>
              fs[i].Fetched? && (HasBit(fs[i].plane.possibleCrtcs, order) ==> fs[i].alloc == AllocOk)
    ensures ScanPlanes(acc, fs, order).ret == 0 ==> acc <= ScanPlanes(acc, fs, order).planes
    decreases |fs|
  {
    if fs != [] {
      match fs[0]
      case FetchFailed(e) =>
      case Fetched(p, a) =>
        var acc' := if HasBit(p.possibleCrtcs, order) && a == AllocOk then acc + [Record(p)] else acc;
        ScanOutcome(acc', fs[1..], order);
        forall i | 1 <= i < |fs| ensures fs[i] == fs[1..][i - 1] { }
    }
  }

  // ---------------------------------------------------------------- the operations

  /** `gralloc_kms_plane_add`. */
  method PlaneAdd(drm: Drm, plane: Plane, alloc: AllocOutcome) returns (ret: int)
    modifies drm`planes
    ensures alloc == AllocOk ==>
      ret == 0 && drm.State() == old(drm.State()).(planes := old(drm.planes) + [Record(plane)])
    ensures alloc == PlaneAllocFails ==> ret == ENOMEM && drm.State() == old(drm.State())
    ensures alloc == ArrayAllocFails ==> ret == ENOMEM && drm.State() == old(drm.State()).(planes := [])
  {
    if alloc == PlaneAllocFails {
      return ENOMEM;
    }
    var record := KmsPlane(plane.planeId, []);
    var i := 0;
    while i < |plane.formats|
      invariant 0 <= i <= |plane.formats|
      invariant record == KmsPlane(plane.planeId, plane.formats[..i])
    {
      record := record.(formats := record.formats + [plane.formats[i]]);
      i := i + 1;
    }
    assert plane.formats[..i] == plane.formats;
    if alloc == ArrayAllocFails {
      drm.planes := [];
      return ENOMEM;
    }
    drm.planes := drm.planes + [record];
    return 0;
  }

  /** `gralloc_kms_planes_init`. */
  method PlanesInit(drm: Drm, r: PlanesReplies) returns (ret: int)
    modifies drm
    ensures r.resources.None? ==> ret == -EINVAL && drm.State() == old(drm.State())
    ensures r.resources.Some? && drm.crtcId !in r.resources.value.crtcs ==>
      ret == -EINVAL && drm.State() == old(drm.State())
    ensures r.resources.Some? && drm.crtcId in r.resources.value.crtcs && r.planes.None? ==>
      ret == -EINVAL && drm.State() == old(drm.State())
    ensures r.resources.Some? && drm.crtcId in r.resources.value.crtcs && r.planes.Some? ==>
      exists order :: IsCrtcOrder(r.resources.value.crtcs, drm.crtcId, order) &&
        ret == ScanPlanes(old(drm.planes), r.planes.value, order).ret &&
        drm.State() == old(drm.State()).(planes := ScanPlanes(old(drm.planes), r.planes.value, order).planes)
  {
    if r.resources.None? {
      return -EINVAL;
    }
    var order := FindCrtcOrder(r.resources.value.crtcs, drm.crtcId);
    if order == |r.resources.value.crtcs| {
      return -EINVAL;
    }
    if r.planes.None? {
      return -EINVAL;
    }
    ret := AddCompatiblePlanes(drm, r.planes.value, order);
  }

  /** The plane loop of `gralloc_kms_planes_init`, once CRTC position
      `order` is known, as a change of the whole handle. */
  method AddCompatiblePlanes(drm: Drm, fs: seq<PlaneFetch>, order: nat) returns (ret: int)
    modifies drm`planes
    ensures ret == ScanPlanes(old(drm.planes), fs, order).ret
    ensures drm.State() == old(drm.State()).(planes := ScanPlanes(old(drm.planes), fs, order).planes)
  {
    ret := ScanPlaneLoop(drm, fs, order);
  }

  /** The plane loop itself: it changes only the plane list. */
  method ScanPlaneLoop(drm: Drm, fs: seq<PlaneFetch>, order: nat) returns (ret: int)
    modifies drm`planes
    ensures ret == ScanPlanes(old(drm.planes), fs, order).ret
    ensures drm.planes == ScanPlanes(old(drm.planes), fs, order).planes
  {
    ghost var scan := ScanPlanes(old(drm.planes), fs, order);
    var i := 0;
    while i < |fs|
      invariant 0 <= i <= |fs|
      invariant ScanPlanes(drm.planes, fs[i..], order) == scan
    {
      ghost var rest := fs[i..];
      assert rest[0] == fs[i] && rest[1..] == fs[i + 1..];
      match fs[i]
      case FetchFailed(e) =>
        return e;
      case Fetched(p, a) =>
        if HasBit(p.possibleCrtcs, order) {
          ret := PlaneAdd(drm, p, a);
          if ret != 0 {
            return;
          }
        }
      i := i + 1;
    }
    assert fs[i..] == [];
    return 0;
  }

  /** When every answer is favourable, the inventory grows by exactly the
      planes compatible with the active CRTC. */
  lemma InventoryWhenAllSucceed(acc: seq<KmsPlane>, ps: seq<Plane>, order: nat)
    ensures ScanPlanes(acc, AllFetched(ps), order).ret == 0
    ensures forall k :: k in ScanPlanes(acc, AllFetched(ps), order).planes <==>
      k in acc || exists i :: 0 <= i < |ps| && HasBit(ps[i].possibleCrtcs, order) && k == Record(ps[i])
  {
    ScanAllOk(acc, ps, order);
    KeptExactly(ps, order);
  }
}
