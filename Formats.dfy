/**
 * The format table of the KMS layer: a static list of
 * {HAL format, DRM fourcc, bits per pixel} rows closed by an all-zero end
 * marker, and the two linear lookups over it.
 */
module Formats {
  import opened DrmTypes

  /** DRM fourcc codes are four characters packed little-endian (`fourcc_code`). */
  function FourCC(a: char, b: char, c: char, d: char): nat
  {
    a as nat + b as nat * 0x100 + c as nat * 0x1_0000 + d as nat * 0x100_0000
  }

  const DRM_FORMAT_ABGR8888: nat := FourCC('A', 'B', '2', '4')
  const DRM_FORMAT_RGBX8888: nat := FourCC('R', 'X', '2', '4')
  const DRM_FORMAT_RGB888: nat := FourCC('R', 'G', '2', '4')
  const DRM_FORMAT_RGB565: nat := FourCC('R', 'G', '1', '6')
  const DRM_FORMAT_ARGB8888: nat := FourCC('A', 'R', '2', '4')
  const DRM_FORMAT_RGBA5551: nat := FourCC('R', 'A', '1', '5')
  const DRM_FORMAT_RGBA4444: nat := FourCC('R', 'A', '1', '2')
  const DRM_FORMAT_YVU420: nat := FourCC('Y', 'V', '1', '2')
  const DRM_FORMAT_NV16: nat := FourCC('N', 'V', '1', '6')
  const DRM_FORMAT_NV21: nat := FourCC('N', 'V', '2', '1')

  datatype FormatEntry = FormatEntry(hal: int, drm: int, bpp: nat)

  /** `hal_to_drm_formats`, end marker included. */
  const FormatTable: seq<FormatEntry> := [
    FormatEntry(HAL_PIXEL_FORMAT_RGBA_8888, DRM_FORMAT_ABGR8888, 32),
    FormatEntry(HAL_PIXEL_FORMAT_RGBX_8888, DRM_FORMAT_RGBX8888, 32),
    FormatEntry(HAL_PIXEL_FORMAT_RGB_888, DRM_FORMAT_RGB888, 24),
    FormatEntry(HAL_PIXEL_FORMAT_RGB_565, DRM_FORMAT_RGB565, 16),
    FormatEntry(HAL_PIXEL_FORMAT_BGRA_8888, DRM_FORMAT_ARGB8888, 32),
    FormatEntry(HAL_PIXEL_FORMAT_RGBA_5551, DRM_FORMAT_RGBA5551, 16),
    FormatEntry(HAL_PIXEL_FORMAT_RGBA_4444, DRM_FORMAT_RGBA4444, 16),
    FormatEntry(HAL_PIXEL_FORMAT_YV12, DRM_FORMAT_YVU420, 0),
    FormatEntry(HAL_PIXEL_FORMAT_YCbCr_422_SP, DRM_FORMAT_NV16, 0),
    FormatEntry(HAL_PIXEL_FORMAT_YCrCb_420_SP, DRM_FORMAT_NV21, 0),
    FormatEntry(0, 0, 0)
  ]

  /** Number of real rows, before the end marker. */
  const TableRows: nat := 10

  // ---------------------------------------------------------------- reference definitions

  /** The scan keyed on `hal`: it stops at the first row whose `hal` is 0. */
  function DrmForHal(t: seq<FormatEntry>, hal: int): int
    decreases |t|
  {
    if t == [] || t[0].hal == 0 then 0
    else if t[0].hal == hal then t[0].drm
    else DrmForHal(t[1..], hal)
  }

  /** The scan keyed on `drm`: it stops at the first row whose `drm` is 0. */
  function BppForDrm(t: seq<FormatEntry>, drm: int): nat
    decreases |t|
  {
    if t == [] || t[0].drm == 0 then 0
    else if t[0].drm == drm then t[0].bpp
    else BppForDrm(t[1..], drm)
  }

  /** Row `i` is the first row matching `hal` and no end marker comes before it. */
  ghost predicate HalMatchAt(t: seq<FormatEntry>, hal: int, i: int)
  {
    0 <= i < |t| && t[i].hal != 0 && t[i].hal == hal &&
    forall j :: 0 <= j < i ==> t[j].hal != 0 && t[j].hal != hal
  }

  /** Row `i` is the first row matching `drm` and no end marker comes before it. */
  ghost predicate DrmMatchAt(t: seq<FormatEntry>, drm: int, i: int)
  {
    0 <= i < |t| && t[i].drm != 0 && t[i].drm == drm &&
    forall j :: 0 <= j < i ==> t[j].drm != 0 && t[j].drm != drm
  }

  lemma {:induction false} DrmForHalFirstMatch(t: seq<FormatEntry>, hal: int)
    ensures forall i :: HalMatchAt(t, hal, i) ==> DrmForHal(t, hal) == t[i].drm
    ensures (forall i :: !HalMatchAt(t, hal, i)) ==> DrmForHal(t, hal) == 0
  {
    if t == [] || t[0].hal == 0 {
    } else if t[0].hal == hal {
      assert HalMatchAt(t, hal, 0);
    } else {
      DrmForHalFirstMatch(t[1..], hal);
      forall i | HalMatchAt(t, hal, i) ensures HalMatchAt(t[1..], hal, i - 1) {
        assert i != 0;
        forall j | 0 <= j < i - 1 ensures t[1..][j].hal != 0 && t[1..][j].hal != hal {
          assert t[1..][j] == t[j + 1];
        }
      }
      forall i | HalMatchAt(t[1..], hal, i) ensures HalMatchAt(t, hal, i + 1) {
        forall j | 0 <= j < i + 1 ensures t[j].hal != 0 && t[j].hal != hal {
          if j > 0 { assert t[j] == t[1..][j - 1]; }
        }
      }
    }
  }

  lemma {:induction false} BppForDrmFirstMatch(t: seq<FormatEntry>, drm: int)
    ensures forall i :: DrmMatchAt(t, drm, i) ==> BppForDrm(t, drm) == t[i].bpp
    ensures (forall i :: !DrmMatchAt(t, drm, i)) ==> BppForDrm(t, drm) == 0
  {
    if t == [] || t[0].drm == 0 {
    } else if t[0].drm == drm {
      assert DrmMatchAt(t, drm, 0);
    } else {
      BppForDrmFirstMatch(t[1..], drm);
      forall i | DrmMatchAt(t, drm, i) ensures DrmMatchAt(t[1..], drm, i - 1) {
        assert i != 0;
        forall j | 0 <= j < i - 1 ensures t[1..][j].drm != 0 && t[1..][j].drm != drm {
          assert t[1..][j] == t[j + 1];
        }
      }
      forall i | DrmMatchAt(t[1..], drm, i) ensures DrmMatchAt(t, drm, i + 1) {
        forall j | 0 <= j < i + 1 ensures t[j].drm != 0 && t[j].drm != drm {
          if j > 0 { assert t[j] == t[1..][j - 1]; }
        }
      }
    }
  }

  // ---------------------------------------------------------------- the table is a bijection

  /** The real rows have non-zero, pairwise distinct `hal` and `drm` keys. */
  lemma TableKeysDistinct()
    ensures forall i :: 0 <= i < TableRows ==> FormatTable[i].hal != 0 && FormatTable[i].drm != 0
    ensures forall i, j :: 0 <= i < j < TableRows ==>
      FormatTable[i].hal != FormatTable[j].hal && FormatTable[i].drm != FormatTable[j].drm
  {
  }

  /** Looking up any real row by its HAL format yields its DRM format, and
      looking that up yields the row's bits per pixel. */
  lemma TableRoundTrip(i: nat)
    requires i < TableRows
    ensures DrmForHal(FormatTable, FormatTable[i].hal) == FormatTable[i].drm
    ensures BppForDrm(FormatTable, DrmForHal(FormatTable, FormatTable[i].hal)) == FormatTable[i].bpp
  {
    TableKeysDistinct();
    assert HalMatchAt(FormatTable, FormatTable[i].hal, i);
    assert DrmMatchAt(FormatTable, FormatTable[i].drm, i);
    DrmForHalFirstMatch(FormatTable, FormatTable[i].hal);
    BppForDrmFirstMatch(FormatTable, FormatTable[i].drm);
  }

  /** A HAL format that is not in the table (0 included) maps to 0. */
  lemma UnknownHalFormat(hal: int)
    requires forall i :: 0 <= i < TableRows ==> FormatTable[i].hal != hal
    ensures DrmForHal(FormatTable, hal) == 0
  {
    DrmForHalFirstMatch(FormatTable, hal);
    forall i | 0 <= i < |FormatTable| ensures !HalMatchAt(FormatTable, hal, i) {
      if i == TableRows { assert FormatTable[i].hal == 0; }
    }
  }

  // ---------------------------------------------------------------- the loops

  /** `gralloc_hal_to_drm_format`. */
  method HalToDrmFormat(hal: int) returns (drm: int)
    ensures drm == DrmForHal(FormatTable, hal)
  {
    var i := 0;
    while FormatTable[i].hal != 0
      invariant 0 <= i < |FormatTable|
      invariant DrmForHal(FormatTable[i..], hal) == DrmForHal(FormatTable, hal)
      decreases |FormatTable| - i
    {
      if FormatTable[i].hal == hal {
        return FormatTable[i].drm;
      }
      assert FormatTable[i..][1..] == FormatTable[i + 1..];
      i := i + 1;
    }
    return 0;
  }

  /** `gralloc_drm_format_bpp`. */
  method FormatBpp(drm: int) returns (bpp: nat)
    ensures bpp == BppForDrm(FormatTable, drm)
  {
    var i := 0;
    while FormatTable[i].drm != 0
      invariant 0 <= i < |FormatTable|
      invariant BppForDrm(FormatTable[i..], drm) == BppForDrm(FormatTable, drm)
      decreases |FormatTable| - i
    {
      if FormatTable[i].drm == drm {
        return FormatTable[i].bpp;
      }
      assert FormatTable[i..][1..] == FormatTable[i + 1..];
      i := i + 1;
    }
    return 0;
  }
}
