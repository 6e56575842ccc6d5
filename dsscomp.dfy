/**
 * The DSS side of the planner (hwc/dsscomp.c): the scaler feasibility
 * test, the all-layers and per-layer admissibility tests, the writeback
 * mode selector, the mode-database length clamp and the manager records
 * added to a composition request.
 */
module DssComp {
  import opened CTypes
  import opened HwcTypes
  import opened ColorFmt
  import opened Layers
  import opened Displays

  const MAX_MODE_DB_LENGTH: u32 := 32

  /** The mode database length asked of the driver: the caller's length, at most MAX_MODE_DB_LENGTH. */
  function ClampModeDbLength(len: u32): (r: u32)
    ensures r <= MAX_MODE_DB_LENGTH
    ensures r <= len
    ensures r == len || r == MAX_MODE_DB_LENGTH
  {
    if len > MAX_MODE_DB_LENGTH then MAX_MODE_DB_LENGTH else len
  }

  // ---- can_dss_scale ----

  /** The horizontal decimation limit for a 2D or a 1D buffer. */
  function XDecim(limits: PlatformLimits, is2d: bool): u32
  {
    if is2d then limits.maxXdecim2d else limits.maxXdecim1d
  }

  function YDecim(limits: PlatformLimits, is2d: bool): u32
  {
    if is2d then limits.maxYdecim2d else limits.maxYdecim1d
  }

  /**
   * The functional clock (in kHz) can_dss_scale compares against: capped at
   * pclk * max_downscale (as uint32_t), then rounded down to a multiple of
   * pclk for sources narrower than the integer-scale-ratio limit.
   */
  function EffectiveFclk(limits: PlatformLimits, srcW: u32, pclk: u32): (fclk: u32)
    requires ValidLimits(limits) && pclk != 0
    ensures fclk <= limits.fclk / 1000
    ensures fclk <= Mul32(pclk, limits.maxDownscale) <= pclk * limits.maxDownscale
    ensures srcW < limits.integerScaleRatioLimit ==> IsMultipleOf(fclk, pclk)
  {
    var fclk := limits.fclk / 1000;
    var cap := Mul32(pclk, limits.maxDownscale);
    var capped := if fclk > cap then cap else fclk;
    if srcW < limits.integerScaleRatioLimit then
      RoundDown(capped, pclk)
    else capped
  }

  /**
   * can_dss_scale, on the limits of hwc_dev->dsscomp.limits: the minimum
   * width erratum (not on the DIGIT channel), the 1/4 vertical floor, the
   * vertical max downscale, then either the manual-panel width test or the
   * 1/4 horizontal floor and the clock-ratio test. Every product is a
   * uint32_t product.
   */
  function CanDssScale(limits: PlatformLimits, srcW: u32, srcH: u32, dstW: u32, dstH: u32, is2d: bool,
                       dis: DisplayInfo, pclk: u32): bool
    requires ValidLimits(limits)
  {
    var minSrcW := DivRoundUp32(srcW, XDecim(limits, is2d));
    var minSrcH := DivRoundUp32(srcH, YDecim(limits, is2d));
    if dis.channel != ChannelDigit && dstW < limits.minWidth then false
    else if dstH < srcH / 4 then false
    else if Mul32(dstH, limits.maxDownscale) < minSrcH then false
    else if pclk == 0 then !(dstW < srcW / limits.maxDownscale / XDecim(limits, is2d))
    else if Mul32(dstW, 4) < srcW then false
    else !(Mul32(dstW, EffectiveFclk(limits, srcW, pclk)) < Mul32(minSrcW, pclk))
  }

  /** The checks before the clock tests reject whatever the clocks are. */
  lemma ScaleRejections(limits: PlatformLimits, srcW: u32, srcH: u32, dstW: u32, dstH: u32, is2d: bool,
                        dis: DisplayInfo, pclk: u32)
    requires ValidLimits(limits)
    ensures dis.channel != ChannelDigit && dstW < limits.minWidth ==>
              !CanDssScale(limits, srcW, srcH, dstW, dstH, is2d, dis, pclk)
    ensures dstH < srcH / 4 ==> !CanDssScale(limits, srcW, srcH, dstW, dstH, is2d, dis, pclk)
    ensures Mul32(dstH, limits.maxDownscale) < DivRoundUp32(srcH, YDecim(limits, is2d)) ==>
              !CanDssScale(limits, srcW, srcH, dstW, dstH, is2d, dis, pclk)
  {
  }

  /** The checks common to both clock cases. */
  predicate PassesCommonChecks(limits: PlatformLimits, srcH: u32, dstW: u32, dstH: u32, is2d: bool, dis: DisplayInfo)
    requires ValidLimits(limits)
  {
    && !(dis.channel != ChannelDigit && dstW < limits.minWidth)
    && !(dstH < srcH / 4)
    && !(Mul32(dstH, limits.maxDownscale) < DivRoundUp32(srcH, YDecim(limits, is2d)))
  }

  /**
   * A manual panel (pclk 0) past the common checks is accepted exactly when
   * dst_w reaches src_w / max_downscale / xdecim; the functional clock and
   * the integer-scale-ratio limit play no part.
   */
  lemma ManualPanelScaling(limits: PlatformLimits, limits': PlatformLimits, srcW: u32, srcH: u32, dstW: u32,
                           dstH: u32, is2d: bool, dis: DisplayInfo)
    requires ValidLimits(limits) && PassesCommonChecks(limits, srcH, dstW, dstH, is2d, dis)
    requires limits' == limits.(fclk := limits'.fclk, integerScaleRatioLimit := limits'.integerScaleRatioLimit)
    ensures CanDssScale(limits, srcW, srcH, dstW, dstH, is2d, dis, 0) ==
              (dstW >= srcW / limits.maxDownscale / XDecim(limits, is2d))
    ensures CanDssScale(limits', srcW, srcH, dstW, dstH, is2d, dis, 0) ==
              CanDssScale(limits, srcW, srcH, dstW, dstH, is2d, dis, 0)
  {
    assert ValidLimits(limits');
    assert PassesCommonChecks(limits', srcH, dstW, dstH, is2d, dis);
  }

  /**
   * A clocked panel past the common checks: a horizontal downscale beyond
   * 4 rejects, and otherwise the verdict is dst_w * fclk >= min_src_w * pclk
   * on the effective fclk.
   */
  lemma ClockedPanelScaling(limits: PlatformLimits, srcW: u32, srcH: u32, dstW: u32, dstH: u32, is2d: bool,
                            dis: DisplayInfo, pclk: u32)
    requires ValidLimits(limits) && pclk != 0 && PassesCommonChecks(limits, srcH, dstW, dstH, is2d, dis)
    ensures Mul32(dstW, 4) < srcW ==> !CanDssScale(limits, srcW, srcH, dstW, dstH, is2d, dis, pclk)
    ensures Mul32(dstW, 4) >= srcW ==>
              (CanDssScale(limits, srcW, srcH, dstW, dstH, is2d, dis, pclk) <==>
               Mul32(dstW, EffectiveFclk(limits, srcW, pclk)) >= Mul32(DivRoundUp32(srcW, XDecim(limits, is2d)), pclk))
  {
  }

  // ---- can_dss_render_all_layers and can_dss_render_layer ----

  /** What the admissibility tests learn about the mirroring partner of a display. */
  datatype MirrorView = MirrorView(mirroring: bool, extDisp: int, onTv: bool, tform: bool)

  /** The display an admissibility test mirrors to: the external display for the primary, the display itself otherwise. */
  function ExtDispFor(dev: Device, disp: int): int
    reads dev
  {
    if disp == HWC_DISPLAY_PRIMARY then dev.extDisp else disp
  }

  /**
   * The mirroring partner of disp: whether the partner mirrors, whether
   * the panel is a TV (the display itself or, when mirroring, its clone
   * partner) and whether the partner's transform rotates or flips.
   */
  function MirrorViewOf(dev: Device, disp: int): (mv: MirrorView)
    requires dev.Valid()
    reads dev, dev.displays
    ensures mv.mirroring <==> ExtDispFor(dev, disp) in dev.mirroring
    ensures mv.mirroring ==> Present(dev, mv.extDisp) && mv.extDisp != HWC_DISPLAY_PRIMARY
    ensures !mv.mirroring ==> (mv.onTv <==> IsHdmiDisplay(dev, disp)) && !mv.tform
  {
    var ext := ExtDispFor(dev, disp);
    var onTv := IsHdmiDisplay(dev, disp);
    if ext in dev.mirroring then
      var clone := if disp == HWC_DISPLAY_PRIMARY then ext else HWC_DISPLAY_PRIMARY;
      var t := dev.displays[ext].transform;
      MirrorView(true, ext, onTv || IsHdmiDisplay(dev, clone), t.rotation != 0 || t.hflip)
    else MirrorView(false, ext, onTv, false)
  }

  /** The composable mask of the mirroring partner (unused when not mirroring). */
  function ExtComposableMask(dev: Device, mv: MirrorView): bv32
    requires mv.mirroring ==> Present(dev, mv.extDisp)
    reads dev, dev.displays
  {
    if mv.mirroring then dev.displays[mv.extDisp].layerStats.composableMask else 0
  }

  /**
   * The verdict of can_dss_render_all_layers on the values it reads: the
   * mirroring mask test, then the conjunction of the SGX, layer-count,
   * overlay-budget, TILER, clone-transform, HDMI-order and NV12-only terms.
   */
  function RenderAllVerdict(st: LayerStatistics, comp: Composition, mv: MirrorView, extMask: bv32,
                            forceSgx: bool, rgbOrder: bool, nv12Only: bool): bool
  {
    if mv.mirroring && st.composableMask & extMask != st.composableMask then false
    else
      && !forceSgx
      && st.composable != 0
      && st.composable <= comp.availOvls
      && st.composable == st.count
      && st.scaled <= comp.scalingOvls
      && st.nv12 <= comp.scalingOvls
      && st.mem1dTotal <= comp.tiler1dSlotSize
      && (!mv.tform || st.nv12 == st.composable)
      && (st.bgr == 0 || (st.rgb == 0 && !mv.onTv) || !rgbOrder)
      && (!nv12Only || (st.bgr == 0 && st.rgb == 0))
  }

  /** can_dss_render_all_layers: whether DSS alone can compose every layer of the display this frame. */
  function CanDssRenderAllLayers(dev: Device, disp: int): bool
    requires dev.Valid() && Present(dev, disp)
    reads dev, dev.displays
  {
    var d := dev.displays[disp];
    var mv := MirrorViewOf(dev, disp);
    RenderAllVerdict(d.layerStats, d.composition, mv, ExtComposableMask(dev, mv),
                     dev.forceSgx, dev.flagsRgbOrder, dev.flagsNv12Only)
  }

  /** A DSS-only frame needs SGX off, at least one layer, every layer composable and the overlay and TILER budgets met. */
  lemma RenderAllNeedsBudget(dev: Device, disp: int)
    requires dev.Valid() && Present(dev, disp)
    ensures var st := dev.displays[disp].layerStats;
            var comp := dev.displays[disp].composition;
            CanDssRenderAllLayers(dev, disp) ==>
              && !dev.forceSgx
              && 0 < st.composable == st.count
              && st.composable <= comp.availOvls
              && st.scaled <= comp.scalingOvls && st.nv12 <= comp.scalingOvls
              && st.mem1dTotal <= comp.tiler1dSlotSize
  {
  }

  /**
   * While mirroring, the primary's composable layers must be composable on
   * the external display too, and a rotated or flipped clone takes NV12
   * layers only.
   */
  lemma RenderAllMirroring(dev: Device, disp: int)
    requires dev.Valid() && Present(dev, disp)
    ensures var st := dev.displays[disp].layerStats;
            var ext := ExtDispFor(dev, disp);
            ext in dev.mirroring && CanDssRenderAllLayers(dev, disp) ==>
              && st.composableMask & dev.displays[ext].layerStats.composableMask == st.composableMask
              && (dev.displays[ext].transform.rotation != 0 || dev.displays[ext].transform.hflip ==>
                    st.nv12 == st.composable)
  {
  }

  /**
   * With RGB ordering enforced, a frame with BGR layers is accepted only
   * when it has no RGB layer and neither it nor its mirror is on a TV (so
   * a TV panel takes no BGR layers); NV12-only mode takes no RGB or BGR
   * layers.
   */
  lemma RenderAllColourOrder(dev: Device, disp: int)
    requires dev.Valid() && Present(dev, disp)
    ensures var st := dev.displays[disp].layerStats;
            CanDssRenderAllLayers(dev, disp) ==>
              && (dev.flagsRgbOrder && st.bgr != 0 ==> st.rgb == 0 && !MirrorViewOf(dev, disp).onTv)
              && (dev.flagsRgbOrder && IsHdmiDisplay(dev, disp) ==> st.bgr == 0)
              && (dev.flagsNv12Only ==> st.bgr == 0 && st.rgb == 0)
  {
  }

  /** More available overlays, all else fixed, never turn an accepted frame into a rejected one. */
  lemma {:induction false} RenderAllMonotoneInOverlays(st: LayerStatistics, comp: Composition, avail: u32, mv: MirrorView,
                                                       extMask: bv32, forceSgx: bool, rgbOrder: bool, nv12Only: bool)
    requires comp.availOvls <= avail
    ensures RenderAllVerdict(st, comp, mv, extMask, forceSgx, rgbOrder, nv12Only) ==>
              RenderAllVerdict(st, comp.(availOvls := avail), mv, extMask, forceSgx, rgbOrder, nv12Only)
  {
  }

  /**
   * The verdict of can_dss_render_layer on the values it reads: the
   * partner must accept the layer when mirroring, then the display must,
   * with the clone-transform, NV12-only, RGB-order and TV terms.
   */
  function RenderLayerVerdict(extComposable: bool, composable: bool, mv: MirrorView, comp: Composition,
                              layer: Layer, rgbOrder: bool, nv12Only: bool): bool
    requires composable ==> HasHandle(layer)
  {
    if mv.mirroring && !extComposable then false
    else
      && composable
      && (!mv.tform || IsNv12Layer(layer))
      && (!nv12Only || (!comp.useSgx || IsNv12Layer(layer)))
      && (!(if comp.swapRb then IsRgbLayer(layer) else IsBgrLayer(layer)) || !rgbOrder)
      && !(mv.onTv && IsBgrLayer(layer))
  }

  /**
   * can_dss_render_layer: whether one layer may go on a DSS overlay of the
   * display. The layer tests need a buffer handle, which the source reads
   * only once is_composable_layer has accepted the layer.
   */
  function CanDssRenderLayer(dev: Device, disp: int, layer: Layer): bool
    requires dev.Valid() && Present(dev, disp)
    requires dev.isComposable(disp, layer) ==> HasHandle(layer)
    reads dev, dev.displays
  {
    var mv := MirrorViewOf(dev, disp);
    RenderLayerVerdict(dev.isComposable(mv.extDisp, layer), dev.isComposable(disp, layer), mv,
                       dev.displays[disp].composition, layer, dev.flagsRgbOrder, dev.flagsNv12Only)
  }

  /**
   * The rejections of can_dss_render_layer: a layer the display (or, when
   * mirroring, its partner) cannot compose; a BGR layer on a TV panel,
   * whatever the flags; with RGB ordering, an RGB layer under swap_rb and a
   * BGR layer without it; a non-NV12 layer on a transformed clone.
   */
  lemma RenderLayerRejections(dev: Device, disp: int, layer: Layer)
    requires dev.Valid() && Present(dev, disp)
    requires dev.isComposable(disp, layer) ==> HasHandle(layer)
    ensures var ok := CanDssRenderLayer(dev, disp, layer);
            var ext := ExtDispFor(dev, disp);
            var swapRb := dev.displays[disp].composition.swapRb;
            && (ok ==> dev.isComposable(disp, layer) && (ext in dev.mirroring ==> dev.isComposable(ext, layer)))
            && (HasHandle(layer) && IsBgrLayer(layer) && IsHdmiDisplay(dev, disp) ==> !ok)
            && ((HasHandle(layer) && IsBgrLayer(layer) && ext in dev.mirroring &&
                 IsHdmiDisplay(dev, if disp == HWC_DISPLAY_PRIMARY then ext else HWC_DISPLAY_PRIMARY)) ==> !ok)
            && (HasHandle(layer) && dev.flagsRgbOrder && swapRb && IsRgbLayer(layer) ==> !ok)
            && (HasHandle(layer) && dev.flagsRgbOrder && !swapRb && IsBgrLayer(layer) ==> !ok)
            && ((HasHandle(layer) && !IsNv12Layer(layer) && ext in dev.mirroring &&
                 (dev.displays[ext].transform.rotation != 0 || dev.displays[ext].transform.hflip)) ==> !ok)
  {
  }

  // ---- decide_dss_wb_capture_mode ----

  datatype WbMode = WbCaptureMode | WbMem2MemMode

  /** A single-precision quotient of two uint32_t values: finite, +inf for x/0 with x > 0, NaN for 0/0. */
  datatype Ratio = Finite(value: real) | PosInf | NaN

  function RatioOf(num: u32, den: u32): (q: Ratio)
    ensures den != 0 ==> q == Finite(num as real / den as real)
    ensures den == 0 ==> (q.NaN? <==> num == 0)
  {
    if den != 0 then Finite(num as real / den as real)
    else if num != 0 then PosInf
    else NaN
  }

  /** IEEE ordered comparisons: NaN compares false to everything, +inf is above every finite value. */
  predicate Above(a: Ratio, c: real)
  {
    a.PosInf? || (a.Finite? && a.value > c)
  }

  predicate Below(a: Ratio, c: real)
  {
    a.Finite? && a.value < c
  }

  /** a < b * k in single precision, for a positive constant k (so +inf * k is +inf). */
  predicate BelowScaled(a: Ratio, b: Ratio, k: real)
    requires k > 0.0
  {
    match (a, b)
    case (Finite(x), Finite(y)) => x < y * k
    case (Finite(_), PosInf) => true
    case _ => false
  }

  const WB_CAPTURE_MAX_UPSCALE: real := 1.0
  const WB_CAPTURE_MAX_DOWNSCALE: real := 0.5
  const WB_ASPECT_RATIO_TOLERANCE: real := 0.15

  /** The writeback mode decide_dss_wb_capture_mode computes before its override. */
  function ComputedWbMode(srcX: u32, srcY: u32, dstX: u32, dstY: u32): WbMode
  {
    var x := RatioOf(srcX, dstX);
    var y := RatioOf(srcY, dstY);
    var k := 1.0 - WB_ASPECT_RATIO_TOLERANCE;
    if Above(x, WB_CAPTURE_MAX_UPSCALE) || Above(y, WB_CAPTURE_MAX_UPSCALE) ||
       Below(x, WB_CAPTURE_MAX_DOWNSCALE) || Below(y, WB_CAPTURE_MAX_DOWNSCALE) ||
       BelowScaled(x, y, k) || BelowScaled(y, x, k)
    then WbMem2MemMode
    else WbCaptureMode
  }

  /** decide_dss_wb_capture_mode: the computed mode is overridden by MEM2MEM. */
  function DecideDssWbCaptureMode(srcX: u32, srcY: u32, dstX: u32, dstY: u32): WbMode
  {
    var computed := ComputedWbMode(srcX, srcY, dstX, dstY);
    WbMem2MemMode
  }

  /** Whatever the sizes, the selector answers MEM2MEM, even where the computed mode is CAPTURE. */
  lemma WbModeAlwaysMem2Mem(srcX: u32, srcY: u32, dstX: u32, dstY: u32)
    ensures DecideDssWbCaptureMode(srcX, srcY, dstX, dstY) == WbMem2MemMode
    ensures srcX > 0 && srcY > 0 ==> ComputedWbMode(srcX, srcY, srcX, srcY) == WbCaptureMode
  {
    if srcX > 0 && srcY > 0 {
      assert srcX as real / srcX as real == 1.0;
      assert srcY as real / srcY as real == 1.0;
    }
  }

  /**
   * With non-zero destination sizes the computed mode is CAPTURE exactly
   * when both scale factors lie in [0.5, 1.0] and neither falls below the
   * other times 0.85.
   */
  lemma ComputedWbModeFinite(srcX: u32, srcY: u32, dstX: u32, dstY: u32)
    requires dstX != 0 && dstY != 0
    ensures var x := srcX as real / dstX as real;
            var y := srcY as real / dstY as real;
            ComputedWbMode(srcX, srcY, dstX, dstY) == WbCaptureMode <==>
              0.5 <= x <= 1.0 && 0.5 <= y <= 1.0 && x >= y * 0.85 && x * 0.85 <= y
  {
    var x := srcX as real / dstX as real;
    var y := srcY as real / dstY as real;
  }

  /** A zero destination width or height makes the computed mode MEM2MEM unless that axis is 0/0. */
  lemma ComputedWbModeZeroDestination(srcX: u32, srcY: u32, dstX: u32, dstY: u32)
    ensures dstX == 0 && srcX != 0 ==> ComputedWbMode(srcX, srcY, dstX, dstY) == WbMem2MemMode
    ensures dstY == 0 && srcY != 0 ==> ComputedWbMode(srcX, srcY, dstX, dstY) == WbMem2MemMode
  {
  }

  // ---- append_manager and setup_dsscomp_manager ----

  /**
   * append_manager: the next manager slot gets (mgr_ix, alpha blending on,
   * swap_rb) and the manager count grows by one; everything else is kept.
   */
  method AppendManager(data: DispcData, mgrIx: int, swapRb: bool) returns (r: DispcData)
    requires data.numMgrs < |data.mgrs|
    ensures |r.mgrs| == |data.mgrs| && r.numMgrs == data.numMgrs + 1
    ensures r.mgrs[data.numMgrs] == MgrInfo(mgrIx, true, swapRb)
    ensures forall k :: 0 <= k < |data.mgrs| && k != data.numMgrs ==> r.mgrs[k] == data.mgrs[k]
    ensures r.numOvls == data.numOvls && r.ovls == data.ovls
  {
    r := data.(mgrs := data.mgrs[data.numMgrs := MgrInfo(mgrIx, true, swapRb)]);
    r := r.(numMgrs := r.numMgrs + 1);
  }

  /** Whether setup_dsscomp_manager adds the cleanup manager: overlays were left on an external display that is gone. */
  predicate NeedsCleanup(dev: Device)
    reads dev
  {
    dev.lastExtOvls != 0 && dev.extDisp < 0
  }

  /** The display whose request receives disp's manager: the primary when disp mirrors, disp otherwise. */
  function RequestOwner(dev: Device, disp: int): int
    reads dev
  {
    if disp in dev.mirroring then HWC_DISPLAY_PRIMARY else disp
  }

  /**
   * setup_dsscomp_manager: disp's manager (its mgr_ix and swap_rb) goes
   * into the request of RequestOwner(disp); when NeedsCleanup, a second
   * record for manager 1 without swap follows and last_ext_ovls is reset,
   * so that a repeated call adds no cleanup record.
   */
  method SetupDsscompManager(dev: Device, disp: int)
    requires dev.Valid() && Present(dev, disp)
    requires var data := dev.displays[RequestOwner(dev, disp)].composition.dsscompData;
             data.numMgrs + (if NeedsCleanup(dev) then 2 else 1) <= |data.mgrs|
    modifies dev, dev.displays[RequestOwner(dev, disp)]
    ensures dev.Valid()
    ensures dev.displays == old(dev.displays) && dev.extDisp == old(dev.extDisp)
    ensures dev.mirroring == old(dev.mirroring) && dev.lastIntOvls == old(dev.lastIntOvls)
    ensures dev.lastExtOvls == if old(NeedsCleanup(dev)) then 0 else old(dev.lastExtOvls)
    ensures !NeedsCleanup(dev)
    ensures var owner := dev.displays[RequestOwner(dev, disp)];
            var before := old(owner.composition.dsscompData);
            var after := owner.composition.dsscompData;
            var n := before.numMgrs;
            && owner.composition == old(owner.composition).(dsscompData := after)
            && after.numMgrs == n + (if old(NeedsCleanup(dev)) then 2 else 1)
            && |after.mgrs| == |before.mgrs|
            && after.mgrs[n] == MgrInfo(old(dev.displays[disp].mgrIx), true, old(dev.displays[disp].composition.swapRb))
            && (old(NeedsCleanup(dev)) ==> after.mgrs[n + 1] == MgrInfo(1, true, false))
            && (forall k :: 0 <= k < |before.mgrs| && k != n && !(old(NeedsCleanup(dev)) && k == n + 1) ==>
                  after.mgrs[k] == before.mgrs[k])
            && after.numOvls == before.numOvls && after.ovls == before.ovls
    ensures var o := dev.displays[RequestOwner(dev, disp)];
            && o.configs == old(o.configs) && o.activeConfigIx == old(o.activeConfigIx)
            && o.dispType == old(o.dispType) && o.role == old(o.role) && o.mgrIx == old(o.mgrIx)
            && o.contents == old(o.contents) && o.layerStats == old(o.layerStats) && o.transform == old(o.transform)
  {
    var display := dev.displays[disp];
    var owner := dev.displays[RequestOwner(dev, disp)];
    var data := AppendManager(owner.composition.dsscompData, display.mgrIx, display.composition.swapRb);
    if dev.lastExtOvls != 0 && dev.extDisp < 0 {
      data := AppendManager(data, 1, false);
      dev.lastExtOvls := 0;
    }
    owner.composition := owner.composition.(dsscompData := data);
  }
}
