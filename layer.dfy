/**
 * Per-layer predicates and the per-frame statistics pass (hwc/layer.c).
 */
module Layers {
  import opened CTypes
  import opened HwcTypes
  import opened ColorFmt

  /**
   * What layer validity depends on besides the layer: the TILER 1D slot
   * size of the platform limits, whether the primary display is
   * transformed, and can_scale with the framebuffer display bound.
   */
  datatype LayerCtx = LayerCtx(tiler1dSlotSize: u32, primaryTransform: bool,
                               canScale: (u32, u32, u32, u32, bool) -> bool)

  function DeviceLayerCtx(dev: Device): LayerCtx
    reads dev
  {
    LayerCtx(dev.platformLimits.tiler1dSlotSize, dev.primaryTransform, dev.canScale)
  }

  predicate HasHandle(layer: Layer) { layer.handle.Some? }

  predicate IsDockableLayer(layer: Layer)
    requires HasHandle(layer)
  {
    layer.handle.value.usage & GRALLOC_USAGE_EXTERNAL_DISP != 0
  }

  predicate IsProtectedLayer(layer: Layer)
    requires HasHandle(layer)
  {
    layer.handle.value.usage & GRALLOC_USAGE_PROTECTED != 0
  }

  predicate IsBlendedLayer(layer: Layer)
  {
    layer.blending != HWC_BLENDING_NONE
  }

  predicate IsRgbLayer(layer: Layer)
    requires HasHandle(layer)
  {
    IsRgbFormat(layer.handle.value.format)
  }

  predicate IsBgrLayer(layer: Layer)
    requires HasHandle(layer)
  {
    IsBgrFormat(layer.handle.value.format)
  }

  predicate IsNv12Layer(layer: Layer)
    requires HasHandle(layer)
  {
    IsNv12Format(layer.handle.value.format)
  }

  predicate IsRotated90(layer: Layer)
  {
    layer.transform & HWC_TRANSFORM_ROT_90 != 0
  }

  /** is_scaled_layer: the display frame differs from the source crop, the crop's sides swapped under a quarter turn. */
  predicate IsScaledLayer(layer: Layer)
  {
    var w := Width(layer.sourceCrop);
    var h := Height(layer.sourceCrop);
    var (w', h') := if IsRotated90(layer) then (h, w) else (w, h);
    Width(layer.displayFrame) != w' || Height(layer.displayFrame) != h'
  }

  /** A layer is unscaled exactly when the frame has the crop's size, with the sides swapped under ROT_90. */
  lemma ScaledLayerIff(layer: Layer)
    ensures !IsRotated90(layer) ==>
              (!IsScaledLayer(layer) <==> Width(layer.displayFrame) == Width(layer.sourceCrop) &&
                                          Height(layer.displayFrame) == Height(layer.sourceCrop))
    ensures IsRotated90(layer) ==>
              (!IsScaledLayer(layer) <==> Width(layer.displayFrame) == Height(layer.sourceCrop) &&
                                          Height(layer.displayFrame) == Width(layer.sourceCrop))
  {
  }

  /** Bytes a non-NV12 buffer needs in the TILER 1D slot: 32-pixel aligned stride times height, as uint32_t. */
  function GetRequiredMem1dSize(layer: Layer): u32
  {
    if layer.handle.None? || IsNv12Layer(layer) then 0
    else
      var handle := layer.handle.value;
      var bpp := if handle.format == HAL_PIXEL_FORMAT_RGB_565 then 2 else 4;
      var stride := Align32(handle.width) * bpp;
      Wrap32(stride * handle.height)
  }

  /**
   * No handle or an NV12 buffer needs no 1D space; otherwise, below 2^32,
   * the size is the aligned stride (2 bytes per pixel for RGB565, else 4)
   * times the height.
   */
  lemma Mem1dSizeExact(layer: Layer)
    ensures layer.handle.None? ==> GetRequiredMem1dSize(layer) == 0
    ensures HasHandle(layer) && IsNv12Layer(layer) ==> GetRequiredMem1dSize(layer) == 0
    ensures HasHandle(layer) && !IsNv12Layer(layer) ==>
              var h := layer.handle.value;
              var exact := Align32(h.width) * (if h.format == HAL_PIXEL_FORMAT_RGB_565 then 2 else 4) * h.height;
              0 <= exact < U32_LIMIT ==> GetRequiredMem1dSize(layer) == exact
  {
  }

  /** The 32bpp wide-source horizontal-downscale limit of can_scale_layer. */
  predicate TooWideDownscale(layer: Layer)
    requires HasHandle(layer)
  {
    GetFormatBpp(layer.handle.value.format) == 32 && Width(layer.sourceCrop) > 1280 &&
    Width(layer.displayFrame) * 3 < Width(layer.sourceCrop)
  }

  /**
   * Scaler check for one layer: the wide 32bpp limit, then can_scale on the
   * source size (sides swapped under a quarter turn) and the frame size,
   * each converted to uint32_t.
   */
  function CanScaleLayer(ctx: LayerCtx, layer: Layer): bool
    requires HasHandle(layer)
  {
    var srcW := Width(layer.sourceCrop);
    var srcH := Height(layer.sourceCrop);
    var dstW := Width(layer.displayFrame);
    var dstH := Height(layer.displayFrame);
    if GetFormatBpp(layer.handle.value.format) == 32 && srcW > 1280 && dstW * 3 < srcW then false
    else
      var (w, h) := if IsRotated90(layer) then (srcH, srcW) else (srcW, srcH);
      ctx.canScale(Wrap32(w), Wrap32(h), Wrap32(dstW), Wrap32(dstH), IsNv12Layer(layer))
  }

  /** is_valid_layer: whether the layer can go on a DSS overlay at all. */
  predicate IsValidLayer(ctx: LayerCtx, layer: Layer)
  {
    if layer.flags & HWC_SKIP_LAYER != 0 || layer.handle.None? then false
    else if layer.compositionType == FramebufferTarget then false
    else if !IsValidFormat(layer.handle.value.format) then false
    else if !IsNv12Layer(layer) && (layer.transform != 0 || GetRequiredMem1dSize(layer) > ctx.tiler1dSlotSize) then false
    else CanScaleLayer(ctx, layer)
  }

  /** The wide 32bpp limit vetoes; otherwise the verdict is can_scale on the (swapped) source and frame sizes as uint32_t. */
  lemma CanScaleLayerVerdict(ctx: LayerCtx, layer: Layer)
    requires HasHandle(layer)
    ensures TooWideDownscale(layer) ==> !CanScaleLayer(ctx, layer)
    ensures !TooWideDownscale(layer) ==>
              var sw := Width(layer.sourceCrop);
              var sh := Height(layer.sourceCrop);
              CanScaleLayer(ctx, layer) ==
                if IsRotated90(layer)
                then ctx.canScale(Wrap32(sh), Wrap32(sw), Wrap32(Width(layer.displayFrame)),
                                  Wrap32(Height(layer.displayFrame)), IsNv12Layer(layer))
                else ctx.canScale(Wrap32(sw), Wrap32(sh), Wrap32(Width(layer.displayFrame)),
                                  Wrap32(Height(layer.displayFrame)), IsNv12Layer(layer))
  {
  }

  /** Each of the rejections of is_valid_layer and can_scale_layer makes a layer invalid. */
  lemma ValidLayerRejections(ctx: LayerCtx, layer: Layer)
    ensures IsValidLayer(ctx, layer) ==> HasHandle(layer) && CanScaleLayer(ctx, layer)
    ensures layer.flags & HWC_SKIP_LAYER != 0 ==> !IsValidLayer(ctx, layer)
    ensures layer.compositionType == FramebufferTarget ==> !IsValidLayer(ctx, layer)
    ensures HasHandle(layer) && !IsValidFormat(layer.handle.value.format) ==> !IsValidLayer(ctx, layer)
    ensures HasHandle(layer) && !IsNv12Layer(layer) && layer.transform != 0 ==> !IsValidLayer(ctx, layer)
    ensures HasHandle(layer) && !IsNv12Layer(layer) && GetRequiredMem1dSize(layer) > ctx.tiler1dSlotSize ==>
              !IsValidLayer(ctx, layer)
    ensures HasHandle(layer) && TooWideDownscale(layer) ==> !IsValidLayer(ctx, layer)
  {
    if HasHandle(layer) {
      CanScaleLayerVerdict(ctx, layer);
    }
  }

  /** Once past the individual rejections, validity is the scaler's verdict. */
  lemma ValidLayerIsScalerVerdict(ctx: LayerCtx, layer: Layer)
    requires HasHandle(layer) && layer.flags & HWC_SKIP_LAYER == 0 && layer.compositionType != FramebufferTarget
    requires IsValidFormat(layer.handle.value.format)
    requires IsNv12Layer(layer) || (layer.transform == 0 && GetRequiredMem1dSize(layer) <= ctx.tiler1dSlotSize)
    ensures IsValidLayer(ctx, layer) == CanScaleLayer(ctx, layer)
  {
  }

  // ---- the statistics pass ----

  predicate IsTarget(layer: Layer) { layer.compositionType == FramebufferTarget }

  /** The compositionType reset the statistics pass applies to every layer but the framebuffer target. */
  function Normalized(layer: Layer): (r: Layer)
    ensures IsTarget(layer) ==> r == layer
    ensures !IsTarget(layer) ==> r == layer.(compositionType := Framebuffer)
  {
    if IsTarget(layer) then layer else layer.(compositionType := Framebuffer)
  }

  function NormalizedAll(layers: seq<Layer>): (r: seq<Layer>)
    ensures |r| == |layers| && forall i :: 0 <= i < |layers| ==> r[i] == Normalized(layers[i])
  {
    seq(|layers|, i requires 0 <= i < |layers| => Normalized(layers[i]))
  }

  /**
   * What the pass learns about one layer: whether it is valid and, for a
   * valid layer (which has a handle), the classification tests the pass
   * makes on it.
   */
  datatype LayerKind = LayerKind(valid: bool, scaled: bool, bgr: bool, rgb: bool, nv12: bool,
                                 dockable: bool, protected: bool)

  function KindOf(ctx: LayerCtx, layer: Layer): LayerKind
  {
    if IsValidLayer(ctx, layer) then
      LayerKind(true, IsScaledLayer(layer) || IsNv12Layer(layer) || ctx.primaryTransform,
                IsBgrLayer(layer), IsRgbLayer(layer), IsNv12Layer(layer),
                IsDockableLayer(layer), IsProtectedLayer(layer))
    else LayerKind(false, false, false, false, false, false, false)
  }

  /** The counters of layer_statistics_t, one per kind of layer counted. */
  datatype Counter = Targets | Composable | Scaled | Bgr | Rgb | Nv12 | Dockable | Protected

  /** Whether the pass bumps counter k for a non-target layer of this kind (bgr, rgb and nv12 form an else-if chain). */
  predicate CountsKind(k: Counter, kind: LayerKind)
  {
    match k
    case Targets => false
    case Composable => kind.valid
    case Scaled => kind.valid && kind.scaled
    case Bgr => kind.valid && kind.bgr
    case Rgb => kind.valid && !kind.bgr && kind.rgb
    case Nv12 => kind.valid && !kind.bgr && !kind.rgb && kind.nv12
    case Dockable => kind.valid && kind.dockable
    case Protected => kind.valid && kind.protected
  }

  /** Whether the pass bumps counter k for this layer. */
  predicate Counts(ctx: LayerCtx, k: Counter, layer: Layer)
  {
    if k == Targets then IsTarget(layer) else CountsKind(k, KindOf(ctx, layer))
  }

  /** Number of layers of the list that counter k counts. */
  function CountOf(ctx: LayerCtx, k: Counter, layers: seq<Layer>): (n: nat)
    ensures n <= |layers|
  {
    if |layers| == 0 then 0
    else CountOf(ctx, k, layers[..|layers| - 1]) + (if Counts(ctx, k, layers[|layers| - 1]) then 1 else 0)
  }

  /** Sum of the TILER 1D sizes of the valid layers, without wrap-around. */
  function Mem1dOf(ctx: LayerCtx, layers: seq<Layer>): nat
  {
    if |layers| == 0 then 0
    else
      var last := layers[|layers| - 1];
      Mem1dOf(ctx, layers[..|layers| - 1]) + (if IsValidLayer(ctx, last) then GetRequiredMem1dSize(last) else 0)
  }

  /**
   * The statistics of a layer list, field by field: every counter is the
   * number of layers it counts, count leaves the framebuffer targets out,
   * the 1D total is the uint32_t sum, and the composable mask stays 0.
   */
  function StatsOf(ctx: LayerCtx, layers: seq<Layer>): LayerStatistics
  {
    var targets := CountOf(ctx, Targets, layers);
    LayerStatistics(
      count := |layers| - targets,
      framebuffer := targets,
      composable := CountOf(ctx, Composable, layers),
      composableMask := 0,
      scaled := CountOf(ctx, Scaled, layers),
      rgb := CountOf(ctx, Rgb, layers),
      bgr := CountOf(ctx, Bgr, layers),
      nv12 := CountOf(ctx, Nv12, layers),
      dockable := CountOf(ctx, Dockable, layers),
      protected := CountOf(ctx, Protected, layers),
      mem1dTotal := Wrap32(Mem1dOf(ctx, layers)))
  }

  /**
   * The statistics after the first layers ls of a list of n: the counters
   * of ls, and count already set to n before the pass and lowered once per
   * framebuffer target seen.
   */
  function PassState(ctx: LayerCtx, ls: seq<Layer>, n: nat): (st: LayerStatistics)
    requires |ls| <= n
    ensures st.framebuffer + st.count == n
  {
    var full := StatsOf(ctx, ls);
    full.(count := n - full.framebuffer)
  }

  /**
   * gather_layer_statistics: zero the statistics, then one pass over the
   * list that resets compositionType and bumps the counters. A NULL list
   * gives all-zero statistics.
   */
  method GatherLayerStatistics(ctx: LayerCtx, list: Contents?) returns (stats: LayerStatistics)
    modifies {list}`hwLayers
    ensures list == null ==> stats == StatsOf(ctx, [])
    ensures list != null ==> stats == StatsOf(ctx, old(list.hwLayers))
    ensures list != null ==> list.hwLayers == NormalizedAll(old(list.hwLayers))
  {
    stats := LayerStatistics(0, 0, 0, 0, 0, 0, 0, 0, 0, 0, 0);
    stats := stats.(count := if list == null then 0 else |list.hwLayers|);
    if list == null {
      return;
    }
    ghost var orig := list.hwLayers;
    var n := |list.hwLayers|;
    var i := 0;
    while i < n
      invariant 0 <= i <= n == |list.hwLayers|
      invariant list.hwLayers[i..] == orig[i..]
      invariant list.hwLayers[..i] == NormalizedAll(orig[..i])
      invariant stats == PassState(ctx, orig[..i], n)
    {
      stats := PassStep(ctx, list, i, stats, orig, n);
      i := i + 1;
    }
    assert orig[..n] == orig;
  }

  /** The body of the pass for entry i: the entry is normalized in place and tallied. */
  method PassStep(ctx: LayerCtx, list: Contents, i: nat, stats: LayerStatistics, ghost orig: seq<Layer>, n: nat)
    returns (s: LayerStatistics)
    requires i < n == |list.hwLayers| == |orig|
    requires list.hwLayers[i..] == orig[i..] && list.hwLayers[..i] == NormalizedAll(orig[..i])
    requires stats == PassState(ctx, orig[..i], n)
    modifies list`hwLayers
    ensures |list.hwLayers| == n
    ensures list.hwLayers[i + 1..] == orig[i + 1..] && list.hwLayers[..i + 1] == NormalizedAll(orig[..i + 1])
    ensures s == PassState(ctx, orig[..i + 1], n)
  {
    assert list.hwLayers[i] == orig[i] by { assert list.hwLayers[i..][0] == orig[i..][0]; }
    assert orig[..i + 1] == orig[..i] + [orig[i]];
    var layer;
    s, layer := TallyOne(ctx, stats, list.hwLayers[i], orig[..i], n);
    NormalizedStep(orig, list.hwLayers, i);
    list.hwLayers := list.hwLayers[i := layer];
  }

  /** Normalizing entry i of a list normalized below i extends the normalized prefix by one. */
  lemma NormalizedStep(orig: seq<Layer>, cur: seq<Layer>, i: nat)
    requires i < |orig| == |cur| && cur[..i] == NormalizedAll(orig[..i]) && cur[i..] == orig[i..]
    ensures cur[i := Normalized(orig[i])][..i + 1] == NormalizedAll(orig[..i + 1])
    ensures cur[i := Normalized(orig[i])][i + 1..] == orig[i + 1..]
  {
    var next := cur[i := Normalized(orig[i])];
    assert cur[i] == orig[i] by { assert cur[i..][0] == orig[i..][0]; }
    forall k | i + 1 <= k < |orig|
      ensures next[k] == orig[k]
    {
      assert cur[i..][k - i] == orig[i..][k - i];
    }
  }

  /**
   * One iteration of the pass: a framebuffer target moves one unit from
   * count to framebuffer, any other layer gets compositionType reset, and
   * the counters and the 1D total are bumped for what the layer is.
   */
  method TallyOne(ctx: LayerCtx, stats: LayerStatistics, layer: Layer, ghost ls: seq<Layer>, ghost n: nat)
    returns (s: LayerStatistics, out: Layer)
    requires |ls| < n && stats == PassState(ctx, ls, n)
    ensures out == Normalized(layer)
    ensures s == PassState(ctx, ls + [layer], n)
  {
    s := stats;
    out := layer;
    if layer.compositionType == FramebufferTarget {
      s := s.(framebuffer := s.framebuffer + 1, count := s.count - 1);
    } else {
      out := layer.(compositionType := Framebuffer);
    }
    NormalizedCounts(ctx, layer);
    var kind := KindOf(ctx, out);
    s := TallyLayer(s, kind);
    if kind.valid {
      s := s.(mem1dTotal := Add32(s.mem1dTotal, GetRequiredMem1dSize(out)));
    }
    PassStateSnoc(ctx, ls, layer, n);
    PassStateSnocRest(ctx, ls, layer, n);
    PassStateSnocMem1d(ctx, ls, layer, n);
  }

  /** One more layer moves the target counters and the first class counters of PassState by what it is. */
  lemma PassStateSnoc(ctx: LayerCtx, ls: seq<Layer>, x: Layer, n: nat)
    requires |ls| < n
    ensures var before := PassState(ctx, ls, n);
            var after := PassState(ctx, ls + [x], n);
            var kind := KindOf(ctx, x);
            && after.framebuffer == before.framebuffer + (if IsTarget(x) then 1 else 0)
            && after.count == before.count - (if IsTarget(x) then 1 else 0)
            && after.composableMask == before.composableMask
            && after.composable == before.composable + (if CountsKind(Composable, kind) then 1 else 0)
            && after.scaled == before.scaled + (if CountsKind(Scaled, kind) then 1 else 0)
            && after.bgr == before.bgr + (if CountsKind(Bgr, kind) then 1 else 0)
  {
    CountOfSnoc(ctx, Targets, ls, x);
    CountOfSnoc(ctx, Composable, ls, x);
    CountOfSnoc(ctx, Scaled, ls, x);
    CountOfSnoc(ctx, Bgr, ls, x);
  }

  /** ... and the remaining class counters likewise. */
  lemma PassStateSnocRest(ctx: LayerCtx, ls: seq<Layer>, x: Layer, n: nat)
    requires |ls| < n
    ensures var before := PassState(ctx, ls, n);
            var after := PassState(ctx, ls + [x], n);
            var kind := KindOf(ctx, x);
            && after.rgb == before.rgb + (if CountsKind(Rgb, kind) then 1 else 0)
            && after.nv12 == before.nv12 + (if CountsKind(Nv12, kind) then 1 else 0)
            && after.dockable == before.dockable + (if CountsKind(Dockable, kind) then 1 else 0)
            && after.protected == before.protected + (if CountsKind(Protected, kind) then 1 else 0)
  {
    CountOfSnoc(ctx, Rgb, ls, x);
    CountOfSnoc(ctx, Nv12, ls, x);
    CountOfSnoc(ctx, Dockable, ls, x);
    CountOfSnoc(ctx, Protected, ls, x);
  }

  /** One more valid layer adds its 1D size to the uint32_t total, wrapping. */
  lemma PassStateSnocMem1d(ctx: LayerCtx, ls: seq<Layer>, x: Layer, n: nat)
    requires |ls| < n
    ensures PassState(ctx, ls + [x], n).mem1dTotal ==
              Add32(PassState(ctx, ls, n).mem1dTotal, if KindOf(ctx, x).valid then GetRequiredMem1dSize(x) else 0)
  {
    Mem1dOfSnoc(ctx, ls, x);
    WrapAdd(Mem1dOf(ctx, ls), if KindOf(ctx, x).valid then GetRequiredMem1dSize(x) else 0);
  }

  lemma CountOfSnoc(ctx: LayerCtx, k: Counter, ls: seq<Layer>, x: Layer)
    ensures CountOf(ctx, k, ls + [x]) == CountOf(ctx, k, ls) + (if Counts(ctx, k, x) then 1 else 0)
  {
    assert (ls + [x])[..|ls|] == ls;
  }

  lemma Mem1dOfSnoc(ctx: LayerCtx, ls: seq<Layer>, x: Layer)
    ensures Mem1dOf(ctx, ls + [x]) == Mem1dOf(ctx, ls) + (if IsValidLayer(ctx, x) then GetRequiredMem1dSize(x) else 0)
  {
    assert (ls + [x])[..|ls|] == ls;
  }

  /** The counter updates of one pass iteration (all but the 1D total), for a layer of the given kind. */
  method TallyLayer(stats: LayerStatistics, kind: LayerKind) returns (s: LayerStatistics)
    ensures s.count == stats.count && s.framebuffer == stats.framebuffer
    ensures s.composableMask == stats.composableMask && s.mem1dTotal == stats.mem1dTotal
    ensures s.composable == stats.composable + (if CountsKind(Composable, kind) then 1 else 0)
    ensures s.scaled == stats.scaled + (if CountsKind(Scaled, kind) then 1 else 0)
    ensures s.bgr == stats.bgr + (if CountsKind(Bgr, kind) then 1 else 0)
    ensures s.rgb == stats.rgb + (if CountsKind(Rgb, kind) then 1 else 0)
    ensures s.nv12 == stats.nv12 + (if CountsKind(Nv12, kind) then 1 else 0)
    ensures s.dockable == stats.dockable + (if CountsKind(Dockable, kind) then 1 else 0)
    ensures s.protected == stats.protected + (if CountsKind(Protected, kind) then 1 else 0)
  {
    s := stats;
    if kind.valid {
      s := s.(composable := s.composable + 1);
      if kind.scaled {
        s := s.(scaled := s.scaled + 1);
      }
      if kind.bgr {
        s := s.(bgr := s.bgr + 1);
      } else if kind.rgb {
        s := s.(rgb := s.rgb + 1);
      } else if kind.nv12 {
        s := s.(nv12 := s.nv12 + 1);
      }
      if kind.dockable {
        s := s.(dockable := s.dockable + 1);
      }
      if kind.protected {
        s := s.(protected := s.protected + 1);
      }
    }
  }

  lemma WrapAdd(x: nat, y: u32)
    ensures Wrap32(x + y) == Add32(Wrap32(x), y)
  {
  }

  /** Resetting compositionType changes nothing the counters look at. */
  lemma NormalizedCounts(ctx: LayerCtx, layer: Layer)
    ensures KindOf(ctx, Normalized(layer)) == KindOf(ctx, layer)
    ensures IsValidLayer(ctx, Normalized(layer)) == IsValidLayer(ctx, layer)
    ensures GetRequiredMem1dSize(Normalized(layer)) == GetRequiredMem1dSize(layer)
  {
  }

  // ---- properties of the statistics ----

  /** A counter whose condition implies another's never exceeds it. */
  lemma {:induction false} CountOfMonotone(ctx: LayerCtx, k1: Counter, k2: Counter, ls: seq<Layer>)
    requires forall x :: Counts(ctx, k1, x) ==> Counts(ctx, k2, x)
    ensures CountOf(ctx, k1, ls) <= CountOf(ctx, k2, ls)
  {
    if |ls| > 0 {
      CountOfMonotone(ctx, k1, k2, ls[..|ls| - 1]);
    }
  }

  /** Every valid layer is one the pass counts as composable, and no framebuffer target is valid. */
  lemma {:induction false} ComposableAndTargetsFit(ctx: LayerCtx, ls: seq<Layer>)
    ensures CountOf(ctx, Composable, ls) + CountOf(ctx, Targets, ls) <= |ls|
  {
    if |ls| > 0 {
      ComposableAndTargetsFit(ctx, ls[..|ls| - 1]);
    }
  }

  /** The colour-class counters count disjoint sets of composable layers. */
  lemma {:induction false} ColourClassesFit(ctx: LayerCtx, ls: seq<Layer>)
    ensures CountOf(ctx, Bgr, ls) + CountOf(ctx, Rgb, ls) + CountOf(ctx, Nv12, ls) <= CountOf(ctx, Composable, ls)
  {
    if |ls| > 0 {
      ColourClassesFit(ctx, ls[..|ls| - 1]);
    }
  }

  /**
   * Bounds between the gathered counters: composable layers are among the
   * counted (non-target) ones, every NV12 layer counts as scaled, the
   * scaled, dockable and protected layers are composable, and the colour
   * classes never add up to more than the composable layers.
   */
  lemma StatsBounds(ctx: LayerCtx, ls: seq<Layer>)
    ensures var st := StatsOf(ctx, ls);
            && st.count + st.framebuffer == |ls|
            && st.composable <= st.count
            && st.nv12 <= st.scaled <= st.composable
            && st.dockable <= st.composable && st.protected <= st.composable
            && st.bgr + st.rgb + st.nv12 <= st.composable
  {
    ComposableAndTargetsFit(ctx, ls);
    CountOfMonotone(ctx, Nv12, Scaled, ls);
    CountOfMonotone(ctx, Scaled, Composable, ls);
    CountOfMonotone(ctx, Dockable, Composable, ls);
    CountOfMonotone(ctx, Protected, Composable, ls);
    ColourClassesFit(ctx, ls);
  }

  /** Below 2^32, the gathered 1D total is the plain sum of the valid layers' sizes. */
  lemma Mem1dTotalExact(ctx: LayerCtx, ls: seq<Layer>)
    requires Mem1dOf(ctx, ls) < U32_LIMIT
    ensures StatsOf(ctx, ls).mem1dTotal == Mem1dOf(ctx, ls)
  {
    Wrap32Facts(Mem1dOf(ctx, ls));
  }

  /** A list with no valid layer has nothing composable, nothing in any class and no 1D use. */
  lemma {:induction false} NoValidLayerNoStats(ctx: LayerCtx, ls: seq<Layer>)
    requires forall i :: 0 <= i < |ls| ==> !IsValidLayer(ctx, ls[i])
    ensures var st := StatsOf(ctx, ls);
            st.composable == 0 && st.scaled == 0 && st.mem1dTotal == 0
  {
    if |ls| > 0 {
      NoValidLayerNoStats(ctx, ls[..|ls| - 1]);
      assert StatsOf(ctx, ls).scaled <= StatsOf(ctx, ls).composable by {
        CountOfMonotone(ctx, Scaled, Composable, ls);
      }
    }
  }

  /** Resetting compositionType twice is resetting it once. */
  lemma NormalizedAllIdempotent(ls: seq<Layer>)
    ensures NormalizedAll(NormalizedAll(ls)) == NormalizedAll(ls)
  {
  }

  lemma NormalizedAllPrefix(ls: seq<Layer>, n: nat)
    requires n <= |ls|
    ensures NormalizedAll(ls)[..n] == NormalizedAll(ls[..n])
  {
  }

  /** The pass's own rewrite of the list changes none of the statistics, so a second pass gathers the same. */
  lemma {:induction false} StatsOfNormalized(ctx: LayerCtx, ls: seq<Layer>)
    ensures StatsOf(ctx, NormalizedAll(ls)) == StatsOf(ctx, ls)
  {
    StatsOfNormalizedCounts(ctx, ls);
  }

  lemma {:induction false} StatsOfNormalizedCounts(ctx: LayerCtx, ls: seq<Layer>)
    ensures forall k :: CountOf(ctx, k, NormalizedAll(ls)) == CountOf(ctx, k, ls)
    ensures Mem1dOf(ctx, NormalizedAll(ls)) == Mem1dOf(ctx, ls)
  {
    if |ls| > 0 {
      var n := |ls| - 1;
      StatsOfNormalizedCounts(ctx, ls[..n]);
      NormalizedAllPrefix(ls, n);
      NormalizedCounts(ctx, ls[n]);
      assert IsTarget(Normalized(ls[n])) == IsTarget(ls[n]);
    }
  }
}
