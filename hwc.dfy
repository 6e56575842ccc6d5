/**
 * The per-frame overlay planner of hwc/hwc.c: the HDMI mode score, the
 * orientation bookkeeping of overlays, clipping an overlay to a visible
 * rectangle, sharing the overlay pool between the primary and external
 * displays, cloning a primary overlay onto the external display, and the
 * manager records that close a request.
 */
module Hwc {
  import opened CTypes
  import opened HwcTypes
  import opened ColorFmt
  import opened Layers
  import opened Displays
  import opened DssComp

  const ENOENT: int := 2
  const EBUSY: int := 16

  // ---- add_scaling_score ----

  /**
   * The minimum-scaling field: 16 times the ratio of the smaller to the
   * larger area, rounded down, in uint32_t arithmetic.
   */
  function ScalingField(area: u32, extArea: u32): (f: u32)
    requires area != 0
    ensures f <= 16
  {
    if extArea > area then
      var n := Mul32(16, area);
      QuotientBelow(n, extArea, 16);
      QuotientNoMore(n, extArea);
      var f := n / extArea;
      f
    else
      var n := Mul32(16, extArea);
      QuotientAtMost(n, area, 16);
      QuotientNoMore(n, area);
      var f := n / area;
      f
  }

  /** Without wrap-around the field is the floor of 16 * smaller / larger, and 16 for equal areas. */
  lemma ScalingFieldRatio(area: u32, extArea: u32)
    requires area != 0 && 16 * Max(area, extArea) < U32_LIMIT
    ensures var f := ScalingField(area, extArea);
            f * Max(area, extArea) <= 16 * Min(area, extArea) < (f + 1) * Max(area, extArea)
    ensures extArea == area ==> ScalingField(area, extArea) == 16
  {
    QuotientBounds(16 * Min(area, extArea), Max(area, extArea));
    if extArea == area {
      QuotientOfMultiple(16, area);
    }
  }

  /**
   * The leftover-area field: 16 * ext_area / mode_area rounded to the
   * nearest integer (uint32_t arithmetic); at most 16 while the scaled
   * frame fits the mode.
   */
  function LeftoverField(extArea: u32, modeArea: u32): (f: u32)
    requires modeArea != 0
    ensures extArea <= modeArea ==> f <= 16
  {
    var n := Add32(Mul32(16, extArea), modeArea / 2);
    QuotientNoMore(n, modeArea);
    if extArea <= modeArea then
      QuotientBelow(n, modeArea, 17);
      var f := n / modeArea;
      f
    else
      var f := n / modeArea;
      f
  }

  /** Without wrap-around the field is 16 * ext_area / mode_area rounded to the nearest integer. */
  lemma LeftoverFieldRounds(extArea: u32, modeArea: u32)
    requires modeArea != 0 && 16 * extArea + modeArea / 2 < U32_LIMIT
    ensures var f := LeftoverField(extArea, modeArea);
            f * modeArea <= 16 * extArea + modeArea / 2 < (f + 1) * modeArea
  {
    QuotientBounds(16 * extArea + modeArea / 2, modeArea);
  }

  /** mode_refresh += mode_refresh % 6 == 5: a rate one below a multiple of 6 counts as that multiple. */
  function AdjustedRefresh(modeRefresh: u32): (r: u32)
    ensures r % 6 != 5
    ensures modeRefresh <= r <= modeRefresh + 1
    ensures r == modeRefresh + 1 <==> modeRefresh % 6 == 5
  {
    Add32(modeRefresh, if modeRefresh % 6 == 5 then 1 else 0)
  }

  /**
   * The frame-rate field: 240 times the ratio of the lower to the higher of
   * the two rates, rounded down, in uint32_t arithmetic.
   */
  function RefreshField(refresh: u32, modeRefresh: u32): (f: u32)
    requires refresh != 0
    ensures f <= 240
  {
    if modeRefresh > refresh then
      var n := Mul32(240, refresh);
      QuotientBelow(n, modeRefresh, 240);
      QuotientNoMore(n, modeRefresh);
      var f := n / modeRefresh;
      f
    else
      var n := Mul32(240, modeRefresh);
      QuotientAtMost(n, refresh, 240);
      QuotientNoMore(n, refresh);
      var f := n / refresh;
      f
  }

  /** Without wrap-around the frame-rate field reaches 240 exactly when the rates are equal. */
  lemma RefreshFieldExactRate(refresh: u32, modeRefresh: u32)
    requires refresh != 0 && 240 * Max(refresh, modeRefresh) < U32_LIMIT
    ensures modeRefresh == refresh <==> RefreshField(refresh, modeRefresh) == 240
  {
    if modeRefresh == refresh {
      QuotientOfMultiple(240, refresh);
    } else if modeRefresh > refresh {
      QuotientBelow(240 * refresh, modeRefresh, 240);
    } else {
      QuotientBelow(240 * modeRefresh, refresh, 240);
    }
  }

  /** The scaled frame reaches the source size within 1% on both axes (uint32_t arithmetic). */
  predicate Upscales(xres: u32, yres: u32, extXres: u32, extYres: u32)
  {
    extXres >= Mul32(xres, 99) / 100 && extYres >= Mul32(yres, 99) / 100
  }

  /** A truth value as a bit. */
  function Bit(b: bool): (r: bv32)
    ensures r <= 1
  {
    if b then 1 else 0
  }

  /** A field value as the bits the score is built from. */
  function Bits(x: u32): (b: bv32)
    ensures x <= 16 ==> b <= 16
    ensures x <= 240 ==> b <= 240
  {
    x as bv32
  }

  /**
   * add_scaling_score extends a score with, from the most significant
   * field down: the upscale bit (inserted above the score's lowest bit),
   * the 5-bit minimum-scaling field, the 5-bit leftover-area field, the
   * same-or-higher-rate bit and the 8-bit frame-rate field. Each field can
   * be read back from the result; while the scaled frame fits the mode
   * every field fits its width, so none spills into its neighbour, and of
   * the caller's score only the lowest 12 bits survive.
   */
  function AddScalingScore(score: bv32, xres: u32, yres: u32, refresh: u32, extXres: u32, extYres: u32,
                           modeXres: u32, modeYres: u32, modeRefresh: u32): (r: bv32)
    requires Mul32(xres, yres) != 0 && Mul32(modeXres, modeYres) != 0 && refresh != 0
    ensures var m := AdjustedRefresh(modeRefresh);
            && r & 0xFF == Bits(RefreshField(refresh, m))
            && (r >> 8) & 1 == Bit(m >= refresh)
    ensures var area := Mul32(xres, yres);
            var extArea := Mul32(extXres, extYres);
            var modeArea := Mul32(modeXres, modeYres);
            extArea <= modeArea ==>
              && (r >> 9) & 0x1F == Bits(LeftoverField(extArea, modeArea))
              && (r >> 14) & 0x1F == Bits(ScalingField(area, extArea))
              && (r >> 19) & 1 == score & 1
              && (r >> 20) & 1 == Bit(Upscales(xres, yres, extXres, extYres))
              && r >> 21 == (score >> 1) & 0x7FF
  {
    var area := Mul32(xres, yres);
    var extArea := Mul32(extXres, extYres);
    var modeArea := Mul32(modeXres, modeYres);
    var s1 := (((score & !1) | Bit(Upscales(xres, yres, extXres, extYres))) << 1) | (score & 1);
    var s2 := (s1 << 5) | Bits(ScalingField(area, extArea));
    var s3 := (s2 << 5) | Bits(LeftoverField(extArea, modeArea));
    var m := AdjustedRefresh(modeRefresh);
    var s4 := (s3 << 1) | Bit(m >= refresh);
    (s4 << 8) | Bits(RefreshField(refresh, m))
  }

  // ---- orientation: the symmetries of the square, as maps on points ----

  datatype Point = Point(x: int, y: int)

  function QuarterTurn(p: Point): Point { Point(-p.y, p.x) }

  /** The horizontal flip of HWC_TRANSFORM_FLIP_H and the vertical flip of HWC_TRANSFORM_FLIP_V. */
  function FlipX(p: Point): Point { Point(-p.x, p.y) }
  function FlipY(p: Point): Point { Point(p.x, -p.y) }

  function Turned(k: nat, p: Point): Point
  {
    if k == 0 then p else QuarterTurn(Turned(k - 1, p))
  }

  /**
   * Where the symmetry a DSS (rotation, mirror) pair stands for takes p:
   * the optional flip first, then rotation quarter turns. Two pairs stand
   * for the same symmetry when they move every point alike.
   */
  function Oriented(rotation: int, mirror: bool, p: Point): Point
  {
    Turned(rotation % 4, if mirror then FlipX(p) else p)
  }

  predicate HasBits(transform: bv32, mask: bv32) { transform & mask != 0 }

  /** Where a hwcomposer transform takes p: ROT_90 first, then FLIP_V, then FLIP_H, each if set. */
  function HalOriented(transform: bv32, p: Point): Point
  {
    var t := if HasBits(transform, HWC_TRANSFORM_ROT_90) then QuarterTurn(p) else p;
    var v := if HasBits(transform, HWC_TRANSFORM_FLIP_V) then FlipY(t) else t;
    if HasBits(transform, HWC_TRANSFORM_FLIP_H) then FlipX(v) else v
  }

  lemma TurnedValues(p: Point)
    ensures Turned(0, p) == p && Turned(1, p) == Point(-p.y, p.x)
    ensures Turned(2, p) == Point(-p.x, -p.y) && Turned(3, p) == Point(p.y, -p.x)
  {
  }

  lemma Mod4Sum(i: int, j: int)
    ensures (i + j) % 4 == (i % 4 + j % 4) % 4
  {
    assert i == 4 * (i / 4) + i % 4;
    assert j == 4 * (j / 4) + j % 4;
  }

  lemma {:induction false} TurnedSum(a: nat, b: nat, p: Point)
    ensures Turned(a, Turned(b, p)) == Turned(a + b, p)
  {
    if a > 0 {
      TurnedSum(a - 1, b, p);
    }
  }

  /** Quarter turns below 8 act as their residue modulo 4: four of them are the identity. */
  lemma TurnedResidue(n: nat, p: Point)
    requires n < 8
    ensures Turned(n, p) == Turned(n % 4, p)
  {
    if n >= 4 {
      TurnedValues(p);
      TurnedSum(n - 4, 4, p);
    }
  }

  /** Quarter turns add up modulo 4. */
  lemma TurnedAdd(i: int, j: int, p: Point)
    ensures Turned((i + j) % 4, p) == Turned(i % 4, Turned(j % 4, p))
  {
    Mod4Sum(i, j);
    TurnedSum(i % 4, j % 4, p);
    TurnedResidue(i % 4 + j % 4, p);
  }

  /** A flip after k quarter turns is -k quarter turns after the flip. */
  lemma FlipTurned(k: int, p: Point)
    ensures FlipX(Turned(k % 4, p)) == Turned((-k) % 4, FlipX(p))
  {
    TurnedValues(p);
    TurnedValues(FlipX(p));
    assert k == 4 * (k / 4) + k % 4;
  }

  /** Where a display transform takes p: the optional horizontal flip first, then b quarter turns. */
  function DisplayMoved(b: int, hflip: bool, p: Point): Point
  {
    Turned(b % 4, if hflip then FlipX(p) else p)
  }

  /**
   * Following a DSS pair with b quarter turns, optionally preceded by a
   * flip (the display's transform), is the DSS pair whose rotation moves
   * by b against the mirror and whose mirror toggles with the flip: the identity
   * F^a R^b F^i R^j = F^(a+b) R^(j+b(-1)^i) adjust_overlay_to_display relies on.
   */
  lemma OrientationComposes(rotation: int, mirror: bool, b: int, hflip: bool, p: Point)
    ensures var rotation' := if mirror then rotation - b else rotation + b;
            Oriented(rotation', mirror != hflip, p) ==
              Oriented(rotation, mirror, DisplayMoved(b, hflip, p))
  {
    var q := if hflip then FlipX(p) else p;
    if mirror {
      FlipTurned(b, q);
      TurnedAdd(rotation, -b, FlipX(q));
    } else {
      TurnedAdd(rotation, b, q);
    }
  }

  // ---- setup_overlay and adjust_overlay_to_layer ----

  /**
   * The stride setup_overlay programs: ALIGN(width, HW_ALIGN) * bpp / 8 in
   * uint32_t arithmetic. Without wrap-around it is the byte length of a
   * row padded to the hardware alignment.
   */
  function Stride(width: int, format: u32): (stride: u32)
    ensures var a := Align32(width);
            0 <= a && a * GetFormatBpp(format) < U32_LIMIT ==> 8 * stride == a * GetFormatBpp(format)
  {
    var a := Align32(width);
    var bpp := GetFormatBpp(format);
    var n := Mul32(Wrap32(a), bpp);
    QuotientNoMore(n, 8);
    if 0 <= a && a * bpp < U32_LIMIT then
      Wrap32Facts(a);
      var k := bpp / 8;
      assert a * bpp == (a * k) * 8 by {
        assert bpp == 8 * k;
      }
      MulNonneg(a, k);
      QuotientOfMultiple(a * k, 8);
      var stride := n / 8;
      stride
    else
      var stride := n / 8;
      stride
  }

  /**
   * setup_overlay: colour mode, buffer size and stride for the format, the
   * overlay enabled and opaque at z-order index on pipeline 0, and window
   * and crop sized to the whole buffer; placement, orientation and
   * addressing are kept.
   */
  method SetupOverlay(index: int, format: u32, blended: bool, width: int, height: int, ovl: OvlInfo)
    returns (o: OvlInfo)
    ensures o == ovl.(cfg := ovl.cfg.(
      colorMode := ConvertHalToDssFormat(format, blended), width := width, height := height,
      stride := Stride(width, format), enabled := true, globalAlpha := 255, zorder := index, ix := 0,
      crop := ovl.cfg.crop.(w := width, h := height), win := ovl.cfg.win.(w := width, h := height)))
  {
    var oc := ovl.cfg;
    oc := oc.(colorMode := ConvertHalToDssFormat(format, blended));
    oc := oc.(width := width, height := height, stride := Stride(width, format));
    oc := oc.(enabled := true, globalAlpha := 255, zorder := index, ix := 0);
    oc := oc.(crop := oc.crop.(w := width), win := oc.win.(w := width));
    oc := oc.(crop := oc.crop.(h := height), win := oc.win.(h := height));
    o := ovl.(cfg := oc);
  }

  /**
   * adjust_overlay_to_layer: sets the overlay up for the layer's buffer,
   * turns the layer's transform into a DSS rotation and mirror, and takes
   * blending, window (the display frame) and crop (the source crop) from
   * the layer. FLIP_H sets the mirror, FLIP_V is a half turn with the mirror
   * toggled, and ROT_90 turns a quarter against the mirror, modulo 4.
   * Starting from a zero orientation the DSS pair moves every point exactly
   * as the hwcomposer transform does.
   */
  method AdjustOverlayToLayer(ovl: OvlInfo, layer: Layer, index: int) returns (o: OvlInfo)
    requires HasHandle(layer)
    ensures var h := layer.handle.value;
            var base := ovl.cfg.(
              colorMode := ConvertHalToDssFormat(h.format, IsBlendedLayer(layer)), width := h.width,
              height := h.height, stride := Stride(h.width, h.format), enabled := true,
              globalAlpha := 255, zorder := index, ix := 0);
            o == ovl.(cfg := base.(
              rotation := o.cfg.rotation, mirror := o.cfg.mirror,
              preMultAlpha := layer.blending == HWC_BLENDING_PREMULT,
              win := DssRect(layer.displayFrame.left, layer.displayFrame.top,
                             Width(layer.displayFrame), Height(layer.displayFrame)),
              crop := DssRect(layer.sourceCrop.left, layer.sourceCrop.top,
                              Width(layer.sourceCrop), Height(layer.sourceCrop))))
    ensures o.cfg.mirror == ((HasBits(layer.transform, HWC_TRANSFORM_FLIP_H) || ovl.cfg.mirror) !=
                             HasBits(layer.transform, HWC_TRANSFORM_FLIP_V))
    ensures HasBits(layer.transform, HWC_TRANSFORM_ROT_90) ==> 0 <= o.cfg.rotation < 4
    ensures 0 <= ovl.cfg.rotation < 4 ==> 0 <= o.cfg.rotation < 4
    ensures !HasBits(layer.transform, HWC_TRANSFORM_ROT_90) && !HasBits(layer.transform, HWC_TRANSFORM_FLIP_V) ==>
              o.cfg.rotation == ovl.cfg.rotation
    ensures ovl.cfg.rotation == 0 && !ovl.cfg.mirror ==>
              forall p :: Oriented(o.cfg.rotation, o.cfg.mirror, p) == HalOriented(layer.transform, p)
  {
    var handle := layer.handle.value;
    o := SetupOverlay(index, handle.format, IsBlendedLayer(layer), handle.width, handle.height, ovl);
    var oc := o.cfg;
    var t := layer.transform;
    if HasBits(t, HWC_TRANSFORM_FLIP_H) {
      oc := oc.(mirror := true);
    }
    if HasBits(t, HWC_TRANSFORM_FLIP_V) {
      oc := oc.(rotation := 2, mirror := !oc.mirror);
    }
    if HasBits(t, HWC_TRANSFORM_ROT_90) {
      // rotation &= 3 on a two's-complement int is the non-negative remainder modulo 4
      oc := oc.(rotation := (oc.rotation + if oc.mirror then -1 else 1) % 4);
    }
    if ovl.cfg.rotation == 0 && !ovl.cfg.mirror {
      forall p ensures Oriented(oc.rotation, oc.mirror, p) == HalOriented(t, p) {
        TurnedValues(p);
        TurnedValues(FlipX(p));
      }
    }
    oc := oc.(preMultAlpha := layer.blending == HWC_BLENDING_PREMULT);
    oc := oc.(win := DssRect(layer.displayFrame.left, layer.displayFrame.top,
                             Width(layer.displayFrame), Height(layer.displayFrame)));
    oc := oc.(crop := DssRect(layer.sourceCrop.left, layer.sourceCrop.top,
                              Width(layer.sourceCrop), Height(layer.sourceCrop)));
    o := o.(cfg := oc);
  }

  // ---- crop_overlay_to_rect ----

  /** A crop or window as crop_overlay_to_rect holds it: a start and a signed length per axis. */
  datatype Box = Box(xy: seq<int>, wh: seq<int>)

  predicate IsBox(b: Box) { |b.xy| == 2 && |b.wh| == 2 }

  function BoxOf(r: DssRect): (b: Box)
    ensures IsBox(b) && b.xy[0] == r.x && b.xy[1] == r.y && b.wh[0] == r.w && b.wh[1] == r.h
  {
    Box([r.x, r.y], [r.w, r.h])
  }

  function RectOf(b: Box): (r: DssRect)
    requires IsBox(b)
    ensures BoxOf(r) == b
  {
    DssRect(b.xy[0], b.xy[1], b.wh[0], b.wh[1])
  }

  /** The lowest and highest coordinate a start and signed length cover. */
  function SpanLo(x: int, w: int): int { Min(x, x + w) }
  function SpanHi(x: int, w: int): int { Max(x, x + w) }

  /** (x1, w1) covers part of what (x, w) covers and runs in the same direction. */
  predicate WithinSpan(x1: int, w1: int, x: int, w: int)
  {
    SpanLo(x, w) <= SpanLo(x1, w1) && SpanHi(x1, w1) <= SpanHi(x, w) && (w1 < 0 <==> w < 0) && (w1 > 0 <==> w > 0)
  }

  /** Axis k walked from its other end: it covers the same span, in the other direction. */
  function Reverse(b: Box, k: int): (r: Box)
    requires IsBox(b) && 0 <= k < 2
    ensures IsBox(r) && r.wh[k] == -b.wh[k]
    ensures SpanLo(r.xy[k], r.wh[k]) == SpanLo(b.xy[k], b.wh[k]) && SpanHi(r.xy[k], r.wh[k]) == SpanHi(b.xy[k], b.wh[k])
    ensures r.xy[1 - k] == b.xy[1 - k] && r.wh[1 - k] == b.wh[1 - k]
  {
    Box(b.xy[k := b.xy[k] + b.wh[k]], b.wh[k := -b.wh[k]])
  }

  /** A C boolean used as an array index. */
  function Ix(b: bool): int { if b then 1 else 0 }

  /** rotation & 1 and rotation & 2 of a two's-complement int. */
  predicate Swaps(rotation: int) { rotation % 2 == 1 }
  predicate HalfTurn(rotation: int) { rotation % 4 >= 2 }

  /** The crop axis that display axis c maps to: c ^ swap. */
  function CropAxis(c: int, swap: bool): int { if swap then 1 - c else c }

  /** The steps that align the crop with display coordinates, in their program order. */
  function Align(b: Box, rotation: int, mirror: bool): (r: Box)
    requires IsBox(b)
    ensures IsBox(r)
  {
    var swap := Swaps(rotation);
    var half := HalfTurn(rotation);
    var b1 := if swap then Reverse(b, 1) else b;
    var b2 := if half then Reverse(b1, Ix(!swap)) else b1;
    if mirror != half then Reverse(b2, Ix(swap)) else b2
  }

  /** The steps that take the crop back to buffer coordinates, in their program order. */
  function Realign(b: Box, rotation: int, mirror: bool): (r: Box)
    requires IsBox(b)
    ensures IsBox(r)
  {
    var swap := Swaps(rotation);
    var half := HalfTurn(rotation);
    var b1 := if half then Reverse(b, Ix(!swap)) else b;
    var b2 := if mirror != half then Reverse(b1, Ix(swap)) else b1;
    if swap then Reverse(b2, 1) else b2
  }

  /** Axis by axis, walking each of the flagged axes from its other end. */
  function Reflect(b: Box, f0: bool, f1: bool): (r: Box)
    requires IsBox(b)
    ensures IsBox(r)
  {
    var r0 := if f0 then Reverse(b, 0) else b;
    if f1 then Reverse(r0, 1) else r0
  }

  /** Whether the aligning steps reverse crop axis k an odd number of times. */
  predicate AlignFlips(rotation: int, mirror: bool, k: int)
  {
    var swap := Swaps(rotation);
    var half := HalfTurn(rotation);
    ((swap && k == 1) != (half && k == Ix(!swap))) != (mirror != half && k == Ix(swap))
  }

  lemma AlignIsReflect(b: Box, rotation: int, mirror: bool)
    requires IsBox(b)
    ensures Align(b, rotation, mirror) == Reflect(b, AlignFlips(rotation, mirror, 0), AlignFlips(rotation, mirror, 1))
    ensures Realign(b, rotation, mirror) == Reflect(b, AlignFlips(rotation, mirror, 0), AlignFlips(rotation, mirror, 1))
  {
  }

  lemma ReflectTwice(b: Box, f0: bool, f1: bool)
    requires IsBox(b)
    ensures Reflect(Reflect(b, f0, f1), f0, f1) == b
  {
  }

  /**
   * The realigning steps are the aligning ones in another order and undo
   * them: both are the same involution.
   */
  lemma AlignInvolution(b: Box, rotation: int, mirror: bool)
    requires IsBox(b)
    ensures Realign(b, rotation, mirror) == Align(b, rotation, mirror)
    ensures Realign(Align(b, rotation, mirror), rotation, mirror) == b
    ensures Align(Align(b, rotation, mirror), rotation, mirror) == b
  {
    var f0, f1 := AlignFlips(rotation, mirror, 0), AlignFlips(rotation, mirror, 1);
    AlignIsReflect(b, rotation, mirror);
    AlignIsReflect(Align(b, rotation, mirror), rotation, mirror);
    ReflectTwice(b, f0, f1);
  }

  /**
   * s * d / w in C int arithmetic, for a signed length s and 0 <= d <= w:
   * the length scaled by d / w, rounded toward zero, stays between 0 and s.
   */
  function ScaleLength(s: int, d: int, w: int): (q: int)
    requires 0 <= d <= w && 0 < w
    ensures s >= 0 ==> 0 <= q <= s
    ensures s < 0 ==> s <= q <= 0
  {
    var n := Abs(s);
    MulNonneg(n, d);
    MulNonneg(n, w - d);
    assert n * w == n * d + n * (w - d);
    QuotientAtMost(n * d, w, n);
    QuotientNoMore(n * d, w);
    assert s < 0 ==> -(s * d) == n * d;
    assert s >= 0 ==> s * d == n * d;
    CDiv(s * d, w)
  }

  /** One axis of a clipped overlay: window start and length, crop start and signed length. */
  datatype AxisClip = AxisClip(x: int, w: int, cx: int, cw: int)

  /**
   * The window (x, w) is empty, the visible span [lt, rb) is empty, the two
   * do not meet, or the crop length is zero.
   */
  predicate AxisRejected(x: int, w: int, cw: int, lt: int, rb: int)
  {
    w <= 0 || rb <= lt || x + w <= lt || x >= rb || cw == 0
  }

  /** Crop left/top: a window starting before lt starts at lt, and the crop loses the same share at its start. */
  function ClipStart(a: AxisClip, lt: int): (r: AxisClip)
    requires 0 < a.w && lt < a.x + a.w
    ensures 0 < r.w && (a.x < lt ==> r.x == lt) && (lt <= a.x ==> r == a)
  {
    if a.x < lt then
      var d := ScaleLength(a.cw, lt - a.x, a.w);
      AxisClip(lt, a.w - (lt - a.x), a.cx + d, a.cw - d)
    else a
  }

  /**
   * Clipping the start moves it to Max(x, lt) and keeps the window's end;
   * the crop keeps its far end and shrinks toward it, never changing
   * direction.
   */
  lemma ClipStartMeaning(a: AxisClip, lt: int)
    requires 0 < a.w && lt < a.x + a.w
    ensures var r := ClipStart(a, lt);
            && r.x == Max(a.x, lt) && r.x + r.w == a.x + a.w
            && r.cx + r.cw == a.cx + a.cw
            && (a.cw >= 0 ==> 0 <= r.cw <= a.cw)
            && (a.cw < 0 ==> a.cw <= r.cw <= 0)
  {
  }

  /** Crop right/bottom: a window reaching past rb ends at rb, and the crop keeps the same share from its start. */
  function ClipEnd(a: AxisClip, rb: int): (r: AxisClip)
    requires 0 < a.w && a.x < rb
    ensures 0 < r.w && (a.x + a.w <= rb ==> r == a)
  {
    if a.x + a.w > rb then AxisClip(a.x, rb - a.x, a.cx, ScaleLength(a.cw, rb - a.x, a.w))
    else a
  }

  /** Clipping the end moves it to Min(x + w, rb) and keeps both starts; the crop shrinks toward its start. */
  lemma ClipEndMeaning(a: AxisClip, rb: int)
    requires 0 < a.w && a.x < rb
    ensures var r := ClipEnd(a, rb);
            && r.x == a.x && r.x + r.w == Min(a.x + a.w, rb)
            && r.cx == a.cx
            && (a.cw >= 0 ==> 0 <= r.cw <= a.cw)
            && (a.cw < 0 ==> a.cw <= r.cw <= 0)
  {
  }

  /**
   * One pass of the loop of crop_overlay_to_rect: clip the window of axis a
   * to [lt, rb) and cut the aligned crop in proportion, rounding toward
   * zero; None when the axis is rejected or its crop or window collapses.
   */
  function ClipAxis(a: AxisClip, lt: int, rb: int): Option<AxisClip>
  {
    if AxisRejected(a.x, a.w, a.cw, lt, rb) then None
    else
      var b := ClipEnd(ClipStart(a, lt), rb);
      if b.cw == 0 || b.w == 0 then None else Some(b)
  }

  /**
   * A rejected axis is None. Otherwise the window is the intersection of the
   * two spans and never empty, the crop a non-empty part of the old crop in
   * the same direction; an axis already inside the visible span is kept.
   */
  lemma ClipAxisMeaning(a: AxisClip, lt: int, rb: int)
    ensures var r := ClipAxis(a, lt, rb);
            && (AxisRejected(a.x, a.w, a.cw, lt, rb) ==> r.None?)
            && (r.Some? ==> r.value.x == Max(a.x, lt) && r.value.x + r.value.w == Min(a.x + a.w, rb) && 0 < r.value.w)
            && (r.Some? ==> r.value.cw != 0 && WithinSpan(r.value.cx, r.value.cw, a.cx, a.cw))
            && (!AxisRejected(a.x, a.w, a.cw, lt, rb) && lt <= a.x && a.x + a.w <= rb ==> r == Some(a))
  {
    if !AxisRejected(a.x, a.w, a.cw, lt, rb) {
      ClipStartMeaning(a, lt);
      ClipEndMeaning(ClipStart(a, lt), rb);
    }
  }

  /**
   * crop_overlay_to_rect as a value: align the crop with the display, clip
   * display axis c (x, then y) together with crop axis c ^ swap, and
   * realign. None stands for -ENOENT. Only window and crop change.
   */
  function CropOverlay(vis: Rect, ovl: OvlInfo): (r: Option<OvlInfo>)
    ensures r.Some? ==> r.value == ovl.(cfg := ovl.cfg.(win := r.value.cfg.win, crop := r.value.cfg.crop))
  {
    var oc := ovl.cfg;
    var swap := Swaps(oc.rotation);
    var crop := Align(BoxOf(oc.crop), oc.rotation, oc.mirror);
    var c0 := ClipDisplayAxis(BoxOf(oc.win), crop, VisStart(vis), VisEnd(vis), swap, 0);
    var c1 := ClipDisplayAxis(BoxOf(oc.win), crop, VisStart(vis), VisEnd(vis), swap, 1);
    if c0.None? || c1.None? then None
    else Some(Clipped(ovl, c0.value, c1.value, crop))
  }

  /** The visible rectangle's left/top and right/bottom edges, as crop_overlay_to_rect indexes them. */
  function VisStart(vis: Rect): (lt: seq<int>) ensures |lt| == 2 { [vis.left, vis.top] }
  function VisEnd(vis: Rect): (rb: seq<int>) ensures |rb| == 2 { [vis.right, vis.bottom] }

  /** ClipAxis on display axis c, with the crop axis paired with it. */
  function ClipDisplayAxis(win: Box, crop: Box, lt: seq<int>, rb: seq<int>, swap: bool, c: int): Option<AxisClip>
    requires IsBox(win) && IsBox(crop) && |lt| == 2 && |rb| == 2 && 0 <= c < 2
  {
    ClipAxis(AxisOf(win, crop, swap, c), lt[c], rb[c])
  }

  /** The overlay with both axes clipped and the aligned crop taken back to buffer coordinates. */
  function Clipped(ovl: OvlInfo, a0: AxisClip, a1: AxisClip, crop: Box): OvlInfo
    requires IsBox(crop)
  {
    var oc := ovl.cfg;
    var k0, k1 := CropAxis(0, Swaps(oc.rotation)), CropAxis(1, Swaps(oc.rotation));
    var clipped := Box(crop.xy[k0 := a0.cx][k1 := a1.cx], crop.wh[k0 := a0.cw][k1 := a1.cw]);
    var back := Realign(clipped, oc.rotation, oc.mirror);
    ovl.(cfg := oc.(win := DssRect(a0.x, a1.x, a0.w, a1.w), crop := RectOf(back)))
  }

  /** Signed length of crop axis k of a rectangle. */
  function CropLength(r: DssRect, k: int): int { if k == 0 then r.w else r.h }

  /** Aligning walks each crop axis from one end or the other: same span, same length up to sign. */
  lemma AlignKeepsSpans(b: Box, rotation: int, mirror: bool)
    requires IsBox(b)
    ensures var a := Align(b, rotation, mirror);
            forall k :: 0 <= k < 2 ==>
              && SpanLo(a.xy[k], a.wh[k]) == SpanLo(b.xy[k], b.wh[k])
              && SpanHi(a.xy[k], a.wh[k]) == SpanHi(b.xy[k], b.wh[k])
              && (a.wh[k] == b.wh[k] || a.wh[k] == -b.wh[k])
  {
    AlignIsReflect(b, rotation, mirror);
  }

  /**
   * crop_overlay_to_rect fails when, on either display axis, the window is
   * empty, the visible rectangle is empty, the two do not meet, or the crop
   * axis paired with it has length zero.
   */
  lemma CropRejects(vis: Rect, ovl: OvlInfo)
    ensures var oc := ovl.cfg;
            var swap := Swaps(oc.rotation);
            (|| AxisRejected(oc.win.x, oc.win.w, CropLength(oc.crop, CropAxis(0, swap)), vis.left, vis.right)
             || AxisRejected(oc.win.y, oc.win.h, CropLength(oc.crop, CropAxis(1, swap)), vis.top, vis.bottom))
            ==> CropOverlay(vis, ovl).None?
  {
    var oc := ovl.cfg;
    var crop := Align(BoxOf(oc.crop), oc.rotation, oc.mirror);
    var swap := Swaps(oc.rotation);
    AlignKeepsSpans(BoxOf(oc.crop), oc.rotation, oc.mirror);
    ClipAxisMeaning(AxisOf(BoxOf(oc.win), crop, swap, 0), vis.left, vis.right);
    ClipAxisMeaning(AxisOf(BoxOf(oc.win), crop, swap, 1), vis.top, vis.bottom);
  }

  /**
   * On success the window is its intersection with the visible rectangle,
   * and not empty.
   */
  lemma CropWithinVisible(vis: Rect, ovl: OvlInfo)
    requires CropOverlay(vis, ovl).Some?
    ensures var w, w' := ovl.cfg.win, CropOverlay(vis, ovl).value.cfg.win;
            && w'.x == Max(w.x, vis.left) && w'.x + w'.w == Min(w.x + w.w, vis.right)
            && w'.y == Max(w.y, vis.top) && w'.y + w'.h == Min(w.y + w.h, vis.bottom)
            && vis.left <= w'.x < w'.x + w'.w <= vis.right && vis.top <= w'.y < w'.y + w'.h <= vis.bottom
  {
    var oc := ovl.cfg;
    var crop := Align(BoxOf(oc.crop), oc.rotation, oc.mirror);
    var swap := Swaps(oc.rotation);
    ClipAxisMeaning(AxisOf(BoxOf(oc.win), crop, swap, 0), vis.left, vis.right);
    ClipAxisMeaning(AxisOf(BoxOf(oc.win), crop, swap, 1), vis.top, vis.bottom);
  }

  /** Axis by axis, the first box covers part of the second, in the same direction. */
  predicate BoxWithin(b1: Box, b2: Box)
    requires IsBox(b1) && IsBox(b2)
  {
    WithinSpan(b1.xy[0], b1.wh[0], b2.xy[0], b2.wh[0]) && WithinSpan(b1.xy[1], b1.wh[1], b2.xy[1], b2.wh[1])
  }

  lemma ReflectKeepsWithin(b1: Box, b2: Box, f0: bool, f1: bool)
    requires IsBox(b1) && IsBox(b2) && BoxWithin(b1, b2)
    ensures BoxWithin(Reflect(b1, f0, f1), Reflect(b2, f0, f1))
  {
  }

  /** On success the new crop, in buffer coordinates, is a part of the old crop on both axes, in the same direction. */
  lemma CropWithinBuffer(vis: Rect, ovl: OvlInfo)
    requires CropOverlay(vis, ovl).Some?
    ensures var c, c' := ovl.cfg.crop, CropOverlay(vis, ovl).value.cfg.crop;
            WithinSpan(c'.x, c'.w, c.x, c.w) && WithinSpan(c'.y, c'.h, c.y, c.h)
  {
    var oc := ovl.cfg;
    var swap := Swaps(oc.rotation);
    var k0, k1 := CropAxis(0, swap), CropAxis(1, swap);
    var b := BoxOf(oc.crop);
    var crop := Align(b, oc.rotation, oc.mirror);
    var a0 := ClipDisplayAxis(BoxOf(oc.win), crop, VisStart(vis), VisEnd(vis), swap, 0).value;
    var a1 := ClipDisplayAxis(BoxOf(oc.win), crop, VisStart(vis), VisEnd(vis), swap, 1).value;
    var clipped := Box(crop.xy[k0 := a0.cx][k1 := a1.cx], crop.wh[k0 := a0.cw][k1 := a1.cw]);
    ClipAxisMeaning(AxisOf(BoxOf(oc.win), crop, swap, 0), vis.left, vis.right);
    ClipAxisMeaning(AxisOf(BoxOf(oc.win), crop, swap, 1), vis.top, vis.bottom);
    assert BoxWithin(clipped, crop);
    var f0, f1 := AlignFlips(oc.rotation, oc.mirror, 0), AlignFlips(oc.rotation, oc.mirror, 1);
    AlignIsReflect(clipped, oc.rotation, oc.mirror);
    AlignInvolution(b, oc.rotation, oc.mirror);
    AlignIsReflect(crop, oc.rotation, oc.mirror);
    ReflectKeepsWithin(clipped, crop, f0, f1);
  }

  /**
   * An overlay whose window already lies inside the visible rectangle, with
   * a crop of non-zero size, comes back unchanged: realigning undoes the
   * alignment.
   */
  lemma CropKeepsInside(vis: Rect, ovl: OvlInfo)
    requires var w := ovl.cfg.win;
             && vis.left <= w.x && 0 < w.w && w.x + w.w <= vis.right
             && vis.top <= w.y && 0 < w.h && w.y + w.h <= vis.bottom
    requires ovl.cfg.crop.w != 0 && ovl.cfg.crop.h != 0
    ensures CropOverlay(vis, ovl) == Some(ovl)
  {
    var oc := ovl.cfg;
    var swap := Swaps(oc.rotation);
    var b := BoxOf(oc.crop);
    var crop := Align(b, oc.rotation, oc.mirror);
    AlignKeepsSpans(b, oc.rotation, oc.mirror);
    var a0, a1 := AxisOf(BoxOf(oc.win), crop, swap, 0), AxisOf(BoxOf(oc.win), crop, swap, 1);
    ClipAxisMeaning(a0, vis.left, vis.right);
    ClipAxisMeaning(a1, vis.top, vis.bottom);
    CropOverlayOfAxes(vis, ovl, a0, a1);
    ClippedIs(ovl, BoxOf(oc.win), crop, crop);
    AlignInvolution(b, oc.rotation, oc.mirror);
  }

  /**
   * crop_overlay_to_rect: clips the overlay's window to vis and cuts its
   * crop in proportion, axis by axis; returns 0 with the clipped overlay,
   * or -ENOENT with the overlay untouched.
   */
  method CropOverlayToRect(vis: Rect, ovl: OvlInfo) returns (rc: int, o: OvlInfo)
    ensures rc == 0 || rc == -ENOENT
    ensures CropOverlay(vis, ovl) == if rc == 0 then Some(o) else None
    ensures rc != 0 ==> o == ovl
  {
    var oc := ovl.cfg;
    var win := BoxOf(oc.win);
    var crop := BoxOf(oc.crop);
    var lt := VisStart(vis);
    var rb := VisEnd(vis);
    var swap := Swaps(oc.rotation);

    // align the crop with display coordinates
    crop := Align(crop, oc.rotation, oc.mirror);
    ghost var win0, crop0 := win, crop;

    for c := 0 to 2
      invariant IsBox(win) && IsBox(crop)
      invariant forall i :: 0 <= i < c ==>
        ClipDisplayAxis(win0, crop0, lt, rb, swap, i) == Some(AxisOf(win, crop, swap, i))
      invariant forall i :: c <= i < 2 ==> AxisOf(win, crop, swap, i) == AxisOf(win0, crop0, swap, i)
    {
      // this pass works on window axis c and crop axis c ^ swap
      var ok;
      ok, win, crop := ClipPass(win, crop, c, CropAxis(c, swap), lt[c], rb[c]);
      if !ok {
        CropFailsOnAxis(vis, ovl, c);
        return -ENOENT, ovl;
      }
    }

    // realign the crop to buffer coordinates
    CropOverlayOfAxes(vis, ovl, AxisOf(win, crop, swap, 0), AxisOf(win, crop, swap, 1));
    ClippedIs(ovl, win, crop, crop0);
    crop := Realign(crop, oc.rotation, oc.mirror);
    o := ovl.(cfg := oc.(win := RectOf(win), crop := RectOf(crop)));
    rc := 0;
  }

  /** Display axis c of a window and crop pair, as one AxisClip. */
  function AxisOf(win: Box, crop: Box, swap: bool, c: int): AxisClip
    requires IsBox(win) && IsBox(crop) && 0 <= c < 2
  {
    AxisClip(win.xy[c], win.wh[c], crop.xy[CropAxis(c, swap)], crop.wh[CropAxis(c, swap)])
  }

  lemma CropFailsOnAxis(vis: Rect, ovl: OvlInfo, c: int)
    requires 0 <= c < 2
    requires ClipDisplayAxis(BoxOf(ovl.cfg.win), Align(BoxOf(ovl.cfg.crop), ovl.cfg.rotation, ovl.cfg.mirror),
                             VisStart(vis), VisEnd(vis), Swaps(ovl.cfg.rotation), c).None?
    ensures CropOverlay(vis, ovl).None?
  {
  }

  /**
   * The body of the loop of crop_overlay_to_rect for window axis c and
   * crop axis k: false (-ENOENT) when ClipAxis rejects the axis; otherwise
   * the axis is replaced by its clipped values and nothing else changes.
   */
  method ClipPass(win: Box, crop: Box, c: int, k: int, lt: int, rb: int) returns (ok: bool, win': Box, crop': Box)
    requires IsBox(win) && IsBox(crop) && 0 <= c < 2 && 0 <= k < 2
    ensures var r := ClipAxis(AxisClip(win.xy[c], win.wh[c], crop.xy[k], crop.wh[k]), lt, rb);
            && ok == r.Some?
            && (ok ==> && win' == Box(win.xy[c := r.value.x], win.wh[c := r.value.w])
                       && crop' == Box(crop.xy[k := r.value.cx], crop.wh[k := r.value.cw]))
  {
    ghost var a := AxisClip(win.xy[c], win.wh[c], crop.xy[k], crop.wh[k]);
    win', crop' := win, crop;
    // the window is empty or outside vis, or the crop is empty
    if win'.wh[c] <= 0 || rb <= lt || win'.xy[c] + win'.wh[c] <= lt || win'.xy[c] >= rb || crop'.wh[k] == 0 {
      return false, win', crop';
    }
    // crop left/top
    if win'.xy[c] < lt {
      var d := ScaleLength(crop'.wh[k], lt - win'.xy[c], win'.wh[c]);
      crop' := Box(crop'.xy[k := crop'.xy[k] + d], crop'.wh[k := crop'.wh[k] - d]);
      win' := Box(win'.xy[c := lt], win'.wh[c := win'.wh[c] - (lt - win'.xy[c])]);
    }
    assert AxisClip(win'.xy[c], win'.wh[c], crop'.xy[k], crop'.wh[k]) == ClipStart(a, lt);
    // crop right/bottom
    if win'.xy[c] + win'.wh[c] > rb {
      crop' := Box(crop'.xy, crop'.wh[k := ScaleLength(crop'.wh[k], rb - win'.xy[c], win'.wh[c])]);
      win' := Box(win'.xy, win'.wh[c := rb - win'.xy[c]]);
    }
    assert AxisClip(win'.xy[c], win'.wh[c], crop'.xy[k], crop'.wh[k]) == ClipEnd(ClipStart(a, lt), rb);
    ok := crop'.wh[k] != 0 && win'.wh[c] != 0;
  }

  lemma CropOverlayOfAxes(vis: Rect, ovl: OvlInfo, a0: AxisClip, a1: AxisClip)
    requires var crop := Align(BoxOf(ovl.cfg.crop), ovl.cfg.rotation, ovl.cfg.mirror);
             && ClipDisplayAxis(BoxOf(ovl.cfg.win), crop, VisStart(vis), VisEnd(vis), Swaps(ovl.cfg.rotation), 0) == Some(a0)
             && ClipDisplayAxis(BoxOf(ovl.cfg.win), crop, VisStart(vis), VisEnd(vis), Swaps(ovl.cfg.rotation), 1) == Some(a1)
    ensures CropOverlay(vis, ovl) ==
            Some(Clipped(ovl, a0, a1, Align(BoxOf(ovl.cfg.crop), ovl.cfg.rotation, ovl.cfg.mirror)))
  {
  }

  /** Clipped takes both axes from the clipped window and crop, whatever the crop was before. */
  lemma ClippedIs(ovl: OvlInfo, win: Box, crop: Box, crop0: Box)
    requires IsBox(win) && IsBox(crop) && IsBox(crop0)
    ensures var swap := Swaps(ovl.cfg.rotation);
            Clipped(ovl, AxisOf(win, crop, swap, 0), AxisOf(win, crop, swap, 1), crop0) ==
            ovl.(cfg := ovl.cfg.(win := RectOf(win), crop := RectOf(Realign(crop, ovl.cfg.rotation, ovl.cfg.mirror))))
  {
    var swap := Swaps(ovl.cfg.rotation);
    var k0, k1 := CropAxis(0, swap), CropAxis(1, swap);
    assert crop0.xy[k0 := crop.xy[k0]][k1 := crop.xy[k1]] == crop.xy;
    assert crop0.wh[k0 := crop.wh[k0]][k1 := crop.wh[k1]] == crop.wh;
  }

  // ---- adjust_overlay_to_display ----

  /**
   * adjust_overlay_to_display for a display with transform t, as a value:
   * the overlay is clipped to the display's region and disabled when
   * nothing of it is left; otherwise its window is placed by place (the
   * display's transform matrix applied by transform_overlay) and its
   * orientation followed by the display's rotation and flip.
   */
  function DisplayAdjusted(t: DisplayTransform, ovl: OvlInfo, place: DssRect -> DssRect): OvlInfo
  {
    match CropOverlay(t.region, ovl)
    case None => ovl.(cfg := ovl.cfg.(enabled := false))
    case Some(c) =>
      var turn := (if c.cfg.mirror then -1 else 1) * t.rotation;
      c.(cfg := c.cfg.(win := place(c.cfg.win), rotation := (c.cfg.rotation + turn) % 4,
                       mirror := c.cfg.mirror != t.hflip))
  }

  /**
   * An overlay clipped away is only disabled. Otherwise window and crop are
   * the clipped ones (the window then placed), rotation ends in 0..3, the
   * mirror toggles exactly when the display flips, and nothing else changes.
   */
  lemma DisplayAdjustedMeaning(t: DisplayTransform, ovl: OvlInfo, place: DssRect -> DssRect)
    ensures var r := DisplayAdjusted(t, ovl, place);
            CropOverlay(t.region, ovl).None? ==> r == ovl.(cfg := ovl.cfg.(enabled := false))
    ensures var r := DisplayAdjusted(t, ovl, place);
            var c := CropOverlay(t.region, ovl);
            c.Some? ==>
              && r == ovl.(cfg := ovl.cfg.(win := place(c.value.cfg.win), crop := c.value.cfg.crop,
                                           rotation := r.cfg.rotation, mirror := r.cfg.mirror))
              && 0 <= r.cfg.rotation < 4
              && r.cfg.mirror == (ovl.cfg.mirror != t.hflip)
  {
  }

  /**
   * The orientation an overlay ends with on the display is its own
   * orientation followed by the display's flip and rotation: the new
   * (rotation, mirror) pair moves every point as the old one does after
   * the display has moved it.
   */
  lemma DisplayAdjustedOrientation(t: DisplayTransform, ovl: OvlInfo, place: DssRect -> DssRect)
    requires CropOverlay(t.region, ovl).Some?
    ensures var r := DisplayAdjusted(t, ovl, place);
            forall p :: Oriented(r.cfg.rotation, r.cfg.mirror, p) ==
              Oriented(ovl.cfg.rotation, ovl.cfg.mirror, DisplayMoved(t.rotation, t.hflip, p))
  {
    var r := DisplayAdjusted(t, ovl, place);
    var m := ovl.cfg.mirror;
    assert r.cfg.rotation == (if m then ovl.cfg.rotation - t.rotation else ovl.cfg.rotation + t.rotation) % 4;
    assert r.cfg.mirror == (m != t.hflip);
    ReducedOrientationComposes(ovl.cfg.rotation, m, t.rotation, t.hflip);
  }

  /** OrientationComposes for every point, with the new rotation reduced to 0..3. */
  lemma ReducedOrientationComposes(rotation: int, mirror: bool, b: int, hflip: bool)
    ensures forall p :: Oriented((if mirror then rotation - b else rotation + b) % 4, mirror != hflip, p) ==
              Oriented(rotation, mirror, DisplayMoved(b, hflip, p))
  {
    var x := if mirror then rotation - b else rotation + b;
    assert x % 4 % 4 == x % 4;
    forall p ensures Oriented(x % 4, mirror != hflip, p) ==
                     Oriented(rotation, mirror, DisplayMoved(b, hflip, p))
    {
      assert Oriented(x % 4, mirror != hflip, p) == Oriented(x, mirror != hflip, p);
      OrientationComposes(rotation, mirror, b, hflip, p);
    }
  }

  /**
   * adjust_overlay_to_display: nothing happens for an absent display;
   * otherwise the overlay becomes DisplayAdjusted for the display's
   * transform. This is the in-place rendering of DisplayAdjusted, whose
   * properties are proved in DisplayAdjustedMeaning.
   */
  method AdjustOverlayToDisplay(dev: Device, disp: int, ovl: OvlInfo, place: DssRect -> DssRect) returns (o: OvlInfo)
    requires 0 <= disp < |dev.displays|
    ensures dev.displays[disp] == null ==> o == ovl
    ensures dev.displays[disp] != null ==> o == DisplayAdjusted(dev.displays[disp].transform, ovl, place)
  {
    var display := dev.displays[disp];
    if display == null {
      return ovl;
    }
    // crop to the clone region if mirroring
    var rc, cropped := CropOverlayToRect(display.transform.region, ovl);
    if rc != 0 {
      return ovl.(cfg := ovl.cfg.(enabled := false));
    }
    var oc := cropped.cfg;
    oc := oc.(win := place(oc.win));
    // F^a R^b F^i R^j = F^(a+b) R^(j+b(-1)^i): the rotation moves against the mirror
    oc := oc.(rotation := oc.rotation + (if oc.mirror then -1 else 1) * display.transform.rotation);
    oc := oc.(rotation := oc.rotation % 4);
    if display.transform.hflip {
      oc := oc.(mirror := !oc.mirror);
    }
    o := cropped.(cfg := oc);
  }

  // ---- reserve_overlays_for_displays ----

  /** The ledger fields reserve_overlays_for_displays writes for one display. */
  datatype Share = Share(ovlIxBase: u32, wanted: u32, avail: u32, scaling: u32, used: u32)

  function WithShare(c: Composition, s: Share): Composition
  {
    c.(ovlIxBase := s.ovlIxBase, wantedOvls := s.wanted, availOvls := s.avail, scalingOvls := s.scaling,
       usedOvls := s.used)
  }

  /** The overlays of a frame: all of them, or all but GFX (which cannot scale) when the framebuffer is scaled. */
  function MaxOverlays(scaling: bool): (n: u32)
    ensures n <= MAX_DSS_OVERLAYS
  {
    if scaling then MAX_DSS_OVERLAYS - NUM_NONSCALING_OVERLAYS else MAX_DSS_OVERLAYS
  }

  /** One overlay for the framebuffer plus one per protected layer, at most all of them. */
  function MinPrimaryOverlays(protected: nat, max: u32): (n: u32)
    ensures n <= max
  {
    Min(1 + protected, max)
  }

  datatype Reservation = Reservation(primary: Share, external: Option<Share>)

  /**
   * The split reserve_overlays_for_displays makes, in uint32_t arithmetic,
   * from the primary's scaling flag, the overlays still held by the other
   * display at the last frame, the primary's protected layer count, whether
   * an external display is attached and whether it mirrors.
   */
  function Reserve(scaling: bool, lastExtOvls: u32, lastIntOvls: u32, protected: nat, external: bool,
                   mirroring: bool): Reservation
  {
    var base := if scaling then OMAP_DSS_VIDEO1 else OMAP_DSS_GFX;
    var max := MaxOverlays(scaling);
    var nonscaling := if scaling then 0 else NUM_NONSCALING_OVERLAYS;
    var maxPrimary := Sub32(max, lastExtOvls);
    var maxExternal := Sub32(max, lastIntOvls);
    var primary := Share(base, max, maxPrimary, Sub32(maxPrimary, nonscaling), 0);
    if !external then Reservation(primary, None)
    else
      var minPrimary := MinPrimaryOverlays(protected, max);
      var wanted := Max(max / 2, minPrimary);
      var avail := Min(maxPrimary, wanted);
      var extWanted := Sub32(max, wanted);
      var extAvail := Min(maxExternal, extWanted);
      var ext := Share(Sub32(MAX_DSS_OVERLAYS, extAvail), extWanted, extAvail, extAvail, 0);
      var avail' := if mirroring && extAvail != 0 && avail > extAvail then Max(minPrimary, extAvail) else avail;
      Reservation(primary.(wanted := wanted, avail := avail'), Some(ext))
  }

  /**
   * The primary's overlays start at GFX, or at VIDEO1 when scaling, and
   * reach the last overlay. Without an external display the primary wants
   * them all and may use those not held by the external display. With one,
   * the wanted counts add up to the pool, the primary wants at least its
   * minimum, each may use what it wants and the other does not hold, the
   * external display's overlays are the last ones, and the two ranges of
   * usable overlays do not overlap. A mirror limits the primary to what can
   * be cloned, but never below its minimum.
   */
  lemma ReserveMeaning(scaling: bool, lastExtOvls: u32, lastIntOvls: u32, protected: nat, external: bool,
                       mirroring: bool)
    ensures var r := Reserve(scaling, lastExtOvls, lastIntOvls, protected, external, mirroring);
            var max := MaxOverlays(scaling);
            var p := r.primary;
            && p.ovlIxBase == (if scaling then OMAP_DSS_VIDEO1 else OMAP_DSS_GFX)
            && p.ovlIxBase + max == MAX_DSS_OVERLAYS
            && p.used == 0
            && (lastExtOvls + (if scaling then 0 else NUM_NONSCALING_OVERLAYS) <= max ==>
                  p.scaling + lastExtOvls + (if scaling then 0 else NUM_NONSCALING_OVERLAYS) == max)
    ensures var r := Reserve(scaling, lastExtOvls, lastIntOvls, protected, external, mirroring);
            !external ==>
              && r.external.None?
              && r.primary.wanted == MaxOverlays(scaling)
              && r.primary.avail == Sub32(MaxOverlays(scaling), lastExtOvls)
              && (lastExtOvls <= MaxOverlays(scaling) ==> r.primary.avail + lastExtOvls == MaxOverlays(scaling))
    ensures var r := Reserve(scaling, lastExtOvls, lastIntOvls, protected, external, mirroring);
            external ==>
              var max := MaxOverlays(scaling);
              var minPrimary := MinPrimaryOverlays(protected, max);
              var p := r.primary;
              && r.external.Some?
              && var e := r.external.value;
              && p.wanted + e.wanted == max
              && minPrimary <= p.wanted
              && e.avail == Min(Sub32(max, lastIntOvls), e.wanted)
              && e.scaling == e.avail && e.used == 0
              && e.ovlIxBase + e.avail == MAX_DSS_OVERLAYS
              && p.ovlIxBase + p.avail <= e.ovlIxBase
              && var share := Min(Sub32(max, lastExtOvls), p.wanted);
              && p.avail == (if mirroring && e.avail != 0 && share > e.avail then Max(minPrimary, e.avail) else share)
              && (mirroring && e.avail != 0 ==> p.avail <= Max(minPrimary, e.avail))
  {
  }

  /**
   * reserve_overlays_for_displays: the primary's ledger, and the external
   * display's when one is attached, get the shares Reserve computes from
   * the primary's scaling flag, the overlays the displays held at the last
   * frame, the primary's protected layer count and whether the external
   * display mirrors. The rest of both compositions is kept.
   */
  method ReserveOverlaysForDisplays(dev: Device)
    requires dev.Valid()
    modifies (dev.displays[HWC_DISPLAY_PRIMARY] as Display)`composition
    modifies (if dev.extDisp >= 0 then {dev.displays[dev.extDisp] as Display} else {})`composition
    ensures var primary := dev.displays[HWC_DISPLAY_PRIMARY];
            var r := Reserve(primary.transform.scaling, dev.lastExtOvls, dev.lastIntOvls,
                             primary.layerStats.protected, dev.extDisp >= 0, dev.extDisp in dev.mirroring);
            && primary.composition == WithShare(old(primary.composition), r.primary)
            && (dev.extDisp >= 0 ==>
                  var ext := dev.displays[dev.extDisp];
                  ext.composition == WithShare(old(ext.composition), r.external.value))
  {
    var primary := dev.displays[HWC_DISPLAY_PRIMARY];
    var scaling := primary.transform.scaling;
    ghost var r := Reserve(scaling, dev.lastExtOvls, dev.lastIntOvls, primary.layerStats.protected,
                           dev.extDisp >= 0, dev.extDisp in dev.mirroring);
    var ovlIxBase := OMAP_DSS_GFX;
    var maxOverlays := MAX_DSS_OVERLAYS;
    var numNonscaling := NUM_NONSCALING_OVERLAYS;

    // a framebuffer of another resolution than the panel cannot use GFX
    if scaling {
      ovlIxBase := OMAP_DSS_VIDEO1;
      maxOverlays := maxOverlays - numNonscaling;
      numNonscaling := 0;
    }
    assert maxOverlays == MaxOverlays(scaling);

    // overlays still shown on the other display cannot move before they are disabled there
    var maxPrimary := Sub32(maxOverlays, dev.lastExtOvls);
    var maxExternal := Sub32(maxOverlays, dev.lastIntOvls);

    // the primary's ledger is filled in a copy written back at the end
    var pc := primary.composition;
    ghost var pc0 := pc;
    pc := pc.(ovlIxBase := ovlIxBase, wantedOvls := maxOverlays, availOvls := maxPrimary);
    pc := pc.(scalingOvls := Sub32(pc.availOvls, numNonscaling), usedOvls := 0);

    var extDisp := dev.extDisp;
    if extDisp < 0 {
      assert pc == WithShare(pc0, r.primary);
      primary.composition := pc;
      return;
    }

    // one overlay for the framebuffer and one per protected layer
    var minPrimary: u32 := Min(1 + primary.layerStats.protected, maxOverlays);

    pc := pc.(wantedOvls := Max(maxOverlays / 2, minPrimary));
    pc := pc.(availOvls := Min(maxPrimary, pc.wantedOvls));

    var ext := dev.displays[extDisp];
    var ec := ext.composition;
    ghost var ec0 := ec;
    ec := ec.(wantedOvls := Sub32(maxOverlays, pc.wantedOvls));
    ec := ec.(availOvls := Min(maxExternal, ec.wantedOvls));
    ec := ec.(scalingOvls := ec.availOvls, usedOvls := 0);
    ec := ec.(ovlIxBase := Sub32(MAX_DSS_OVERLAYS, ec.availOvls));

    if extDisp in dev.mirroring {
      // a mirror can only clone as many overlays as the external display has
      if ec.availOvls != 0 && pc.availOvls > ec.availOvls {
        pc := pc.(availOvls := Max(minPrimary, ec.availOvls));
      }
    }
    assert ec == WithShare(ec0, r.external.value);
    assert pc == WithShare(pc0, r.primary);
    assert ext != primary;
    primary.composition := pc;
    ext.composition := ec;
  }

  // ---- clone_overlay ----

  /**
   * The copy of overlay src clone_overlay sends to the external display,
   * before the display's own adjustment: it takes the overlay index
   * counted down from the last one, the external display's manager, the
   * external framebuffer's ION buffer when the framebuffer overlay (entry
   * 0) is cloned while SGX composes and such a buffer exists, and a z-order
   * above every overlay of the primary.
   */
  function ClonedOverlay(src: OvlInfo, ix: int, extOvlIx: int, usedOvls: u32, extMgrIx: u32,
                         ionFbHandle: Option<int>, useSgx: bool): OvlInfo
  {
    var cfg := src.cfg.(ix := MAX_DSS_OVERLAYS - 1 - extOvlIx, mgrIx := extMgrIx);
    var o := if ix == 0 && ionFbHandle.Some? && useSgx then src.(cfg := cfg, addressing := BufAddrIon, ba := ionFbHandle.value)
             else src.(cfg := cfg, addressing := BufAddrOvlIx, ba := ix);
    o.(cfg := o.cfg.(zorder := o.cfg.zorder + usedOvls))
  }

  /**
   * The overlay clone_overlay appends, once adjusted to the external
   * display, still carries the index counted down from the last overlay,
   * the external display's manager and the z-order of its source raised
   * by the primary's used overlays; its colour mode, buffer geometry and
   * alpha are those of the source. It reads the external framebuffer's ION
   * buffer exactly when entry 0 is cloned while SGX composes and that
   * buffer exists, and otherwise the source overlay's buffer by its index.
   */
  lemma ClonePlacement(src: OvlInfo, ix: int, extOvlIx: int, usedOvls: u32, extMgrIx: u32,
                       ionFbHandle: Option<int>, useSgx: bool, t: DisplayTransform, place: DssRect -> DssRect)
    ensures var o := DisplayAdjusted(t, ClonedOverlay(src, ix, extOvlIx, usedOvls, extMgrIx, ionFbHandle, useSgx), place);
            && o.cfg.ix == MAX_DSS_OVERLAYS - 1 - extOvlIx
            && o.cfg.mgrIx == extMgrIx
            && o.cfg.zorder == src.cfg.zorder + usedOvls
            && o.cfg.colorMode == src.cfg.colorMode && o.cfg.width == src.cfg.width
            && o.cfg.height == src.cfg.height && o.cfg.stride == src.cfg.stride
            && o.cfg.globalAlpha == src.cfg.globalAlpha && o.cfg.preMultAlpha == src.cfg.preMultAlpha
    ensures var o := DisplayAdjusted(t, ClonedOverlay(src, ix, extOvlIx, usedOvls, extMgrIx, ionFbHandle, useSgx), place);
            && (o.addressing == BufAddrIon <==> ix == 0 && ionFbHandle.Some? && useSgx)
            && (o.addressing == BufAddrIon ==> o.ba == ionFbHandle.value)
            && (o.addressing != BufAddrIon ==> o.addressing == BufAddrOvlIx && o.ba == ix)
  {
    DisplayAdjustedMeaning(t, ClonedOverlay(src, ix, extOvlIx, usedOvls, extMgrIx, ionFbHandle, useSgx), place);
  }

  /**
   * The copy clone_overlay makes of entry ix (src), adjusted to the
   * external display: the in-place rendering of ClonedOverlay followed by
   * DisplayAdjusted, whose properties ClonePlacement proves.
   */
  method CloneEntry(dev: Device, ix: int, extDisp: int, ionFbHandle: Option<int>, place: DssRect -> DssRect,
                    src: OvlInfo, extOvlIx: int, usedOvls: u32, useSgx: bool) returns (o: OvlInfo)
    requires 0 <= extDisp < |dev.displays| && dev.displays[extDisp] != null
    ensures o == DisplayAdjusted(dev.displays[extDisp].transform,
                                 ClonedOverlay(src, ix, extOvlIx, usedOvls, dev.displays[extDisp].mgrIx, ionFbHandle, useSgx),
                                 place)
  {
    o := src;

    // overlays for the other display are taken from the end
    o := o.(cfg := o.cfg.(ix := MAX_DSS_OVERLAYS - 1 - extOvlIx));
    o := o.(cfg := o.cfg.(mgrIx := dev.displays[extDisp].mgrIx));
    // entry 0 is the framebuffer overlay; a transformed external display has its own framebuffer
    if ix == 0 && ionFbHandle.Some? && useSgx {
      o := o.(addressing := BufAddrIon, ba := ionFbHandle.value);
    } else {
      o := o.(addressing := BufAddrOvlIx, ba := ix);
    }
    // distinct z-orders across the two displays
    o := o.(cfg := o.cfg.(zorder := o.cfg.zorder + usedOvls));
    assert o == ClonedOverlay(src, ix, extOvlIx, usedOvls, dev.displays[extDisp].mgrIx, ionFbHandle, useSgx);

    o := AdjustOverlayToDisplay(dev, extDisp, o, place);
  }

  /**
   * clone_overlay: with every overlay slot taken the request is refused
   * with -EBUSY and left alone. Otherwise exactly one overlay is appended
   * to the primary's request: the clone of entry ix, adjusted to the
   * external display (window placed by place, the external display's
   * transform matrix); its z-order stays raised by the primary's used
   * overlay count and it is driven by the external display's manager.
   */
  method CloneOverlay(dev: Device, ix: int, extDisp: int, ionFbHandle: Option<int>, place: DssRect -> DssRect)
    returns (rc: int)
    requires dev.Valid()
    requires 0 <= extDisp < |dev.displays| && dev.displays[extDisp] != null
    requires var data := dev.displays[HWC_DISPLAY_PRIMARY].composition.dsscompData;
             0 <= ix < |data.ovls| && MAX_DSS_OVERLAYS <= |data.ovls|
    modifies (dev.displays[HWC_DISPLAY_PRIMARY] as Display)`composition
    ensures rc == 0 || rc == -EBUSY
    ensures var comp := old(dev.displays[HWC_DISPLAY_PRIMARY].composition);
            var data := comp.dsscompData;
            var n := data.numOvls;
            var ext := dev.displays[extDisp];
            var clone := ClonedOverlay(data.ovls[ix], ix, n - comp.usedOvls, comp.usedOvls, ext.mgrIx,
                                       ionFbHandle, comp.useSgx);
            var o := DisplayAdjusted(ext.transform, clone, place);
            && (n >= MAX_DSS_OVERLAYS <==> rc == -EBUSY)
            && (rc == -EBUSY ==> dev.displays[HWC_DISPLAY_PRIMARY].composition == comp)
            && (rc == 0 ==>
                  && dev.displays[HWC_DISPLAY_PRIMARY].composition ==
                       comp.(dsscompData := data.(numOvls := n + 1, ovls := data.ovls[n := o])))
  {
    var primary := dev.displays[HWC_DISPLAY_PRIMARY];
    ghost var comp := primary.composition;
    var data := primary.composition.dsscompData;
    var extOvlIx := data.numOvls - primary.composition.usedOvls;
    if data.numOvls >= MAX_DSS_OVERLAYS {
      return -EBUSY;
    }
    var o := CloneEntry(dev, ix, extDisp, ionFbHandle, place, data.ovls[ix], extOvlIx, primary.composition.usedOvls,
                        primary.composition.useSgx);
    primary.composition := primary.composition.(dsscompData := data.(numOvls := data.numOvls + 1,
                                                                     ovls := data.ovls[data.numOvls := o]));
    assert primary.composition == comp.(dsscompData := data.(numOvls := data.numOvls + 1,
                                                             ovls := data.ovls[data.numOvls := o]));
    rc := 0;
  }

  // ---- the manager tail of hwc_prepare_for_display ----

  /**
   * The end of hwc_prepare_for_display for disp: its request drives
   * exactly its own manager with alpha blending and its swap_rb flag;
   * when overlays were left on an external display that is gone, manager 1
   * follows (a copy of the first without the swap) so that they are
   * cleared, and last_ext_ovls is reset, after which no cleanup is due.
   */
  method PrepareManagers(dev: Device, disp: int)
    requires dev.Valid() && 0 <= disp < |dev.displays| && dev.displays[disp] != null
    requires 2 <= |dev.displays[disp].composition.dsscompData.mgrs|
    modifies dev`lastExtOvls, (dev.displays[disp] as Display)`composition
    ensures dev.lastExtOvls == if old(NeedsCleanup(dev)) then 0 else old(dev.lastExtOvls)
    ensures !NeedsCleanup(dev)
    ensures var display := dev.displays[disp];
            var before := old(display.composition.dsscompData);
            var after := display.composition.dsscompData;
            var first := MgrInfo(display.mgrIx, true, old(display.composition.swapRb));
            && display.composition == old(display.composition).(dsscompData := after)
            && after.numMgrs == (if old(NeedsCleanup(dev)) then 2 else 1)
            && after.mgrs == (if old(NeedsCleanup(dev)) then before.mgrs[0 := first][1 := first.(ix := 1, swapRb := false)]
                              else before.mgrs[0 := first])
            && after.numOvls == before.numOvls && after.ovls == before.ovls
  {
    var display := dev.displays[disp];
    var data := display.composition.dsscompData;
    data := data.(mgrs := data.mgrs[0 := MgrInfo(display.mgrIx, true, display.composition.swapRb)], numMgrs := 1);

    if dev.lastExtOvls != 0 && dev.extDisp < 0 {
      data := data.(mgrs := data.mgrs[1 := data.mgrs[0].(ix := 1, swapRb := false)]);
      data := data.(numMgrs := data.numMgrs + 1);
      dev.lastExtOvls := 0;
    }
    display.composition := display.composition.(dsscompData := data);
  }
}
