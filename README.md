# OMAP4 hwcomposer overlay planner, modelled in Dafny

This project models the per-frame planner of the OMAP4 hardware composer. The planner decides, for each frame, which layers DSS composes on its overlays and which are left to SGX. It also shares the overlay pool between the primary and an external display, and builds the manager and overlay entries of the dsscomp request. The model is a set of Dafny modules organised like the source files:

| module | file | source |
|---|---|---|
| `CTypes` | ctypes.dfy | C machine arithmetic: `uint32_t` wrap-around, division rounding toward zero, `DIV_ROUND_UP`, `ALIGN` |
| `HwcTypes` | hwc_types.dfy | the records of hwc/display.h and hwc/hwc_dev.h. The device and its displays are classes, because the planner updates their fields in place. |
| `ColorFmt` | color_fmt.dfy | hwc/color_fmt.c |
| `Layers` | layer.dfy | hwc/layer.c |
| `Displays` | display.dfy | hwc/display.c |
| `DssComp` | dsscomp.dfy | hwc/dsscomp.c |
| `Hwc` | hwc.dfy | the planner parts of hwc/hwc.c |

Pure code is modelled as functions with lemmas about them:
- the format and layer predicates;
- `can_dss_scale` and the two admissibility tests;
- the writeback mode selector;
- `add_scaling_score`.

Code that changes state is modelled as methods. Each method's postcondition connects the new state to a specification function, and lemmas prove the properties of that function. These methods are:
- the statistics pass, which rewrites `compositionType` in place;
- `set_display_contents` and the caller-buffer queries;
- `reserve_overlays_for_displays`;
- `crop_overlay_to_rect`, with its two-axis loop;
- `adjust_overlay_to_display` and `clone_overlay`;
- the manager records.

Where the C code computes in `uint32_t`, the model reduces modulo 2^32 explicitly:
- the products in `can_dss_scale`;
- the overlay arithmetic in `reserve_overlays_for_displays`;
- the score fields;
- `get_required_mem1d_size`;
- the `mem1d_total` sum.

Where C division truncates toward zero on signed values, the model does the same; this is the crop scaling in `crop_overlay_to_rect`.

Helpers whose bodies are not in the repository are fields of the device and are left uninterpreted:
- `is_composable_layer`;
- `can_scale`;
- `get_external_display_id`;
- `is_external_display_mirroring`.

A caller may read some fields that the declared records do not have: the limits held in `hwc_dev->dsscomp`, `tiler1d_slot_size`, and `composable_mask`. Each of these is a plain field of its record.

## Model

| member | source | states |
|---|---|---|
| ColorFmt.IsRgbFormat | hwc/color_fmt.c:45-55 | the RGB class (BGRA, BGRX, RGB565) shares no format with the BGR or NV12 class |
| ColorFmt.IsBgrFormat | hwc/color_fmt.c:57-66 | the BGR class (RGBX, RGBA) shares no format with the NV12 class |
| ColorFmt.IsValidFormat | hwc/color_fmt.c:28-43 | a format is valid exactly when it is RGB, BGR or NV12 |
| ColorFmt.GetFormatBpp | hwc/color_fmt.c:79-95 | 32 bpp exactly for the four 8888 formats, 16 exactly for RGB565, 8 exactly for the NV12 variants; the result is non-zero exactly for valid formats |
| ColorFmt.ConvertHalToDssFormat | hwc/color_fmt.c:97-129 | RGBA and BGRA map to ARGB32 when blended and RGB24U otherwise. RGBX and BGRX map to RGB24U, RGB565 to RGB16 and the NV12 variants to NV12. Any other format returns the initial value RGBA_8888 as a raw code. |
| ColorFmt.BlendingMattersOnlyForAlpha | hwc/color_fmt.c:103-112 | the blended flag changes the DSS mode exactly for RGBA_8888 and BGRA_8888 |
| Layers.ScaledLayerIff | hwc/layer.c:64-75 | a layer is unscaled exactly when its display frame has the crop's size, with the sides swapped under ROT_90 |
| Layers.Mem1dSizeExact | hwc/layer.c:95-105 | the size is 0 without a handle or for NV12. Otherwise, below 2^32, it is the 32-aligned width times 2 (RGB565) or 4 bytes, times the height. |
| Layers.CanScaleLayerVerdict | hwc/layer.c:107-128 | a 32 bpp source wider than 1280 shrunk more than 3 times is refused; otherwise the verdict is `can_scale` on the source (swapped under ROT_90) and frame sizes as `uint32_t` |
| Layers.ValidLayerRejections | hwc/layer.c:117-153 | each rejection makes a layer invalid: skip flag, no handle, FRAMEBUFFER_TARGET, invalid format, a non-NV12 layer with a transform or over the TILER 1D slot, the wide downscale. A valid layer has a handle and passes the scaler check. |
| Layers.ValidLayerIsScalerVerdict | hwc/layer.c:130-153 | past the individual rejections, validity is exactly the scaler check |
| Layers.GatherLayerStatistics | hwc/layer.c:155-197 | the statistics are those of the original list (all zero for NULL): per-counter counts, `count` without the framebuffer targets, the `uint32_t` 1D total. Every non-target layer's type is reset to FRAMEBUFFER in place, and targets are untouched. |
| Layers.NormalizedCounts | hwc/layer.c:167-175 | resetting `compositionType` changes neither validity, the layer's classification nor its 1D size, so testing before or after the reset is the same |
| Layers.CountOfMonotone | hwc/layer.c:174-192 | a counter whose condition implies another's never exceeds it |
| Layers.ComposableAndTargetsFit | hwc/layer.c:138-175 | composable layers and framebuffer targets together are at most the list's length |
| Layers.ColourClassesFit | hwc/layer.c:181-186 | the bgr, rgb and nv12 counters (an else-if chain) sum to at most composable |
| Layers.StatsBounds | hwc/layer.c:159-192 | `count + framebuffer == numHwLayers`, `composable <= count`, `nv12 <= scaled <= composable`, `dockable` and `protected <= composable`, `bgr + rgb + nv12 <= composable` |
| Layers.Mem1dTotalExact | hwc/layer.c:174-195 | below 2^32 the 1D total is the plain sum of the sizes of the valid layers |
| Layers.NoValidLayerNoStats | hwc/layer.c:174-195 | a list without a valid layer has nothing composable, nothing scaled and no 1D use |
| Layers.StatsOfNormalized | hwc/layer.c:167-172 | the pass's rewrite of the list does not change its statistics, so a second pass gathers the same |
| Layers.NormalizedAllIdempotent | hwc/layer.c:167-172 | resetting the types twice is resetting them once |
| Displays.IsHdmiDisplay | hwc/display.c:513-519 | false outside 0..MAX_DISPLAY_ID or for an absent display, otherwise whether the display is HDMI |
| Displays.GetDisplayMode | hwc/display.c:476-511 | INVALID exactly for a bad index or an absent display, and never PRESENTATION: the early return makes the layer-stack comparison unreachable |
| Displays.GetDisplayConfigs | hwc/display.c:390-418 | -EINVAL for a non-primary display or a NULL count, and 0 with no writes for a zero request. Otherwise -EINVAL exactly for a NULL array or an absent display. On success the count is `min(num_configs, request)`, `configs[c] == c` below it, and the rest of the array is kept. |
| Displays.AttributeValue | hwc/display.c:438-454 | WIDTH is `xres`, HEIGHT is `yres`, DPI_X/DPI_Y are 1000 times the dpi, VSYNC is 1e9 / fps; an unknown code gives no value |
| Displays.GetDisplayAttributes | hwc/display.c:420-461 | 0 with no writes for NULL arrays. -EINVAL exactly for a bad or absent display or a config out of range. Otherwise each slot before NO_ATTRIBUTE gets its attribute's value or is kept, and the slots after are kept. |
| Displays.SetDisplayContents | hwc/display.c:366-388 | each attached display below the clamped count takes its list and the statistics of that list as it was on entry; each attached display at or past the clamp gets NULL contents and keeps its statistics. A list named by at least one gathered display (several slots may name the same list) ends normalized, once; every other list, including those past the clamp, is unchanged, and the frame admits no change beyond display contents, display statistics and list layers. |
| Displays.GatherDisplays | hwc/display.c:372-380 | the first loop: attached displays below n hold their list and its entry statistics, the others keep contents and statistics, and exactly the lists of attached displays below n are normalized |
| Displays.ClearContents | hwc/display.c:382-385 | attached displays from the clamp on get NULL contents; the others keep theirs, and the frame leaves every other field, statistics included, unchanged |
| DssComp.ClampModeDbLength | hwc/dsscomp.c:107-108 | the mode database length is the caller's length capped at MAX_MODE_DB_LENGTH |
| DssComp.EffectiveFclk | hwc/dsscomp.c:166-199 | the clock is at most fclk/1000 and at most the `uint32_t` product `pclk * max_downscale`; it is a multiple of pclk for sources narrower than the integer-scale-ratio limit |
| DssComp.ScaleRejections | hwc/dsscomp.c:167-183 | refused whatever the clocks: a non-DIGIT channel below the minimum width, `dst_h < src_h / 4`, `dst_h * max_downscale < DIV_ROUND_UP(src_h, ydecim)` |
| DssComp.ManualPanelScaling | hwc/dsscomp.c:185-187 | with pclk 0, past the common checks, accepted exactly when `dst_w >= src_w / max_downscale / xdecim`, independent of fclk and the integer-scale-ratio limit |
| DssComp.ClockedPanelScaling | hwc/dsscomp.c:189-204 | with pclk > 0, past the common checks: `dst_w * 4 < src_w` refuses; otherwise accepted exactly when `dst_w * fclk >= min_src_w * pclk` on the effective clock |
| DssComp.MirrorViewOf | hwc/dsscomp.c:212-233 | the partner mirrors exactly when the mirroring set holds it, and is then an attached external display; without mirroring the TV flag is the display's own HDMI test and there is no clone transform |
| DssComp.RenderAllNeedsBudget | hwc/dsscomp.c:235-243 | an accepted frame has SGX not forced, `0 < composable == count`, `composable <= avail_ovls`, `scaled` and `nv12 <= scaling_ovls`, `mem1d_total <= tiler1d_slot_size` |
| DssComp.RenderAllMirroring | hwc/dsscomp.c:216-245 | while mirroring, an accepted frame's composable mask is within the partner's, and a rotated or flipped clone takes NV12 layers only |
| DssComp.RenderAllColourOrder | hwc/dsscomp.c:212-249 | with RGB order enforced a frame with BGR layers is accepted only if it has no RGB layer and neither the display nor, when mirroring, its clone is HDMI (so a TV frame has no BGR layer); NV12-only mode admits no RGB or BGR layer |
| DssComp.RenderAllMonotoneInOverlays | hwc/dsscomp.c:238 | more available overlays, all else fixed, never turn an accepted frame into a refused one |
| DssComp.RenderLayerRejections | hwc/dsscomp.c:252-284 | an accepted layer is composable on the display and, when mirroring, on the partner. A BGR layer is refused on a TV display or TV partner whatever the flags. With RGB order, swap_rb refuses RGB and no swap refuses BGR. A transformed clone refuses non-NV12 layers. |
| DssComp.RatioOf | hwc/dsscomp.c:289-290 | the scale factor is the exact quotient for a non-zero divisor, and NaN for 0/0 |
| DssComp.WbModeAlwaysMem2Mem | hwc/dsscomp.c:286-303 | the selector answers MEM2MEM for every size, although the mode computed before the override is CAPTURE at identity scale |
| DssComp.ComputedWbModeFinite | hwc/dsscomp.c:289-295 | for non-zero destinations the computed mode is CAPTURE exactly when both factors lie in [0.5, 1.0] and neither is below the other times 0.85 |
| DssComp.ComputedWbModeZeroDestination | hwc/dsscomp.c:289-295 | a zero destination with a non-zero source (an infinite factor) makes the computed mode MEM2MEM |
| DssComp.AppendManager | hwc/dsscomp.c:43-49 | slot `num_mgrs` gets (mgr_ix, alpha blending, swap_rb), the count grows by one, the other slots and the overlays are kept |
| DssComp.SetupDsscompManager | hwc/dsscomp.c:141-159 | the display's manager record goes to slot `num_mgrs` of the primary's request when mirroring and of its own otherwise, and the earlier slots are kept. With overlays stranded on a detached display, exactly one cleanup record (ix 1, no swap) follows and `last_ext_ovls` becomes 0, so a repeated call adds no cleanup record. |
| Hwc.ScalingField | hwc/hwc.c:383-387 | the minimum-scaling field is at most 16 |
| Hwc.ScalingFieldRatio | hwc/hwc.c:383-387 | without wrap-around the field is the floor of 16 * smaller / larger area, and 16 for equal areas |
| Hwc.LeftoverField | hwc/hwc.c:389-390 | the leftover field is at most 16 while the scaled frame fits the mode |
| Hwc.LeftoverFieldRounds | hwc/hwc.c:389-390 | without wrap-around the field is 16 * ext_area / mode_area rounded to the nearest integer |
| Hwc.AdjustedRefresh | hwc/hwc.c:392-393 | a rate one below a multiple of 6 is raised by one, any other is kept |
| Hwc.RefreshField | hwc/hwc.c:399-403 | the frame-rate field is at most 240 |
| Hwc.RefreshFieldExactRate | hwc/hwc.c:399-403 | without wrap-around the field is 240 exactly when the rates are equal |
| Hwc.AddScalingScore | hwc/hwc.c:370-406 | each packed field can be read back from the result: the frame-rate field in bits 0-7 and the same-or-higher bit at 8. While the frame fits the mode, also the leftover field at 9-13, the scaling field at 14-18, the caller's lowest bit at 19, the upscale bit at 20, and the caller's bits 1-11 above them. |
| Hwc.TurnedSum | hwc/hwc.c:363-365 | quarter turns compose by adding their counts |
| Hwc.OrientationComposes | hwc/hwc.c:363-367 | following a (rotation, mirror) pair by a display flip and b quarter turns is the pair whose rotation moves by b against the mirror and whose mirror toggles with the flip |
| Hwc.Stride | hwc/hwc.c:109 | without wrap-around the stride is the byte length of a row padded to 32 pixels |
| Hwc.SetupOverlay | hwc/hwc.c:92-123 | the overlay is set up for the buffer: colour mode, size, stride, enabled, opaque, z-order, pipeline 0, window and crop the whole buffer. Placement, orientation and addressing are kept. |
| Hwc.AdjustOverlayToLayer | hwc/hwc.c:125-162 | blending, window and crop come from the layer. FLIP_H sets the mirror and FLIP_V toggles it. A quarter turn leaves the rotation in 0..3. Without ROT_90 or FLIP_V the rotation is kept. From a zero orientation the DSS pair moves every point as the layer's transform does. |
| Hwc.ReflectTwice | hwc/hwc.c:277-319 | walking the same axes from their other ends twice gives the crop back |
| Hwc.AlignIsReflect | hwc/hwc.c:277-319 | the aligning steps and the realigning steps each walk the same crop axes from their other ends |
| Hwc.AlignInvolution | hwc/hwc.c:277-319 | realigning is aligning, and it undoes the alignment |
| Hwc.ScaleLength | hwc/hwc.c:297-305 | the crop share `s * d / w` rounded toward zero lies between 0 and s |
| Hwc.ClipStartMeaning | hwc/hwc.c:294-302 | clipping the start moves the window start to max(x, lt) and keeps its end; the crop keeps its far end and shrinks toward it |
| Hwc.ClipEndMeaning | hwc/hwc.c:303-307 | clipping the end moves the window end to min(x + w, rb) and keeps both starts; the crop shrinks toward its start |
| Hwc.ClipAxisMeaning | hwc/hwc.c:285-311 | a rejected axis fails. A clipped window is the non-empty intersection with the visible span, and its crop is a non-empty part of the old crop in the same direction. An axis already inside is kept. |
| Hwc.ClipPass | hwc/hwc.c:285-311 | one pass of the loop fails exactly when the axis is rejected or collapses; otherwise only window axis c and crop axis k change, to the clipped values |
| Hwc.CropOverlay | hwc/hwc.c:255-327 | on success only the window and crop of the overlay change |
| Hwc.CropRejects | hwc/hwc.c:285-292 | -ENOENT when, on either display axis, the window is empty, the visible rectangle is empty, the two do not meet, or the paired crop axis has length 0 |
| Hwc.CropWithinVisible | hwc/hwc.c:285-311 | on success each window axis is the intersection with the visible rectangle, non-empty and inside it |
| Hwc.CropWithinBuffer | hwc/hwc.c:285-319 | on success the new crop, in buffer coordinates, is a part of the old crop on both axes and runs in the same direction |
| Hwc.CropKeepsInside | hwc/hwc.c:277-319 | a window already inside the visible rectangle with a non-empty crop comes back unchanged |
| Hwc.CropOverlayToRect | hwc/hwc.c:255-327 | returns 0 with the clipped overlay or -ENOENT with the overlay untouched, as the clipping specification decides |
| Hwc.DisplayAdjustedMeaning | hwc/hwc.c:348-368 | an overlay clipped away is only disabled. Otherwise it keeps every field but window (clipped, then placed), crop (clipped), rotation (in 0..3) and mirror (toggled exactly when the display flips). |
| Hwc.DisplayAdjustedOrientation | hwc/hwc.c:360-367 | the new (rotation, mirror) pair moves every point as the old pair does after the display's flip and rotation |
| Hwc.AdjustOverlayToDisplay | hwc/hwc.c:348-368 | nothing changes for an absent display; otherwise the overlay is adjusted to the display's transform |
| Hwc.MaxOverlays | hwc/hwc.c:522-531 | the primary never counts more than MAX_DSS_OVERLAYS overlays |
| Hwc.MinPrimaryOverlays | hwc/hwc.c:557-558 | the primary's minimum is `min(1 + protected, max_overlays)` and at most the pool |
| Hwc.ReserveMeaning | hwc/hwc.c:519-587 | the primary's overlays start at GFX, or at VIDEO1 when scaling, and reach the last overlay; used is 0. Alone, it wants all overlays and gets those not held by the external display. With an external display: the wanted counts add up to the pool and the primary wants at least its minimum. The external display gets `min(max_external, wanted)` of the last overlays, and the two ranges do not overlap. A mirror caps the primary at `max(min_primary, ext.avail)`. |
| Hwc.ReserveOverlaysForDisplays | hwc/hwc.c:519-587 | the primary's ledger, and the external display's when one is attached, become the shares stated above; the rest of both compositions is kept |
| Hwc.ClonePlacement | hwc/hwc.c:605-631 | the clone carries the overlay index counted down from the last one, the external manager, and the z-order raised by the primary's used overlays. It keeps the source's colour, geometry and alpha. It reads the ION framebuffer exactly for entry 0 under SGX when that buffer exists, and otherwise the source by its index. |
| Hwc.CloneEntry | hwc/hwc.c:605-631 | the copy is the clone of the source adjusted to the external display |
| Hwc.CloneOverlay | hwc/hwc.c:594-634 | -EBUSY exactly when all overlay slots are taken, and then nothing changes. Otherwise exactly one overlay, the adjusted clone of entry ix, is appended at the old end and the count grows by one. |
| Hwc.PrepareManagers | hwc/hwc.c:955-967 | the request drives exactly the display's own manager with alpha blending and its swap_rb. With overlays stranded on a detached display, a copy of it as manager 1 without swap follows and `last_ext_ovls` becomes 0; the overlays are kept. |

## Left out

- The float geometry of hwc/hwc.c (`get_max_dimensions`, `set_ext_matrix`, the matrix helpers, `showfps`) is not modelled. `transform_overlay` is the parameter `place` of `AdjustOverlayToDisplay`, `CloneEntry` and `CloneOverlay`; the model does not say how it moves the window.
- `is_upscaled_nv12_layer` compares against a float limit and its callers are not in the core, so it is not modelled.
- DssComp.ComputedWbMode: the scale factors are exact rationals, plus +inf and NaN for a zero divisor, rather than single-precision floats. Single-precision rounding at the thresholds is not captured.
- `get_external_display_ion_fb_handle` is the parameter `ionFbHandle`: the ION handle of the external framebuffer, or none.
- `get_external_display_id`, `is_external_display_mirroring`, `is_composable_layer` and `can_scale` have no bodies in the repository, so they are uninterpreted fields of the device: `extDisp`, `mirroring`, `isComposable` and `canScale`.
- The ioctls, the blitter, the dump code, the hotplug thread, `set_best_hdmi_mode`, `hwc_set` and the device open and close paths are driver and I/O plumbing, and are not modelled.
- Allocation and freeing of displays and TILER buffers, and the blank and unblank calls, are not modelled; displays exist as objects from the start.
- `hwc_prepare_for_display`: only its manager tail is modelled (`PrepareManagers`). The composition loop before it is not part of the core. `dsscomp->mode = DSSCOMP_SETUP_DISPLAY` is not modelled, because the request has no mode field here.
- Displays.AttributeValue: the DPI values are written as `1000 * dpi` over unbounded integers. The `int32_t` overflow of that product for very large dpi is not modelled.
- Hwc.ScaleLength: `crop * d / w` multiplies over unbounded integers. The `int` overflow of the product for huge crops is not modelled. Division rounds toward zero, as in C.
- Hwc.ReserveMeaning: the primary's `scaling_ovls` is computed once from its first `avail_ovls`, as in the source, and is not recomputed after sharing. The exact relation is stated only when the no-wrap bound holds; otherwise the value is the wrapped `uint32_t` difference.
- The widths of `zorder`, `num_ovls` and the stride field are unbounded integers or `u32` as read. The request's `MAX_MANAGERS` capacity is the length of `mgrs`, and `SetupDsscompManager` requires that length to fit the records it appends.
- The layer list `hwLayers` is a sequence field of the contents object, rewritten in place. The caller's arrays of `get_display_configs` and `get_display_attributes` are Dafny arrays.
- `GetDisplayAttributes` takes the position of NO_ATTRIBUTE as a ghost parameter. It requires the values array to have a slot for each attribute before it, and VSYNC not to be asked of a configuration with frame rate 0; C would read past the array or divide by zero there.
- The flag-rewriting and colour-conversion fields of the overlay (cconv, ilace, vc1) are not modelled.
- The body of the crop loop is the helper method `ClipPass`, and the copy step of `clone_overlay` is the helper method `CloneEntry`. The order in which they write fields is the source's order.
