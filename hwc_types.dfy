/**
 * The records the composer works on: Android hwcomposer layers and display
 * contents, the per-display state (configuration, per-frame statistics,
 * overlay ledger, transform), the OMAP dsscomp request, and the device.
 *
 * Numeric codes that come from headers outside this model (Android's
 * hwcomposer.h and graphics.h, TI's hal_public.h and the OMAP dsscomp
 * kernel header) are declared here with the values those headers give.
 */
module HwcTypes {
  import opened CTypes

  // ---- display indices (hwcomposer.h, display.h) ----
  const HWC_DISPLAY_PRIMARY: int := 0
  const MAX_DISPLAYS: int := 3
  const MAX_DISPLAY_ID: int := MAX_DISPLAYS - 1

  // ---- OMAP DSS overlay pool (dsscomp / omap_hwc headers) ----
  const MAX_DSS_OVERLAYS: u32 := 4
  const NUM_NONSCALING_OVERLAYS: u32 := 1
  const OMAP_DSS_GFX: u32 := 0
  const OMAP_DSS_VIDEO1: u32 := 1
  const HW_ALIGN: int := 32

  // ---- hwcomposer layer enums and flags ----
  const HWC_SKIP_LAYER: bv32 := 0x1
  const HWC_TRANSFORM_FLIP_H: bv32 := 0x1
  const HWC_TRANSFORM_FLIP_V: bv32 := 0x2
  const HWC_TRANSFORM_ROT_90: bv32 := 0x4
  const HWC_BLENDING_NONE: int := 0x0100
  const HWC_BLENDING_PREMULT: int := 0x0105

  // ---- gralloc usage bits ----
  const GRALLOC_USAGE_EXTERNAL_DISP: bv32 := 0x2000
  const GRALLOC_USAGE_PROTECTED: bv32 := 0x4000

  // ---- hwc_rect_t and hwc_layer_1_t ----
  datatype Rect = Rect(left: int, top: int, right: int, bottom: int)

  function Width(r: Rect): int { r.right - r.left }
  function Height(r: Rect): int { r.bottom - r.top }

  datatype CompositionType = Framebuffer | Background | Overlay | FramebufferTarget

  /** The part of IMG_native_handle_t the composer reads. */
  datatype NativeHandle = NativeHandle(format: u32, width: int, height: int, usage: bv32)

  datatype Layer = Layer(
    compositionType: CompositionType,
    flags: bv32,
    handle: Option<NativeHandle>,
    transform: bv32,
    blending: int,
    sourceCrop: Rect,
    displayFrame: Rect)

  /** hwc_display_contents_1_t: the layer list SurfaceFlinger hands over; layers are updated in place. */
  class Contents {
    var hwLayers: seq<Layer>
    const flags: bv32

    constructor (layers: seq<Layer>, flags: bv32)
      ensures hwLayers == layers && this.flags == flags
    {
      hwLayers := layers;
      this.flags := flags;
    }
  }

  /** layer_statistics_t */
  datatype LayerStatistics = LayerStatistics(
    count: nat,
    framebuffer: nat,
    composable: nat,
    composableMask: bv32,
    scaled: nat,
    rgb: nat,
    bgr: nat,
    nv12: nat,
    dockable: nat,
    protected: nat,
    mem1dTotal: u32)

  // ---- display.h ----
  datatype DisplayConfig = DisplayConfig(xres: int, yres: int, fps: int, xdpi: int, ydpi: int)

  datatype DispType = DispTypeUnknown | DispTypeLcd | DispTypeHdmi | DispTypeWfd
  datatype DispMode = DispModeInvalid | DispModeLegacy | DispModePresentation
  datatype DispRole = DispRolePrimary | DispRoleExternal

  /** display_transform_t without the float matrix: rotation is a 3-bit field of quarter turns. */
  datatype DisplayTransform = DisplayTransform(rotation: int, hflip: bool, scaling: bool, region: Rect)

  // ---- OMAP dsscomp request ----
  /** OMAP_DSS_COLOR_* modes, and any other 32-bit code kept as is. */
  datatype DssColor = DssArgb32 | DssRgb24u | DssRgb16 | DssNv12 | DssRaw(code: u32)

  datatype Addressing = BufAddrLayerIx | BufAddrOvlIx | BufAddrIon

  /** dss2_rect_t */
  datatype DssRect = DssRect(x: int, y: int, w: int, h: int)

  /** dss2_ovl_cfg, without colour conversion, interlace and VC-1 settings. */
  datatype OvlCfg = OvlCfg(
    ix: int,
    mgrIx: int,
    zorder: int,
    enabled: bool,
    colorMode: DssColor,
    width: int,
    height: int,
    stride: u32,
    globalAlpha: int,
    preMultAlpha: bool,
    rotation: int,
    mirror: bool,
    win: DssRect,
    crop: DssRect)

  /** dss2_ovl_info */
  datatype OvlInfo = OvlInfo(cfg: OvlCfg, addressing: Addressing, ba: int)

  /** dss2_mgr_info (the fields the composer sets) */
  datatype MgrInfo = MgrInfo(ix: int, alphaBlending: bool, swapRb: bool)

  /** dsscomp_setup_dispc_data: fixed-size manager and overlay arrays with their fill counts. */
  datatype DispcData = DispcData(numMgrs: nat, mgrs: seq<MgrInfo>, numOvls: nat, ovls: seq<OvlInfo>)

  /** composition_t: the per-display overlay ledger and the request being built. */
  datatype Composition = Composition(
    numBuffers: u32,
    useSgx: bool,
    swapRb: bool,
    ovlIxBase: u32,
    wantedOvls: u32,
    availOvls: u32,
    scalingOvls: u32,
    usedOvls: u32,
    tiler1dSlotSize: u32,
    dsscompData: DispcData)

  /** display_t */
  class Display {
    var configs: seq<DisplayConfig>
    var activeConfigIx: nat
    var dispType: DispType
    var role: DispRole
    var mgrIx: u32
    var contents: Contents?
    var layerStats: LayerStatistics
    var composition: Composition
    var transform: DisplayTransform

    constructor (configs: seq<DisplayConfig>, dispType: DispType, role: DispRole, mgrIx: u32,
                 composition: Composition, transform: DisplayTransform)
      ensures this.configs == configs && activeConfigIx == 0 && this.dispType == dispType
      ensures this.role == role && this.mgrIx == mgrIx && contents == null
      ensures this.composition == composition && this.transform == transform
    {
      this.configs := configs;
      activeConfigIx := 0;
      this.dispType := dispType;
      this.role := role;
      this.mgrIx := mgrIx;
      contents := null;
      layerStats := LayerStatistics(0, 0, 0, 0, 0, 0, 0, 0, 0, 0, 0);
      this.composition := composition;
      this.transform := transform;
    }
  }

  // ---- dsscomp_platform_info and dsscomp_display_info ----
  datatype PlatformLimits = PlatformLimits(
    fclk: u32,
    minWidth: u32,
    maxXdecim2d: u32,
    maxYdecim2d: u32,
    maxXdecim1d: u32,
    maxYdecim1d: u32,
    maxDownscale: u32,
    integerScaleRatioLimit: u32,
    tiler1dSlotSize: u32)

  /** The divisors can_dss_scale uses are non-zero. */
  predicate ValidLimits(l: PlatformLimits)
  {
    l.maxXdecim2d != 0 && l.maxYdecim2d != 0 && l.maxXdecim1d != 0 && l.maxYdecim1d != 0 && l.maxDownscale != 0
  }

  datatype DssChannel = ChannelLcd | ChannelDigit | ChannelLcd2

  datatype DisplayInfo = DisplayInfo(channel: DssChannel, pixelClock: u32)

  /**
   * omap_hwc_device_t. Helpers whose bodies are outside this model are
   * fields: get_external_display_id is extDisp, is_external_display_mirroring
   * is membership in mirroring, is_composable_layer is isComposable and
   * can_scale (with the framebuffer display and limits bound) is canScale.
   */
  class Device {
    const platformLimits: PlatformLimits
    const dssLimits: PlatformLimits
    const fbDis: DisplayInfo
    const flagsRgbOrder: bool
    const flagsNv12Only: bool
    const forceSgx: bool
    const primaryTransform: bool
    const isComposable: (int, Layer) -> bool
    const canScale: (u32, u32, u32, u32, bool) -> bool
    var lastExtOvls: u32
    var lastIntOvls: u32
    var displays: seq<Display?>
    var extDisp: int
    var mirroring: set<int>

    constructor (platformLimits: PlatformLimits, dssLimits: PlatformLimits, fbDis: DisplayInfo,
                 flagsRgbOrder: bool, flagsNv12Only: bool, forceSgx: bool, primaryTransform: bool,
                 isComposable: (int, Layer) -> bool, canScale: (u32, u32, u32, u32, bool) -> bool,
                 primary: Display)
      ensures this.platformLimits == platformLimits && this.dssLimits == dssLimits && this.fbDis == fbDis
      ensures this.flagsRgbOrder == flagsRgbOrder && this.flagsNv12Only == flagsNv12Only
      ensures this.forceSgx == forceSgx && this.primaryTransform == primaryTransform
      ensures this.isComposable == isComposable && this.canScale == canScale
      ensures lastExtOvls == 0 && lastIntOvls == 0 && displays == [primary, null, null]
      ensures extDisp == -1 && mirroring == {}
      ensures Valid()
    {
      this.platformLimits := platformLimits;
      this.dssLimits := dssLimits;
      this.fbDis := fbDis;
      this.flagsRgbOrder := flagsRgbOrder;
      this.flagsNv12Only := flagsNv12Only;
      this.forceSgx := forceSgx;
      this.primaryTransform := primaryTransform;
      this.isComposable := isComposable;
      this.canScale := canScale;
      lastExtOvls := 0;
      lastIntOvls := 0;
      displays := [primary, null, null];
      extDisp := -1;
      mirroring := {};
    }

    /**
     * The primary display always exists, displays are distinct objects,
     * the external display id names an attached non-primary display, and
     * only attached external displays mirror.
     */
    ghost predicate Valid()
      reads this
    {
      && |displays| == MAX_DISPLAYS
      && displays[HWC_DISPLAY_PRIMARY] != null
      && (forall i, j :: 0 <= i < j < |displays| && displays[i] != null ==> displays[i] != displays[j])
      && (extDisp >= 0 ==> HWC_DISPLAY_PRIMARY < extDisp < MAX_DISPLAYS && displays[extDisp] != null)
      && (forall i :: i in mirroring ==> HWC_DISPLAY_PRIMARY < i < MAX_DISPLAYS && displays[i] != null)
    }
  }
}
