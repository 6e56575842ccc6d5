/**
 * Pixel-format classification (hwc/color_fmt.c). The driver's naming
 * follows the DSS register view: the Android BGRA/BGRX/RGB565 formats are
 * its "RGB" class and RGBA/RGBX its "BGR" class.
 */
module ColorFmt {
  import opened CTypes
  import opened HwcTypes

  // Android graphics.h
  const HAL_PIXEL_FORMAT_RGBA_8888: u32 := 1
  const HAL_PIXEL_FORMAT_RGBX_8888: u32 := 2
  const HAL_PIXEL_FORMAT_RGB_565: u32 := 4
  const HAL_PIXEL_FORMAT_BGRA_8888: u32 := 5
  // TI hal_public.h
  const HAL_PIXEL_FORMAT_TI_NV12: u32 := 0x100
  const HAL_PIXEL_FORMAT_TI_NV12_1D: u32 := 0x102
  const HAL_PIXEL_FORMAT_BGRX_8888: u32 := 0x1FF

  function IsRgbFormat(format: u32): (r: bool)
    ensures r ==> !IsBgrFormat(format) && !IsNv12Format(format)
  {
    format == HAL_PIXEL_FORMAT_BGRA_8888 || format == HAL_PIXEL_FORMAT_BGRX_8888 ||
    format == HAL_PIXEL_FORMAT_RGB_565
  }

  function IsBgrFormat(format: u32): (r: bool)
    ensures r ==> !IsNv12Format(format)
  {
    format == HAL_PIXEL_FORMAT_RGBX_8888 || format == HAL_PIXEL_FORMAT_RGBA_8888
  }

  function IsNv12Format(format: u32): bool
  {
    format == HAL_PIXEL_FORMAT_TI_NV12 || format == HAL_PIXEL_FORMAT_TI_NV12_1D
  }

  /** The seven formats the overlays accept are exactly the three classes together. */
  function IsValidFormat(format: u32): (r: bool)
    ensures r <==> IsRgbFormat(format) || IsBgrFormat(format) || IsNv12Format(format)
  {
    match format
    case HAL_PIXEL_FORMAT_RGB_565 => true
    case HAL_PIXEL_FORMAT_RGBX_8888 => true
    case HAL_PIXEL_FORMAT_RGBA_8888 => true
    case HAL_PIXEL_FORMAT_BGRA_8888 => true
    case HAL_PIXEL_FORMAT_BGRX_8888 => true
    case HAL_PIXEL_FORMAT_TI_NV12 => true
    case HAL_PIXEL_FORMAT_TI_NV12_1D => true
    case _ => false
  }

  /** The four 8888 formats. */
  predicate Is8888Format(format: u32)
  {
    format == HAL_PIXEL_FORMAT_BGRA_8888 || format == HAL_PIXEL_FORMAT_BGRX_8888 ||
    format == HAL_PIXEL_FORMAT_RGBX_8888 || format == HAL_PIXEL_FORMAT_RGBA_8888
  }

  function GetFormatBpp(format: u32): (bpp: u32)
    ensures bpp == 32 <==> Is8888Format(format)
    ensures bpp == 16 <==> format == HAL_PIXEL_FORMAT_RGB_565
    ensures bpp == 8 <==> IsNv12Format(format)
    ensures bpp != 0 <==> IsValidFormat(format)
    ensures bpp in {0, 8, 16, 32}
  {
    match format
    case HAL_PIXEL_FORMAT_BGRA_8888 => 32
    case HAL_PIXEL_FORMAT_BGRX_8888 => 32
    case HAL_PIXEL_FORMAT_RGBX_8888 => 32
    case HAL_PIXEL_FORMAT_RGBA_8888 => 32
    case HAL_PIXEL_FORMAT_RGB_565 => 16
    case HAL_PIXEL_FORMAT_TI_NV12 => 8
    case HAL_PIXEL_FORMAT_TI_NV12_1D => 8
    case _ => 0
  }

  /**
   * The DSS colour mode for a HAL format. The alpha formats fall through to
   * the unpremultiplied 24-bit mode when the layer is not blended; a format
   * the switch does not know keeps the initial value, the HAL code of
   * RGBA_8888.
   */
  function ConvertHalToDssFormat(halFormat: u32, blended: bool): (dss: DssColor)
    ensures (halFormat == HAL_PIXEL_FORMAT_RGBA_8888 || halFormat == HAL_PIXEL_FORMAT_BGRA_8888) ==>
              dss == (if blended then DssArgb32 else DssRgb24u)
    ensures (halFormat == HAL_PIXEL_FORMAT_RGBX_8888 || halFormat == HAL_PIXEL_FORMAT_BGRX_8888) ==> dss == DssRgb24u
    ensures halFormat == HAL_PIXEL_FORMAT_RGB_565 ==> dss == DssRgb16
    ensures IsNv12Format(halFormat) ==> dss == DssNv12
    ensures !IsValidFormat(halFormat) ==> dss == DssRaw(HAL_PIXEL_FORMAT_RGBA_8888)
    ensures dss.DssRaw? <==> !IsValidFormat(halFormat)
  {
    var initial := DssRaw(HAL_PIXEL_FORMAT_RGBA_8888);
    match halFormat
    case HAL_PIXEL_FORMAT_RGBA_8888 => if blended then DssArgb32 else DssRgb24u
    case HAL_PIXEL_FORMAT_BGRA_8888 => if blended then DssArgb32 else DssRgb24u
    case HAL_PIXEL_FORMAT_RGBX_8888 => DssRgb24u
    case HAL_PIXEL_FORMAT_BGRX_8888 => DssRgb24u
    case HAL_PIXEL_FORMAT_RGB_565 => DssRgb16
    case HAL_PIXEL_FORMAT_TI_NV12 => DssNv12
    case HAL_PIXEL_FORMAT_TI_NV12_1D => DssNv12
    case _ => initial
  }

  /** Blending changes the DSS mode exactly for the two formats with an alpha channel. */
  lemma BlendingMattersOnlyForAlpha(halFormat: u32)
    ensures ConvertHalToDssFormat(halFormat, true) != ConvertHalToDssFormat(halFormat, false) <==>
              halFormat == HAL_PIXEL_FORMAT_RGBA_8888 || halFormat == HAL_PIXEL_FORMAT_BGRA_8888
  {
  }
}
