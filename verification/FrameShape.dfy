/** Image formats and the shape check a camera image passes before it reaches the frame slot. */
module FrameShape {
  import opened Wrappers

  type Guint = n: int | 0 <= n < 0x1_0000_0000

  datatype PixelFormat = RGB_INT8 | BGR_INT8 | RGBA_INT8 | BGRA_INT8 | L_INT8 | L_INT16 | OtherFormat

  datatype FormatInfo = FormatInfo(gstFormat: string, bytesPerPixel: Guint)

  datatype Image = Image(format: PixelFormat, width: Guint, height: Guint, step: Guint, data: seq<bv8>)

  // A time stamp is None where the source holds GST_CLOCK_TIME_NONE.
  datatype Frame = Frame(data: seq<bv8>, width: Guint, height: Guint, stride: Guint, gstFormat: string,
                         pts: nat, duration: Option<nat>)

  function FormatInfoFromGazebo(format: PixelFormat): Option<FormatInfo> {
    match format
    case RGB_INT8 => Some(FormatInfo("RGB", 3))
    case BGR_INT8 => Some(FormatInfo("BGR", 3))
    case RGBA_INT8 => Some(FormatInfo("RGBA", 4))
    case BGRA_INT8 => Some(FormatInfo("BGRA", 4))
    case L_INT8 => Some(FormatInfo("GRAY8", 1))
    case L_INT16 => Some(FormatInfo("GRAY16_LE", 2))
    case OtherFormat => None
  }

  // Bytes per pixel of the raw video formats the element announces in its caps.
  function GstBytesPerPixel(gstFormat: string): nat {
    if gstFormat == "RGB" || gstFormat == "BGR" then 3
    else if gstFormat == "RGBA" || gstFormat == "BGRA" then 4
    else if gstFormat == "GRAY16_LE" then 2
    else 1
  }

  // What a byte of a pixel holds.
  datatype Channel = Red | Green | Blue | Alpha | Luma | LumaLow | LumaHigh

  // The place of a channel in a pixel, from the definitions of the Gazebo pixel formats ...
  function GazeboByte(format: PixelFormat, channel: Channel): Option<nat> {
    match (format, channel)
    case (RGB_INT8, Red) => Some(0) case (RGB_INT8, Green) => Some(1) case (RGB_INT8, Blue) => Some(2)
    case (BGR_INT8, Blue) => Some(0) case (BGR_INT8, Green) => Some(1) case (BGR_INT8, Red) => Some(2)
    case (RGBA_INT8, Red) => Some(0) case (RGBA_INT8, Green) => Some(1) case (RGBA_INT8, Blue) => Some(2)
    case (RGBA_INT8, Alpha) => Some(3)
    case (BGRA_INT8, Blue) => Some(0) case (BGRA_INT8, Green) => Some(1) case (BGRA_INT8, Red) => Some(2)
    case (BGRA_INT8, Alpha) => Some(3)
    case (L_INT8, Luma) => Some(0)
    case (L_INT16, LumaLow) => Some(0) case (L_INT16, LumaHigh) => Some(1)
    case _ => None
  }

  // ... and of the GStreamer raw video formats.
  function GstByte(gstFormat: string, channel: Channel): Option<nat> {
    match channel
    case Red =>
      if gstFormat == "RGB" || gstFormat == "RGBA" then Some(0)
      else if gstFormat == "BGR" || gstFormat == "BGRA" then Some(2) else None
    case Green =>
      if gstFormat == "RGB" || gstFormat == "RGBA" || gstFormat == "BGR" || gstFormat == "BGRA" then Some(1) else None
    case Blue =>
      if gstFormat == "RGB" || gstFormat == "RGBA" then Some(2)
      else if gstFormat == "BGR" || gstFormat == "BGRA" then Some(0) else None
    case Alpha => if gstFormat == "RGBA" || gstFormat == "BGRA" then Some(3) else None
    case Luma => if gstFormat == "GRAY8" then Some(0) else None
    case LumaLow => if gstFormat == "GRAY16_LE" then Some(0) else None
    case LumaHigh => if gstFormat == "GRAY16_LE" then Some(1) else None
  }

  // The format has the channel of the image at every byte where the image has one, and no other.
  predicate SameChannels(format: PixelFormat, gstFormat: string) {
    && (forall channel: Channel :: GazeboByte(format, channel) == GstByte(gstFormat, channel))
    && exists channel: Channel :: GazeboByte(format, channel).Some?
  }

  /** The announced format has the image's channels in the image's order and depth, and exactly the formats with
      channels are announced. */
  lemma FormatKeepsChannels(format: PixelFormat)
    ensures var info := FormatInfoFromGazebo(format);
            && (info.Some? <==> format != OtherFormat)
            && (info.Some? ==>
                  && SameChannels(format, info.value.gstFormat)
                  && info.value.bytesPerPixel == GstBytesPerPixel(info.value.gstFormat)
                  && forall channel: Channel :: GazeboByte(format, channel).Some? ==>
                       GazeboByte(format, channel).value < info.value.bytesPerPixel)
  {
    if format != OtherFormat {
      var name := FormatInfoFromGazebo(format).value.gstFormat;
      forall channel: Channel ensures GazeboByte(format, channel) == GstByte(name, channel) {
        FormatKeepsChannel(format, channel);
      }
      var some := if format == L_INT8 then Luma else if format == L_INT16 then LumaLow else Red;
      assert GazeboByte(format, some).Some?;
    }
  }

  lemma FormatKeepsChannel(format: PixelFormat, channel: Channel)
    requires FormatInfoFromGazebo(format).Some?
    ensures GazeboByte(format, channel) == GstByte(FormatInfoFromGazebo(format).value.gstFormat, channel)
  {
  }

  // A frame shows the picture of an image: the same bytes, laid out and named alike.
  predicate SamePicture(f: Frame, img: Image) {
    && f.data == img.data && f.width == img.width && f.height == img.height && f.stride == img.step
    && SameChannels(img.format, f.gstFormat)
  }

  /** Multiplies unless the product would exceed `sizeMax`, the largest size_t. */
  function CheckedMultiply(sizeMax: nat, a: Guint, b: Guint): (r: Option<nat>)
    ensures r == if a * b <= sizeMax then Some(a * b) else None
  {
    if a != 0 && b > sizeMax / a then
      assert a * b > sizeMax by { QuotientBound(sizeMax, a, b); }
      None
    else
      assert a * b <= sizeMax by { if a != 0 { QuotientBound(sizeMax, a, b); } }
      Some(a * b)
  }

  lemma QuotientBound(m: nat, a: nat, b: nat)
    requires a > 0
    ensures b > m / a <==> a * b > m
  {
    assert m == a * (m / a) + m % a;
    if b > m / a {
      MulMonotone(a, m / a + 1, b);
    } else {
      MulMonotone(a, b, m / a);
    }
  }

  lemma MulMonotone(a: nat, x: int, y: int)
    requires x <= y
    ensures a * x <= a * y
  {
  }

  predicate ValidateFrameShape(sizeMax: nat, img: Image, info: FormatInfo) {
    && img.width != 0 && img.height != 0
    && var rowSize := CheckedMultiply(sizeMax, img.width, info.bytesPerPixel);
    && rowSize.Some?
    && img.step >= rowSize.value
    && var payload := CheckedMultiply(sizeMax, img.step, img.height);
    && payload.Some?
    && |img.data| >= payload.value
  }

  function MakeFrame(img: Image, info: FormatInfo, now: nat): Frame {
    Frame(img.data, img.width, img.height, img.step, info.gstFormat, now, None)
  }

  predicate InPicture(f: Frame, r: nat, c: nat, k: nat) {
    r < f.height && c < f.width && k < GstBytesPerPixel(f.gstFormat)
  }

  function Offset(f: Frame, r: nat, c: nat, k: nat): nat {
    r * f.stride + c * GstBytesPerPixel(f.gstFormat) + k
  }

  /** Every byte of every pixel of the announced picture lies inside the payload. */
  ghost predicate PixelsInBounds(f: Frame) {
    forall r: nat, c: nat, k: nat :: InPicture(f, r, c, k) ==> Offset(f, r, c, k) < |f.data|
  }

  /** A frame made of an image that passed the check can be read row by row without leaving its data. */
  lemma AcceptedPixelsInBounds(sizeMax: nat, img: Image, info: FormatInfo, now: nat)
    requires FormatInfoFromGazebo(img.format) == Some(info)
    requires ValidateFrameShape(sizeMax, img, info)
    ensures PixelsInBounds(MakeFrame(img, info, now))
  {
    var f := MakeFrame(img, info, now);
    forall r: nat, c: nat, k: nat | InPicture(f, r, c, k)
      ensures Offset(f, r, c, k) < |f.data|
    {
      OffsetBound(r, c, k, f.height, f.width, f.stride, info.bytesPerPixel);
    }
  }

  /** With a 64-bit size_t the overflow exits are dead: the check is exactly the three size conditions. */
  lemma ShapeCheckMeaning(sizeMax: nat, img: Image, info: FormatInfo)
    requires sizeMax >= 0xFFFF_FFFF_FFFF_FFFF
    ensures ValidateFrameShape(sizeMax, img, info) <==>
            img.width > 0 && img.height > 0
            && img.width * info.bytesPerPixel <= img.step && img.step * img.height <= |img.data|
  {
    ProductFits(img.width, info.bytesPerPixel);
    ProductFits(img.step, img.height);
  }

  lemma ProductFits(a: Guint, b: Guint)
    ensures a * b <= 0xFFFF_FFFF_FFFF_FFFF
  {
    MulMonotone(a, b, 0xFFFF_FFFF);
    MulMonotone(0xFFFF_FFFF, a, 0xFFFF_FFFF);
  }

  lemma OffsetBound(r: nat, c: nat, k: nat, height: nat, width: nat, stride: nat, bpp: nat)
    requires r < height && c < width && k < bpp && width * bpp <= stride
    ensures r * stride + c * bpp + k < stride * height
  {
    MulMonotone(bpp, c + 1, width);
    MulMonotone(stride, r + 1, height);
    assert bpp * (c + 1) == c * bpp + bpp;
    assert stride * (r + 1) == r * stride + stride;
  }
}
