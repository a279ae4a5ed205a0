/**
 * The ROS image bridge (imp_bridge_ros/src/ros_bridge.cpp): decoding a
 * `sensor_msgs` encoding string into a pixel type and pixel order, and the
 * decisions `toImageCpu` takes before it copies an image.  A `LOG(FATAL)` or a
 * failed `CHECK` aborts the program; here it is a `Failure` with its message.
 */
module RosBridge {
  import opened Wrappers

  datatype PixelType =
    | Undefined
    | I8uC1 | I8uC2 | I8uC3 | I8uC4
    | I16uC1 | I16uC2 | I16uC3 | I16uC4
    | I32uC1 | I32uC2 | I32uC3 | I32uC4
    | I32sC1 | I32sC2 | I32sC3 | I32sC4
    | I32fC1 | I32fC2 | I32fC3 | I32fC4

  datatype PixelOrder = Undefined | Gray | Rgb | Bgr | Rgba | Bgra

  /** The `sensor_msgs::image_encodings` names the bridge understands. */
  const BGR8: string := "bgr8"
  const MONO8: string := "mono8"
  const RGB8: string := "rgb8"
  const MONO16: string := "mono16"
  const BGR16: string := "bgr16"
  const RGB16: string := "rgb16"
  const BGRA8: string := "bgra8"
  const RGBA8: string := "rgba8"
  const BGRA16: string := "bgra16"
  const RGBA16: string := "rgba16"

  const SupportedEncodings: set<string> := {BGR8, MONO8, RGB8, MONO16, BGR16, RGB16, BGRA8, RGBA8, BGRA16, RGBA16}

  /** The message of an aborting log statement or check. */
  datatype Fatal = Fatal(message: string)

  /** Number of channels of a pixel type (0 for undefined). */
  function TypeChannels(t: PixelType): (n: nat) {
    match t
    case Undefined => 0
    case I8uC1 | I16uC1 | I32uC1 | I32sC1 | I32fC1 => 1
    case I8uC2 | I16uC2 | I32uC2 | I32sC2 | I32fC2 => 2
    case I8uC3 | I16uC3 | I32uC3 | I32sC3 | I32fC3 => 3
    case I8uC4 | I16uC4 | I32uC4 | I32sC4 | I32fC4 => 4
  }

  /** Bits per channel of a pixel type (0 for undefined). */
  function TypeBitDepth(t: PixelType): (b: nat) {
    match t
    case Undefined => 0
    case I8uC1 | I8uC2 | I8uC3 | I8uC4 => 8
    case I16uC1 | I16uC2 | I16uC3 | I16uC4 => 16
    case _ => 32
  }

  /** True of the unsigned-integer pixel types. */
  predicate UnsignedType(t: PixelType) {
    t.I8uC1? || t.I8uC2? || t.I8uC3? || t.I8uC4? || t.I16uC1? || t.I16uC2? || t.I16uC3? || t.I16uC4?
      || t.I32uC1? || t.I32uC2? || t.I32uC3? || t.I32uC4?
  }

  /** Number of channels a pixel order describes (0 for undefined). */
  function OrderChannels(o: PixelOrder): (n: nat) {
    match o
    case Undefined => 0
    case Gray => 1
    case Rgb | Bgr => 3
    case Rgba | Bgra => 4
  }

  /**
   * `sensor_msgs::image_encodings::bitDepth` on the supported encodings: 16 for
   * the encodings whose name ends in "16", 8 for the others.
   */
  function BitDepth(encoding: string): (b: nat)
    requires encoding in SupportedEncodings
    ensures b == 8 || b == 16
  {
    if encoding in {MONO16, BGR16, RGB16, BGRA16, RGBA16} then 16 else 8
  }

  /**
   * `sensor_msgs::image_encodings::numChannels` on the supported encodings: one
   * for the "mono" encodings, four for those with an alpha channel, three else.
   */
  function NumChannels(encoding: string): (n: nat)
    requires encoding in SupportedEncodings
    ensures n == 1 || n == 3 || n == 4
  {
    if encoding in {MONO8, MONO16} then 1
    else if encoding in {BGR8, RGB8, BGR16, RGB16} then 3
    else 4
  }

  /**
   * The two tables follow the encodings' names: 16 bits exactly for the names
   * ending in "16", one channel exactly for the "mono" names, four channels
   * exactly for the names with an alpha channel.
   */
  lemma EncodingNames(encoding: string)
    requires encoding in SupportedEncodings
    ensures BitDepth(encoding) == 16 <==> |encoding| >= 2 && encoding[|encoding| - 2..] == "16"
    ensures NumChannels(encoding) == 1 <==> |encoding| >= 4 && encoding[..4] == "mono"
    ensures NumChannels(encoding) == 4 <==> 'a' in encoding
  {
    assert MONO8[..4] == MONO16[..4] == "mono";
    assert BGR8[..4][0] == BGR16[..4][0] == BGRA8[..4][0] == BGRA16[..4][0] == 'b';
    assert RGB8[..4][0] == RGB16[..4][0] == RGBA8[..4][0] == RGBA16[..4][0] == 'r';
  }

  /**
   * `getPixelTypeFromRosImageEncoding`: the ten supported encodings decode to a
   * pixel type and order that agree with each other and with the encoding's
   * channel count and bit depth; anything else is fatal.
   */
  function GetPixelTypeFromRosImageEncoding(encoding: string): (r: Result<(PixelType, PixelOrder), Fatal>)
    ensures r.Success? <==> encoding in SupportedEncodings
    ensures r.Success? ==> TypeChannels(r.value.0) == OrderChannels(r.value.1) == NumChannels(encoding)
    ensures r.Success? ==> TypeBitDepth(r.value.0) == BitDepth(encoding) && UnsignedType(r.value.0)
    ensures r.Failure? ==> r.error == Fatal("Unsupported image encoding " + encoding + ".")
  {
    if encoding == BGR8 then Success((I8uC3, Bgr))
    else if encoding == MONO8 then Success((I8uC1, Gray))
    else if encoding == RGB8 then Success((I8uC3, Rgb))
    else if encoding == MONO16 then Success((I16uC1, Gray))
    else if encoding == BGR16 then Success((I16uC3, Bgr))
    else if encoding == RGB16 then Success((I16uC3, Rgb))
    else if encoding == BGRA8 then Success((I8uC4, Bgra))
    else if encoding == RGBA8 then Success((I8uC4, Rgba))
    else if encoding == BGRA16 then Success((I16uC4, Bgra))
    else if encoding == RGBA16 then Success((I16uC4, Rgba))
    else Failure(Fatal("Unsupported image encoding " + encoding + "."))
  }

  /** The decoding table, entry by entry. */
  lemma EncodingTable()
    ensures GetPixelTypeFromRosImageEncoding(BGR8) == Success((I8uC3, PixelOrder.Bgr))
    ensures GetPixelTypeFromRosImageEncoding(MONO8) == Success((I8uC1, PixelOrder.Gray))
    ensures GetPixelTypeFromRosImageEncoding(RGB8) == Success((I8uC3, PixelOrder.Rgb))
    ensures GetPixelTypeFromRosImageEncoding(MONO16) == Success((I16uC1, PixelOrder.Gray))
    ensures GetPixelTypeFromRosImageEncoding(BGR16) == Success((I16uC3, PixelOrder.Bgr))
    ensures GetPixelTypeFromRosImageEncoding(RGB16) == Success((I16uC3, PixelOrder.Rgb))
    ensures GetPixelTypeFromRosImageEncoding(BGRA8) == Success((I8uC4, PixelOrder.Bgra))
    ensures GetPixelTypeFromRosImageEncoding(RGBA8) == Success((I8uC4, PixelOrder.Rgba))
    ensures GetPixelTypeFromRosImageEncoding(BGRA16) == Success((I16uC4, PixelOrder.Bgra))
    ensures GetPixelTypeFromRosImageEncoding(RGBA16) == Success((I16uC4, PixelOrder.Rgba))
  {
  }

  /** No two supported encodings decode to the same pair. */
  lemma DecodingInjective(e1: string, e2: string)
    requires GetPixelTypeFromRosImageEncoding(e1).Success? && GetPixelTypeFromRosImageEncoding(e2).Success?
    requires GetPixelTypeFromRosImageEncoding(e1) == GetPixelTypeFromRosImageEncoding(e2)
    ensures e1 == e2
  {
  }

  /** The fields of a `sensor_msgs::Image` that the conversion reads; the sizes are `uint32`. */
  datatype RosImage = RosImage(encoding: string, width: nat, height: nat, step: nat)

  /**
   * What the single supported branch produces: the deep copy of an 8-bit
   * single-channel gray image, described by its size and by the pitch the
   * message's data was wrapped with.
   */
  datatype ImageCpu = ImageCpu(pixelType: PixelType, width: nat, height: nat, pitch: nat, order: PixelOrder)

  const Uint32Modulus: nat := 0x1_0000_0000

  /**
   * `width * num_channels * bit_depth / 8` in the code's unsigned 32-bit
   * arithmetic: each product wraps modulo 2^32 before the division.
   */
  function RequiredPitch(width: nat, numChannels: nat, bitDepth: nat): (p: nat)
    ensures p < Uint32Modulus
  {
    ((width * numChannels) % Uint32Modulus * bitDepth) % Uint32Modulus / 8
  }

  lemma MulAtLeast(a: nat, b: nat)
    requires b >= 1
    ensures a <= a * b
  {
    assert a * b == a + a * (b - 1);
  }

  /** Without wrap-around the required pitch is the exact row size in bytes, rounded down. */
  lemma RequiredPitchExact(width: nat, numChannels: nat, bitDepth: nat)
    requires width * numChannels * bitDepth < Uint32Modulus
    ensures RequiredPitch(width, numChannels, bitDepth) == width * numChannels * bitDepth / 8
  {
    var row := width * numChannels;
    if bitDepth == 0 {
      assert row * bitDepth == 0;
    } else {
      MulAtLeast(row, bitDepth);
      assert row % Uint32Modulus == row;
      assert (row * bitDepth) % Uint32Modulus == row * bitDepth;
    }
  }

  /** A row size that overflows 32 bits wraps: a 2^29-pixel mono8 row passes with pitch 0. */
  lemma RequiredPitchWraps()
    ensures RequiredPitch(0x2000_0000, 1, 8) == 0
  {
  }

  /**
   * `toImageCpu`: decode the encoding (fatal if unsupported), check that the row
   * pitch holds a row (fatal otherwise), and convert only `i8uC1` images; every
   * other pixel type is fatal.  The requested pixel order is ignored.
   */
  function ToImageCpu(src: RosImage, pixelOrder: PixelOrder): (r: Result<ImageCpu, Fatal>)
    requires src.width < Uint32Modulus && src.height < Uint32Modulus && src.step < Uint32Modulus
    ensures r.Success? <==> src.encoding == MONO8 && src.step >= RequiredPitch(src.width, 1, 8)
    ensures r.Success? ==> r.value == ImageCpu(I8uC1, src.width, src.height, src.step, PixelOrder.Gray)
    ensures src.encoding !in SupportedEncodings ==> r == Failure(Fatal("Unsupported image encoding " + src.encoding + "."))
  {
    match GetPixelTypeFromRosImageEncoding(src.encoding)
    case Failure(e) => Failure(e)
    case Success((pixelType, _)) =>
      var bitDepth := BitDepth(src.encoding);
      var numChannels := NumChannels(src.encoding);
      if src.step < RequiredPitch(src.width, numChannels, bitDepth) then
        Failure(Fatal("Input image seem to wrongly formatted"))
      else if pixelType == I8uC1 then
        Success(ImageCpu(I8uC1, src.width, src.height, src.step, PixelOrder.Gray))
      else
        Failure(Fatal("Unsupported pixel type" + src.encoding + "."))
  }

  /** A supported encoding other than mono8 with a sufficient pitch reaches the fatal default branch. */
  lemma OnlyMono8Converts(src: RosImage, pixelOrder: PixelOrder)
    requires src.width < Uint32Modulus && src.height < Uint32Modulus && src.step < Uint32Modulus
    requires src.encoding in SupportedEncodings && src.encoding != MONO8
    requires src.step >= RequiredPitch(src.width, NumChannels(src.encoding), BitDepth(src.encoding))
    ensures ToImageCpu(src, pixelOrder) == Failure(Fatal("Unsupported pixel type" + src.encoding + "."))
  {
  }

  /** The pitch check comes before the pixel-type dispatch. */
  lemma PitchCheckedFirst(src: RosImage, pixelOrder: PixelOrder)
    requires src.width < Uint32Modulus && src.height < Uint32Modulus && src.step < Uint32Modulus
    requires src.encoding in SupportedEncodings
    requires src.step < RequiredPitch(src.width, NumChannels(src.encoding), BitDepth(src.encoding))
    ensures ToImageCpu(src, pixelOrder) == Failure(Fatal("Input image seem to wrongly formatted"))
  {
  }

  /** The result never depends on the requested pixel order. */
  lemma PixelOrderIgnored(src: RosImage, o1: PixelOrder, o2: PixelOrder)
    requires src.width < Uint32Modulus && src.height < Uint32Modulus && src.step < Uint32Modulus
    ensures ToImageCpu(src, o1) == ToImageCpu(src, o2)
  {
  }
}
