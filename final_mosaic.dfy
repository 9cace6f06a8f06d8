/** Turning the stitching engine's answer into a final mosaic: the return code of
    `createMosaic`, the NV21 buffer with its size trailer, and the JPEG compression of that
    buffer become one of three outcomes, cancelled (`null`), invalid or valid. */
module FinalMosaic {
  import opened Wrappers
  import opened JavaInt
  import opened Trailer

  /** What the stitching engine's `createMosaic` reports. `Ok` stands for every code other
      than `MOSAIC_RET_CANCELLED` and `MOSAIC_RET_ERROR`, the two the source tests for. */
  datatype ReturnCode = Ok | Error | Cancelled

  /** A finished mosaic: the compressed image, its width and height, and whether it is valid. */
  datatype MosaicJpeg = MosaicJpeg(data: Option<seq<Int8>>, width: Int32, height: Int32, isValid: bool)

  /** The result of the no-argument constructor: no data, zero size, not valid. */
  const INVALID_JPEG: MosaicJpeg := MosaicJpeg(None, 0, 0, false)

  /** The result of the three-argument constructor: always valid. */
  function ValidJpeg(data: seq<Int8>, width: Int32, height: Int32): MosaicJpeg {
    MosaicJpeg(Some(data), width, height, true)
  }

  /** `YuvImage.compressToJpeg` at quality 100 over the rectangle (0, 0, width, height) of
      an NV21 buffer: a foreign library call, so the model takes it as a parameter. */
  type Compressor = (seq<Int8>, Int32, Int32) -> seq<Int8>

  /** The shape every result of the finalization has: a valid one carries data and a positive
      size, an invalid one is exactly what the no-argument constructor builds. */
  predicate WellFormed(j: MosaicJpeg) {
    if j.isValid then j.data.Some? && j.width > 0 && j.height > 0 else j == INVALID_JPEG
  }

  /** The engine's output buffer can be decoded: the source reads the last eight bytes of any
      non-null buffer after a successful `createMosaic` without checking its length. */
  predicate Decodable(code: ReturnCode, nv21: Option<seq<Int8>>) {
    code.Ok? && nv21.Some? ==> |nv21.value| >= TRAILER_LENGTH
  }

  /** `generateFinalMosaic`: `code` is what `createMosaic` returned, `nv21` what
      `getFinalMosaicNV21` returned, `compress` the JPEG encoder and `closeFails` whether
      closing the output stream threw. `None` is the source's `null`. */
  function GenerateFinalMosaic(code: ReturnCode, nv21: Option<seq<Int8>>, compress: Compressor,
                               closeFails: bool): (r: Option<MosaicJpeg>)
    requires Decodable(code, nv21)
    ensures r.None? <==> code.Cancelled?
    ensures r.Some? ==> WellFormed(r.value)
    ensures r.Some? && r.value.isValid <==>
              code.Ok? && nv21.Some? && !closeFails && Width(nv21.value) > 0 && Height(nv21.value) > 0
    ensures r.Some? && r.value.isValid ==>
              var buf := nv21.value;
              r.value == ValidJpeg(compress(buf, Width(buf), Height(buf)), Width(buf), Height(buf))
  {
    match code
    case Cancelled => None
    case Error => Some(INVALID_JPEG)
    case Ok =>
      if nv21.None? then Some(INVALID_JPEG)
      else
        var buf := nv21.value;
        var width, height := Width(buf), Height(buf);
        if width <= 0 || height <= 0 then Some(INVALID_JPEG)
        else if closeFails then Some(INVALID_JPEG)
        else Some(ValidJpeg(compress(buf, width, height), width, height))
  }

  /** A cancelled computation yields `null` whatever the buffer, the encoder and the stream
      would have done: nothing after `createMosaic` is consulted. */
  lemma CancelledIgnoresEverythingElse(nv21: Option<seq<Int8>>, nv21': Option<seq<Int8>>,
                                        compress: Compressor, compress': Compressor,
                                        closeFails: bool, closeFails': bool)
    ensures GenerateFinalMosaic(Cancelled, nv21, compress, closeFails)
         == GenerateFinalMosaic(Cancelled, nv21', compress', closeFails')
         == None
  {
  }

  /** An engine error, a `null` buffer after success, a non-positive decoded width or height,
      or a failing stream close all yield the invalid result, data `null` and size 0 x 0. */
  lemma ErrorPathsAreInvalid(code: ReturnCode, nv21: Option<seq<Int8>>, compress: Compressor,
                             closeFails: bool)
    requires Decodable(code, nv21)
    requires code.Error?
          || (code.Ok? && nv21.None?)
          || (code.Ok? && nv21.Some? && (Width(nv21.value) <= 0 || Height(nv21.value) <= 0))
          || (code.Ok? && closeFails)
    ensures GenerateFinalMosaic(code, nv21, compress, closeFails) == Some(MosaicJpeg(None, 0, 0, false))
  {
  }

  /** A trailer whose width or height starts with a byte that has its high bit set decodes
      to a negative number, so the result is invalid and never valid. */
  lemma HighBitTrailerIsInvalid(buf: seq<Int8>, compress: Compressor, closeFails: bool)
    requires |buf| >= TRAILER_LENGTH
    requires buf[|buf| - 8] < 0 || buf[|buf| - 4] < 0
    ensures GenerateFinalMosaic(Ok, Some(buf), compress, closeFails) == Some(INVALID_JPEG)
  {
    if buf[|buf| - 8] < 0 {
      HighBitWidthIsNegative(buf);
    } else {
      HighBitHeightIsNegative(buf);
    }
  }

  /** A buffer that ends in the trailer of a positive width and height, after a successful
      `createMosaic` and a clean stream close, gives a valid mosaic of exactly that size
      whose data is the compression of the whole buffer. */
  lemma ValidForPositiveTrailer(pixels: seq<Int8>, width: Int32, height: Int32,
                                compress: Compressor)
    requires width > 0 && height > 0
    ensures var buf := AppendTrailer(pixels, width, height);
            GenerateFinalMosaic(Ok, Some(buf), compress, false)
            == Some(MosaicJpeg(Some(compress(buf, width, height)), width, height, true))
  {
    TrailerRoundTrip(pixels, width, height);
  }

  /** Every valid result comes from a successful `createMosaic` and a buffer that is some
      pixel data followed by the trailer of the result's own width and height, both positive. */
  lemma ValidResultHasTrailer(code: ReturnCode, nv21: Option<seq<Int8>>, compress: Compressor,
                              closeFails: bool)
    requires Decodable(code, nv21)
    requires var r := GenerateFinalMosaic(code, nv21, compress, closeFails); r.Some? && r.value.isValid
    ensures var j := GenerateFinalMosaic(code, nv21, compress, closeFails).value;
            code.Ok? && !closeFails && j.width > 0 && j.height > 0
            && nv21.value == AppendTrailer(nv21.value[..|nv21.value| - TRAILER_LENGTH], j.width, j.height)
  {
    TrailerSplit(nv21.value);
  }

  /** The 800 x 600 example: a buffer whose last eight bytes encode width 800 and height 600
      decodes to exactly that size, and the bytes before the trailer are left as they were. */
  lemma Example800x600(pixels: seq<Int8>, compress: Compressor)
    ensures var buf := AppendTrailer(pixels, 800, 600);
            buf[..|pixels|] == pixels
            && Width(buf) == 800 && Height(buf) == 600
            && GenerateFinalMosaic(Ok, Some(buf), compress, false).value == ValidJpeg(compress(buf, 800, 600), 800, 600)
  {
    ValidForPositiveTrailer(pixels, 800, 600, compress);
  }
}
