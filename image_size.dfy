/** The picture-size sniffers of the wrapper demo: the width and height of
    a PNG image from its IHDR chunk (section 11.2.2 of the PNG
    specification), and of a JPEG image from its first start-of-frame
    header (section B.2.2 of ITU-T T.81), found by walking the marker
    segments. PNG is tried first. */
module ImageSize {
  import opened Wrappers

  type byte = x: int | 0 <= x < 256

  datatype Size = Size(width: int, height: int)

  /** Two bytes, high first, as `(hi << 8) | lo`. */
  function BE16(hi: byte, lo: byte): (r: nat)
    ensures r < 0x1_0000
  {
    hi * 0x100 + lo
  }

  /** Four bytes, high first. */
  function BE32(b0: byte, b1: byte, b2: byte, b3: byte): (r: nat)
    ensures r < 0x1_0000_0000
  {
    BE16(b0, b1) * 0x1_0000 + BE16(b2, b3)
  }

  /** `(b0 << 24) | ...` stored in an int: the 32 bits read as a two's
      complement number, so a dimension of 2^31 or more comes out negative. */
  function Int32Of(u: nat): (r: int)
    requires u < 0x1_0000_0000
    ensures -0x8000_0000 <= r < 0x8000_0000
    ensures r % 0x1_0000_0000 == u
  {
    if u < 0x8000_0000 then u else u - 0x1_0000_0000
  }

  // ---------------------------------------------------------------------
  // PNG

  const PngSignature: seq<byte> := [0x89, 0x50, 0x4E, 0x47, 0x0D, 0x0A, 0x1A, 0x0A]

  /** getPngSize: at least 24 bytes starting with the signature; the width
      and height are the big-endian words at offsets 16 and 20. */
  function PngSize(b: seq<byte>): (r: Option<Size>)
    ensures r.Some? <==> |b| >= 24 && b[..8] == PngSignature
  {
    if |b| < 24 || b[..8] != PngSignature then None
    else Some(Size(Int32Of(BE32(b[16], b[17], b[18], b[19])), Int32Of(BE32(b[20], b[21], b[22], b[23]))))
  }

  /** A 16-bit number split into its two bytes joins back to itself. */
  lemma Split16(x: nat)
    requires x < 0x1_0000
    ensures x / 0x100 < 0x100 && BE16(x / 0x100, x % 0x100) == x
  {
  }

  /** The four bytes of a word, high first. */
  function Word(u: nat): (r: seq<byte>)
    requires u < 0x1_0000_0000
    ensures |r| == 4 && BE32(r[0], r[1], r[2], r[3]) == u
  {
    var hi, lo := u / 0x1_0000, u % 0x1_0000;
    Split16(hi);
    Split16(lo);
    [hi / 0x100, hi % 0x100, lo / 0x100, lo % 0x100]
  }

  /** The start of a PNG file: signature, the IHDR chunk's length (13) and
      type, then its width and height. */
  function PngHead(width: nat, height: nat): (r: seq<byte>)
    requires width < 0x8000_0000 && height < 0x8000_0000
    ensures |r| == 24
  {
    PngSignature + [0, 0, 0, 13] + [0x49, 0x48, 0x44, 0x52] + Word(width) + Word(height)
  }

  /** The sniffer reads back the dimensions any PNG header carries,
      whatever follows it. */
  lemma PngRoundTrip(width: nat, height: nat, rest: seq<byte>)
    requires width < 0x8000_0000 && height < 0x8000_0000
    ensures PngSize(PngHead(width, height) + rest) == Some(Size(width, height))
  {
    var b := PngHead(width, height) + rest;
    var w := Word(width);
    var h := Word(height);
    assert b[..8] == PngSignature;
    assert b[16..20] == w && b[20..24] == h;
    assert b[16] == w[0] && b[17] == w[1] && b[18] == w[2] && b[19] == w[3];
    assert b[20] == h[0] && b[21] == h[1] && b[22] == h[2] && b[23] == h[3];
  }

  // ---------------------------------------------------------------------
  // JPEG, as written

  /** Where the marker walk of getJpegSize ends, as the code is written:
      the size, no size, or the index of a byte it reads past the end. */
  datatype JpegOutcome = Found(size: Size) | NotFound | ReadsPastEnd(index: nat)

  function Fuel(b: seq<byte>, i: nat): nat
  {
    if i < |b| then |b| - i else 0
  }

  /** getJpegSize's loop from index `i`. A start-of-frame segment
      (0xC0..0xC3) is accepted when `i + 5 < size` after the marker, but the
      width's low byte is at `i + 6`. */
  function JpegScanAsWritten(b: seq<byte>, i: nat): (r: JpegOutcome)
    decreases Fuel(b, i)
  {
    if i + 1 >= |b| then NotFound
    else if b[i] != 0xFF then JpegScanAsWritten(b, i + 1)
    else
      var marker := b[i + 1];
      var j := i + 2;
      if marker == 0xD9 || marker == 0xDA then NotFound
      else if j + 1 >= |b| then NotFound
      else if BE16(b[j], b[j + 1]) < 2 then NotFound
      else if 0xC0 <= marker <= 0xC3 then
        if j + 5 >= |b| then NotFound
        else if j + 6 >= |b| then ReadsPastEnd(j + 6)
        else Found(Size(BE16(b[j + 5], b[j + 6]), BE16(b[j + 3], b[j + 4])))
      else JpegScanAsWritten(b, j + BE16(b[j], b[j + 1]))
  }

  /** A ten-byte JPEG prefix whose start-of-frame header is cut after the
      width's high byte passes the guard and makes the walk read one byte
      past the end of the buffer. */
  lemma JpegGuardOffByOne()
    ensures JpegScanAsWritten([0xFF, 0xD8, 0xFF, 0xC0, 0x00, 0x11, 0x08, 0x00, 0x10, 0x00], 2) == ReadsPastEnd(10)
  {
  }

  // ---------------------------------------------------------------------
  // JPEG, with the guard the read needs

  /** The walk with the guard `i + 6 < size`: a start-of-frame segment
      whose width does not fit in the buffer gives no size. */
  function JpegScan(b: seq<byte>, i: nat): (r: Option<Size>)
    decreases Fuel(b, i)
  {
    if i + 1 >= |b| then None
    else if b[i] != 0xFF then JpegScan(b, i + 1)
    else
      var marker := b[i + 1];
      var j := i + 2;
      if marker == 0xD9 || marker == 0xDA then None
      else if j + 1 >= |b| then None
      else if BE16(b[j], b[j + 1]) < 2 then None
      else if 0xC0 <= marker <= 0xC3 then
        if j + 6 >= |b| then None
        else Some(Size(BE16(b[j + 5], b[j + 6]), BE16(b[j + 3], b[j + 4])))
      else JpegScan(b, j + BE16(b[j], b[j + 1]))
  }

  /** Wherever the code as written stays inside the buffer, the guarded
      walk finds the same thing. */
  lemma {:induction false} GuardedAgrees(b: seq<byte>, i: nat)
    ensures JpegScanAsWritten(b, i).Found? ==> JpegScan(b, i) == Some(JpegScanAsWritten(b, i).size)
    ensures JpegScanAsWritten(b, i).NotFound? ==> JpegScan(b, i) == None
    ensures JpegScanAsWritten(b, i).ReadsPastEnd? ==> JpegScan(b, i) == None && JpegScanAsWritten(b, i).index == |b|
    decreases Fuel(b, i)
  {
    if i + 1 < |b| {
      if b[i] != 0xFF {
        GuardedAgrees(b, i + 1);
      } else if i + 3 < |b| && b[i + 1] != 0xD9 && b[i + 1] != 0xDA && BE16(b[i + 2], b[i + 3]) >= 2
                && !(0xC0 <= b[i + 1] <= 0xC3) {
        GuardedAgrees(b, i + 2 + BE16(b[i + 2], b[i + 3]));
      }
    }
  }

  /** getJpegSize: at least four bytes, then the marker walk from index 2. */
  method JpegSize(b: seq<byte>) returns (r: Option<Size>)
    ensures |b| < 4 ==> r == None
    ensures |b| >= 4 ==> r == JpegScan(b, 2)
  {
    if |b| < 4 {
      return None;
    }
    var i: nat := 2;
    while i + 1 < |b|
      invariant JpegScan(b, i) == JpegScan(b, 2)
      decreases Fuel(b, i)
    {
      if b[i] != 0xFF {
        i := i + 1;
        continue;
      }
      var marker := b[i + 1];
      i := i + 2;
      if marker == 0xD9 || marker == 0xDA {
        return None;
      }
      if i + 1 >= |b| {
        return None;
      }
      var length := BE16(b[i], b[i + 1]);
      if length < 2 {
        return None;
      }
      if 0xC0 <= marker <= 0xC3 {
        if i + 6 >= |b| {
          return None;
        }
        return Some(Size(BE16(b[i + 5], b[i + 6]), BE16(b[i + 3], b[i + 4])));
      }
      i := i + length;
    }
    return None;
  }

  /** A JPEG that starts with a baseline start-of-frame header: SOI, then
      SOF0 with length 17, precision 8, the height and the width. */
  function JpegHead(width: nat, height: nat): (r: seq<byte>)
    requires width < 0x1_0000 && height < 0x1_0000
    ensures |r| == 11
  {
    [0xFF, 0xD8, 0xFF, 0xC0, 0x00, 0x11, 0x08, height / 0x100, height % 0x100, width / 0x100, width % 0x100]
  }

  /** The walk reads back the dimensions of a start-of-frame header. */
  lemma JpegRoundTrip(width: nat, height: nat, rest: seq<byte>)
    requires width < 0x1_0000 && height < 0x1_0000
    ensures JpegScan(JpegHead(width, height) + rest, 2) == Some(Size(width, height))
  {
    var b := JpegHead(width, height) + rest;
    assert b[2] == 0xFF && b[3] == 0xC0 && b[4] == 0x00 && b[5] == 0x11;
    assert b[7] == height / 0x100 && b[8] == height % 0x100;
    assert b[9] == width / 0x100 && b[10] == width % 0x100;
  }

  /** A walk that ends in a size has read a start-of-frame header inside
      the buffer: some 0xFF 0xC0..0xC3 pair followed by seven more bytes. */
  lemma {:induction false} JpegFoundInside(b: seq<byte>, i: nat)
    requires JpegScan(b, i).Some?
    ensures exists p :: i <= p && p + 8 < |b| && b[p] == 0xFF && 0xC0 <= b[p + 1] <= 0xC3
    decreases Fuel(b, i)
  {
    if b[i] != 0xFF {
      JpegFoundInside(b, i + 1);
    } else if !(0xC0 <= b[i + 1] <= 0xC3) {
      JpegFoundInside(b, i + 2 + BE16(b[i + 2], b[i + 3]));
    } else {
      assert i + 8 < |b|;
    }
  }

  // ---------------------------------------------------------------------
  // Both

  /** The demo's order: PNG first, JPEG only when that fails. */
  method SniffSize(b: seq<byte>) returns (r: Option<Size>)
    ensures PngSize(b).Some? ==> r == PngSize(b)
    ensures PngSize(b).None? && |b| >= 4 ==> r == JpegScan(b, 2)
    ensures PngSize(b).None? && |b| < 4 ==> r == None
  {
    r := PngSize(b);
    if r.None? {
      r := JpegSize(b);
    }
  }
}
