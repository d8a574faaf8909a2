// Image data in CPU memory: the `Image` struct, the per-format pixel decoder
// behind `GetImageData` and the file-extension check of `LoadImage`.

module ImageData {
  import opened MazeTypes

  // The `TextureFormat` enumeration.
  const UncompressedGrayscale: nat := 1  // 8 bpp, no alpha
  const UncompressedGrayAlpha: nat := 2  // 16 bpp, 2 channels
  const UncompressedR5G6B5: nat := 3     // 16 bpp
  const UncompressedR8G8B8: nat := 4     // 24 bpp
  const UncompressedR5G5B5A1: nat := 5   // 16 bpp, 1-bit alpha
  const UncompressedR4G4B4A4: nat := 6   // 16 bpp, 4-bit alpha
  const UncompressedR8G8B8A8: nat := 7   // 32 bpp

  /** The `Image` struct; `data` is the raw byte buffer. */
  datatype Image = Image(width: nat, height: nat, format: nat, data: seq<Byte>)

  /** The zero-initialised image `LoadImage` returns on failure. */
  const EmptyImage := Image(0, 0, 0, [])

  function PixelCount(image: Image): nat {
    image.width * image.height
  }

  predicate KnownFormat(format: nat) {
    UncompressedGrayscale <= format <= UncompressedR8G8B8A8
  }

  /** The 16-bit formats, which `GetImageData` reads as `unsigned short` words. */
  predicate WordFormat(format: nat) {
    format == UncompressedR5G6B5 || format == UncompressedR5G5B5A1 || format == UncompressedR4G4B4A4
  }

  /** How far the read index `k` advances per pixel, in elements (bytes, or
      words for the 16-bit formats); an unknown format never advances it. */
  function Stride(format: nat): (s: nat)
    ensures KnownFormat(format) <==> s >= 1
    ensures s <= 4 && (WordFormat(format) ==> s == 1)
    ensures format == UncompressedGrayscale ==> s == 1
    ensures format == UncompressedGrayAlpha ==> s == 2
    ensures format == UncompressedR8G8B8 ==> s == 3
    ensures format == UncompressedR8G8B8A8 ==> s == 4
  {
    if format == UncompressedGrayscale then 1
    else if format == UncompressedGrayAlpha then 2
    else if WordFormat(format) then 1
    else if format == UncompressedR8G8B8 then 3
    else if format == UncompressedR8G8B8A8 then 4
    else 0
  }

  function BytesPerPixel(format: nat): nat {
    if WordFormat(format) then 2 else Stride(format)
  }

  /** What `GetImageData` demands of its argument: the buffer holds every pixel. */
  predicate HasPixelData(image: Image) {
    |image.data| >= PixelCount(image) * BytesPerPixel(image.format)
  }

  /** The elements of the pixel starting at element `k` lie inside a buffer of `len` bytes. */
  predicate InData(format: nat, len: nat, k: nat) {
    if WordFormat(format) then 2 * k + 2 <= len else k + Stride(format) <= len
  }

  lemma PixelInData(format: nat, n: nat, len: nat, i: nat)
    requires i < n && n * BytesPerPixel(format) <= len
    ensures InData(format, len, Stride(format) * i)
  {
    var s := BytesPerPixel(format);
    assert (i + 1) * s <= n * s by {
      assert n - (i + 1) >= 0;
      assert n * s - (i + 1) * s == (n - (i + 1)) * s;
    }
  }

  /** `((unsigned short *)data)[k]`, assuming a little-endian host. */
  function Word(data: seq<Byte>, k: nat): (w: bv16)
    requires 2 * k + 2 <= |data|
    ensures w & 0xFF == data[2 * k] as bv16 && w >> 8 == data[2 * k + 1] as bv16
  {
    (data[2 * k] as bv16) | ((data[2 * k + 1] as bv16) << 8)
  }

  // The three 16-bit decoders. Each field is masked, shifted down and scaled by
  // an integer-divided factor (255/31 = 8, 255/63 = 4, 255/15 = 17); the float
  // round trip of the source is exact because every product is below 256.

  function DecodeR5G6B5(p: bv16): (c: Color)
    ensures c.r % 8 == 0 && c.g % 4 == 0 && c.b % 8 == 0 && c.a == 255
  {
    Color((((p & 0xF800) >> 11) * (255 / 31) as bv16) as Byte,
          (((p & 0x07E0) >> 5) * (255 / 63) as bv16) as Byte,
          ((p & 0x001F) * (255 / 31) as bv16) as Byte,
          255)
  }

  function DecodeR5G5B5A1(p: bv16): (c: Color)
    ensures c.r % 8 == 0 && c.g % 8 == 0 && c.b % 8 == 0 && (c.a == 0 || c.a == 255)
  {
    Color((((p & 0xF800) >> 11) * (255 / 31) as bv16) as Byte,
          (((p & 0x07C0) >> 6) * (255 / 31) as bv16) as Byte,
          (((p & 0x003E) >> 1) * (255 / 31) as bv16) as Byte,
          ((p & 0x0001) * 255) as Byte)
  }

  function DecodeR4G4B4A4(p: bv16): (c: Color)
    ensures c.r % 17 == 0 && c.g % 17 == 0 && c.b % 17 == 0 && c.a % 17 == 0
  {
    Color((((p & 0xF000) >> 12) * (255 / 15) as bv16) as Byte,
          (((p & 0x0F00) >> 8) * (255 / 15) as bv16) as Byte,
          (((p & 0x00F0) >> 4) * (255 / 15) as bv16) as Byte,
          ((p & 0x000F) * (255 / 15) as bv16) as Byte)
  }

  /** One arm of the `switch (image.format)` in `GetImageData`: the pixel whose
      data starts at element `k`, or None (left unset) for an unknown format. */
  function DecodeAt(format: nat, data: seq<Byte>, k: nat): (p: Option<Color>)
    requires InData(format, |data|, k)
    ensures p.Some? <==> KnownFormat(format)
    ensures format in {UncompressedGrayscale, UncompressedR5G6B5, UncompressedR8G8B8} ==> p.Some? && p.value.a == 255
  {
    if format == UncompressedGrayscale then
      Some(Color(data[k], data[k], data[k], 255))
    else if format == UncompressedGrayAlpha then
      Some(Color(data[k], data[k], data[k], data[k + 1]))
    else if format == UncompressedR5G5B5A1 then
      Some(DecodeR5G5B5A1(Word(data, k)))
    else if format == UncompressedR5G6B5 then
      Some(DecodeR5G6B5(Word(data, k)))
    else if format == UncompressedR4G4B4A4 then
      Some(DecodeR4G4B4A4(Word(data, k)))
    else if format == UncompressedR8G8B8A8 then
      Some(Color(data[k], data[k + 1], data[k + 2], data[k + 3]))
    else if format == UncompressedR8G8B8 then
      Some(Color(data[k], data[k + 1], data[k + 2], 255))
    else
      None
  }

  /** Pixel `i` of the image, as `GetImageData` leaves it. */
  function Pixel(image: Image, i: nat): (p: Option<Color>)
    requires HasPixelData(image) && i < PixelCount(image)
    ensures p.Some? <==> KnownFormat(image.format)
  {
    PixelInData(image.format, PixelCount(image), |image.data|, i);
    DecodeAt(image.format, image.data, Stride(image.format) * i)
  }

  /** `GetImageData`: allocates one `Color` per pixel and fills `pixels[i]`
      while the read index `k` advances by the format's stride. A pixel of an
      unknown format is left unset, which the model writes as None. */
  method GetImageData(image: Image) returns (pixels: array<Option<Color>>)
    requires HasPixelData(image)
    ensures pixels.Length == PixelCount(image)
    ensures forall i :: 0 <= i < pixels.Length ==> pixels[i] == Pixel(image, i)
  {
    var n := image.width * image.height;
    pixels := new Option<Color>[n](_ => None);
    var k := 0;
    var i := 0;
    while i < n
      invariant 0 <= i <= n
      invariant k == Stride(image.format) * i
      invariant forall j :: 0 <= j < i ==> pixels[j] == Pixel(image, j)
    {
      PixelInData(image.format, n, |image.data|, i);
      pixels[i] := DecodeAt(image.format, image.data, k);
      k := k + Stride(image.format);
      i := i + 1;
    }
  }

  // ---------------------------------------------------------------------------
  // Partners of the decoder: encoders it inverts.

  /** The 32-bit (with alpha) or 24-bit (without) byte layout of a pixel run. */
  function Pack(cs: seq<Color>, withAlpha: bool): (bytes: seq<Byte>)
    ensures |bytes| == |cs| * (if withAlpha then 4 else 3)
  {
    if cs == [] then []
    else
      var c := cs[|cs| - 1];
      Pack(cs[..|cs| - 1], withAlpha) + (if withAlpha then [c.r, c.g, c.b, c.a] else [c.r, c.g, c.b])
  }

  lemma {:induction false} PackAt(cs: seq<Color>, withAlpha: bool, i: nat)
    requires i < |cs|
    ensures var s := if withAlpha then 4 else 3;
            var bytes := Pack(cs, withAlpha);
            s * i + s <= |bytes| &&
            bytes[s * i] == cs[i].r && bytes[s * i + 1] == cs[i].g && bytes[s * i + 2] == cs[i].b &&
            (withAlpha ==> bytes[s * i + 3] == cs[i].a)
  {
    var s := if withAlpha then 4 else 3;
    var init := cs[..|cs| - 1];
    assert Pack(cs, withAlpha) == Pack(init, withAlpha) + Pack(cs, withAlpha)[s * |init|..];
    if i < |init| {
      PackAt(init, withAlpha, i);
      assert init[i] == cs[i];
    }
  }

  /** R8G8B8A8 data decodes back to exactly the colours it was packed from. */
  lemma DecodeR8G8B8A8RoundTrip(cs: seq<Color>, width: nat, height: nat, i: nat)
    requires |cs| == width * height && i < |cs|
    ensures var image := Image(width, height, UncompressedR8G8B8A8, Pack(cs, true));
            HasPixelData(image) && Pixel(image, i) == Some(cs[i])
  {
    PackAt(cs, true, i);
  }

  /** R8G8B8 data decodes to the packed colours with alpha forced to 255. */
  lemma DecodeR8G8B8RoundTrip(cs: seq<Color>, width: nat, height: nat, i: nat)
    requires |cs| == width * height && i < |cs|
    ensures var image := Image(width, height, UncompressedR8G8B8, Pack(cs, false));
            HasPixelData(image) && Pixel(image, i) == Some(cs[i].(a := 255))
  {
    PackAt(cs, false, i);
  }

  /** Grayscale: each byte becomes an opaque grey, r = g = b = byte. */
  lemma DecodeGrayscale(image: Image, i: nat)
    requires image.format == UncompressedGrayscale && HasPixelData(image) && i < PixelCount(image)
    ensures i < |image.data|
    ensures Pixel(image, i) == Some(Color(image.data[i], image.data[i], image.data[i], 255))
  {
    PixelInData(image.format, PixelCount(image), |image.data|, i);
  }

  /** Gray-alpha: bytes 2i and 2i+1 are the grey level and the alpha. */
  lemma DecodeGrayAlpha(image: Image, i: nat)
    requires image.format == UncompressedGrayAlpha && HasPixelData(image) && i < PixelCount(image)
    ensures 2 * i + 1 < |image.data|
    ensures Pixel(image, i) == Some(Color(image.data[2 * i], image.data[2 * i], image.data[2 * i], image.data[2 * i + 1]))
  {
    PixelInData(image.format, PixelCount(image), |image.data|, i);
  }

  /** R5G6B5: pixel i is the decoding of the i-th 16-bit word. */
  lemma DecodeR5G6B5Pixel(image: Image, i: nat)
    requires image.format == UncompressedR5G6B5 && HasPixelData(image) && i < PixelCount(image)
    ensures 2 * i + 2 <= |image.data|
    ensures Pixel(image, i) == Some(DecodeR5G6B5(Word(image.data, i)))
  {
    PixelInData(image.format, PixelCount(image), |image.data|, i);
    assert Stride(image.format) * i == i;
    assert Pixel(image, i) == DecodeAt(image.format, image.data, i);
  }

  /** R5G5B5A1: pixel i is the decoding of the i-th 16-bit word. */
  lemma DecodeR5G5B5A1Pixel(image: Image, i: nat)
    requires image.format == UncompressedR5G5B5A1 && HasPixelData(image) && i < PixelCount(image)
    ensures 2 * i + 2 <= |image.data|
    ensures Pixel(image, i) == Some(DecodeR5G5B5A1(Word(image.data, i)))
  {
    PixelInData(image.format, PixelCount(image), |image.data|, i);
    assert Stride(image.format) * i == i;
    assert Pixel(image, i) == DecodeAt(image.format, image.data, i);
  }

  /** R4G4B4A4: pixel i is the decoding of the i-th 16-bit word. */
  lemma DecodeR4G4B4A4Pixel(image: Image, i: nat)
    requires image.format == UncompressedR4G4B4A4 && HasPixelData(image) && i < PixelCount(image)
    ensures 2 * i + 2 <= |image.data|
    ensures Pixel(image, i) == Some(DecodeR4G4B4A4(Word(image.data, i)))
  {
    PixelInData(image.format, PixelCount(image), |image.data|, i);
    assert Stride(image.format) * i == i;
    assert Pixel(image, i) == DecodeAt(image.format, image.data, i);
  }

  function EncodeR5G6B5(c: Color): bv16 {
    ((c.r / 8) as bv16 << 11) | ((c.g / 4) as bv16 << 5) | (c.b / 8) as bv16
  }

  function EncodeR5G5B5A1(c: Color): bv16 {
    ((c.r / 8) as bv16 << 11) | ((c.g / 8) as bv16 << 6) | ((c.b / 8) as bv16 << 1) | (c.a / 255) as bv16
  }

  function EncodeR4G4B4A4(c: Color): bv16 {
    ((c.r / 17) as bv16 << 12) | ((c.g / 17) as bv16 << 8) | ((c.b / 17) as bv16 << 4) | (c.a / 17) as bv16
  }

  /** No two R5G6B5 words decode to the same colour. */
  lemma R5G6B5Lossless(p: bv16)
    ensures EncodeR5G6B5(DecodeR5G6B5(p)) == p
  {
  }

  /** No two R5G5B5A1 words decode to the same colour. */
  lemma R5G5B5A1Lossless(p: bv16)
    ensures EncodeR5G5B5A1(DecodeR5G5B5A1(p)) == p
  {
  }

  /** No two R4G4B4A4 words decode to the same colour. */
  lemma R4G4B4A4Lossless(p: bv16)
    ensures EncodeR4G4B4A4(DecodeR4G4B4A4(p)) == p
  {
  }

  /** Colours whose channels are multiples of 17 survive R4G4B4A4 exactly. */
  lemma R4G4B4A4RoundTrip(c: Color)
    requires c.r % 17 == 0 && c.g % 17 == 0 && c.b % 17 == 0 && c.a % 17 == 0
    ensures DecodeR4G4B4A4(EncodeR4G4B4A4(c)) == c
  {
  }

  // ---------------------------------------------------------------------------
  // LoadImage

  /** `strrchr(s, '.')`: the index of the last dot, if any. */
  function LastDot(s: string): (r: Option<nat>)
    ensures r.Some? ==> r.value < |s| && s[r.value] == '.' &&
                        forall j :: r.value < j < |s| ==> s[j] != '.'
    ensures r.None? ==> forall j :: 0 <= j < |s| ==> s[j] != '.'
  {
    if s == [] then None
    else if s[|s| - 1] == '.' then Some(|s| - 1)
    else LastDot(s[..|s| - 1])
  }

  const SupportedExtensions: seq<string> := [".bmp", ".png", ".tga", ".jpg", ".gif", ".psd"]

  predicate HasSupportedExtension(fileName: string) {
    match LastDot(fileName)
    case None => false
    case Some(i) => fileName[i..] in SupportedExtensions
  }

  /** What `stbi_load_from_file` reports: the decoded size and its RGBA bytes. */
  datatype StbImage = StbImage(width: nat, height: nat, data: seq<Byte>)

  /** `LoadImage`. The file system and stb_image are outside the model: `file`
      is None when the file cannot be opened, otherwise what stb_image decoded. */
  function LoadImage(fileName: string, file: Option<StbImage>): (image: Image)
    ensures image != EmptyImage ==> HasSupportedExtension(fileName) && file.Some?
    ensures HasSupportedExtension(fileName) && file.Some? ==>
              image == Image(file.value.width, file.value.height, UncompressedR8G8B8A8, file.value.data)
  {
    match LastDot(fileName)
    case None => EmptyImage
    case Some(i) =>
      if fileName[i..] in SupportedExtensions then
        match file
        case None => EmptyImage
        case Some(stb) => Image(stb.width, stb.height, UncompressedR8G8B8A8, stb.data)
      else EmptyImage
  }

  /** Whatever the file name and the file, `LoadImage` hands `GetImageData`
      a buffer large enough for every pixel, provided stb_image keeps its
      promise of four bytes per pixel. */
  lemma LoadImageHasPixelData(fileName: string, file: Option<StbImage>)
    requires file.Some? ==> |file.value.data| == file.value.width * file.value.height * 4
    ensures HasPixelData(LoadImage(fileName, file))
    ensures KnownFormat(LoadImage(fileName, file).format) || PixelCount(LoadImage(fileName, file)) == 0
  {
  }
}
