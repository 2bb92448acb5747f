/** The format capability tables: which loader produced an image, which
    encoder serves it, its file extension and identifier, what it can hold,
    and the list of enabled savers. */
module Formats {
  import opened Wrappers
  import opened Text

  /** The kinds of decoded source image. */
  datatype ImageType = Jpeg | Png | Webp | Tiff | Gif | Svg | Pdf | Heif | Magick | Unknown

  /** The kinds of encoded output. */
  datatype Output = Jpeg | Png | Webp | Avif | Tiff | Gif | Json

  /** The quarter-turn rotations libvips offers (VipsAngle). */
  datatype Angle = D0 | D90 | D180 | D270

  /** The clockwise rotation an angle stands for, in degrees. */
  function Degrees(a: Angle): int {
    match a
    case D0 => 0
    case D90 => 90
    case D180 => 180
    case D270 => 270
  }

  /** The rotation for an angle given in degrees; anything that is not 90, 180
      or 270 means no rotation. */
  function ResolveAngleRotation(angle: int): (r: Angle)
    ensures angle == 90 || angle == 180 || angle == 270 ==> Degrees(r) == angle
    ensures angle != 90 && angle != 180 && angle != 270 ==> r == D0
  {
    match angle
    case 90 => D90
    case 180 => D180
    case 270 => D270
    case _ => D0
  }

  /** Every rotation is resolved from its own number of degrees. */
  lemma ResolveAngleRotationOfDegrees(a: Angle)
    ensures ResolveAngleRotation(Degrees(a)) == a
  {
  }

  /** The extension of an output, which also names the saver allowed for it:
      a dot and a lower-case name. */
  function DetermineImageExtension(output: Output): (ext: string)
    ensures |ext| >= 2 && ext[0] == '.'
    ensures forall i :: 1 <= i < |ext| ==> 'a' <= ext[i] <= 'z'
  {
    match output
    case Jpeg => ".jpg"
    case Webp => ".webp"
    case Avif => ".avif"
    case Tiff => ".tiff"
    case Gif => ".gif"
    case Json => ".json"
    case Png => ".png"
  }

  /** The output an extension names, when it names one. */
  function OutputOfExtension(ext: string): Option<Output> {
    if ext == ".jpg" then Some(Output.Jpeg)
    else if ext == ".webp" then Some(Output.Webp)
    else if ext == ".avif" then Some(Output.Avif)
    else if ext == ".tiff" then Some(Output.Tiff)
    else if ext == ".gif" then Some(Output.Gif)
    else if ext == ".json" then Some(Output.Json)
    else if ext == ".png" then Some(Output.Png)
    else None
  }

  /** Every extension is a dot followed by a non-empty name without a comma,
      and the extension identifies its output. */
  lemma ExtensionShape(output: Output)
    ensures |DetermineImageExtension(output)| >= 2
    ensures DetermineImageExtension(output)[0] == '.'
    ensures ',' !in DetermineImageExtension(output)
    ensures OutputOfExtension(DetermineImageExtension(output)) == Some(output)
  {
  }

  /** Distinct outputs have distinct extensions. */
  lemma ExtensionInjective(a: Output, b: Output)
    requires DetermineImageExtension(a) == DetermineImageExtension(b)
    ensures a == b
  {
    ExtensionShape(a);
    ExtensionShape(b);
  }

  /** The output used to encode an image of a given source type. Nothing is
      encoded as JSON, and PNG is the fallback for every type without an
      encoder of its own. */
  function ToOutput(imageType: ImageType): (o: Output)
    ensures o != Output.Json
    ensures o == Output.Png <==>
      imageType in {ImageType.Png, ImageType.Svg, ImageType.Pdf, ImageType.Magick, ImageType.Unknown}
  {
    match imageType
    case Jpeg => Output.Jpeg
    case Webp => Output.Webp
    case Heif => Output.Avif
    case Tiff => Output.Tiff
    case Gif => Output.Gif
    case _ => Output.Png
  }

  /** The lower-case identifier of a source type in the image description. */
  function ImageTypeId(imageType: ImageType): (id: string)
    ensures |id| > 0 && forall i :: 0 <= i < |id| ==> 'a' <= id[i] <= 'z'
  {
    match imageType
    case Jpeg => "jpeg"
    case Png => "png"
    case Webp => "webp"
    case Tiff => "tiff"
    case Gif => "gif"
    case Svg => "svg"
    case Pdf => "pdf"
    case Heif => "heif"
    case Magick => "magick"
    case Unknown => "unknown"
  }

  /** The source type an identifier names, when it names one. */
  function ImageTypeOfId(id: string): Option<ImageType> {
    if id == "jpeg" then Some(ImageType.Jpeg)
    else if id == "png" then Some(ImageType.Png)
    else if id == "webp" then Some(ImageType.Webp)
    else if id == "tiff" then Some(ImageType.Tiff)
    else if id == "gif" then Some(ImageType.Gif)
    else if id == "svg" then Some(ImageType.Svg)
    else if id == "pdf" then Some(ImageType.Pdf)
    else if id == "heif" then Some(ImageType.Heif)
    else if id == "magick" then Some(ImageType.Magick)
    else if id == "unknown" then Some(ImageType.Unknown)
    else None
  }

  /** The identifier of a source type determines the type. */
  lemma ImageTypeIdRoundTrip(imageType: ImageType)
    ensures ImageTypeOfId(ImageTypeId(imageType)) == Some(imageType)
  {
  }

  lemma ImageTypeIdInjective(a: ImageType, b: ImageType)
    requires ImageTypeId(a) == ImageTypeId(b)
    ensures a == b
  {
    ImageTypeIdRoundTrip(a);
    ImageTypeIdRoundTrip(b);
  }

  /** The source types that can hold several pages; every one of them but
      PDF and Magick keeps a multi-page capable output. */
  predicate SupportMultiPages(imageType: ImageType)
    ensures SupportMultiPages(imageType) ==> imageType !in {ImageType.Jpeg, ImageType.Png, ImageType.Svg, ImageType.Unknown}
    ensures SupportMultiPages(imageType) && imageType !in {ImageType.Pdf, ImageType.Magick} ==>
      ToOutput(imageType) in {Output.Webp, Output.Avif, Output.Tiff, Output.Gif}
  {
    imageType == ImageType.Webp || imageType == ImageType.Tiff ||
    imageType == ImageType.Gif || imageType == ImageType.Pdf ||
    imageType == ImageType.Heif || imageType == ImageType.Magick
  }

  /** The source types that can carry an alpha channel; none of them is sent
      to the JPEG encoder. */
  predicate SupportAlphaChannel(imageType: ImageType)
    ensures SupportAlphaChannel(imageType) ==> ToOutput(imageType) != Output.Jpeg
    ensures SupportAlphaChannel(imageType) ==> imageType !in {ImageType.Jpeg, ImageType.Svg, ImageType.Pdf, ImageType.Magick, ImageType.Unknown}
  {
    imageType == ImageType.Png || imageType == ImageType.Webp ||
    imageType == ImageType.Heif || imageType == ImageType.Tiff ||
    imageType == ImageType.Gif
  }

  /** How the output table treats each source type: the five encodable
      types map to their own output, HEIF to AVIF, everything else to PNG. */
  lemma ToOutputTable(imageType: ImageType)
    ensures imageType == ImageType.Jpeg ==> ToOutput(imageType) == Output.Jpeg
    ensures imageType == ImageType.Png ==> ToOutput(imageType) == Output.Png
    ensures imageType == ImageType.Webp ==> ToOutput(imageType) == Output.Webp
    ensures imageType == ImageType.Tiff ==> ToOutput(imageType) == Output.Tiff
    ensures imageType == ImageType.Gif ==> ToOutput(imageType) == Output.Gif
    ensures imageType == ImageType.Heif ==> ToOutput(imageType) == Output.Avif
    ensures imageType in {ImageType.Svg, ImageType.Pdf, ImageType.Magick, ImageType.Unknown} ==> ToOutput(imageType) == Output.Png
    ensures ToOutput(imageType) != Output.Json
  {
  }

  /** The capability table, row by row. */
  lemma CapabilityTable(imageType: ImageType)
    ensures imageType in {ImageType.Jpeg, ImageType.Svg} ==> !SupportMultiPages(imageType) && !SupportAlphaChannel(imageType)
    ensures imageType in {ImageType.Pdf, ImageType.Magick} ==> SupportMultiPages(imageType) && !SupportAlphaChannel(imageType)
    ensures imageType == ImageType.Png ==> SupportAlphaChannel(imageType) && !SupportMultiPages(imageType)
    ensures imageType in {ImageType.Webp, ImageType.Tiff, ImageType.Gif, ImageType.Heif} ==> SupportMultiPages(imageType) && SupportAlphaChannel(imageType)
    ensures imageType == ImageType.Unknown ==> !SupportMultiPages(imageType) && !SupportAlphaChannel(imageType)
  {
  }

  // ---------------------------------------------------------------------
  // Loader names

  /** The GIF loader of libvips 8.11 and later; older releases named it
      "VipsForeignLoadGif", and exactly one of the two is compiled in. */
  const GifLoader := "VipsForeignLoadNsgif"

  /** The loader-name prefix that identifies each known source type. */
  function LoaderPrefix(imageType: ImageType): string
    requires imageType != ImageType.Unknown
  {
    match imageType
    case Jpeg => "VipsForeignLoadJpeg"
    case Png => "VipsForeignLoadPng"
    case Webp => "VipsForeignLoadWebp"
    case Tiff => "VipsForeignLoadTiff"
    case Gif => GifLoader
    case Svg => "VipsForeignLoadSvg"
    case Pdf => "VipsForeignLoadPdf"
    case Heif => "VipsForeignLoadHeif"
    case Magick => "VipsForeignLoadMagick"
  }

  /** The source type of a decoded image, from the name of its load
      operation: a known type only when the name begins with its prefix. */
  function DetermineImageType(loader: string): (t: ImageType)
    ensures t != ImageType.Unknown ==> StartsWith(loader, LoaderPrefix(t))
  {
    if StartsWith(loader, "VipsForeignLoadJpeg") then ImageType.Jpeg
    else if StartsWith(loader, "VipsForeignLoadPng") then ImageType.Png
    else if StartsWith(loader, "VipsForeignLoadWebp") then ImageType.Webp
    else if StartsWith(loader, "VipsForeignLoadTiff") then ImageType.Tiff
    else if StartsWith(loader, GifLoader) then ImageType.Gif
    else if StartsWith(loader, "VipsForeignLoadSvg") then ImageType.Svg
    else if StartsWith(loader, "VipsForeignLoadPdf") then ImageType.Pdf
    else if StartsWith(loader, "VipsForeignLoadHeif") then ImageType.Heif
    else if StartsWith(loader, "VipsForeignLoadMagick") then ImageType.Magick
    else ImageType.Unknown
  }

  /** No loader prefix is a prefix of another's, so the order of the tests
      in DetermineImageType cannot matter. */
  lemma LoaderPrefixesUnrelated(a: ImageType, b: ImageType)
    requires a != ImageType.Unknown && b != ImageType.Unknown && a != b
    ensures !StartsWith(LoaderPrefix(a), LoaderPrefix(b))
  {
    var p, q := LoaderPrefix(a), LoaderPrefix(b);
    assert p[15] != q[15] || p[16] != q[16];
  }

  /** A loader is of a known type exactly when its name begins with that
      type's prefix. */
  lemma DetermineImageTypeMatches(loader: string, imageType: ImageType)
    requires imageType != ImageType.Unknown
    ensures DetermineImageType(loader) == imageType <==> StartsWith(loader, LoaderPrefix(imageType))
  {
    var found := DetermineImageType(loader);
    if found != ImageType.Unknown && found != imageType && StartsWith(loader, LoaderPrefix(imageType)) {
      var p, q := LoaderPrefix(found), LoaderPrefix(imageType);
      assert StartsWith(loader, p);
      if |p| <= |q| {
        PrefixesNest(loader, p, q);
        LoaderPrefixesUnrelated(imageType, found);
      } else {
        PrefixesNest(loader, q, p);
        LoaderPrefixesUnrelated(found, imageType);
      }
    }
  }

  /** A loader is Unknown exactly when no known prefix begins its name. */
  lemma DetermineImageTypeUnknown(loader: string)
    ensures DetermineImageType(loader) == ImageType.Unknown <==>
      forall t: ImageType :: t != ImageType.Unknown ==> !StartsWith(loader, LoaderPrefix(t))
  {
    var found := DetermineImageType(loader);
    if found != ImageType.Unknown {
      DetermineImageTypeMatches(loader, found);
    }
  }

  lemma DetermineImageTypeExamples()
    ensures DetermineImageType("VipsForeignLoadJpegFile") == ImageType.Jpeg
    ensures DetermineImageType("VipsForeignLoadNsgifBuffer") == ImageType.Gif
    ensures DetermineImageType("VipsForeignLoadFoo") == ImageType.Unknown
    ensures DetermineImageType("VipsForeignLoadGifFile") == ImageType.Unknown
  {
    assert StartsWith("VipsForeignLoadJpegFile", "VipsForeignLoadJpeg");
    assert StartsWith("VipsForeignLoadNsgifBuffer", GifLoader);
    DetermineImageTypeMatches("VipsForeignLoadNsgifBuffer", ImageType.Gif);
    var legacy := "VipsForeignLoadGifFile";
    forall t: ImageType | t != ImageType.Unknown
      ensures !StartsWith(legacy, LoaderPrefix(t))
    {
      assert LoaderPrefix(t)[15] != legacy[15];
    }
    DetermineImageTypeUnknown(legacy);
  }
  // ---------------------------------------------------------------------
  // The savers mask

  /** The output whose enum value is bit `bit` of a savers mask. */
  function SaverOutput(bit: nat): Output
    requires 1 <= bit <= 7
  {
    match bit
    case 1 => Output.Jpeg
    case 2 => Output.Png
    case 3 => Output.Webp
    case 4 => Output.Avif
    case 5 => Output.Tiff
    case 6 => Output.Gif
    case _ => Output.Json
  }

  /** Whether the mask has bit `bit` set: `(msk & (1U << bit)) != 0`. */
  predicate HasBit(msk: bv64, bit: nat)
    requires bit < 64
  {
    msk & (1 << bit) != 0
  }

  /** The listed name of a saver: its extension without the dot. */
  function SaverName(bit: nat): (name: string)
    requires 1 <= bit <= 7
    ensures |name| > 0 && ',' !in name
  {
    ExtensionShape(SaverOutput(bit));
    DetermineImageExtension(SaverOutput(bit))[1..]
  }

  /** The names of the savers whose bits in [1, upTo) are set, in ascending
      bit order. */
  function SaversBelow(msk: bv64, upTo: nat): seq<string>
    requires 1 <= upTo <= 8
  {
    if upTo == 1 then []
    else SaversBelow(msk, upTo - 1) + (if HasBit(msk, upTo - 1) then [SaverName(upTo - 1)] else [])
  }

  /** The text that lists the savers of a mask. */
  function SupportedSavers(msk: bv64): string {
    Join(SaversBelow(msk, 8), ", ")
  }

  /** The enabled savers as a comma-separated string, written as the source
      builds it: bits 1 to 7 in turn, a separator before every name but the first. */
  method SupportedSaversString(msk: bv64) returns (result: string)
    ensures result == SupportedSavers(msk)
  {
    result := "";
    for i := 1 to 8
      invariant result == Join(SaversBelow(msk, i), ", ")
    {
      var output: bv64 := 1 << i;
      if msk & output != 0 {
        var saver := DetermineImageExtension(SaverOutput(i))[1..];
        JoinSnoc(SaversBelow(msk, i), saver, ", ");
        if |SaversBelow(msk, i)| > 0 {
          SaversBelowNames(msk, i, 0);
        }
        assert HasBit(msk, i);
        assert SaversBelow(msk, i + 1) == SaversBelow(msk, i) + [saver];
        if result == "" {
          result := saver;
        } else {
          result := result + ", " + saver;
        }
      } else {
        assert !HasBit(msk, i);
        assert SaversBelow(msk, i + 1) == SaversBelow(msk, i);
      }
    }
  }

  /** Every listed name is the name of a set bit below upTo. */
  lemma {:induction false} SaversBelowNames(msk: bv64, upTo: nat, k: nat)
    requires 1 <= upTo <= 8 && k < |SaversBelow(msk, upTo)|
    ensures exists bit :: 1 <= bit < upTo && HasBit(msk, bit) && SaversBelow(msk, upTo)[k] == SaverName(bit)
  {
    var prefix := SaversBelow(msk, upTo - 1);
    if k < |prefix| {
      SaversBelowNames(msk, upTo - 1, k);
    } else {
      assert SaversBelow(msk, upTo)[k] == SaverName(upTo - 1);
    }
  }

  lemma SaverNameInjective(a: nat, b: nat)
    requires 1 <= a <= 7 && 1 <= b <= 7 && SaverName(a) == SaverName(b)
    ensures a == b
  {
  }

  /** The name lists of two masks agree only when bits 1..upTo-1 agree. */
  lemma {:induction false} SaversBelowDetermineBits(m1: bv64, m2: bv64, upTo: nat)
    requires 1 <= upTo <= 8 && SaversBelow(m1, upTo) == SaversBelow(m2, upTo)
    ensures forall bit :: 1 <= bit < upTo ==> (HasBit(m1, bit) <==> HasBit(m2, bit))
  {
    if upTo > 1 {
      var b := upTo - 1;
      SaversBelowTopBit(m1, m2, upTo);
      SaversBelowDropTop(m1, m2, upTo);
      SaversBelowDetermineBits(m1, m2, b);
      forall bit | 1 <= bit < upTo
        ensures HasBit(m1, bit) <==> HasBit(m2, bit)
      {
        if bit == b {
          assert HasBit(m1, b) == HasBit(m2, b);
        }
      }
    }
  }

  /** Equal name lists that agree on their highest bit agree below it. */
  lemma SaversBelowDropTop(m1: bv64, m2: bv64, upTo: nat)
    requires 2 <= upTo <= 8 && SaversBelow(m1, upTo) == SaversBelow(m2, upTo)
    requires HasBit(m1, upTo - 1) == HasBit(m2, upTo - 1)
    ensures SaversBelow(m1, upTo - 1) == SaversBelow(m2, upTo - 1)
  {
    var b := upTo - 1;
    var tail: seq<string> := if HasBit(m1, b) then [SaverName(b)] else [];
    var t := SaversBelow(m1, upTo);
    var l1, l2 := SaversBelow(m1, b), SaversBelow(m2, b);
    assert t == l1 + tail && t == l2 + tail;
    assert l1 == t[..|t| - |tail|];
    assert l2 == t[..|t| - |tail|];
  }

  /** Equal name lists agree on the highest bit they cover. */
  lemma SaversBelowTopBit(m1: bv64, m2: bv64, upTo: nat)
    requires 2 <= upTo <= 8 && SaversBelow(m1, upTo) == SaversBelow(m2, upTo)
    ensures HasBit(m1, upTo - 1) == HasBit(m2, upTo - 1)
  {
    if HasBit(m1, upTo - 1) && !HasBit(m2, upTo - 1) {
      SaversBelowLast(m2, upTo, m1);
    } else if HasBit(m2, upTo - 1) && !HasBit(m1, upTo - 1) {
      SaversBelowLast(m1, upTo, m2);
    }
  }

  /** A list without the name of bit upTo-1 cannot equal one that ends in it. */
  lemma SaversBelowLast(m: bv64, upTo: nat, other: bv64)
    requires 2 <= upTo <= 8 && HasBit(other, upTo - 1) && !HasBit(m, upTo - 1)
    ensures SaversBelow(m, upTo) != SaversBelow(other, upTo)
  {
    var b := upTo - 1;
    var l := SaversBelow(m, upTo);
    assert l == SaversBelow(m, b);
    if l == SaversBelow(other, upTo) {
      assert l[|l| - 1] == SaverName(b);
      SaversBelowNames(m, b, |l| - 1);
      var bit :| 1 <= bit < b && HasBit(m, bit) && l[|l| - 1] == SaverName(bit);
      SaverNameInjective(bit, b);
    }
  }

  /** No names are listed below upTo exactly when no bit below upTo is set. */
  lemma {:induction false} SaversBelowEmpty(msk: bv64, upTo: nat)
    requires 1 <= upTo <= 8
    ensures SaversBelow(msk, upTo) == [] <==> forall bit :: 1 <= bit < upTo ==> !HasBit(msk, bit)
  {
    if upTo > 1 {
      SaversBelowEmpty(msk, upTo - 1);
    }
  }

  /** The list is empty exactly when none of bits 1..7 is set. */
  lemma SupportedSaversEmpty(msk: bv64)
    ensures SupportedSavers(msk) == "" <==> forall bit :: 1 <= bit <= 7 ==> !HasBit(msk, bit)
  {
    var names := SaversBelow(msk, 8);
    if |names| > 0 {
      SaversBelowNames(msk, 8, 0);
    }
    SaversBelowEmpty(msk, 8);
  }
  /** The listed text determines bits 1..7 of the mask: splitting it at ", "
      gives back the names, and the names give back the bits. */
  lemma SupportedSaversDetermineBits(m1: bv64, m2: bv64)
    requires SupportedSavers(m1) == SupportedSavers(m2)
    ensures forall bit :: 1 <= bit <= 7 ==> (HasBit(m1, bit) <==> HasBit(m2, bit))
  {
    var n1, n2 := SaversBelow(m1, 8), SaversBelow(m2, 8);
    SupportedSaversEmpty(m1);
    SupportedSaversEmpty(m2);
    SaversBelowEmpty(m1, 8);
    SaversBelowEmpty(m2, 8);
    if |n1| > 0 && |n2| > 0 {
      forall i | 0 <= i < |n1| ensures ',' !in n1[i] {
        SaversBelowNames(m1, 8, i);
      }
      forall i | 0 <= i < |n2| ensures ',' !in n2[i] {
        SaversBelowNames(m2, 8, i);
      }
      SplitJoin(n1, ", ");
      SplitJoin(n2, ", ");
      SaversBelowDetermineBits(m1, m2, 8);
    }
  }

  /** Masks that agree on bits 1..upTo-1 list the same names below upTo. */
  lemma {:induction false} SaversBelowAgree(m1: bv64, m2: bv64, upTo: nat)
    requires 1 <= upTo <= 8
    requires forall bit :: 1 <= bit < upTo ==> (HasBit(m1, bit) <==> HasBit(m2, bit))
    ensures SaversBelow(m1, upTo) == SaversBelow(m2, upTo)
  {
    if upTo > 1 {
      SaversBelowAgree(m1, m2, upTo - 1);
    }
  }

  /** Only bits 1..7 are examined: bit 0 and the bits above 7 never change the text. */
  lemma SupportedSaversIgnoresOtherBits(m1: bv64, m2: bv64)
    requires m1 & 0xFE == m2 & 0xFE
    ensures SupportedSavers(m1) == SupportedSavers(m2)
  {
    forall bit: nat | 1 <= bit <= 7
      ensures HasBit(m1, bit) <==> HasBit(m2, bit)
    {
      assert m1 & (1 << bit) == (m1 & 0xFE) & (1 << bit);
      assert m2 & (1 << bit) == (m2 & 0xFE) & (1 << bit);
    }
    SaversBelowAgree(m1, m2, 8);
  }

  /** Bits 1 and 3 set: the JPEG and WebP savers, in bit order. */
  lemma SupportedSaversExample()
    ensures SupportedSavers(0x0A) == "jpg, webp"
  {
    var m: bv64 := 0x0A;
    assert HasBit(m, 1) && !HasBit(m, 2) && HasBit(m, 3);
    assert !HasBit(m, 4) && !HasBit(m, 5) && !HasBit(m, 6) && !HasBit(m, 7);
    assert SaversBelow(m, 4) == ["jpg", "webp"];
    assert SaversBelow(m, 8) == ["jpg", "webp"];
    assert Join(["jpg", "webp"], ", ") == "jpg" + ", " + "webp";
  }

  /** Only bit 0 set: nothing is listed. */
  lemma SupportedSaversBitZeroOnly()
    ensures SupportedSavers(0x01) == ""
  {
    forall bit: nat | 1 <= bit <= 7 ensures !HasBit(0x01, bit) {
      assert (0x01 as bv64) & (1 << bit) == 0;
    }
    SupportedSaversEmpty(0x01);
  }
}
