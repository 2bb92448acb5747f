/** The read-side facts about a decoded image and the one-line JSON
    document that describes it. The image is abstracted to the values the
    backend reports for it: its size and band count, the nicknames of its
    interpretation and band format, its alpha flag, and the metadata tags
    the description reads, each one absent or present with its value. */
module Metadata {
  import opened Wrappers
  import opened Text
  import opened Formats

  /** libvips' colour interpretations (VipsInterpretation). */
  datatype Interpretation =
    | Error | Multiband | BW | Histogram | Xyz | Lab | Cmyk | Labq | Rgb | Cmc
    | Lch | Labs | Srgb | Yxy | Fourier | Rgb16 | Grey16 | Matrix | Scrgb | Hsv

  /** Are the pixel values of an image with this interpretation 16-bit
      integers? Only the two 16-bit interpretations are: 8-bit sRGB and RGB,
      float scRGB and the rest are not. */
  predicate Is16Bit(interpretation: Interpretation)
    ensures Is16Bit(interpretation) <==> interpretation in {Rgb16, Grey16}
    ensures interpretation in {Srgb, Rgb, Scrgb, BW, Cmyk, Lab} ==> !Is16Bit(interpretation)
  {
    interpretation == Rgb16 || interpretation == Grey16
  }

  /** A decoded image, as the description sees it. */
  datatype Image = Image(
    width: int,
    height: int,
    bands: int,
    space: string,                    // nickname of the interpretation
    depth: string,                    // nickname of the band format
    hasAlpha: bool,                   // the backend's alpha test
    density: Option<int>,             // pixels per inch, present when the resolution is above 1
    chromaSubsample: Option<string>,  // tag "jpeg-chroma-subsample"
    interlaced: Option<int>,          // tag "interlaced"
    paletteBitDepth: Option<int>,     // tag "palette-bit-depth"
    nPages: Option<int>,              // tag "n-pages"
    pageHeight: Option<int>,          // tag "page-height"
    loop: Option<int>,                // tag "loop"
    delay: Option<seq<int>>,          // tag "delay"
    heifPrimary: Option<int>,         // tag "heif-primary"
    iccProfile: Option<seq<bv8>>,     // tag "icc-profile-data"
    orientation: Option<int>)         // tag "orientation"

  /** Does the image carry an embedded colour profile? */
  function HasProfile(image: Image): (r: bool)
    ensures r <==> image.iccProfile.Some?
  {
    match image.iccProfile
    case Some(_) => true
    case None => false
  }

  /** The EXIF orientation: the tag's value, or 0 (never a real orientation)
      when the image has none. */
  function ExifOrientation(image: Image): (r: int)
    ensures image.orientation.None? ==> r == 0
    ensures image.orientation.Some? ==> r == image.orientation.value
  {
    image.orientation.GetOr(0)
  }

  // ---------------------------------------------------------------------
  // The descriptive document

  /** The JSON values the document holds. */
  datatype JsonValue = JInt(n: int) | JString(s: string) | JBool(b: bool) | JIntArray(items: seq<int>)

  /** One member of the document. */
  datatype Field = Field(key: string, value: JsonValue)

  /** A key of the fixed key order with its value, when the image has one. */
  datatype Entry = Entry(key: string, value: Option<JsonValue>)

  /** The keys of the document, in the only order they may appear. */
  const KeyOrder: seq<string> := [
    "format", "width", "height", "space", "channels", "depth", "density",
    "chromaSubsampling", "isProgressive", "paletteBitDepth", "pages",
    "pageHeight", "loop", "delay", "pagePrimary", "hasProfile", "hasAlpha",
    "orientation"]

  function FieldKeys(fields: seq<Field>): seq<string> {
    seq(|fields|, i requires 0 <= i < |fields| => fields[i].key)
  }

  function EntryKeys(entries: seq<Entry>): seq<string> {
    seq(|entries|, i requires 0 <= i < |entries| => entries[i].key)
  }

  function IntValue(x: Option<int>): Option<JsonValue> {
    match x
    case Some(n) => Some(JInt(n))
    case None => None
  }

  function StringValue(x: Option<string>): Option<JsonValue> {
    match x
    case Some(s) => Some(JString(s))
    case None => None
  }

  function ArrayValue(x: Option<seq<int>>): Option<JsonValue> {
    match x
    case Some(ds) => Some(JIntArray(ds))
    case None => None
  }

  /** The entries every image has: its format, size, band count,
      interpretation and band format. */
  function ImageEntries(image: Image, imageType: ImageType): seq<Entry> {
    [ Entry("format", Some(JString(ImageTypeId(imageType)))),
      Entry("width", Some(JInt(image.width))),
      Entry("height", Some(JInt(image.height))),
      Entry("space", Some(JString(image.space))),
      Entry("channels", Some(JInt(image.bands))),
      Entry("depth", Some(JString(image.depth))) ]
  }

  /** The entries about how the image was encoded: density, chroma
      subsampling and palette depth when known, and the progressive flag. */
  function EncodingEntries(image: Image): seq<Entry> {
    [ Entry("density", IntValue(image.density)),
      Entry("chromaSubsampling", StringValue(image.chromaSubsample)),
      Entry("isProgressive", Some(JBool(image.interlaced.Some?))),
      Entry("paletteBitDepth", IntValue(image.paletteBitDepth)) ]
  }

  /** The entries about the pages of a multi-page image, each when its tag is present. */
  function PageEntries(image: Image): seq<Entry> {
    [ Entry("pages", IntValue(image.nPages)),
      Entry("pageHeight", IntValue(image.pageHeight)),
      Entry("loop", IntValue(image.loop)),
      Entry("delay", ArrayValue(image.delay)),
      Entry("pagePrimary", IntValue(image.heifPrimary)) ]
  }

  /** The two flags: an embedded profile, an alpha channel. */
  function FlagEntries(image: Image): seq<Entry> {
    [ Entry("hasProfile", Some(JBool(HasProfile(image)))),
      Entry("hasAlpha", Some(JBool(image.hasAlpha))) ]
  }

  /** The last entry, always present. */
  function OrientationEntry(image: Image): Entry {
    Entry("orientation", Some(JInt(ExifOrientation(image))))
  }

  /** Every key of the document for this image, in order, each with the
      value written for it or None when its tag is absent. */
  function Entries(image: Image, imageType: ImageType): seq<Entry> {
    ImageEntries(image, imageType) + EncodingEntries(image) + PageEntries(image)
      + FlagEntries(image) + [OrientationEntry(image)]
  }

  /** The entries follow the key order, one for each key. */
  lemma EntriesFollowKeyOrder(image: Image, imageType: ImageType)
    ensures EntryKeys(Entries(image, imageType)) == KeyOrder
  {
    var e := Entries(image, imageType);
    assert |e| == |KeyOrder|;
    forall i | 0 <= i < |e|
      ensures e[i].key == KeyOrder[i]
    {
    }
  }

  /** The member an entry contributes: one when its value is present. */
  function Keep(e: Entry): seq<Field> {
    match e.value
    case Some(v) => [Field(e.key, v)]
    case None => []
  }

  /** The present entries, in their order. */
  function Present(entries: seq<Entry>): seq<Field> {
    if |entries| == 0 then [] else Present(entries[..|entries| - 1]) + Keep(entries[|entries| - 1])
  }

  /** The description of an image: its present entries in the fixed order. */
  function Document(image: Image, imageType: ImageType): seq<Field> {
    Present(Entries(image, imageType))
  }

  // ---------------------------------------------------------------------
  // Rendering

  /** The integers as decimal strings. */
  function IntStrings(xs: seq<int>): (r: seq<string>)
    ensures |r| == |xs| && forall i :: 0 <= i < |xs| ==> r[i] == IntToString(xs[i])
  {
    seq(|xs|, i requires 0 <= i < |xs| => IntToString(xs[i]))
  }

  /** A value as it is written: numbers in decimal, strings between quotes
      (not escaped), booleans as words, arrays as comma-joined numbers in brackets. */
  function RenderValue(v: JsonValue): string {
    match v
    case JInt(n) => IntToString(n)
    case JString(s) => "\"" + s + "\""
    case JBool(b) => if b then "true" else "false"
    case JIntArray(items) => "[" + Join(IntStrings(items), ",") + "]"
  }

  /** A member: the quoted key, a colon, the value text. */
  function Member(key: string, text: string): string {
    "\"" + key + "\":" + text
  }

  function RenderFields(fields: seq<Field>): (r: seq<string>)
    ensures |r| == |fields|
  {
    seq(|fields|, i requires 0 <= i < |fields| => Member(fields[i].key, RenderValue(fields[i].value)))
  }

  /** The document on one line: members separated by commas between braces. */
  function Render(fields: seq<Field>): (r: string)
    ensures |r| >= 2 && r[0] == '{' && r[|r| - 1] == '}'
  {
    "{" + Join(RenderFields(fields), ",") + "}"
  }

  /** The text an entry adds to the stream: its member and a comma when its
      value is present, nothing otherwise. */
  function Contribution(e: Entry): string {
    match e.value
    case Some(v) => Member(e.key, RenderValue(v)) + ","
    case None => ""
  }

  /** The members of the present entries, each followed by its comma: what
      the stream receives for a run of entries. */
  function Listed(entries: seq<Entry>): string {
    Terminated(RenderFields(Present(entries)), ",")
  }

  /** Rendering one more field appends its member. */
  lemma RenderFieldsSnoc(fields: seq<Field>, f: Field)
    ensures RenderFields(fields + [f]) == RenderFields(fields) + [Member(f.key, RenderValue(f.value))]
  {
    var l, r := RenderFields(fields + [f]), RenderFields(fields) + [Member(f.key, RenderValue(f.value))];
    forall i | 0 <= i < |l|
      ensures l[i] == r[i]
    {
      if i < |fields| {
        assert (fields + [f])[i] == fields[i];
      }
    }
  }

  /** The present entries of a run with one more entry. */
  lemma PresentSnoc(entries: seq<Entry>, e: Entry)
    ensures Present(entries + [e]) == Present(entries) + Keep(e)
  {
    var s := entries + [e];
    assert s[..|s| - 1] == entries;
  }

  /** Streaming one more entry appends its contribution. */
  lemma {:induction false} ListedSnoc(entries: seq<Entry>, e: Entry)
    ensures Listed(entries + [e]) == Listed(entries) + Contribution(e)
  {
    var before := Present(entries);
    PresentSnoc(entries, e);
    match e.value
    case Some(v) =>
      var m := Member(e.key, RenderValue(v));
      assert Keep(e) == [Field(e.key, v)];
      RenderFieldsSnoc(before, Field(e.key, v));
      TerminatedSnoc(RenderFields(before), m, ",");
    case None =>
      assert before + Keep(e) == before;
  }

  /** Regrouping a concatenation; spelled out only so that the proofs that
      use it state which grouping they need. */
  lemma ConcatAssociates(x: string, y: string, z: string)
    ensures x + y + z == x + (y + z)
  {
  }

  /** No entries, no text. */
  lemma ListedEmpty()
    ensures Listed([]) == ""
  {
    assert RenderFields([]) == [];
  }

  /** Streaming two runs of entries one after the other. */
  lemma {:induction false} ListedAppend(a: seq<Entry>, b: seq<Entry>)
    ensures Listed(a + b) == Listed(a) + Listed(b)
    decreases |b|
  {
    if |b| == 0 {
      assert a + b == a;
      ListedEmpty();
    } else {
      var b', e := b[..|b| - 1], b[|b| - 1];
      assert b == b' + [e];
      assert a + b == (a + b') + [e];
      ListedSnoc(a + b', e);
      ListedAppend(a, b');
      ListedSnoc(b', e);
      ConcatAssociates(Listed(a), Listed(b'), Contribution(e));
    }
  }

  /** A last entry that is present, written without a comma after the others,
      closes the document. */
  lemma {:induction false} ListedClose(before: seq<Entry>, last: Entry, v: JsonValue)
    requires last.value == Some(v)
    ensures "{" + Listed(before) + Member(last.key, RenderValue(v)) + "}"
         == Render(Present(before + [last]))
  {
    var fields := Present(before);
    var m := Member(last.key, RenderValue(v));
    PresentSnoc(before, last);
    assert Keep(last) == [Field(last.key, v)];
    RenderFieldsSnoc(fields, Field(last.key, v));
    TerminatedThenLast(RenderFields(fields), m, ",");
  }

  /** Short runs of entries, streamed one by one. */
  lemma {:induction false} ListedOfOne(a: Entry)
    ensures Listed([a]) == Contribution(a)
  {
    var none: seq<Entry> := [];
    ListedEmpty();
    ListedSnoc(none, a);
    assert none + [a] == [a];
  }

  lemma {:induction false} ListedOfTwo(a: Entry, b: Entry)
    ensures Listed([a, b]) == Contribution(a) + Contribution(b)
  {
    var one := [a];
    ListedOfOne(a);
    ListedSnoc(one, b);
    assert one + [b] == [a, b];
  }

  lemma {:induction false} ListedOfFour(a: Entry, b: Entry, c: Entry, d: Entry)
    ensures Listed([a, b, c, d]) == Contribution(a) + Contribution(b) + Contribution(c) + Contribution(d)
  {
    ListedOfTwo(a, b);
    ListedSnoc([a, b], c);
    assert [a, b] + [c] == [a, b, c];
    ListedSnoc([a, b, c], d);
    assert [a, b, c] + [d] == [a, b, c, d];
  }

  lemma {:induction false} ListedOfFive(a: Entry, b: Entry, c: Entry, d: Entry, e: Entry)
    ensures Listed([a, b, c, d, e])
         == Contribution(a) + Contribution(b) + Contribution(c) + Contribution(d) + Contribution(e)
  {
    ListedOfFour(a, b, c, d);
    ListedSnoc([a, b, c, d], e);
    assert [a, b, c, d] + [e] == [a, b, c, d, e];
  }

  lemma {:induction false} ListedOfSix(a: Entry, b: Entry, c: Entry, d: Entry, e: Entry, f: Entry)
    ensures Listed([a, b, c, d, e, f])
         == Contribution(a) + Contribution(b) + Contribution(c) + Contribution(d) + Contribution(e) + Contribution(f)
  {
    ListedOfFive(a, b, c, d, e);
    ListedSnoc([a, b, c, d, e], f);
    assert [a, b, c, d, e] + [f] == [a, b, c, d, e, f];
  }

  /** Rendering one more integer appends its decimal string. */
  lemma IntStringsSnoc(xs: seq<int>, x: int)
    ensures IntStrings(xs + [x]) == IntStrings(xs) + [IntToString(x)]
  {
    var l, r := IntStrings(xs + [x]), IntStrings(xs) + [IntToString(x)];
    assert |l| == |r|;
    forall i | 0 <= i < |l|
      ensures l[i] == r[i]
    {
      if i < |xs| {
        assert (xs + [x])[i] == xs[i];
      }
    }
  }

  /** The delay array: each number followed by a comma except the last. */
  method WriteDelays(delays: seq<int>) returns (text: string)
    ensures text == Join(IntStrings(delays), ",")
  {
    text := "";
    for i := 0 to |delays|
      invariant i < |delays| ==> text == Terminated(IntStrings(delays[..i]), ",")
      invariant i == |delays| ==> text == Join(IntStrings(delays), ",")
    {
      ghost var done := IntStrings(delays[..i]);
      var item := IntToString(delays[i]);
      IntStringsPrefix(delays, i);
      text := text + item;
      if i != |delays| - 1 {
        text := text + ",";
        TerminatedSnoc(done, item, ",");
      } else {
        TerminatedThenLast(done, item, ",");
        assert delays[..i + 1] == delays;
      }
    }
  }

  /** The decimal strings of one more delay. */
  lemma IntStringsPrefix(delays: seq<int>, i: nat)
    requires i < |delays|
    ensures IntStrings(delays[..i + 1]) == IntStrings(delays[..i]) + [IntToString(delays[i])]
  {
    assert delays[..i + 1] == delays[..i] + [delays[i]];
    IntStringsSnoc(delays[..i], delays[i]);
  }

  // What each entry adds to the stream, group by group.

  lemma ImageContributions(image: Image, imageType: ImageType)
    ensures var e := ImageEntries(image, imageType);
      && Contribution(e[0]) == Member("format", "\"" + ImageTypeId(imageType) + "\"") + ","
      && Contribution(e[1]) == Member("width", IntToString(image.width)) + ","
      && Contribution(e[2]) == Member("height", IntToString(image.height)) + ","
      && Contribution(e[3]) == Member("space", "\"" + image.space + "\"") + ","
      && Contribution(e[4]) == Member("channels", IntToString(image.bands)) + ","
      && Contribution(e[5]) == Member("depth", "\"" + image.depth + "\"") + ","
  {
  }

  lemma FlagContributions(image: Image)
    ensures var e := FlagEntries(image);
      && Contribution(e[0]) == Member("hasProfile", if HasProfile(image) then "true" else "false") + ","
      && Contribution(e[1]) == Member("hasAlpha", if image.hasAlpha then "true" else "false") + ","
  {
  }

  /** Streams the format and what every image has: size, band count,
      interpretation and band format. */
  method WriteImageFields(image: Image, imageType: ImageType) returns (text: string)
    ensures text == Listed(ImageEntries(image, imageType))
  {
    text := Member("format", "\"" + ImageTypeId(imageType) + "\"") + ",";
    text := text + (Member("width", IntToString(image.width)) + ",");
    text := text + (Member("height", IntToString(image.height)) + ",");
    text := text + (Member("space", "\"" + image.space + "\"") + ",");
    text := text + (Member("channels", IntToString(image.bands)) + ",");
    text := text + (Member("depth", "\"" + image.depth + "\"") + ",");
    ghost var e := ImageEntries(image, imageType);
    ImageContributions(image, imageType);
    ListedOfSix(e[0], e[1], e[2], e[3], e[4], e[5]);
  }

  /** One optional integer member: written, with its comma, only when its
      tag is present. */
  method WriteOptionalInt(key: string, x: Option<int>) returns (text: string)
    ensures text == Contribution(Entry(key, IntValue(x)))
  {
    text := "";
    if x.Some? {
      text := Member(key, IntToString(x.value)) + ",";
    }
  }

  /** One optional string member, between quotes. */
  method WriteOptionalString(key: string, x: Option<string>) returns (text: string)
    ensures text == Contribution(Entry(key, StringValue(x)))
  {
    text := "";
    if x.Some? {
      text := Member(key, "\"" + x.value + "\"") + ",";
    }
  }

  /** The optional delay member: the numbers between brackets. */
  method WriteOptionalArray(key: string, x: Option<seq<int>>) returns (text: string)
    ensures text == Contribution(Entry(key, ArrayValue(x)))
  {
    text := "";
    if x.Some? {
      var delays := WriteDelays(x.value);
      text := Member(key, "[" + delays + "]") + ",";
    }
  }

  /** Streams the density and the chroma subsampling when known, the
      progressive flag, and the palette depth when known. */
  method WriteEncodingFields(image: Image) returns (text: string)
    ensures text == Listed(EncodingEntries(image))
  {
    var density := WriteOptionalInt("density", image.density);
    var chroma := WriteOptionalString("chromaSubsampling", image.chromaSubsample);
    var progressive := Member("isProgressive", if image.interlaced.Some? then "true" else "false") + ",";
    var palette := WriteOptionalInt("paletteBitDepth", image.paletteBitDepth);
    text := density + chroma + progressive + palette;
    ghost var e := EncodingEntries(image);
    assert progressive == Contribution(e[2]);
    ListedOfFour(e[0], e[1], e[2], e[3]);
  }

  /** Streams the page count, page height, loop count, delays and primary
      page, each when its tag is present. */
  method WritePageFields(image: Image) returns (text: string)
    ensures text == Listed(PageEntries(image))
  {
    var pages := WriteOptionalInt("pages", image.nPages);
    var pageHeight := WriteOptionalInt("pageHeight", image.pageHeight);
    var loop := WriteOptionalInt("loop", image.loop);
    var delay := WriteOptionalArray("delay", image.delay);
    var primary := WriteOptionalInt("pagePrimary", image.heifPrimary);
    text := pages + pageHeight + loop + delay + primary;
    ghost var e := PageEntries(image);
    ListedOfFive(e[0], e[1], e[2], e[3], e[4]);
  }

  /** Streams the profile and alpha flags. */
  method WriteFlags(image: Image) returns (text: string)
    ensures text == Listed(FlagEntries(image))
  {
    text := Member("hasProfile", if HasProfile(image) then "true" else "false") + ",";
    text := text + (Member("hasAlpha", if image.hasAlpha then "true" else "false") + ",");
    ghost var e := FlagEntries(image);
    FlagContributions(image);
    ListedOfTwo(e[0], e[1]);
  }

  /** image_to_json: the members streamed one after the other, each
      optional one only when its tag is present. */
  method ImageToJson(image: Image, imageType: ImageType) returns (json: string)
    ensures json == Render(Document(image, imageType))
  {
    json := "{";
    var fields := WriteImageFields(image, imageType);
    json := json + fields;
    var encoding := WriteEncodingFields(image);
    json := json + encoding;
    var pages := WritePageFields(image);
    json := json + pages;
    var flags := WriteFlags(image);
    json := json + flags;
    json := json + Member("orientation", IntToString(ExifOrientation(image))) + "}";

    ghost var i, e, p, f := ImageEntries(image, imageType), EncodingEntries(image), PageEntries(image), FlagEntries(image);
    ListedAppend(i, e);
    ListedAppend(i + e, p);
    ListedAppend(i + e + p, f);
    ConcatAssociates("{", fields, encoding);
    ConcatAssociates("{", fields + encoding, pages);
    ConcatAssociates("{", fields + encoding + pages, flags);
    assert "{" + Listed(i + e + p + f) + Member("orientation", IntToString(ExifOrientation(image))) + "}" == json;
    ListedClose(i + e + p + f, OrientationEntry(image), JInt(ExifOrientation(image)));
  }

  // ---------------------------------------------------------------------
  // Properties of the document

  /** idx picks, in increasing order, the positions of ys that hold the
      elements of xs: xs is ys with some elements left out. */
  predicate Embeds(xs: seq<string>, ys: seq<string>, idx: seq<nat>) {
    && |idx| == |xs|
    && (forall j :: 0 <= j < |idx| ==> idx[j] < |ys| && xs[j] == ys[idx[j]])
    && (forall j, j' :: 0 <= j < j' < |idx| ==> idx[j] < idx[j'])
  }

  /** The keys of the present entries keep the entries' order. */
  lemma {:induction false} PresentKeysEmbed(entries: seq<Entry>) returns (idx: seq<nat>)
    ensures Embeds(FieldKeys(Present(entries)), EntryKeys(entries), idx)
  {
    if |entries| == 0 {
      idx := [];
    } else {
      var n := |entries|;
      var before := entries[..n - 1];
      var idx' := PresentKeysEmbed(before);
      assert forall i :: 0 <= i < n - 1 ==> EntryKeys(entries)[i] == EntryKeys(before)[i];
      match entries[n - 1].value
      case Some(v) =>
        assert FieldKeys(Present(entries)) == FieldKeys(Present(before)) + [entries[n - 1].key];
        idx := idx' + [n - 1];
      case None =>
        assert Present(entries) == Present(before);
        idx := idx';
    }
  }

  /** Which keys the fields hold, with no key twice. */
  predicate DistinctKeys(keys: seq<string>) {
    forall a, b :: 0 <= a < b < |keys| ==> keys[a] != keys[b]
  }

  /** Equal keys of a distinct sequence sit at the same position. Only a proof
      step: called with int positions, it keeps KeyPresentIff and
      ListedKeyIsOwnEntry free of case splits. */
  lemma DistinctSame(keys: seq<string>, a: int, b: int)
    requires DistinctKeys(keys) && 0 <= a < |keys| && 0 <= b < |keys| && keys[a] == keys[b]
    ensures a == b
  {
  }

  /** The keys of the present entries are keys of entries whose value is present. */
  lemma {:induction false} PresentKeysComeFromPresent(entries: seq<Entry>, k: string)
    requires k in FieldKeys(Present(entries))
    ensures exists i :: 0 <= i < |entries| && entries[i].key == k && entries[i].value.Some?
  {
    var n := |entries|;
    var before := entries[..n - 1];
    match entries[n - 1].value
    case Some(v) =>
      assert FieldKeys(Present(entries)) == FieldKeys(Present(before)) + [entries[n - 1].key];
      if k != entries[n - 1].key {
        PresentKeysComeFromPresent(before, k);
        var i :| 0 <= i < |before| && before[i].key == k && before[i].value.Some?;
        assert entries[i] == before[i];
      }
    case None =>
      assert Present(entries) == Present(before);
      PresentKeysComeFromPresent(before, k);
      var i :| 0 <= i < |before| && before[i].key == k && before[i].value.Some?;
      assert entries[i] == before[i];
  }

  /** With distinct keys, an entry's key is in the document exactly when its
      value is present. */
  lemma KeyPresentIff(entries: seq<Entry>, i: nat)
    requires DistinctKeys(EntryKeys(entries)) && i < |entries|
    ensures entries[i].key in FieldKeys(Present(entries)) <==> entries[i].value.Some?
  {
    if entries[i].value.Some? {
      PresentEntryKeyListed(entries, i);
    } else if entries[i].key in FieldKeys(Present(entries)) {
      ListedKeyIsOwnEntry(entries, i);
      assert false;
    }
  }

  /** With distinct keys, an entry whose key is among the document's keys
      is the entry that put it there. */
  lemma ListedKeyIsOwnEntry(entries: seq<Entry>, i: nat)
    requires DistinctKeys(EntryKeys(entries)) && i < |entries|
    requires entries[i].key in FieldKeys(Present(entries))
    ensures entries[i].value.Some?
  {
    PresentKeysComeFromPresent(entries, entries[i].key);
    var j :| 0 <= j < |entries| && entries[j].key == entries[i].key && entries[j].value.Some?;
    assert EntryKeys(entries)[j] == EntryKeys(entries)[i];
    DistinctSame(EntryKeys(entries), j, i);
  }

  /** The key of an entry whose value is present is among the document's keys. */
  lemma {:induction false} PresentEntryKeyListed(entries: seq<Entry>, i: nat)
    requires i < |entries| && entries[i].value.Some?
    ensures entries[i].key in FieldKeys(Present(entries))
  {
    var n := |entries|;
    var before, last := entries[..n - 1], entries[n - 1];
    assert entries == before + [last];
    PresentSnoc(before, last);
    FieldKeysAppend(Present(before), Keep(last));
    if i < n - 1 {
      assert entries[i] == before[i];
      PresentEntryKeyListed(before, i);
    } else {
      assert FieldKeys(Keep(last)) == [last.key];
    }
  }

  /** The keys of two runs of fields, one after the other. */
  lemma FieldKeysAppend(a: seq<Field>, b: seq<Field>)
    ensures FieldKeys(a + b) == FieldKeys(a) + FieldKeys(b)
  {
    var l, r := FieldKeys(a + b), FieldKeys(a) + FieldKeys(b);
    forall k | 0 <= k < |l|
      ensures l[k] == r[k]
    {
      if k < |a| {
        assert (a + b)[k] == a[k];
      } else {
        assert (a + b)[k] == b[k - |a|];
      }
    }
  }

  /** Each key of the key order differs from the keys before it. Only a proof
      step for KeyOrderDistinct: the empty branches give the solver one
      position b at a time, which keeps that proof cheap. */
  lemma EarlierKeysDiffer(b: nat)
    requires b < |KeyOrder|
    ensures forall a :: 0 <= a < b ==> KeyOrder[a] != KeyOrder[b]
  {
    if b == 0 {
    } else if b == 1 {
    } else if b == 2 {
    } else if b == 3 {
    } else if b == 4 {
    } else if b == 5 {
    } else if b == 6 {
    } else if b == 7 {
    } else if b == 8 {
    } else if b == 9 {
    } else if b == 10 {
    } else if b == 11 {
    } else if b == 12 {
    } else if b == 13 {
    } else if b == 14 {
    } else if b == 15 {
    } else if b == 16 {
    } else {
    }
  }

  /** No key of the key order repeats. */
  lemma KeyOrderDistinct()
    ensures DistinctKeys(KeyOrder)
  {
    forall a, b | 0 <= a < b < |KeyOrder|
      ensures KeyOrder[a] != KeyOrder[b]
    {
      EarlierKeysDiffer(b);
    }
  }

  /** The document's keys appear in the key order, whichever optional keys
      are present. */
  lemma DocumentKeysInOrder(image: Image, imageType: ImageType)
    ensures exists idx :: Embeds(FieldKeys(Document(image, imageType)), KeyOrder, idx)
  {
    EntriesFollowKeyOrder(image, imageType);
    var idx := PresentKeysEmbed(Entries(image, imageType));
    assert Embeds(FieldKeys(Document(image, imageType)), KeyOrder, idx);
  }

  /** KeyOrder[i] is in the document of this image exactly when the i-th
      entry has a value. */
  lemma DocumentHasKey(image: Image, imageType: ImageType, i: nat)
    requires i < |KeyOrder|
    ensures KeyOrder[i] in FieldKeys(Document(image, imageType)) <==> Entries(image, imageType)[i].value.Some?
  {
    EntriesFollowKeyOrder(image, imageType);
    KeyOrderDistinct();
    var e := Entries(image, imageType);
    assert EntryKeys(e)[i] == e[i].key;
    KeyPresentIff(e, i);
  }

  /** The density, chroma subsampling and palette depth keys are in the document exactly when the image reports them. */
  lemma OptionalEncodingKeys(image: Image, imageType: ImageType)
    ensures "density" in FieldKeys(Document(image, imageType)) <==> image.density.Some?
    ensures "chromaSubsampling" in FieldKeys(Document(image, imageType)) <==> image.chromaSubsample.Some?
    ensures "paletteBitDepth" in FieldKeys(Document(image, imageType)) <==> image.paletteBitDepth.Some?
  {
    DocumentHasKey(image, imageType, 6);
    DocumentHasKey(image, imageType, 7);
    DocumentHasKey(image, imageType, 9);
  }

  /** The page count, page height, loop, delay and primary page keys are in the document exactly when their tags are present. */
  lemma OptionalPageKeys(image: Image, imageType: ImageType)
    ensures "pages" in FieldKeys(Document(image, imageType)) <==> image.nPages.Some?
    ensures "pageHeight" in FieldKeys(Document(image, imageType)) <==> image.pageHeight.Some?
    ensures "loop" in FieldKeys(Document(image, imageType)) <==> image.loop.Some?
    ensures "delay" in FieldKeys(Document(image, imageType)) <==> image.delay.Some?
    ensures "pagePrimary" in FieldKeys(Document(image, imageType)) <==> image.heifPrimary.Some?
  {
    DocumentHasKey(image, imageType, 10);
    DocumentHasKey(image, imageType, 11);
    DocumentHasKey(image, imageType, 12);
    DocumentHasKey(image, imageType, 13);
    DocumentHasKey(image, imageType, 14);
  }

  /** The format and size keys are in every document. */
  lemma AlwaysPresentSizeKeys(image: Image, imageType: ImageType)
    ensures "format" in FieldKeys(Document(image, imageType))
    ensures "width" in FieldKeys(Document(image, imageType))
    ensures "height" in FieldKeys(Document(image, imageType))
  {
    DocumentHasKey(image, imageType, 0);
    DocumentHasKey(image, imageType, 1);
    DocumentHasKey(image, imageType, 2);
  }

  /** The interpretation, band count and band format keys are in every document. */
  lemma AlwaysPresentBandKeys(image: Image, imageType: ImageType)
    ensures "space" in FieldKeys(Document(image, imageType))
    ensures "channels" in FieldKeys(Document(image, imageType))
    ensures "depth" in FieldKeys(Document(image, imageType))
  {
    DocumentHasKey(image, imageType, 3);
    DocumentHasKey(image, imageType, 4);
    DocumentHasKey(image, imageType, 5);
  }

  /** The progressive flag, the profile and alpha flags and the orientation are in every document. */
  lemma AlwaysPresentFlagKeys(image: Image, imageType: ImageType)
    ensures "isProgressive" in FieldKeys(Document(image, imageType))
    ensures "hasProfile" in FieldKeys(Document(image, imageType))
    ensures "hasAlpha" in FieldKeys(Document(image, imageType))
    ensures "orientation" in FieldKeys(Document(image, imageType))
  {
    DocumentHasKey(image, imageType, 8);
    DocumentHasKey(image, imageType, 15);
    DocumentHasKey(image, imageType, 16);
    DocumentHasKey(image, imageType, 17);
  }

  /** The document ends with the orientation, 0 when the image has no
      orientation tag. */
  lemma DocumentEndsWithOrientation(image: Image, imageType: ImageType)
    ensures var d := Document(image, imageType);
      && |d| > 0
      && d[|d| - 1] == Field("orientation", JInt(ExifOrientation(image)))
      && (image.orientation.None? ==> d[|d| - 1].value == JInt(0))
  {
    var e := Entries(image, imageType);
    assert e[..|e| - 1] + [e[|e| - 1]] == e;
  }

  /** The delay text has no trailing comma: it ends with the last number's
      last digit. */
  lemma DelaysNoTrailingComma(delays: seq<int>)
    requires |delays| > 0
    ensures var text := Join(IntStrings(delays), ",");
      |text| > 0 && IsDigit(text[|text| - 1])
  {
    var parts := IntStrings(delays);
    var n := |parts|;
    assert parts == parts[..n - 1] + [parts[n - 1]];
    JoinSnoc(parts[..n - 1], parts[n - 1], ",");
    var last := IntToString(delays[n - 1]);
    assert IsDigit(last[|last| - 1]);
  }

  /** The delay text splits at its commas into one decimal number per
      delay, each reading back as that delay. */
  lemma DelaysReadBack(delays: seq<int>)
    requires |delays| > 0
    ensures var pieces := Split(Join(IntStrings(delays), ","), ",");
      && |pieces| == |delays|
      && forall i :: 0 <= i < |delays| ==> ParseInt(pieces[i]) == Some(delays[i])
  {
    var parts := IntStrings(delays);
    forall i | 0 <= i < |parts|
      ensures ',' !in parts[i]
    {
      assert parts[i] == IntToString(delays[i]);
    }
    SplitJoin(parts, ",");
    forall i | 0 <= i < |delays|
      ensures ParseInt(parts[i]) == Some(delays[i])
    {
      IntToStringParses(delays[i]);
    }
  }
}
