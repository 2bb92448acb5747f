# weserv image utilities, modelled in Dafny

This project models the helpers in the weserv image service's utility header
(`src/api/utils/utility.h`). The image pipeline calls these helpers to:

- recognise the source format of a decoded image from its libvips loader name;
- pick the output encoder, file extension and identifier for that format;
- look up whether the format can hold several pages or an alpha channel;
- list the enabled savers of a configuration bitmask;
- place an image inside a canvas at one of nine anchors;
- crop every page of a multi-page "filmstrip" image and stack the pages again;
- abort an image computation that runs past its time budget;
- escape strings for JSON;
- describe an image as a one-line JSON document.

The libvips image handle is abstracted to the values these helpers read:

- its size and band count;
- the nicknames of its interpretation and band format;
- its alpha flag;
- each metadata tag, absent or present with its value (`Option` fields).

Modules, one per file:

- `Wrappers` (wrappers.dfy): `Option`.
- `Text` (text.dfy): prefix tests, joining and splitting on a separator, and the decimal rendering of `std::ostream << int` with a parser that reads it back.
- `Formats` (formats.dfy): the format tables, loader recognition and the savers list. `SupportedSaversString` is the source's loop. It is proved equal to the reference `SupportedSavers`, which joins the names of the set bits in ascending order.
- `Placement` (position.dfy): `calculate_position`, with C++ truncating division written out as `TruncDiv`.
- `MultiPage` (crop.dfy): `crop_multi_page`. It is a method returning the result image and the extraction rectangles in the order they are requested. `extract_area` and `arrayjoin` are modelled on sizes.
- `Deadline` (governor.dfy): `setup_timeout_handler` and `image_eval_cb`.
  - The class `Governor` holds the budget cell, the handler registration, the progress switch, the image's kill flag and the recorded errors.
  - `Tick` is one eval notification.
  - The pure `Eval`/`EvalAll` functions give the same behaviour over sequences of notifications.
- `JsonEscape` (escape.dfy): `escape_string` as a loop. It is proved equal to the per-character `Escaped`, and `Unescape` is its proved inverse.
- `Metadata` (metadata.dfy): `is_16_bit`, `has_profile`, `exif_orientation` and `image_to_json`.
  - The document is specified as a list of present fields (`Document`) in a fixed key order, rendered by `Render`.
  - The streaming method `ImageToJson` is proved to produce exactly `Render(Document(...))`.
  - The member groups are streamed by group writers, and the delay array by the loop `WriteDelays`.

## Model

| member | source | states |
|---|---|---|
| Formats.ResolveAngleRotation | src/api/utils/utility.h:108-120 | 90, 180 and 270 resolve to the rotation of that many degrees; every other angle resolves to no rotation |
| Formats.ResolveAngleRotationOfDegrees | src/api/utils/utility.h:108-120 | every quarter-turn rotation is what its own degree count resolves to |
| Formats.DetermineImageExtension | src/api/utils/utility.h:129-147 | every extension is a dot followed by a lower-case name |
| Formats.ExtensionShape | src/api/utils/utility.h:129-147 | every extension is a dot and a non-empty name without a comma, and it identifies its output (`OutputOfExtension` inverts it) |
| Formats.ExtensionInjective | src/api/utils/utility.h:129-147 | distinct outputs have distinct extensions |
| Formats.ToOutput | src/api/utils/utility.h:227-243 | no source type is encoded as JSON, and exactly PNG, SVG, PDF, Magick and Unknown go to the PNG encoder |
| Formats.ToOutputTable | src/api/utils/utility.h:227-243 | JPEG, PNG, WebP, TIFF and GIF map to their own output; HEIF maps to AVIF; SVG, PDF, Magick and Unknown map to PNG; nothing maps to JSON |
| Formats.ImageTypeId | src/api/utils/utility.h:298-323 | every identifier is a non-empty lower-case word |
| Formats.ImageTypeIdRoundTrip | src/api/utils/utility.h:298-323 | the identifier of a source type reads back as that type; Unknown goes to "unknown" |
| Formats.ImageTypeIdInjective | src/api/utils/utility.h:298-323 | distinct source types have distinct identifiers |
| Formats.SupportMultiPages | src/api/utils/utility.h:330-334 | JPEG, PNG, SVG and Unknown are single-page; every other multi-page type but PDF and Magick goes to a multi-page output (WebP, AVIF, TIFF or GIF) |
| Formats.SupportAlphaChannel | src/api/utils/utility.h:341-345 | an alpha-capable type is never sent to the JPEG encoder; JPEG, SVG, PDF, Magick and Unknown carry no alpha |
| Formats.CapabilityTable | src/api/utils/utility.h:330-345 | the multi-page and alpha columns for each type: JPEG, SVG and Unknown have neither; PDF and Magick are multi-page without alpha; PNG has alpha without pages; WebP, TIFF, GIF and HEIF have both |
| Formats.DetermineImageType | src/api/utils/utility.h:259-291 | a known type is returned only when the loader name begins with that type's prefix |
| Formats.LoaderPrefixesUnrelated | src/api/utils/utility.h:259-291 | no loader prefix of the chain begins with another, so at most one test can match |
| Formats.DetermineImageTypeMatches | src/api/utils/utility.h:259-291 | a loader resolves to a known type exactly when its name starts with that type's prefix |
| Formats.DetermineImageTypeUnknown | src/api/utils/utility.h:259-291 | a loader resolves to Unknown exactly when no known prefix starts its name |
| Formats.DetermineImageTypeExamples | src/api/utils/utility.h:248-291 | JPEG and libnsgif GIF loader names are recognised; an unlisted loader and the pre-8.11 GIF loader name resolve to Unknown, as only one GIF prefix is compiled in |
| Formats.SaverName | src/api/utils/utility.h:160-162 | a saver's listed name is non-empty and contains no comma |
| Formats.SupportedSaversString | src/api/utils/utility.h:154-173 | the loop over bits 1 to 7 builds exactly the set bits' names in ascending bit order, joined by ", " with no leading or trailing separator |
| Formats.SaversBelowNames | src/api/utils/utility.h:157-169 | each listed name is the name of a set bit in the examined range |
| Formats.SupportedSaversEmpty | src/api/utils/utility.h:154-173 | the list is empty exactly when none of bits 1..7 is set |
| Formats.SupportedSaversDetermineBits | src/api/utils/utility.h:154-173 | two masks that produce the same text agree on each of bits 1..7 |
| Formats.SupportedSaversIgnoresOtherBits | src/api/utils/utility.h:157-159 | masks that agree on bits 1..7 give the same text: bit 0 and the bits above 7 are never examined |
| Formats.SupportedSaversExample | src/api/utils/utility.h:154-173 | bits 1 and 3 set give "jpg, webp" |
| Formats.SupportedSaversBitZeroOnly | src/api/utils/utility.h:157-159 | a mask with only bit 0 set lists nothing |
| Placement.TruncDiv | src/api/utils/utility.h:364 | the quotient truncates toward zero: the remainder has the sign of the dividend and is smaller than the divisor |
| Placement.CalculatePosition | src/api/utils/utility.h:357-397 | the nine anchors: each axis is 0, the truncated half of the free space, or all of it, by the anchor's column and row |
| Placement.CalculatePositionCorners | src/api/utils/utility.h:377-389 | TopLeft is (0, 0) and BottomRight is (outWidth - inWidth, outHeight - inHeight) |
| Placement.MiddleSplitsFreeSpace | src/api/utils/utility.h:390-393 | centring leaves two margins that differ by at most one pixel, the extra pixel on the far side, for positive and negative free space |
| Placement.CalculatePositionWithinCanvas | src/api/utils/utility.h:357-397 | when the canvas is at least as large as the image, left lies in [0, outWidth - inWidth] and top in [0, outHeight - inHeight] for every anchor |
| Placement.CalculatePositionExamples | src/api/utils/utility.h:357-397 | 50x50 in 100x100 gives (0,0), (25,25), (50,50) and (50,25) at TopLeft, Centre, BottomRight and Right; a negative odd free space truncates toward zero |
| MultiPage.ExtractArea | src/api/utils/utility.h:414 | the extraction succeeds exactly when the rectangle is non-empty and inside the image, and then has the rectangle's size |
| MultiPage.ArrayJoin | src/api/utils/utility.h:427-428 | joining one across fails exactly on an empty array; otherwise the image is as wide as one of the pages and no narrower than any, and its height is the page count times the tallest page |
| MultiPage.StackOfEqualPages | src/api/utils/utility.h:427-428 | stacking n pages of one size one across gives an image as wide as a page and n times as tall |
| MultiPage.PageRegionWithinPage | src/api/utils/utility.h:421-424 | a crop that fits one page, moved onto page k, lies between the rows where page k starts and ends, and inside the image |
| MultiPage.CropMultiPage | src/api/utils/utility.h:410-431 | fast path: one region (left, 0, width, image height). General path: region k is (left, pageHeight*k + top, width, height) in ascending order; the result exists exactly when all n_pages regions are inside the image, and is then width wide and n_pages*height tall; a failure is at the last region requested. On a filmstrip, a crop within one page always succeeds |
| Deadline.FirstOverdue | src/api/utils/utility.h:184 | the index of the first notification whose run time reaches the budget, or none when there is no such notification |
| Deadline.Eval | src/api/utils/utility.h:182-197 | one notification adds at most one error and removes none; it adds one exactly when a positive budget has run out; a kill is never undone, a trip zeroes the budget, and a budget that is not positive disarms the handler |
| Deadline.TrippedIsFinal | src/api/utils/utility.h:182-197 | once the budget cell is zero, no notification changes anything |
| Deadline.EvalAllTripsOnce | src/api/utils/utility.h:182-197 | from a positive budget, the governor trips exactly at the first overdue notification, then holds one error and a killed image; with no overdue notification nothing changes |
| Deadline.EvalAllExample | src/api/utils/utility.h:182-197 | a two-second budget: no trip at one second, one trip at two seconds, nothing more at three |
| Deadline.Governor.Setup | src/api/utils/utility.h:205-220 | only a positive time limit registers the handler and switches progress reporting on, with the limit as the budget; nothing is killed or recorded |
| Deadline.Governor.Tick | src/api/utils/utility.h:182-197 | a notification with a positive budget and run >= budget kills the image, records exactly one error and zeroes the budget; any other notification changes nothing, so at most one trip ever happens |
| JsonEscape.EscapeChar | src/api/utils/utility.h:539-561 | the six listed characters become a backslash sequence free of raw controls; every other character is copied as it is |
| JsonEscape.EscapeString | src/api/utils/utility.h:536-564 | the per-character loop produces exactly the escaped form of the input |
| JsonEscape.EscapedConcat | src/api/utils/utility.h:536-564 | escape(a + b) == escape(a) + escape(b) |
| JsonEscape.EscapedIdentity | src/api/utils/utility.h:560-561 | a string with none of the six characters, other control characters such as 0x02 included, is unchanged |
| JsonEscape.EscapedHasNoRawControls | src/api/utils/utility.h:539-552 | the output has no raw 0x00, 0x01, newline or 0x1F |
| JsonEscape.UnescapeChar | src/api/utils/utility.h:539-561 | each character's escape reads back as that character, whatever follows it |
| JsonEscape.UnescapeEscaped | src/api/utils/utility.h:536-564 | reading the escaped output back gives the input |
| JsonEscape.EscapedInjective | src/api/utils/utility.h:536-564 | distinct strings escape differently |
| JsonEscape.EscapeExamples | src/api/utils/utility.h:539-561 | a quote and a newline are escaped; 0x02 is copied |
| Metadata.Is16Bit | src/api/utils/utility.h:36-39 | exactly RGB16 and GREY16 are 16-bit; sRGB, RGB, scRGB, B-W, CMYK and Lab are not |
| Metadata.HasProfile | src/api/utils/utility.h:46-48 | true exactly when the ICC profile tag is present |
| Metadata.ExifOrientation | src/api/utils/utility.h:83-87 | the orientation tag's value, or 0 when the tag is absent |
| Metadata.EntriesFollowKeyOrder | src/api/utils/utility.h:475-526 | the candidate members come in the fixed order format, width, height, space, channels, depth, density, chromaSubsampling, isProgressive, paletteBitDepth, pages, pageHeight, loop, delay, pagePrimary, hasProfile, hasAlpha, orientation |
| Metadata.KeyOrderDistinct | src/api/utils/utility.h:475-526 | no key occurs twice in that order |
| Metadata.Render | src/api/utils/utility.h:475-526 | the document text starts with "{" and ends with "}" |
| Metadata.WriteDelays | src/api/utils/utility.h:511-518 | the delay loop writes the numbers joined by "," with no comma after the last |
| Metadata.WriteOptionalInt | src/api/utils/utility.h:498-500 | an optional integer member and its comma are written exactly when its tag is present |
| Metadata.WriteOptionalString | src/api/utils/utility.h:488-491 | the chroma subsampling member is quoted and written only when its tag is present |
| Metadata.WriteOptionalArray | src/api/utils/utility.h:508-519 | the delay member is the bracketed delay list, written only when the tag is present |
| Metadata.WriteImageFields | src/api/utils/utility.h:475-484 | the stream after format, width, height, space, channels and depth is exactly those members, each with its comma |
| Metadata.WriteEncodingFields | src/api/utils/utility.h:485-497 | density, chromaSubsampling and paletteBitDepth when present, with isProgressive always written between them, in that order |
| Metadata.WritePageFields | src/api/utils/utility.h:498-522 | pages, pageHeight, loop, delay and pagePrimary, each exactly when its tag is present, in that order |
| Metadata.WriteFlags | src/api/utils/utility.h:524-525 | hasProfile and hasAlpha, as true or false |
| Metadata.ImageToJson | src/api/utils/utility.h:472-529 | the streamed text is exactly the rendering of the image's document: its present members in the fixed order, comma-separated, between braces |
| Metadata.DocumentKeysInOrder | src/api/utils/utility.h:475-526 | the document's keys are a subsequence of the fixed order, at strictly increasing positions |
| Metadata.DocumentHasKey | src/api/utils/utility.h:475-526 | each key of the order is in the document exactly when its candidate value is present |
| Metadata.OptionalEncodingKeys | src/api/utils/utility.h:485-497 | density, chromaSubsampling and paletteBitDepth are in the document exactly when the image has them |
| Metadata.OptionalPageKeys | src/api/utils/utility.h:498-522 | pages, pageHeight, loop, delay and pagePrimary are in the document exactly when their tags are present |
| Metadata.AlwaysPresentSizeKeys | src/api/utils/utility.h:475-478 | format, width and height are in every document |
| Metadata.AlwaysPresentBandKeys | src/api/utils/utility.h:479-484 | space, channels and depth are in every document |
| Metadata.AlwaysPresentFlagKeys | src/api/utils/utility.h:492-526 | isProgressive, hasProfile, hasAlpha and orientation are in every document |
| Metadata.DocumentEndsWithOrientation | src/api/utils/utility.h:526 | the last member is orientation, and it is 0 when the tag is absent |
| Metadata.DelaysNoTrailingComma | src/api/utils/utility.h:511-518 | a non-empty delay list ends with a digit, never with a comma |
| Metadata.DelaysReadBack | src/api/utils/utility.h:511-518 | a non-empty delay list splits at its commas into one numeral per delay, and each numeral reads back as that delay |
| Text.IntToString | src/api/utils/utility.h:477 | the decimal rendering of an integer is non-empty: digits, led by '-' exactly when the integer is negative, with no leading zero except for 0 itself |
| Text.IntToStringParses | src/api/utils/utility.h:477 | the decimal rendering reads back as the same integer |
| Text.IntToStringInjective | src/api/utils/utility.h:477 | distinct integers render differently |
| Text.JoinSnoc | src/api/utils/utility.h:164-167 | appending a name puts a separator in front of it only when the list was non-empty |
| Text.TerminatedThenLast | src/api/utils/utility.h:512-517 | writing every item with a separator, then the last without, gives the joined form |
| Text.SplitJoin | src/api/utils/utility.h:164-167 | splitting a joined list at its separator gives the list back when no item contains the separator's first character |

## Left out

- `calculate_focal_point` (src/api/utils/utility.h:445-464) is not modelled: it is floating-point ratios, `std::round` and conversions.
- `has_density` and `get_density` (src/api/utils/utility.h:55-66) are not modelled: they round a double resolution. The image's `density` is taken as already computed, absent when the resolution is not above 1.
- libvips calls with no logic of their own are left out: `line_cache`, `get_page_height`, `vips_enum_nick` and the tag accessors. The nicknames are opaque strings and the tags are `Option` fields.
- `extract_area` and `arrayjoin` are modelled on sizes only. `extract_area` fails on an empty rectangle or one outside the image. `arrayjoin` with one image across puts each page in a cell as wide as the widest page and as tall as the tallest, so n equal pages stack to n times their height; it fails on an empty vector. Pixel content is not modelled.
- The governor's memory and signal mechanics are left out: `VIPS_NEW`, `g_signal_connect`, `vips_image_set_progress` and `vips_error`. The recorded error keeps the budget, the seconds run and the percentage, but not the message text or its pluralisation. The handler runs on libvips worker threads: that concurrency is not modelled, and notifications arrive one at a time.
- The `VIPS_VERSION_AT_LEAST` choice of GIF loader is fixed to the libvips 8.11 branch, "VipsForeignLoadNsgif".
- src/api/enums.h is not part of this model. `supported_savers_string` casts `1U << i` to `Output`, so the model assumes bit i is the i-th `Output` in declaration order: 1 JPEG, 2 PNG, 3 WebP, 4 AVIF, 5 TIFF, 6 GIF, 7 JSON. With another numbering, only `SaverOutput` changes.
- Strings are sequences of characters, not bytes. The escaper's six characters are all ASCII, so escaping is the same either way.
- src/nginx/environment.h, src/nginx/http.h and src/nginx/error.h are left out: they hold only declarations for nginx logging and HTTP I/O.
- Placement.CalculatePosition: the source's `default` branch centres any position value that is not one of the eight named anchors. The model's `Position` has only the nine anchors, so that collapse of other values into `Centre` is not modelled; `Centre` itself takes the `default` branch.
- Placement.CalculatePosition: requires the four sizes and both differences to fit in 32 bits. It does not model the wrap-around when they do not.
- MultiPage.CropMultiPage: on the general path it requires `pageHeight * k` and `pageHeight * k + top` to fit in 32 bits for every page. It also stops at the first failed extraction, where the source's C++ call throws.
- Metadata.ImageToJson: the stream is written group by group (image fields, encoding fields, page fields, flags, orientation), each group by its own writer method. The single `ostringstream` of the source becomes a concatenation of the group texts.
- Metadata.DelaysReadBack and Metadata.DelaysNoTrailingComma: require a non-empty delay list. An empty list renders as "[]", which `image_to_json` also produces.
