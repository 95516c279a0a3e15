# tube-adventures annotation decoder, in Dafny

This project models the core of tube-adventures, a player for interactive
YouTube videos. The videos' annotations are stored as XML files, and the core
decodes them into a list of annotations or into the first format violation it
meets. The model covers:

- `parse_annotations`, over an already loaded tinyxml2 tree. The load status
  is an input; the tree is a datatype of elements, attributes, text nodes and
  other nodes. The file holds the functions `DecodeDocument`,
  `DecodeAnnotation` and `DecodeRectRegions` that specify it, and the methods
  `ParseAnnotations`, `ParseAnnotationList`, `ParseAnnotation` and
  `ReadRectRegions`. These methods follow the source's two do-while loops and
  its early returns, and are proved equal to the functions.
- Its primitives: `std::from_chars` into a 32-bit unsigned colour, and the
  `sscanf("%u:%u:%u.%u")` timestamp read with its conversion to milliseconds.
- The data model of `annotations.hh`: `Annotation`, `RectRegion`, `Type`,
  `ParseAnnotationsError` and its `to_string`, and `ParseAnnotationsResult`.
- The video-identity helpers: the YouTube watch URL of an ID, and the ID in an
  annotation file's name. A file name follows the `std::filesystem` rules for
  its stem and extension.
- The player window of `mainwindow.cc`. It is a `MainWindow` class over a
  `MediaPlayer` class, and covers:
  - clamped seeking;
  - the modifier-to-seek-duration table;
  - the Space play/pause toggle;
  - closing at the end of the media;
  - the whole-second values handed to the progress bar.
- The newline-escaping loop of the debug dump in `src/main.cc`.
- The in-place removal of `--wait-for-keypress-on-failure` from `argv` in the
  test runner.

Files, one module each:

- `wrappers.dfy`: Option and Result.
- `xml.dfy`: the tree and tinyxml2's navigation calls.
- `numbers.dfy`: from_chars, the sscanf timestamp, and number rendering.
- `annotations.dfy`: the data model of `annotations.hh`.
- `decoder.dfy`: `parse_annotations`.
- `decoder_properties.dfy`: lemmas about the decoder.
- `video_identity.dfy`: the URL and the ID in a file name.
- `player.dfy`: the player window.
- `text_dump.dfy`: the newline-escaping loop.
- `command_line.dfy`: the `argv` flag removal.

sscanf reads the fractional field of a timestamp as a whole number of
centiseconds, whatever its number of digits: `0:00:00.5` is 50 ms.

## Model

| member | source | states |
|---|---|---|
| Xml.AttributeIndex | tube-adventures/lib/src/annotations.cc:114-119 | the index found holds the first attribute with that name; None means no attribute has it |
| Xml.FindAttribute | tube-adventures/lib/src/annotations.cc:114-119 | None exactly when no attribute has the name; otherwise the value of the first attribute with that name |
| Xml.NextElementIndex | tube-adventures/lib/src/annotations.cc:418 | the index found is the first element with that name at or after the start; None means there is none |
| Xml.ElementsNamed | tube-adventures/lib/src/annotations.cc:176-418 | the sibling walk visits only elements with that name, and at most one per node |
| Xml.ElementsNamedGap | tube-adventures/lib/src/annotations.cc:418 | nodes that are not elements with that name do not change the walk |
| Xml.ElementsNamedPrefix | tube-adventures/lib/src/annotations.cc:418 | the walk over a shorter prefix is a prefix of the walk over a longer one |
| Xml.ElementsNamedAt | tube-adventures/lib/src/annotations.cc:418 | the element at index i is entry number (count of matches before i) of the walk |
| Xml.ElementsNamedStep | tube-adventures/lib/src/annotations.cc:418 | extending the prefix by one node appends that node exactly when it matches |
| Xml.NextSiblingStep | tube-adventures/lib/src/annotations.cc:338 | one NextSiblingElement step from walk entry n either ends the walk after n + 1 entries or lands on entry n + 1 |
| Xml.FirstElementIsHead | tube-adventures/lib/src/annotations.cc:176-180 | FirstChildElement finds nothing exactly when the walk is empty, and otherwise finds the walk's first element |
| Xml.FirstElement | tube-adventures/lib/src/annotations.cc:163-176 | nothing exactly when no node is an element with the name; otherwise an element with that name that is one of the nodes |
| Xml.FirstChildElement | tube-adventures/lib/src/annotations.cc:163-180 | nothing exactly when no child is an element with the name; a found element has that name |
| Xml.NextSiblingElement | tube-adventures/lib/src/annotations.cc:338 | the index of the next element with the name after i, with none of that name between; nothing exactly when no later sibling has the name |
| Xml.GetText | tube-adventures/lib/src/annotations.cc:211-215 | text exactly when the element's first child is a text node, and then that node's text |
| Xml.NoChildren | tube-adventures/lib/src/annotations.cc:262 | an element without children has no text |
| Numbers.DigitRunLength | tube-adventures/lib/src/annotations.cc:82-86 | the run is all digits and is followed by a non-digit or the end |
| Numbers.FromCharsU32 | tube-adventures/lib/src/annotations.cc:82-86 | from_chars into a 32-bit unsigned succeeds only on leading digits, and only with a value of at most 0xFFFFFFFF |
| Numbers.FromCharsU32RoundTrip | tube-adventures/lib/src/annotations.cc:104-112 | a rendered number followed by non-digit text reads back as itself when it fits in 32 bits and fails when it does not |
| Numbers.NatToStringValue | tube-adventures/lib/src/annotations.cc:332 | the decimal rendering of n has value n |
| Numbers.DigitRunOfDigits | tube-adventures/lib/src/annotations.cc:82-86 | a digit string followed by a non-digit is read whole |
| Numbers.NatToString | tube-adventures/lib/src/annotations.cc:332 | the decimal rendering is non-empty and all digits |
| Numbers.NatToHex | tube-adventures/lib/src/annotations.cc:366 | the base-16 rendering is non-empty and made of lower-case hexadecimal digits |
| Numbers.NatToHexValue | tube-adventures/lib/src/annotations.cc:366 | the hexadecimal digits of the rendering denote n, with no leading zero |
| Numbers.SkipSpaces | tube-adventures/lib/src/annotations.cc:325-327 | the rest after white space is a suffix that does not start with white space |
| Numbers.ReadUnsigned | tube-adventures/lib/src/annotations.cc:325-327 | a successful %u conversion consumes at least one character |
| Numbers.ScanTimestamp | tube-adventures/lib/src/annotations.cc:320-327 | sscanf returns EOF exactly when the text is only white space; otherwise it returns between 0 and 4, with one value per conversion |
| Numbers.ReadUnsignedOfDigits | tube-adventures/lib/src/annotations.cc:325-327 | %u reads a digit run as its decimal value and stops right after it |
| Numbers.ReadUnsignedOfNat | tube-adventures/lib/src/annotations.cc:325-327 | %u reads a rendered number back and stops right after it |
| Numbers.LiteralThenUnsignedOf | tube-adventures/lib/src/annotations.cc:327 | a matching literal ':' or '.' of the format is consumed before the next %u |
| Numbers.ScanTimestampOfParts | tube-adventures/lib/src/annotations.cc:320-327 | three separators matched and four %u reads give four conversions with those values |
| Numbers.ScanTimestampRoundTrip | tube-adventures/lib/src/annotations.cc:320-336 | the text H:M:S.C of any four numbers scans back to exactly those four numbers |
| Numbers.ReadDigitsToEnd | tube-adventures/lib/src/annotations.cc:325-327 | a final digit field reads as its value and leaves nothing |
| Numbers.ReadDigitField | tube-adventures/lib/src/annotations.cc:325-327 | a digit field before a separator reads as its value and leaves the separator |
| Numbers.ScanOfFieldReads | tube-adventures/lib/src/annotations.cc:320-327 | four fields joined by ':', ':' and '.', each reading as a number, scan to four conversions |
| Numbers.TwoDigitField | tube-adventures/lib/src/annotations.cc:325-327 | a two-digit field is one digit run worth ten times the first digit plus the second |
| Numbers.ScanPaddedTimestamp | tube-adventures/lib/src/annotations.cc:320-327 | H:MM:SS. followed by a field that reads as c scans to the hour, the two-digit minutes and seconds, and c |
| Numbers.ScanTwoDigitCentiseconds | tube-adventures/lib/src/annotations.cc:320-327 | zero-padded H:MM:SS.CC scans to four conversions with the digits' values |
| Numbers.ScanOneDigitCentiseconds | tube-adventures/lib/src/annotations.cc:320-327 | H:MM:SS.C scans to four conversions, the last one the single digit's value |
| Numbers.ScanFourSeconds | tube-adventures/lib/src/annotations.cc:320-327 | "0:00:04.00" scans to 0, 0, 4, 0 |
| Numbers.ScanMinuteFortyFive | tube-adventures/lib/src/annotations.cc:320-327 | "0:01:45.35" scans to 0, 1, 45, 35 |
| Numbers.ScanSingleDigitFraction | tube-adventures/lib/src/annotations.cc:320-327 | the fraction ".5" is read as the whole number 5 |
| Numbers.ScanOfThreeDigitFields | tube-adventures/lib/src/annotations.cc:320-330 | three fields with no '.' give three conversions |
| Numbers.ScanMissingCentiseconds | tube-adventures/lib/src/annotations.cc:320-330 | "1:2:3" gives three conversions: 1, 2, 3 |
| Numbers.TimestampMs | tube-adventures/lib/src/annotations.cc:335-336 | hours, minutes, seconds and centiseconds added as durations, in milliseconds; always a multiple of 10 |
| Numbers.LiteralThenUnsigned | tube-adventures/lib/src/annotations.cc:327 | a matched separator followed by a %u read consumes input: what is left is shorter |
| Annotations.Ordinal | tube-adventures/lib/src/annotations.hh:62-65 | every enumerator's underlying value is an index of the name table |
| Annotations.FromOrdinal | tube-adventures/lib/src/annotations.hh:53-65 | an underlying value names an enumerator exactly when it is below five |
| Annotations.ToString | tube-adventures/lib/src/annotations.hh:71-87 | to_string returns the table entry at the enumerator's underlying value, which is always in bounds |
| Annotations.OrdinalBijection | tube-adventures/lib/src/annotations.hh:53-65 | the enumeration has exactly five values, numbered 0 to 4 in declaration order |
| Annotations.ToStringInjective | tube-adventures/lib/src/annotations.hh:71-87 | different enumerators have different names |
| Annotations.ToStringNames | tube-adventures/lib/src/annotations.hh:52-57 | each enumerator is written as its own name: success, file_not_found, cannot_read_file, invalid_xml, invalid_format |
| Annotations.ToStringRoundTrip | tube-adventures/lib/src/annotations.hh:71-87 | the index of a written name in the table converts back to the enumerator that was written |
| AnnotationDecoder.RequiredAttribute | tube-adventures/lib/src/annotations.cc:114-119 | Ok exactly when the attribute is present, holding its value; otherwise the "<node> without \"attribute\" attribute" diagnostic |
| AnnotationDecoder.ExpectAttribute | tube-adventures/lib/src/annotations.cc:127-132 | any failure carries a non-empty diagnostic |
| AnnotationDecoder.ParseFloatField | tube-adventures/lib/src/annotations.cc:104-112 | Ok exactly when the float parser succeeds, holding its value; otherwise the diagnostic naming the target field |
| AnnotationDecoder.ParseRgbField | tube-adventures/lib/src/annotations.cc:104-112 | Ok exactly when from_chars into 32-bit unsigned succeeds, holding its value; otherwise the diagnostic naming the target field |
| AnnotationDecoder.CheckRgb | tube-adventures/lib/src/annotations.cc:358-375 | an invalid colour is reported with a non-empty diagnostic |
| AnnotationDecoder.ParseTime | tube-adventures/lib/src/annotations.cc:317-337 | a rejected timestamp carries a non-empty diagnostic |
| AnnotationDecoder.DecodeRectRegion | tube-adventures/lib/src/annotations.cc:297-337 | a rejected rectangle carries a non-empty diagnostic |
| AnnotationDecoder.CollectRegions | tube-adventures/lib/src/annotations.cc:275-338 | Ok exactly when there are one or two rectangles and the first (and second) decode; the first is the start rectangle; the end rectangle is present exactly when there are two, and is the second |
| AnnotationDecoder.DecodeRectRegions | tube-adventures/lib/src/annotations.cc:275-338 | a rejected movingRegion carries a non-empty diagnostic |
| AnnotationDecoder.ReadText | tube-adventures/lib/src/annotations.cc:208-218 | no <TEXT> gives the empty text; a <TEXT> is accepted exactly when GetText finds text, and the text is GetText's; otherwise "<TEXT> with no text" |
| AnnotationDecoder.DeriveType | tube-adventures/lib/src/annotations.cc:220-254 | a rejected action carries a non-empty diagnostic |
| AnnotationDecoder.ReadPreamble | tube-adventures/lib/src/annotations.cc:188-273 | a rejection before the rectangles carries a non-empty diagnostic |
| AnnotationDecoder.ReadColour | tube-adventures/lib/src/annotations.cc:377-385 | a colour is accepted exactly when present, parsable as 32-bit unsigned and at most 0xFFFFFF; the value is the parsed one |
| AnnotationDecoder.ReadAlpha | tube-adventures/lib/src/annotations.cc:388-396 | alpha is accepted exactly when present, parsable and within [0, 1]; the value is the parsed one |
| AnnotationDecoder.DecodeAppearance | tube-adventures/lib/src/annotations.cc:346-413 | a rejected <appearance> carries a non-empty diagnostic |
| AnnotationDecoder.DecodeAnnotation | tube-adventures/lib/src/annotations.cc:184-417 | a rejected annotation carries a non-empty diagnostic |
| AnnotationDecoder.DecodeList | tube-adventures/lib/src/annotations.cc:184-418 | the list never has more entries than there are elements, and its failures carry a diagnostic when the element decoder's do |
| AnnotationDecoder.DecodeAnnotationList | tube-adventures/lib/src/annotations.cc:184-418 | the decoded list is no longer than the element list, and a failure carries a non-empty diagnostic |
| AnnotationDecoder.DecodeDocument | tube-adventures/lib/src/annotations.cc:135-421 | every failed result has no annotations; the error string is empty exactly on success |
| AnnotationDecoder.ReadRectRegions | tube-adventures/lib/src/annotations.cc:275-338 | the rectRegion do-while computes exactly CollectRegions over the <rectRegion> children |
| AnnotationDecoder.ParseAnnotation | tube-adventures/lib/src/annotations.cc:188-417 | the body of the annotation loop computes exactly DecodeAnnotation |
| AnnotationDecoder.PrependAppend | tube-adventures/lib/src/annotations.cc:417 | appending kept annotations in two steps equals appending them at once |
| AnnotationDecoder.DecodeListCons | tube-adventures/lib/src/annotations.cc:184-418 | one loop step: the head's error ends the list, otherwise its annotation (if kept) comes before the rest |
| AnnotationDecoder.DecodeDocumentOfList | tube-adventures/lib/src/annotations.cc:163-421 | once the structure is there, the document result is the list's: its error as invalid_format, or success with the list |
| AnnotationDecoder.ParseAnnotationList | tube-adventures/lib/src/annotations.cc:182-418 | the annotation do-while computes exactly the list decoding of the <annotation> children |
| AnnotationDecoder.ParseAnnotations | tube-adventures/lib/src/annotations.cc:135-421 | parse_annotations computes exactly DecodeDocument |
| AnnotationDecoder.LoadFailure | tube-adventures/lib/src/annotations.cc:151-160 | no annotations and a non-empty message; file_not_found exactly for a missing file, cannot_read_file exactly for an open or read error, invalid_xml exactly for any other load error |
| AnnotationDecoder.OptionalAttribute | tube-adventures/lib/src/annotations.cc:190-195 | the id attribute's value when present, the empty string otherwise |
| AnnotationDecoder.Assemble | tube-adventures/lib/src/annotations.cc:188-417 | the annotation carries the id, text and link read first, the two rectangles, and the appearance values |
| DecoderProperties.LoadStatusMapping | tube-adventures/lib/src/annotations.cc:140-160 | FILE_NOT_FOUND gives file_not_found; COULD_NOT_BE_OPENED and READ_ERROR give cannot_read_file; any other load error gives invalid_xml; none of them has annotations |
| DecoderProperties.MissingStructureIsInvalidFormat | tube-adventures/lib/src/annotations.cc:163-180 | a missing <document>, <annotations> or first <annotation> gives invalid_format with no annotations |
| DecoderProperties.RealElements | tube-adventures/lib/src/annotations.cc:199-206 | the real annotations, in order, are all real and no more than the elements |
| DecoderProperties.PreambleKeepsRealOnly | tube-adventures/lib/src/annotations.cc:199-263 | when the early checks pass, they keep an element exactly when it is a real annotation |
| DecoderProperties.DecodedIffReal | tube-adventures/lib/src/annotations.cc:199-263 | an annotation decoded without error is kept exactly when it is real |
| DecoderProperties.FilteredWithoutError | tube-adventures/lib/src/annotations.cc:199-206 | a type other than "text", or type "text" with a style other than "popup", is skipped without error |
| DecoderProperties.PreambleViolationPropagates | tube-adventures/lib/src/annotations.cc:188-273 | a violation before the rectangles is the annotation's violation |
| DecoderProperties.MissingType | tube-adventures/lib/src/annotations.cc:199 | a missing type attribute is an error naming it |
| DecoderProperties.MissingStyle | tube-adventures/lib/src/annotations.cc:203 | a missing style on a "text" annotation is an error naming it |
| DecoderProperties.Kept | tube-adventures/lib/src/annotations.cc:417 | the kept elements are no more than the elements |
| DecoderProperties.SuccessKeepsInOrder | tube-adventures/lib/src/annotations.cc:184-418 | on success the list has one annotation per kept element, in document order, each being that element's decoding |
| DecoderProperties.FirstViolationWins | tube-adventures/lib/src/annotations.cc:184-418 | the list fails exactly when some element fails, and then with the message of the first failing element, every element before it decoding |
| DecoderProperties.AllFilteredIsEmptySuccess | tube-adventures/lib/src/annotations.cc:184-420 | when every element is skipped the result is success with no annotations |
| DecoderProperties.KeptAreReal | tube-adventures/lib/src/annotations.cc:199-263 | when no element fails, the kept elements are exactly the real ones |
| DecoderProperties.SuccessIsRealInOrder | tube-adventures/lib/src/annotations.cc:184-418 | on success the list holds exactly the real <annotation> elements, decoded, in document order |
| DecoderProperties.DocumentSuccess | tube-adventures/lib/src/annotations.cc:135-421 | a successful parse loaded the file, found the structure, and holds exactly the real annotations in order |
| DecoderProperties.ExpectAttributeAccepts | tube-adventures/lib/src/annotations.cc:127-132 | accepted exactly when the attribute equals the expected value; a different value is reported with the actual value quoted |
| DecoderProperties.NoActionIsNotes | tube-adventures/lib/src/annotations.cc:220-221 | no <action> gives notes with an empty click URL |
| DecoderProperties.ActionDerivesType | tube-adventures/lib/src/annotations.cc:222-254 | an action is accepted exactly when it is openUrl on click with a url value and target (and type hyperlink for "new"); current gives gameplay, new gives external_link, other targets leave the type unassigned; the click URL is the url value |
| DecoderProperties.RectRegionCount | tube-adventures/lib/src/annotations.cc:277-289 | no rectRegion is an error, and more than two is an error |
| DecoderProperties.RectRegionAccepted | tube-adventures/lib/src/annotations.cc:297-333 | an accepted rectangle had x, y, w and h that parse, and a t with four conversions |
| DecoderProperties.RectRegionDecodes | tube-adventures/lib/src/annotations.cc:297-337 | with all five attributes present and parsing, the rectangle holds exactly those values |
| DecoderProperties.UnparsableCoordinateNamesField | tube-adventures/lib/src/annotations.cc:298-299 | an unparsable x fails with a message naming the target field |
| DecoderProperties.ParseTimeAccepts | tube-adventures/lib/src/annotations.cc:329-336 | a timestamp is accepted exactly with four conversions, and is then 3600000 h + 60000 m + 1000 s + 10 c ms |
| DecoderProperties.ParseTimeRoundTrip | tube-adventures/lib/src/annotations.cc:317-337 | the text H:M:S.C parses to its millisecond sum |
| DecoderProperties.ParseTimeOfScan | tube-adventures/lib/src/annotations.cc:335-336 | four conversions give their millisecond sum |
| DecoderProperties.ParseTimeFourSeconds | tube-adventures/lib/src/annotations.cc:317-337 | "0:00:04.00" is 4000 ms |
| DecoderProperties.ParseTimeMinuteFortyFive | tube-adventures/lib/src/annotations.cc:317-337 | "0:01:45.35" is 105350 ms |
| DecoderProperties.CentisecondsReadWhole | tube-adventures/lib/src/annotations.cc:335-336 | "0:00:00.5" is 50 ms: the fraction is a whole count of centiseconds |
| DecoderProperties.ParseTimeRejectsCount | tube-adventures/lib/src/annotations.cc:329-333 | any other count is rejected with a message showing the count |
| DecoderProperties.ParseTimeMissingCentiseconds | tube-adventures/lib/src/annotations.cc:329-333 | "1:2:3" is rejected, reporting 3 conversions |
| DecoderProperties.ColourCheck | tube-adventures/lib/src/annotations.cc:358-375 | a colour is invalid exactly above 0xFFFFFF, and the message ends "Max is: 0xFFFFFF" |
| DecoderProperties.ColourOverflowRejected | tube-adventures/lib/src/annotations.cc:104-112 | a colour above 0xFFFFFFFF does not parse |
| DecoderProperties.AppearanceAccepted | tube-adventures/lib/src/annotations.cc:346-413 | an accepted <appearance> has every attribute; text size, colours and alpha are the parsed values; colours are within 0xFFFFFF, alpha is in [0, 1], effects is empty |
| DecoderProperties.NonEmptyEffectsRejected | tube-adventures/lib/src/annotations.cc:407-413 | a non-empty effects attribute is rejected |
| DecoderProperties.DecodedAnnotationStages | tube-adventures/lib/src/annotations.cc:184-417 | a decoded annotation is assembled from the early checks, the rectangles and the appearance, each of which succeeded |
| DecoderProperties.TextIsFirstTextNode | tube-adventures/lib/src/annotations.cc:208-218 | a <TEXT> is accepted exactly when its first child is a text node, whose text is the annotation's; an empty <TEXT/> is rejected |
| DecoderProperties.PreambleFields | tube-adventures/lib/src/annotations.cc:190-273 | the early checks hand on the id (empty when absent), the <TEXT> read, the derived type and the movingRegion of the segment |
| DecoderProperties.DecodedAnnotationFields | tube-adventures/lib/src/annotations.cc:184-417 | a decoded annotation is real and carries the element's id, its <TEXT>, the derived type and click URL, the first <rectRegion> as start and the second (when present) as end rectangle, and the parsed text size, colours and alpha of its <appearance> |
| VideoIdentity.FullYoutubeUrlFromId | tube-adventures/lib/src/annotations.cc:423-438 | a URL exactly for 11-character IDs, made of the watch prefix and the ID, 43 characters long |
| VideoIdentity.LastIndexOf | tube-adventures/lib/src/annotations.cc:456 | find_last_of: the index holds the character and none after it does; None means the character does not occur |
| VideoIdentity.LastIndexOfIs | tube-adventures/lib/src/annotations.cc:456 | an occurrence with none after it is the one find_last_of returns |
| VideoIdentity.ExtensionDot | tube-adventures/lib/src/annotations.cc:442-447 | the extension starts at the last dot, unless that dot is the first character or the name is "." or ".." |
| VideoIdentity.StemAndExtension | tube-adventures/lib/src/annotations.cc:442-447 | stem and extension together give back the file name; a non-empty extension is a dot and dot-free text |
| VideoIdentity.PathToYoutubeVideoId | tube-adventures/lib/src/annotations.cc:440-461 | an ID exactly when the stem is non-empty, the extension matches, and the last space of a stem longer than 11 is twelfth from the end; the ID is the last 11 stem characters and has no space |
| VideoIdentity.IdOfComposedName | tube-adventures/lib/src/annotations.cc:440-461 | a name made of a prefix, a space, an ID and an extension gives back that ID |
| VideoIdentity.ComposedNameOfId | tube-adventures/lib/src/annotations.cc:440-461 | an extracted ID is the tail of the name: prefix, space, ID, expected extension |
| VideoIdentity.ExtractedIdHasUrl | tube-adventures/lib/src/annotations.cc:423-461 | every ID read from a file name has a 43-character URL |
| VideoIdentity.FirstEpisodeId | tube-adventures/lib/src/annotations.cc:440-461 | "TA01 yVebIlvkOnU.xml" gives "yVebIlvkOnU" |
| VideoIdentity.LongNameId | tube-adventures/lib/src/annotations.cc:440-461 | a stem with earlier spaces gives its last 11 characters |
| VideoIdentity.RejectedNames | tube-adventures/lib/src/annotations.cc:444-454 | a short stem, or another extension, gives no ID |
| VideoIdentity.Stem | tube-adventures/lib/src/annotations.cc:442-444 | a prefix of the file name, the whole name exactly when there is no extension dot |
| VideoIdentity.Extension | tube-adventures/lib/src/annotations.cc:442-447 | a suffix of the file name, empty exactly when there is no extension dot |
| Player.LatestSeekPosition | tube-adventures/lib/src/mainwindow.cc:24 | the latest seek target is never negative and never before one second from the end |
| Player.ClampedPosition | tube-adventures/lib/src/mainwindow.cc:19-27 | the target lies in [0, max(0, duration - 1 s)]; a position in range is kept, a negative one becomes 0, a later one the latest position |
| Player.ClampIdempotent | tube-adventures/lib/src/mainwindow.cc:24 | clamping twice is clamping once |
| Player.ClampMonotonic | tube-adventures/lib/src/mainwindow.cc:24 | a later request never lands earlier |
| Player.ShortVideoSeeksToStart | tube-adventures/lib/src/mainwindow.cc:24 | a video no longer than one second can only seek to 0 |
| Player.SeekDuration | tube-adventures/lib/src/mainwindow.cc:34-50 | the step is one of 0, 3, 10 or 60 seconds |
| Player.SeekDurations | tube-adventures/lib/src/mainwindow.cc:34-50 | no modifier 10 s, Shift 3 s, Control 60 s, Control+Shift 0, anything else 10 s |
| Player.ToggledState | tube-adventures/lib/src/mainwindow.cc:130-148 | Playing becomes Paused, Paused becomes Playing, Stopped stays |
| Player.ToggleTwice | tube-adventures/lib/src/mainwindow.cc:130-148 | pressing Space twice restores the state |
| Player.SecondsOf | tube-adventures/lib/src/mainwindow.cc:158-166 | ms / 1000 truncated toward zero |
| Player.ToInt32 | tube-adventures/lib/src/mainwindow.cc:160-165 | static_cast<int>: within 32-bit range, congruent modulo 2^32, unchanged when it fits |
| Player.SecondsOfOdd | tube-adventures/lib/src/mainwindow.cc:158-166 | truncating division is symmetric around zero |
| Player.MediaPlayer.SetPosition | tube-adventures/lib/src/mainwindow.cc:26 | sets the position and nothing else |
| Player.MediaPlayer.Play | tube-adventures/lib/src/mainwindow.cc:139 | sets the state to playing and nothing else |
| Player.MediaPlayer.Pause | tube-adventures/lib/src/mainwindow.cc:136 | sets the state to paused and nothing else |
| Player.SetVideoPosition | tube-adventures/lib/src/mainwindow.cc:19-27 | the new position is the clamped request, on any player; nothing else changes |
| Player.ChangeVideoPosition | tube-adventures/lib/src/mainwindow.cc:29-32 | the new position is the clamped sum of the old position and the change |
| Player.SeekForwardThenBack | tube-adventures/lib/src/mainwindow.cc:116-129 | seeking forward then back by the same unclamped step returns to the start |
| Player.MainWindow.KeyPressEvent | tube-adventures/lib/src/mainwindow.cc:109-150 | Right seeks forward and Left back by the seek duration; Space toggles the state; other keys change nothing |
| Player.MainWindow.OnVideoMediaStatusChanged | tube-adventures/lib/src/mainwindow.cc:152-156 | the window is closed exactly when it already was or the status is EndOfMedia |
| Player.MainWindow.OnVideoDurationChanged | tube-adventures/lib/src/mainwindow.cc:158-161 | the value passed to setMaximum is the duration in whole seconds, cast to int; nothing else changes |
| Player.MainWindow.OnVideoPositionChanged | tube-adventures/lib/src/mainwindow.cc:163-166 | the value passed to setValue is the position in whole seconds, cast to int; nothing else changes |
| Player.ProgressWithinMaximum | tube-adventures/lib/src/mainwindow.cc:19-27 | the whole seconds of any seek target lie between 0 and the whole seconds of the duration |
| TextDump.EscapeChar | tube-adventures/src/main.cc:74-80 | a newline is written as backslash-n, any other character as itself |
| TextDump.EscapeStep | tube-adventures/src/main.cc:70-82 | escaping one more character appends that character's escape |
| TextDump.EscapeAppend | tube-adventures/src/main.cc:70-82 | the escape of two texts joined is the two escapes joined |
| TextDump.NoNewlineLeft | tube-adventures/src/main.cc:70-82 | no raw newline remains |
| TextDump.EscapeLength | tube-adventures/src/main.cc:70-82 | the length grows by exactly one per newline |
| TextDump.EscapePosition | tube-adventures/src/main.cc:70-82 | every character keeps its order: the k-th is written at k plus the newlines before it |
| TextDump.EscapeWithoutNewlines | tube-adventures/src/main.cc:70-82 | a text without newlines is unchanged |
| TextDump.NewlineAndBackslashNAlike | tube-adventures/src/main.cc:70-82 | a newline and a backslash followed by n are dumped alike |
| TextDump.EscapeQuoted | tube-adventures/src/main.cc:66-68 | the quotes are not changed by escaping |
| TextDump.KeepStep | tube-adventures/src/main.cc:74-78 | a non-newline is left in place and counted as escaped |
| TextDump.ReplaceStep | tube-adventures/src/main.cc:80-81 | the replace at i escapes one more newline, and i + 2 is just past it |
| TextDump.EscapeNewlines | tube-adventures/src/main.cc:70-82 | the loop leaves exactly the escaped text |
| TextDump.QuoteAndEscape | tube-adventures/src/main.cc:63-82 | the result is a quote, the escaped content, a quote |
| TextDump.Escape | tube-adventures/src/main.cc:70-82 | the escaped text is at least as long as the text and at most twice as long |
| TextDump.Quoted | tube-adventures/src/main.cc:63-82 | a quote, the escaped content, a quote |
| CommandLine.FirstFlag | tube-adventures/tests/catch_main.cc:10-14 | the index found is the first after the program name holding the flag; None means no argument is the flag |
| CommandLine.ShiftedIsRemoved | tube-adventures/tests/catch_main.cc:18-19 | shifting the entries after i down by one leaves the vector with entry i removed |
| CommandLine.StripWaitFlagInPlace | tube-adventures/tests/catch_main.cc:9-22 | the loops leave the wait flag, argc and argv that StripWaitFlag specifies |
| CommandLine.WaitIffFlagGiven | tube-adventures/tests/catch_main.cc:9-16 | the flag is reported exactly when some argument after the program name is the flag |
| CommandLine.NoFlagNoChange | tube-adventures/tests/catch_main.cc:10-14 | without the flag, argc and argv are unchanged |
| CommandLine.FirstFlagRemoved | tube-adventures/tests/catch_main.cc:17-21 | argc drops by one, the arguments keep their order without the first flag, and argv stays null-terminated |
| CommandLine.OneFlagFewer | tube-adventures/tests/catch_main.cc:17-21 | exactly one flag disappears from the arguments |
| CommandLine.LaterFlagKept | tube-adventures/tests/catch_main.cc:17-21 | a second occurrence of the flag is handed on |
| CommandLine.StripExample | tube-adventures/tests/catch_main.cc:9-22 | "runner --wait-for-keypress-on-failure -s" becomes "runner -s" |
| CommandLine.Removed | tube-adventures/tests/catch_main.cc:18-19 | same length; entries before i kept, later ones shifted down by one, the last entry (the terminator) kept |
| CommandLine.StripWaitFlag | tube-adventures/tests/catch_main.cc:9-22 | the flag is reported exactly when some argument after the program name is the flag; argc drops by one exactly then; argv keeps its length and is unchanged without the flag |

## Left out

- XML loading and tokenising (tinyxml2's LoadFile, ErrorName and ErrorStr) come from a foreign library. The load status and the loaded tree are inputs.
- Floating-point parsing (from_chars or stof into float, and the abort fallback) is an oracle parameter `FloatParser`. Coordinates, text size and alpha are the values it returns. Float rounding is not modelled.
- QColor's own behaviour (fromRgb, setAlphaF, isValid) is Qt code outside this model. Colour validity is "at most 0xFFFFFF" and alpha validity is "within [0, 1]", the bounds the diagnostics state.
- AnnotationDecoder.ReadColour: the stored colour is the parsed number, not the QColor that fromRgb builds from it.
- AnnotationDecoder.ReadAlpha: its diagnostic shows the attribute text, where the source prints std::to_string of the parsed float.
- AnnotationDecoder.RequiredAttribute: the "attribute = nullptr" branch of the macro is left out. A tinyxml2 attribute that exists always has a value.
- Numbers.ScanTimestamp: a '+' or '-' sign is treated as a matching failure, and numbers above 32 bits are kept unbounded. sscanf's sign handling and %u overflow are not modelled.
- Diagnostic details are not modelled:
  - the full file name from weakly_canonical and its fallback (the name given is used);
  - the std::clog output;
  - u8string conversions.
- The debug-only hooks (QMessageBox, __debugbreak, the TUBE_ADVENTURES_DEBUG paths) are not modelled. `to_string` is modelled although the source compiles it only in debug builds.
- The constant youtube_video_id_length is defined in a header that is not part of this model. It is 11 here, the length of every ID in the tests.
- VideoIdentity.PathToYoutubeVideoId:
  - a path is reduced to its final component, the file name;
  - extensions are compared as exact strings;
  - directories and std::filesystem's native encodings are not modelled.
- youtube_video_id_from_url, play_video and on_annotation_clicked have no body in the files of this model.
- The window's GUI is not modelled:
  - the MainWindow constructor (media set-up, the first progress range), resizeEvent and the video widget;
  - what QMediaPlayer itself does after setPosition, play or pause.
- The keyboard modifiers read from QGuiApplication are a parameter of KeyPressEvent.
- Player.MainWindow.OnVideoPositionChanged: progressValue and progressMaximum are the last values handed to QProgressBar's setValue and setMaximum. The bar's own range handling is Qt code and is not modelled: a setValue outside [minimum, maximum] being ignored, and a setMaximum below the current value resetting it.
- Player.SetVideoPosition: the assert(player.isSeekable()) of mainwindow.cc:21 is not modelled; the release build is, where the assert is compiled out and every seek goes through, including a Right or Left key on media that is not seekable.
- Player.MainWindow.KeyPressEvent: the unreachable default of the state switch is left out, because PlaybackState has exactly three values.
- In src/main.cc, only the escape loop is modelled. The XML dump around it, run_and_check and the exit codes are not.
- In the test runner, only the flag removal is modelled. Catch::Session::run and the getchar wait are not.
- AnnotationDecoder.ParseAnnotation:
  - the early checks and the appearance are computed by the functions ReadPreamble and DecodeAppearance, not by assigning the fields of a mutable Annotation one at a time;
  - the rectangle loop and the annotation loop are methods, as in the source.
- AnnotationDecoder.DecodeList and CollectRegions take the decoding of one element as a function parameter. ElementDecoder and RectRegionDecoder supply the real one.
