/** parse_annotations (annotations.cc): decoding a loaded annotation document
    into the ordered list of its real annotations, or into the first violation
    met. The specification is the family of functions below; the methods
    ParseAnnotations, ParseAnnotation and ReadRectRegions follow the source's
    loops and early returns and are proved to compute exactly what the
    functions describe. */
module AnnotationDecoder {
  import opened Wrappers
  import opened Xml
  import opened Numbers
  import opened Annotations

  /** The floating-point conversion (std::from_chars, or std::stof where that is
      missing) of an attribute's text: a value, or None when it cannot parse. */
  type FloatParser = string -> Option<real>

  /** What tinyxml2's XMLDocument::LoadFile reported. `XmlErrorOther` stands for
      every other error code (malformed markup), with tinyxml2's ErrorName()
      and ErrorStr() texts. */
  datatype LoadStatus =
    | XmlSuccess
    | XmlErrorFileNotFound
    | XmlErrorFileCouldNotBeOpened
    | XmlErrorFileReadError
    | XmlErrorOther(errorName: string, errorStr: string)

  predicate HasDiagnostic<T>(r: Result<T>)
  {
    r.Err? ==> |r.message| > 0
  }

  /** A failed result of parse_annotations: an error kind, no annotations. */
  function Failed(error: ParseAnnotationsError, message: string): ParseAnnotationsResult
  {
    ParseAnnotationsResult(error, [], message)
  }

  // ---------------------------------------------------------------------------
  // The required-attribute and parse macros

  /** TUBE_ADVENTURES_GET_REQUIRED_ATTRIBUTE: the attribute's value, or a
      diagnostic naming the element (by the source's variable name) and the
      attribute. */
  function RequiredAttribute(node: Element, nodeName: string, attribute: string): (r: Result<string>)
    ensures HasDiagnostic(r)
    ensures r.Ok? <==> FindAttribute(node, attribute).Some?
    ensures r.Ok? ==> FindAttribute(node, attribute) == Some(r.value)
    ensures r.Err? ==> r.message == MissingAttributeMessage(nodeName, attribute)
  {
    Need(FindAttribute(node, attribute), MissingAttributeMessage(nodeName, attribute))
  }

  /** The diagnostic of a missing required attribute. */
  function MissingAttributeMessage(nodeName: string, attribute: string): string
  {
    "<" + nodeName + "> without \"" + attribute + "\" attribute"
  }

  /** TUBE_ADVENTURES_EXPECT_ATTRIBUTE_WITH_VALUE: the attribute must be present
      and equal `expected`; a different value is reported with the actual value quoted. */
  function ExpectAttribute(node: Element, nodeName: string, attribute: string, expected: string): (r: Result<string>)
    ensures HasDiagnostic(r)
  {
    var actual :- RequiredAttribute(node, nodeName, attribute);
    if actual == expected then Ok(actual)
    else Err("<" + nodeName + " " + attribute + " != \"" + expected + "\"> (actual value = \"" + actual + "\")")
  }

  /** The diagnostic of TUBE_ADVENTURES_FROM_CHARS_REQUIRED, naming the target field. */
  function FromCharsMessage(target: string): string
  {
    "Failed to parse " + target + " from string: \""
  }

  /** TUBE_ADVENTURES_FROM_CHARS_REQUIRED into a float. */
  function ParseFloatField(text: string, target: string, parseFloat: FloatParser): (r: Result<real>)
    ensures HasDiagnostic(r)
    ensures r.Ok? <==> parseFloat(text).Some?
    ensures r.Ok? ==> parseFloat(text) == Some(r.value)
    ensures r.Err? ==> r.message == FromCharsMessage(target)
  {
    Need(parseFloat(text), FromCharsMessage(target))
  }

  /** TUBE_ADVENTURES_FROM_CHARS_REQUIRED into a QRgb (32-bit unsigned). */
  function ParseRgbField(text: string, target: string): (r: Result<nat>)
    ensures HasDiagnostic(r)
    ensures r.Ok? <==> FromCharsU32(text).Some?
    ensures r.Ok? ==> FromCharsU32(text) == Some(r.value) && r.value <= U32Max
    ensures r.Err? ==> r.message == FromCharsMessage(target)
  {
    Need(FromCharsU32(text), FromCharsMessage(target))
  }

  /** The largest valid RGB value, as the colour diagnostics state it. */
  const MaxRgb: nat := 0xFF_FFFF

  /** check_color_rgb: a colour above 0xFFFFFF is invalid; the diagnostic shows
      the value in hexadecimal and the maximum. */
  function CheckRgb(value: nat, colorName: string): (r: Result<nat>)
    ensures HasDiagnostic(r)
  {
    if value <= MaxRgb then Ok(value)
    else Err(colorName + " rgb color is invalid (0x" + NatToHex(value) + "). Max is: 0xFFFFFF")
  }

  /** The diagnostic of a timestamp that did not make four conversions. */
  function TimestampCountMessage(count: int): string
  {
    "Parsing timestamp. Amount of correct parses (" + IntToString(count) + ") is different from the expected (4)"
  }

  /** The `t` attribute of a rectRegion: sscanf "%u:%u:%u.%u" must make exactly
      four conversions; the time is then hours, minutes, seconds and
      centiseconds added up in milliseconds. */
  function ParseTime(t: string): (r: Result<nat>)
    ensures HasDiagnostic(r)
  {
    var scan := ScanTimestamp(t);
    if scan.count != 4 then
      Err(TimestampCountMessage(scan.count))
    else
      Ok(TimestampMs(scan.values[0], scan.values[1], scan.values[2], scan.values[3]))
  }

  // ---------------------------------------------------------------------------
  // Rectangles

  /** One <rectRegion>: x, y, w, h parsed as floats and t as a timestamp, in that order. */
  function DecodeRectRegion(rectRegion: Element, parseFloat: FloatParser): (r: Result<RectRegion>)
    ensures HasDiagnostic(r)
  {
    var xText :- RequiredAttribute(rectRegion, "rect_region", "x");
    var x :- ParseFloatField(xText, "result_rect_region.x", parseFloat);
    var yText :- RequiredAttribute(rectRegion, "rect_region", "y");
    var y :- ParseFloatField(yText, "result_rect_region.y", parseFloat);
    var wText :- RequiredAttribute(rectRegion, "rect_region", "w");
    var width :- ParseFloatField(wText, "result_rect_region.width", parseFloat);
    var hText :- RequiredAttribute(rectRegion, "rect_region", "h");
    var height :- ParseFloatField(hText, "result_rect_region.height", parseFloat);
    var tText :- RequiredAttribute(rectRegion, "rect_region", "t");
    var time :- ParseTime(tText);
    Ok(RectRegion(x, y, width, height, time))
  }

  /** The start rectangle and, when there is a second one, the end rectangle. */
  datatype Regions = Regions(start: RectRegion, end: Option<RectRegion>)

  /** The rectangles of a <movingRegion> from its <rectRegion> children, given
      how one rectangle decodes: there must be one or two; the first two are
      decoded, in order, before a third is reported. */
  function CollectRegions(regions: seq<Element>, decodeOne: Element -> Result<RectRegion>): (r: Result<Regions>)
    ensures r.Ok? <==> 1 <= |regions| <= 2 && decodeOne(regions[0]).Ok? && (|regions| == 2 ==> decodeOne(regions[1]).Ok?)
    ensures r.Ok? ==> decodeOne(regions[0]) == Ok(r.value.start)
    ensures r.Ok? ==> (r.value.end.Some? <==> |regions| == 2)
    ensures r.Ok? && r.value.end.Some? ==> decodeOne(regions[1]) == Ok(r.value.end.value)
  {
    if |regions| == 0 then Err("<movingRegion> without <rectRegion>")
    else
      var start :- decodeOne(regions[0]);
      if |regions| == 1 then Ok(Regions(start, None))
      else
        var end :- decodeOne(regions[1]);
        if |regions| > 2 then Err("More than 2 <rectRegion> in <movingRegion>")
        else Ok(Regions(start, Some(end)))
  }

  /** DecodeRectRegion with the float parser fixed. */
  function RectRegionDecoder(parseFloat: FloatParser): Element -> Result<RectRegion>
  {
    e => DecodeRectRegion(e, parseFloat)
  }

  /** The rectangles of a <movingRegion>. */
  function DecodeRectRegions(movingRegion: Element, parseFloat: FloatParser): (r: Result<Regions>)
    ensures HasDiagnostic(r)
  {
    CollectRegions(ElementsNamed(movingRegion.children, "rectRegion"), RectRegionDecoder(parseFloat))
  }

  // ---------------------------------------------------------------------------
  // Text, action and segment

  /** The optional <TEXT> child: absent gives the empty text; present, it must
      hold a text node first. */
  function ReadText(annotation: Element): (r: Result<string>)
    ensures HasDiagnostic(r)
    ensures FirstChildElement(annotation, "TEXT").None? ==> r == Ok("")
    ensures FirstChildElement(annotation, "TEXT").Some? ==>
              (r.Ok? <==> GetText(FirstChildElement(annotation, "TEXT").value).Some?)
    ensures FirstChildElement(annotation, "TEXT").Some? && r.Ok? ==>
              GetText(FirstChildElement(annotation, "TEXT").value) == Some(r.value)
    ensures r.Err? ==> r.message == "<TEXT> with no text"
  {
    match FirstChildElement(annotation, "TEXT")
    case None => Ok("")
    case Some(textElement) => Need(GetText(textElement), "<TEXT> with no text")
  }

  /** The annotation's type and click URL as decided by its <action>. */
  datatype Link = Link(kind: Option<Type>, clickUrl: string)

  /** The type derivation: no <action> is a note; otherwise the action must be an
      "openUrl" on "click" with a <url> that has a value and a target; target
      "current" is gameplay, target "new" is an external link whose url type
      must be "hyperlink", and any other target leaves the type unassigned. */
  function DeriveType(annotation: Element): (r: Result<Link>)
    ensures HasDiagnostic(r)
  {
    match FirstChildElement(annotation, "action")
    case None => Ok(Link(Some(Notes), ""))
    case Some(action) =>
      var _ :- ExpectAttribute(action, "action", "type", "openUrl");
      var _ :- ExpectAttribute(action, "action", "trigger", "click");
      var url :- Need(FirstChildElement(action, "url"), "<action> with no url");
      var value :- RequiredAttribute(url, "url", "value");
      var target :- RequiredAttribute(url, "url", "target");
      if target == "current" then Ok(Link(Some(Gameplay), value))
      else if target == "new" then
        var _ :- ExpectAttribute(url, "url", "type", "hyperlink");
        Ok(Link(Some(ExternalLink), value))
      else Ok(Link(None, value))
  }

  /** The value of an optional attribute, empty when it is absent. */
  function OptionalAttribute(node: Element, attribute: string): (value: string)
    ensures FindAttribute(node, attribute).Some? ==> FindAttribute(node, attribute) == Some(value)
    ensures FindAttribute(node, attribute).None? ==> value == ""
  {
    match FindAttribute(node, attribute)
    case Some(v) => v
    case None => ""
  }

  /** What the decoder knows of a real annotation before its rectangles. */
  datatype Preamble = Preamble(id: string, text: string, link: Link, movingRegion: Element)

  /** The checks before the rectangles. Ok(None) is a "non-real" annotation,
      skipped without error: a type other than "text", a style other than
      "popup", or a <segment> without children. */
  function ReadPreamble(annotation: Element): (r: Result<Option<Preamble>>)
    ensures HasDiagnostic(r)
  {
    var id := OptionalAttribute(annotation, "id");
    var annotationType :- RequiredAttribute(annotation, "annotation", "type");
    if annotationType != "text" then Ok(None)
    else
      var style :- RequiredAttribute(annotation, "annotation", "style");
      if style != "popup" then Ok(None)
      else
        var text :- ReadText(annotation);
        var link :- DeriveType(annotation);
        var segment :- Need(FirstChildElement(annotation, "segment"), "<annotation> without <segment>");
        if NoChildren(segment) then Ok(None)
        else
          var movingRegion :- Need(FirstChildElement(segment, "movingRegion"), "<segment> without <movingRegion>");
          var _ :- ExpectAttribute(movingRegion, "moving_region", "type", "rect");
          Ok(Some(Preamble(id, text, link, movingRegion)))
  }

  // ---------------------------------------------------------------------------
  // Appearance

  datatype Appearance = Appearance(textSize: real, backgroundRgb: nat, backgroundAlpha: real, foregroundRgb: nat)

  /** A colour attribute of <appearance>: required, parsed as a 32-bit
      unsigned number, and checked against 0xFFFFFF. */
  function ReadColour(appearance: Element, attribute: string, target: string, colorName: string): (r: Result<nat>)
    ensures HasDiagnostic(r)
    ensures r.Ok? <==> (&& FindAttribute(appearance, attribute).Some?
                        && FromCharsU32(FindAttribute(appearance, attribute).value).Some?
                        && FromCharsU32(FindAttribute(appearance, attribute).value).value <= MaxRgb)
    ensures r.Ok? ==> FromCharsU32(FindAttribute(appearance, attribute).value) == Some(r.value)
  {
    var text :- RequiredAttribute(appearance, "appearance", attribute);
    var value :- ParseRgbField(text, target);
    CheckRgb(value, colorName)
  }

  /** The bgAlpha attribute of <appearance>: required, parsed as a float, and
      checked to lie in [0, 1]. */
  function ReadAlpha(appearance: Element, parseFloat: FloatParser): (r: Result<real>)
    ensures HasDiagnostic(r)
    ensures r.Ok? <==> (&& FindAttribute(appearance, "bgAlpha").Some?
                        && parseFloat(FindAttribute(appearance, "bgAlpha").value).Some?
                        && 0.0 <= parseFloat(FindAttribute(appearance, "bgAlpha").value).value <= 1.0)
    ensures r.Ok? ==> parseFloat(FindAttribute(appearance, "bgAlpha").value) == Some(r.value)
  {
    var text :- RequiredAttribute(appearance, "appearance", "bgAlpha");
    var alpha :- ParseFloatField(text, "background_alpha", parseFloat);
    if 0.0 <= alpha <= 1.0 then Ok(alpha)
    else Err("Background alpha is invalid (" + text + "). The valid range is: [0.0, 1.0]")
  }

  /** The <appearance> child of the annotation: textSize, bgColor, bgAlpha,
      fgColor and effects, read and checked in that order. */
  function DecodeAppearance(annotation: Element, parseFloat: FloatParser): (r: Result<Appearance>)
    ensures HasDiagnostic(r)
  {
    var appearance :- Need(FirstChildElement(annotation, "appearance"), "<annotation> without <appearance>");
    var textSizeText :- RequiredAttribute(appearance, "appearance", "textSize");
    var textSize :- ParseFloatField(textSizeText, "result_annotation.text_size", parseFloat);
    var bgColor :- ReadColour(appearance, "bgColor", "background_color", "Background");
    var bgAlpha :- ReadAlpha(appearance, parseFloat);
    var fgColor :- ReadColour(appearance, "fgColor", "foreground_color", "Foreground");
    var effects :- RequiredAttribute(appearance, "appearance", "effects");
    if effects != "" then
      Err("The \"effects\" attribute of <appearance> is not empty. \"effects\" is (currently) not supported")
    else
      Ok(Appearance(textSize, bgColor, bgAlpha, fgColor))
  }

  // ---------------------------------------------------------------------------
  // One annotation, the list, the document

  function Assemble(p: Preamble, regions: Regions, look: Appearance): (a: Annotation)
    ensures a.id == p.id && a.text == p.text
    ensures Link(a.kind, a.clickUrl) == p.link
    ensures Regions(a.startRect, a.endRect) == regions
    ensures Appearance(a.textSize, a.backgroundRgb, a.backgroundAlpha, a.foregroundRgb) == look
  {
    Annotation(p.id, p.text, regions.start, regions.end, look.backgroundRgb, look.backgroundAlpha,
               look.foregroundRgb, look.textSize, p.link.clickUrl, p.link.kind)
  }

  /** One <annotation> element: Ok(None) when it is filtered out, Ok(Some(a))
      when it is decoded, Err at its first violation. */
  function DecodeAnnotation(annotation: Element, parseFloat: FloatParser): (r: Result<Option<Annotation>>)
    ensures HasDiagnostic(r)
  {
    var preamble :- ReadPreamble(annotation);
    match preamble
    case None => Ok(None)
    case Some(p) =>
      var regions :- DecodeRectRegions(p.movingRegion, parseFloat);
      var look :- DecodeAppearance(annotation, parseFloat);
      Ok(Some(Assemble(p, regions, look)))
  }

  /** The <annotation> elements in document order, given how one element
      decodes: the decoded ones kept, the filtered ones dropped, and the first
      violation ending everything. */
  function DecodeList(elements: seq<Element>, decodeOne: Element -> Result<Option<Annotation>>): (r: Result<seq<Annotation>>)
    ensures (forall e :: HasDiagnostic(decodeOne(e))) ==> HasDiagnostic(r)
    ensures r.Ok? ==> |r.value| <= |elements|
  {
    if elements == [] then Ok([])
    else
      var first :- decodeOne(elements[0]);
      var rest :- DecodeList(elements[1..], decodeOne);
      Ok(if first.Some? then [first.value] + rest else rest)
  }

  /** DecodeAnnotation with the float parser fixed. */
  function ElementDecoder(parseFloat: FloatParser): Element -> Result<Option<Annotation>>
  {
    e => DecodeAnnotation(e, parseFloat)
  }

  /** The annotation loop of parse_annotations over the <annotation> elements. */
  function DecodeAnnotationList(elements: seq<Element>, parseFloat: FloatParser): (r: Result<seq<Annotation>>)
    ensures HasDiagnostic(r)
    ensures r.Ok? ==> |r.value| <= |elements|
  {
    DecodeList(elements, ElementDecoder(parseFloat))
  }

  /** The result for a file tinyxml2 could not load. */
  function LoadFailure(status: LoadStatus, filename: string): (r: ParseAnnotationsResult)
    requires status != XmlSuccess
    ensures r.annotations == [] && |r.errorString| > 0
    ensures r.error == FileNotFound <==> status == XmlErrorFileNotFound
    ensures r.error == CannotReadFile <==> status == XmlErrorFileCouldNotBeOpened || status == XmlErrorFileReadError
    ensures r.error == InvalidXml <==> status.XmlErrorOther?
  {
    match status
    case XmlErrorFileNotFound => Failed(FileNotFound, "File \"" + filename + "\" not found")
    case XmlErrorFileCouldNotBeOpened => Failed(CannotReadFile, "Cannot open or read file")
    case XmlErrorFileReadError => Failed(CannotReadFile, "Cannot open or read file")
    case XmlErrorOther(name, str) =>
      Failed(InvalidXml, "XML parse error: " + filename + ". Error type: " + name + ". Error: " + str + "\n")
  }

  /** parse_annotations, as a function of the load status, the file name (only
      used in diagnostics) and the loaded tree: either Success with the decoded
      annotations and an empty error string, or an error kind with no
      annotations and a non-empty diagnostic. */
  function DecodeDocument(status: LoadStatus, filename: string, doc: seq<Node>, parseFloat: FloatParser): (r: ParseAnnotationsResult)
    ensures r.error != Success ==> r.annotations == []
    ensures r.error == Success <==> r.errorString == ""
  {
    if status != XmlSuccess then LoadFailure(status, filename)
    else
      match FirstElement(doc, "document")
      case None => Failed(InvalidFormat, "File with no <document>")
      case Some(document) =>
        match FirstChildElement(document, "annotations")
        case None => Failed(InvalidFormat, "<document> with no <annotations> inside")
        case Some(annotations) =>
          if FirstChildElement(annotations, "annotation").None? then
            Failed(InvalidFormat, "<annotations> with no <annotation> inside")
          else
            match DecodeAnnotationList(ElementsNamed(annotations.children, "annotation"), parseFloat)
            case Err(message) => Failed(InvalidFormat, message)
            case Ok(list) => ParseAnnotationsResult(Success, list, "")
  }

  // ---------------------------------------------------------------------------
  // The source's loops

  /** The rectRegion do-while: walk the <rectRegion> siblings with
      NextSiblingElement, counting them in `index`; the first fills the start
      rectangle, the second the end rectangle, a third is an error.
      `decodeOne` is the decoding of one rectangle's attributes. */
  method ReadRectRegions(movingRegion: Element, decodeOne: Element -> Result<RectRegion>) returns (r: Result<Regions>)
    ensures r == CollectRegions(ElementsNamed(movingRegion.children, "rectRegion"), decodeOne)
  {
    var siblings := movingRegion.children;
    ghost var regions := ElementsNamed(siblings, "rectRegion");
    assert siblings[..|siblings|] == siblings;
    var cursor := NextElementIndex(siblings, "rectRegion", 0);
    if cursor.None? {
      ElementsNamedGap(siblings, "rectRegion", 0, |siblings|);
      return Err("<movingRegion> without <rectRegion>");
    }
    var i := cursor.value;
    ElementsNamedGap(siblings, "rectRegion", 0, i);
    ElementsNamedAt(siblings, "rectRegion", i);
    var index := 0;
    var startRect := RectRegion(0.0, 0.0, 0.0, 0.0, 0);
    var endRect: Option<RectRegion> := None;
    while true
      invariant i < |siblings| && IsElementNamed(siblings[i], "rectRegion")
      invariant index == |ElementsNamed(siblings[..i], "rectRegion")| <= 2
      invariant index < |regions| && regions[index] == siblings[i].element
      invariant index >= 1 ==> decodeOne(regions[0]) == Ok(startRect)
      invariant index == 2 ==> endRect.Some? && decodeOne(regions[1]) == Ok(endRect.value)
      invariant index < 2 ==> endRect.None?
      decreases |siblings| - i
    {
      if index > 1 {
        return Err("More than 2 <rectRegion> in <movingRegion>");
      }
      var rect := decodeOne(siblings[i].element);
      if rect.Err? {
        return Err(rect.message);
      }
      if index == 0 {
        startRect := rect.value;
      } else {
        endRect := Some(rect.value);
      }
      index := index + 1;
      NextSiblingStep(siblings, "rectRegion", i);
      var next := NextSiblingElement(siblings, i, "rectRegion");
      if next.None? {
        break;
      }
      i := next.value;
    }
    r := Ok(Regions(startRect, endRect));
  }

  /** The body of the annotation do-while for one element: the checks before
      the rectangles, the rectangle loop, then the appearance. */
  method ParseAnnotation(annotation: Element, parseFloat: FloatParser) returns (r: Result<Option<Annotation>>)
    ensures r == DecodeAnnotation(annotation, parseFloat)
  {
    var preamble := ReadPreamble(annotation);
    if preamble.Err? {
      return Err(preamble.message);
    }
    if preamble.value.None? {
      return Ok(None);  // not a real annotation: `continue`
    }
    var p := preamble.value.value;
    var regions := ReadRectRegions(p.movingRegion, RectRegionDecoder(parseFloat));
    if regions.Err? {
      return Err(regions.message);
    }
    var look := DecodeAppearance(annotation, parseFloat);
    if look.Err? {
      return Err(look.message);
    }
    r := Ok(Some(Assemble(p, regions.value, look.value)));
  }

  /** The decoded list followed by what decoding the rest gives. */
  ghost function Prepend(done: seq<Annotation>, rest: Result<seq<Annotation>>): Result<seq<Annotation>>
  {
    if rest.Err? then rest else Ok(done + rest.value)
  }

  /** Appending the kept annotations of one more element to what is already decoded. */
  lemma PrependAppend(done: seq<Annotation>, kept: seq<Annotation>, rest: Result<seq<Annotation>>)
    ensures Prepend(done, Prepend(kept, rest)) == Prepend(done + kept, rest)
  {
    if rest.Ok? {
      assert done + (kept + rest.value) == (done + kept) + rest.value;
    }
  }

  /** One step of the list decoding: the head's outcome, then the tail's. */
  lemma DecodeListCons(elements: seq<Element>, decodeOne: Element -> Result<Option<Annotation>>)
    requires |elements| > 0
    ensures var d := decodeOne(elements[0]);
            DecodeList(elements, decodeOne)
            == if d.Err? then Err(d.message)
               else Prepend(if d.value.Some? then [d.value.value] else [], DecodeList(elements[1..], decodeOne))
  {
    var rest := DecodeList(elements[1..], decodeOne);
    if rest.Ok? {
      assert [] + rest.value == rest.value;
    }
  }

  /** DecodeDocument once the file is loaded and holds a <document>, an
      <annotations> and at least one <annotation>: the outcome of the list. */
  lemma DecodeDocumentOfList(filename: string, doc: seq<Node>, parseFloat: FloatParser)
    requires FirstElement(doc, "document").Some?
    requires FirstChildElement(FirstElement(doc, "document").value, "annotations").Some?
    requires FirstChildElement(FirstChildElement(FirstElement(doc, "document").value, "annotations").value, "annotation").Some?
    ensures var list := DecodeAnnotationList(ElementsNamed(FirstChildElement(FirstElement(doc, "document").value, "annotations").value.children, "annotation"), parseFloat);
            && (list.Err? ==> DecodeDocument(XmlSuccess, filename, doc, parseFloat) == Failed(InvalidFormat, list.message))
            && (list.Ok? ==> DecodeDocument(XmlSuccess, filename, doc, parseFloat) == ParseAnnotationsResult(Success, list.value, ""))
  {
  }

  /** One pass of the annotation loop: with `done` decoded before element k,
      an error of element k is the list's error, and otherwise element k's
      annotation (when kept) joins `done`. */
  lemma DecodeListStep(all: seq<Element>, k: nat, decodeOne: Element -> Result<Option<Annotation>>, done: seq<Annotation>)
    requires k < |all|
    requires DecodeList(all, decodeOne) == Prepend(done, DecodeList(all[k..], decodeOne))
    ensures var d := decodeOne(all[k]);
            && (d.Err? ==> DecodeList(all, decodeOne) == Err(d.message))
            && (d.Ok? ==> DecodeList(all, decodeOne)
                          == Prepend(done + (if d.value.Some? then [d.value.value] else []), DecodeList(all[k + 1..], decodeOne)))
  {
    var d := decodeOne(all[k]);
    DecodeListCons(all[k..], decodeOne);
    assert all[k..][0] == all[k];
    assert all[k..][1..] == all[k + 1..];
    if d.Ok? {
      PrependAppend(done, if d.value.Some? then [d.value.value] else [], DecodeList(all[k + 1..], decodeOne));
    }
  }

  /** After the last element, what has been decoded is the list. */
  lemma DecodeListDone(all: seq<Element>, decodeOne: Element -> Result<Option<Annotation>>, done: seq<Annotation>, rest: seq<Element>)
    requires rest == []
    requires DecodeList(all, decodeOne) == Prepend(done, DecodeList(rest, decodeOne))
    ensures DecodeList(all, decodeOne) == Ok(done)
  {
    assert DecodeList(rest, decodeOne) == Ok([]);
    assert done + [] == done;
  }

  /** The annotation do-while of parse_annotations: from the first
      <annotation> child, visit each <annotation> sibling with
      NextSiblingElement, append each real annotation to the result, and stop
      at the first violation. */
  method ParseAnnotationList(siblings: seq<Node>, parseFloat: FloatParser) returns (r: Result<seq<Annotation>>)
    requires NextElementIndex(siblings, "annotation", 0).Some?
    ensures r == DecodeAnnotationList(ElementsNamed(siblings, "annotation"), parseFloat)
  {
    ghost var all := ElementsNamed(siblings, "annotation");
    ghost var decodeOne := ElementDecoder(parseFloat);
    assert siblings[..|siblings|] == siblings;
    var i := NextElementIndex(siblings, "annotation", 0).value;
    ElementsNamedGap(siblings, "annotation", 0, i);
    ElementsNamedAt(siblings, "annotation", i);
    ghost var k := 0;
    assert all[k..] == all;
    assert Prepend([], DecodeList(all, decodeOne)) == DecodeList(all, decodeOne) by {
      var d := DecodeList(all, decodeOne);
      if d.Ok? {
        assert [] + d.value == d.value;
      }
    }
    var resultAnnotations: seq<Annotation> := [];
    while true
      invariant i < |siblings| && IsElementNamed(siblings[i], "annotation")
      invariant k == |ElementsNamed(siblings[..i], "annotation")|
      invariant k < |all| && all[k] == siblings[i].element
      invariant DecodeList(all, decodeOne) == Prepend(resultAnnotations, DecodeList(all[k..], decodeOne))
      decreases |siblings| - i
    {
      var decoded := ParseAnnotation(siblings[i].element, parseFloat);
      assert decoded == decodeOne(all[k]);
      DecodeListStep(all, k, decodeOne, resultAnnotations);
      if decoded.Err? {
        return Err(decoded.message);
      }
      var kept := if decoded.value.Some? then [decoded.value.value] else [];
      resultAnnotations := resultAnnotations + kept;
      NextSiblingStep(siblings, "annotation", i);
      k := k + 1;
      var next := NextSiblingElement(siblings, i, "annotation");
      if next.None? {
        DecodeListDone(all, decodeOne, resultAnnotations, all[k..]);
        break;
      }
      i := next.value;
    }
    r := Ok(resultAnnotations);
  }

  /** parse_annotations: the load-status switch, the three structural lookups,
      then the annotation loop. */
  method ParseAnnotations(status: LoadStatus, filename: string, doc: seq<Node>, parseFloat: FloatParser)
    returns (result: ParseAnnotationsResult)
    ensures result == DecodeDocument(status, filename, doc, parseFloat)
  {
    if status != XmlSuccess {
      return LoadFailure(status, filename);
    }
    var document := FirstElement(doc, "document");
    if document.None? {
      return Failed(InvalidFormat, "File with no <document>");
    }
    var annotations := FirstChildElement(document.value, "annotations");
    if annotations.None? {
      return Failed(InvalidFormat, "<document> with no <annotations> inside");
    }
    if NextElementIndex(annotations.value.children, "annotation", 0).None? {
      return Failed(InvalidFormat, "<annotations> with no <annotation> inside");
    }
    var list := ParseAnnotationList(annotations.value.children, parseFloat);
    DecodeDocumentOfList(filename, doc, parseFloat);
    if list.Err? {
      return Failed(InvalidFormat, list.message);
    }
    result := ParseAnnotationsResult(Success, list.value, "");
  }
}
