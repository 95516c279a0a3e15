/** What parse_annotations promises, stated over the decoding functions:
    the load-status mapping, the structural errors, the filtering of
    "non-real" annotations and the order of the result, error precedence,
    the type derivation, the rectangle count, the timestamp and the
    appearance checks. */
module DecoderProperties {
  import opened Wrappers
  import opened Xml
  import opened Numbers
  import opened Annotations
  import opened AnnotationDecoder

  // ---------------------------------------------------------------------------
  // Document level

  /** The load status decides the error kind of a file that did not load:
      not found is file_not_found, could-not-open and read errors are
      cannot_read_file, anything else is invalid_xml; a loaded file never
      gives any of these three. */
  lemma LoadStatusMapping(status: LoadStatus, filename: string, doc: seq<Node>, parseFloat: FloatParser)
    ensures var r := DecodeDocument(status, filename, doc, parseFloat);
            && (r.error == FileNotFound <==> status == XmlErrorFileNotFound)
            && (r.error == CannotReadFile <==> status == XmlErrorFileCouldNotBeOpened || status == XmlErrorFileReadError)
            && (r.error == InvalidXml <==> status.XmlErrorOther?)
            && (status == XmlSuccess <==> r.error in {Success, InvalidFormat})
  {
    if status == XmlSuccess {
      var r := DecodeDocument(status, filename, doc, parseFloat);
      assert r.error == Success || r.error == InvalidFormat;
    }
  }

  /** A loaded file without <document>, without <annotations> in it, or without
      any <annotation> in that is invalid_format. */
  lemma MissingStructureIsInvalidFormat(filename: string, doc: seq<Node>, parseFloat: FloatParser)
    ensures var r := DecodeDocument(XmlSuccess, filename, doc, parseFloat);
            var document := FirstElement(doc, "document");
            && (document.None? ==> r == Failed(InvalidFormat, "File with no <document>"))
            && (document.Some? && FirstChildElement(document.value, "annotations").None? ==>
                  r == Failed(InvalidFormat, "<document> with no <annotations> inside"))
            && (document.Some? && FirstChildElement(document.value, "annotations").Some?
                && ElementsNamed(FirstChildElement(document.value, "annotations").value.children, "annotation") == [] ==>
                  r == Failed(InvalidFormat, "<annotations> with no <annotation> inside"))
  {
    var document := FirstElement(doc, "document");
    if document.Some? && FirstChildElement(document.value, "annotations").Some? {
      FirstElementIsHead(FirstChildElement(document.value, "annotations").value.children, "annotation");
    }
  }

  // ---------------------------------------------------------------------------
  // Filtering

  /** A "real" annotation: type "text", style "popup", and a <segment> that has
      children. Only these are decoded; the others are skipped. */
  predicate IsRealAnnotation(e: Element)
  {
    && FindAttribute(e, "type") == Some("text")
    && FindAttribute(e, "style") == Some("popup")
    && FirstChildElement(e, "segment").Some?
    && !NoChildren(FirstChildElement(e, "segment").value)
  }

  /** The real annotations among `elements`, in order. */
  function RealElements(elements: seq<Element>): (r: seq<Element>)
    ensures |r| <= |elements|
    ensures forall k :: 0 <= k < |r| ==> IsRealAnnotation(r[k])
  {
    if elements == [] then []
    else (if IsRealAnnotation(elements[0]) then [elements[0]] else []) + RealElements(elements[1..])
  }

  /** When the checks before the rectangles pass, they keep exactly the real annotations. */
  lemma PreambleKeepsRealOnly(e: Element)
    requires ReadPreamble(e).Ok?
    ensures ReadPreamble(e).value.Some? <==> IsRealAnnotation(e)
  {
  }

  /** An annotation that decodes without error is kept exactly when it is real. */
  lemma DecodedIffReal(e: Element, parseFloat: FloatParser)
    requires DecodeAnnotation(e, parseFloat).Ok?
    ensures DecodeAnnotation(e, parseFloat).value.Some? <==> IsRealAnnotation(e)
  {
    PreambleKeepsRealOnly(e);
  }

  /** Filtered annotations cause no error: a type other than "text", or type
      "text" with a style other than "popup", is skipped whatever else the
      element holds. */
  lemma FilteredWithoutError(e: Element, parseFloat: FloatParser)
    ensures FindAttribute(e, "type").Some? && FindAttribute(e, "type").value != "text"
            ==> DecodeAnnotation(e, parseFloat) == Ok(None)
    ensures FindAttribute(e, "type") == Some("text") && FindAttribute(e, "style").Some? && FindAttribute(e, "style").value != "popup"
            ==> DecodeAnnotation(e, parseFloat) == Ok(None)
  {
  }

  /** A violation before the rectangles is the violation of the whole annotation. */
  lemma PreambleViolationPropagates(e: Element, parseFloat: FloatParser)
    requires ReadPreamble(e).Err?
    ensures DecodeAnnotation(e, parseFloat) == Err(ReadPreamble(e).message)
  {
  }

  /** A missing type attribute is an error. */
  lemma MissingType(e: Element, parseFloat: FloatParser)
    requires FindAttribute(e, "type").None?
    ensures DecodeAnnotation(e, parseFloat) == Err(MissingAttributeMessage("annotation", "type"))
  {
    assert ReadPreamble(e) == Err(MissingAttributeMessage("annotation", "type"));
    PreambleViolationPropagates(e, parseFloat);
  }

  /** A missing style on an element of type "text" is an error. */
  lemma MissingStyle(e: Element, parseFloat: FloatParser)
    requires FindAttribute(e, "type") == Some("text") && FindAttribute(e, "style").None?
    ensures DecodeAnnotation(e, parseFloat) == Err(MissingAttributeMessage("annotation", "style"))
  {
    assert ReadPreamble(e) == Err(MissingAttributeMessage("annotation", "style"));
    PreambleViolationPropagates(e, parseFloat);
  }

  /** The elements a decoder keeps (decodes to Ok(Some(_))), in order. */
  ghost function Kept(elements: seq<Element>, decodeOne: Element -> Result<Option<Annotation>>): (r: seq<Element>)
    ensures |r| <= |elements|
  {
    if elements == [] then []
    else
      var d := decodeOne(elements[0]);
      (if d.Ok? && d.value.Some? then [elements[0]] else []) + Kept(elements[1..], decodeOne)
  }

  /** On success the list holds one annotation per kept element, in document
      order: the j-th entry is what the j-th kept element decodes to. */
  lemma {:induction false} SuccessKeepsInOrder(elements: seq<Element>, decodeOne: Element -> Result<Option<Annotation>>)
    requires DecodeList(elements, decodeOne).Ok?
    ensures var list := DecodeList(elements, decodeOne).value;
            && |list| == |Kept(elements, decodeOne)|
            && forall j :: 0 <= j < |list| ==> decodeOne(Kept(elements, decodeOne)[j]) == Ok(Some(list[j]))
  {
    if elements != [] {
      DecodeListCons(elements, decodeOne);
      SuccessKeepsInOrder(elements[1..], decodeOne);
      var tail := DecodeList(elements[1..], decodeOne).value;
      var list := DecodeList(elements, decodeOne).value;
      var kept := Kept(elements, decodeOne);
      var d := decodeOne(elements[0]);
      if d.value.Some? {
        assert list == [d.value.value] + tail;
        assert kept == [elements[0]] + Kept(elements[1..], decodeOne);
        forall j | 0 <= j < |list|
          ensures decodeOne(kept[j]) == Ok(Some(list[j]))
        {
          if j > 0 {
            assert kept[j] == Kept(elements[1..], decodeOne)[j - 1];
          }
        }
      } else {
        assert [] + tail == tail;
        assert list == tail;
        assert kept == [] + Kept(elements[1..], decodeOne);
      }
    }
  }

  /** Error precedence: the list fails exactly when some element fails, and then
      with the diagnostic of the first failing element, every earlier one having
      decoded (or been skipped) without error. */
  lemma {:induction false} FirstViolationWins(elements: seq<Element>, decodeOne: Element -> Result<Option<Annotation>>)
    ensures DecodeList(elements, decodeOne).Err?
            <==> exists j :: 0 <= j < |elements| && decodeOne(elements[j]).Err?
    ensures DecodeList(elements, decodeOne).Err? ==>
            exists j :: 0 <= j < |elements|
                     && decodeOne(elements[j]) == Err(DecodeList(elements, decodeOne).message)
                     && forall i :: 0 <= i < j ==> decodeOne(elements[i]).Ok?
  {
    if elements != [] {
      DecodeListCons(elements, decodeOne);
      FirstViolationWins(elements[1..], decodeOne);
      var list := DecodeList(elements, decodeOne);
      if decodeOne(elements[0]).Ok? {
        if list.Err? {
          var j :| 0 <= j < |elements[1..]|
                   && decodeOne(elements[1..][j]) == Err(list.message)
                   && forall i :: 0 <= i < j ==> decodeOne(elements[1..][i]).Ok?;
          assert decodeOne(elements[j + 1]) == Err(list.message);
          forall i | 0 <= i < j + 1
            ensures decodeOne(elements[i]).Ok?
          {
            if i > 0 {
              assert elements[i] == elements[1..][i - 1];
            }
          }
        } else {
          forall j | 0 <= j < |elements|
            ensures decodeOne(elements[j]).Ok?
          {
            if j > 0 {
              assert elements[j] == elements[1..][j - 1];
            }
          }
        }
      }
    }
  }

  /** A list in which every element is skipped decodes, without error, to no
      annotations: success may carry an empty list. */
  lemma {:induction false} AllFilteredIsEmptySuccess(elements: seq<Element>, decodeOne: Element -> Result<Option<Annotation>>)
    requires forall j :: 0 <= j < |elements| ==> decodeOne(elements[j]) == Ok(None)
    ensures DecodeList(elements, decodeOne) == Ok([])
  {
    if elements != [] {
      assert forall j :: 0 <= j < |elements[1..]| ==> elements[1..][j] == elements[j + 1];
      AllFilteredIsEmptySuccess(elements[1..], decodeOne);
      DecodeListCons(elements, decodeOne);
      assert DecodeList(elements[1..], decodeOne).value == [];
    }
  }

  /** When every element decodes without error, the annotation decoder keeps
      exactly the real ones. */
  lemma {:induction false} KeptAreReal(elements: seq<Element>, parseFloat: FloatParser)
    requires forall j :: 0 <= j < |elements| ==> DecodeAnnotation(elements[j], parseFloat).Ok?
    ensures Kept(elements, ElementDecoder(parseFloat)) == RealElements(elements)
  {
    if elements != [] {
      DecodedIffReal(elements[0], parseFloat);
      assert forall j :: 0 <= j < |elements[1..]| ==> elements[1..][j] == elements[j + 1];
      KeptAreReal(elements[1..], parseFloat);
    }
  }

  /** On success the decoded list holds exactly the real annotations, in
      document order: the j-th entry is what the j-th real element decodes to. */
  lemma SuccessIsRealInOrder(elements: seq<Element>, parseFloat: FloatParser)
    requires DecodeAnnotationList(elements, parseFloat).Ok?
    ensures var list := DecodeAnnotationList(elements, parseFloat).value;
            && |list| == |RealElements(elements)|
            && forall j :: 0 <= j < |list| ==> DecodeAnnotation(RealElements(elements)[j], parseFloat) == Ok(Some(list[j]))
  {
    var decodeOne := ElementDecoder(parseFloat);
    FirstViolationWins(elements, decodeOne);
    assert forall j :: 0 <= j < |elements| ==> DecodeAnnotation(elements[j], parseFloat).Ok? by {
      forall j | 0 <= j < |elements|
        ensures DecodeAnnotation(elements[j], parseFloat).Ok?
      {
        assert decodeOne(elements[j]).Ok?;
      }
    }
    KeptAreReal(elements, parseFloat);
    SuccessKeepsInOrder(elements, decodeOne);
  }

  /** On success, parse_annotations returns exactly the real <annotation>
      children of <annotations>, decoded, in document order. */
  lemma DocumentSuccess(status: LoadStatus, filename: string, doc: seq<Node>, parseFloat: FloatParser)
    requires DecodeDocument(status, filename, doc, parseFloat).error == Success
    ensures status == XmlSuccess
    ensures FirstElement(doc, "document").Some?
    ensures FirstChildElement(FirstElement(doc, "document").value, "annotations").Some?
    ensures var elements := ElementsNamed(FirstChildElement(FirstElement(doc, "document").value, "annotations").value.children, "annotation");
            var list := DecodeDocument(status, filename, doc, parseFloat).annotations;
            && elements != []
            && |list| == |RealElements(elements)|
            && forall j :: 0 <= j < |list| ==> DecodeAnnotation(RealElements(elements)[j], parseFloat) == Ok(Some(list[j]))
  {
    var annotations := FirstChildElement(FirstElement(doc, "document").value, "annotations").value;
    FirstElementIsHead(annotations.children, "annotation");
    SuccessIsRealInOrder(ElementsNamed(annotations.children, "annotation"), parseFloat);
  }

  // ---------------------------------------------------------------------------
  // Type derivation

  /** TUBE_ADVENTURES_EXPECT_ATTRIBUTE_WITH_VALUE accepts exactly the expected
      value, and a present but different value is reported with the actual one. */
  lemma ExpectAttributeAccepts(node: Element, nodeName: string, attribute: string, expected: string)
    ensures ExpectAttribute(node, nodeName, attribute, expected).Ok? <==> FindAttribute(node, attribute) == Some(expected)
    ensures FindAttribute(node, attribute).Some? && FindAttribute(node, attribute).value != expected ==>
            ExpectAttribute(node, nodeName, attribute, expected)
            == Err("<" + nodeName + " " + attribute + " != \"" + expected + "\"> (actual value = \"" + FindAttribute(node, attribute).value + "\")")
  {
  }

  /** Without an <action> the annotation is a note with an empty click URL. */
  lemma NoActionIsNotes(annotation: Element)
    requires FirstChildElement(annotation, "action").None?
    ensures DeriveType(annotation) == Ok(Link(Some(Notes), ""))
  {
  }

  /** With an <action>: it is accepted exactly when it is an "openUrl" on "click"
      with a <url> that has a value and a target (and type "hyperlink" when the
      target is "new"); the url value becomes the click URL, and the target
      decides the type: "current" is gameplay, "new" an external link, any
      other target leaves the type unassigned. */
  lemma ActionDerivesType(annotation: Element)
    requires FirstChildElement(annotation, "action").Some?
    ensures var action := FirstChildElement(annotation, "action").value;
            var url := FirstChildElement(action, "url");
            var r := DeriveType(annotation);
            && (r.Ok? <==>
                  && FindAttribute(action, "type") == Some("openUrl")
                  && FindAttribute(action, "trigger") == Some("click")
                  && url.Some?
                  && FindAttribute(url.value, "value").Some?
                  && FindAttribute(url.value, "target").Some?
                  && (FindAttribute(url.value, "target") == Some("new") ==> FindAttribute(url.value, "type") == Some("hyperlink")))
            && (r.Ok? ==> Some(r.value.clickUrl) == FindAttribute(url.value, "value"))
            && (r.Ok? ==> (r.value.kind == Some(Gameplay) <==> FindAttribute(url.value, "target") == Some("current")))
            && (r.Ok? ==> (r.value.kind == Some(ExternalLink) <==> FindAttribute(url.value, "target") == Some("new")))
            && (r.Ok? ==> (r.value.kind == None <==> FindAttribute(url.value, "target").value !in {"current", "new"}))
  {
    var action := FirstChildElement(annotation, "action").value;
    ExpectAttributeAccepts(action, "action", "type", "openUrl");
    ExpectAttributeAccepts(action, "action", "trigger", "click");
    var url := FirstChildElement(action, "url");
    if url.Some? {
      ExpectAttributeAccepts(url.value, "url", "type", "hyperlink");
    }
  }

  // ---------------------------------------------------------------------------
  // Rectangles

  /** The rectangle count: none is an error, more than two is an error once the
      first two are decoded, and on success the start rectangle is the first
      <rectRegion> and the end rectangle is present exactly when there are two. */
  lemma RectRegionCount(movingRegion: Element, parseFloat: FloatParser)
    ensures var regions := ElementsNamed(movingRegion.children, "rectRegion");
            var r := DecodeRectRegions(movingRegion, parseFloat);
            && (|regions| == 0 ==> r == Err("<movingRegion> without <rectRegion>"))
            && (|regions| > 2 && DecodeRectRegion(regions[0], parseFloat).Ok? && DecodeRectRegion(regions[1], parseFloat).Ok?
                ==> r == Err("More than 2 <rectRegion> in <movingRegion>"))
            && (r.Ok? ==> 1 <= |regions| <= 2 && DecodeRectRegion(regions[0], parseFloat) == Ok(r.value.start))
            && (r.Ok? ==> (r.value.end.Some? <==> |regions| == 2))
            && (r.Ok? && |regions| == 2 ==> DecodeRectRegion(regions[1], parseFloat) == Ok(r.value.end.value))
  {
  }

  /** A decoded rectangle had x, y, w, h and t, four coordinates that parse
      and a timestamp with four conversions. */
  lemma RectRegionAccepted(e: Element, parseFloat: FloatParser)
    requires DecodeRectRegion(e, parseFloat).Ok?
    ensures FindAttribute(e, "x").Some? && parseFloat(FindAttribute(e, "x").value).Some?
    ensures FindAttribute(e, "y").Some? && parseFloat(FindAttribute(e, "y").value).Some?
    ensures FindAttribute(e, "w").Some? && parseFloat(FindAttribute(e, "w").value).Some?
    ensures FindAttribute(e, "h").Some? && parseFloat(FindAttribute(e, "h").value).Some?
    ensures FindAttribute(e, "t").Some? && ScanTimestamp(FindAttribute(e, "t").value).count == 4
  {
  }

  /** With all five attributes present and parsing, the rectangle decodes to
      exactly those values. */
  lemma RectRegionDecodes(e: Element, parseFloat: FloatParser, x: real, y: real, width: real, height: real, time: nat)
    requires FindAttribute(e, "x").Some? && parseFloat(FindAttribute(e, "x").value) == Some(x)
    requires FindAttribute(e, "y").Some? && parseFloat(FindAttribute(e, "y").value) == Some(y)
    requires FindAttribute(e, "w").Some? && parseFloat(FindAttribute(e, "w").value) == Some(width)
    requires FindAttribute(e, "h").Some? && parseFloat(FindAttribute(e, "h").value) == Some(height)
    requires FindAttribute(e, "t").Some? && ParseTime(FindAttribute(e, "t").value) == Ok(time)
    ensures DecodeRectRegion(e, parseFloat) == Ok(RectRegion(x, y, width, height, time))
  {
  }

  /** An x that does not parse is reported by naming the field it was meant for. */
  lemma UnparsableCoordinateNamesField(e: Element, parseFloat: FloatParser)
    requires FindAttribute(e, "x").Some? && parseFloat(FindAttribute(e, "x").value).None?
    ensures DecodeRectRegion(e, parseFloat) == Err(FromCharsMessage("result_rect_region.x"))
  {
  }

  // ---------------------------------------------------------------------------
  // Timestamps

  /** A timestamp is accepted exactly when sscanf makes four conversions, and
      its value is hours, minutes, seconds and centiseconds in milliseconds. */
  lemma ParseTimeAccepts(t: string)
    ensures ParseTime(t).Ok? <==> ScanTimestamp(t).count == 4
    ensures ParseTime(t).Ok? ==>
            var v := ScanTimestamp(t).values;
            ParseTime(t).value == 3_600_000 * v[0] + 60_000 * v[1] + 1_000 * v[2] + 10 * v[3]
  {
  }

  /** Round trip: the canonical rendering of any four numbers parses back to
      their millisecond sum. */
  lemma ParseTimeRoundTrip(hours: nat, minutes: nat, seconds: nat, centiseconds: nat)
    ensures ParseTime(FormatTimestamp(hours, minutes, seconds, centiseconds)) == Ok(TimestampMs(hours, minutes, seconds, centiseconds))
  {
    ScanTimestampRoundTrip(hours, minutes, seconds, centiseconds);
  }

  /** Four conversions give their millisecond sum. */
  lemma ParseTimeOfScan(t: string, hours: nat, minutes: nat, seconds: nat, centiseconds: nat)
    requires ScanTimestamp(t) == Scanned(4, [hours, minutes, seconds, centiseconds])
    ensures ParseTime(t) == Ok(TimestampMs(hours, minutes, seconds, centiseconds))
  {
  }

  /** Four seconds, with zero-padded fields. */
  lemma ParseTimeFourSeconds()
    ensures ParseTime("0:00:04.00") == Ok(4000)
  {
    ScanFourSeconds();
    ParseTimeOfScan("0:00:04.00", 0, 0, 4, 0);
  }

  /** One minute, 45 seconds and 35 centiseconds. */
  lemma ParseTimeMinuteFortyFive()
    ensures ParseTime("0:01:45.35") == Ok(105350)
  {
    ScanMinuteFortyFive();
    ParseTimeOfScan("0:01:45.35", 0, 1, 45, 35);
  }

  /** The fractional part is a whole number of centiseconds, not two digits:
      ".5" is 5 centiseconds, 50 ms. */
  lemma CentisecondsReadWhole()
    ensures ParseTime("0:00:00.5") == Ok(50)
  {
    ScanSingleDigitFraction();
    ParseTimeOfScan("0:00:00.5", 0, 0, 0, 5);
  }

  /** Any other count is rejected, and the diagnostic shows the count. */
  lemma ParseTimeRejectsCount(t: string)
    requires ScanTimestamp(t).count != 4
    ensures ParseTime(t) == Err(TimestampCountMessage(ScanTimestamp(t).count))
  {
  }

  /** "1:2:3" has no centiseconds: three conversions, rejected. */
  lemma ParseTimeMissingCentiseconds()
    ensures ParseTime("1:2:3") == Err(TimestampCountMessage(3))
  {
    ScanMissingCentiseconds();
    ParseTimeRejectsCount("1:2:3");
  }

  // ---------------------------------------------------------------------------
  // Appearance

  /** A colour check fails exactly above 0xFFFFFF, with a diagnostic that ends
      with the stated maximum. */
  lemma ColourCheck(value: nat, colorName: string)
    ensures CheckRgb(value, colorName).Ok? <==> value <= MaxRgb
    ensures CheckRgb(value, colorName).Err? ==>
            var m := CheckRgb(value, colorName).message;
            |m| >= 16 && m[|m| - 16..] == "Max is: 0xFFFFFF"
  {
  }

  /** A colour written with more digits than fit in 32 bits does not parse. */
  lemma ColourOverflowRejected(n: nat, target: string)
    requires n > U32Max
    ensures ParseRgbField(NatToString(n), target) == Err(FromCharsMessage(target))
  {
    FromCharsU32RoundTrip(n, []);
    assert NatToString(n) + [] == NatToString(n);
  }

  /** An accepted <appearance> has every attribute, two colours that parse and
      lie within 0xFFFFFF, an alpha in [0, 1] and an empty "effects". */
  lemma AppearanceAccepted(annotation: Element, parseFloat: FloatParser)
    requires DecodeAppearance(annotation, parseFloat).Ok?
    ensures FirstChildElement(annotation, "appearance").Some?
    ensures var appearance := FirstChildElement(annotation, "appearance").value;
            var look := DecodeAppearance(annotation, parseFloat).value;
            && FindAttribute(appearance, "bgColor").Some? && FromCharsU32(FindAttribute(appearance, "bgColor").value) == Some(look.backgroundRgb)
            && FindAttribute(appearance, "fgColor").Some? && FromCharsU32(FindAttribute(appearance, "fgColor").value) == Some(look.foregroundRgb)
            && look.backgroundRgb <= MaxRgb && look.foregroundRgb <= MaxRgb
            && 0.0 <= look.backgroundAlpha <= 1.0
            && FindAttribute(appearance, "bgAlpha").Some? && parseFloat(FindAttribute(appearance, "bgAlpha").value) == Some(look.backgroundAlpha)
            && FindAttribute(appearance, "textSize").Some? && parseFloat(FindAttribute(appearance, "textSize").value) == Some(look.textSize)
            && FindAttribute(appearance, "effects") == Some("")
  {
  }

  /** A non-empty "effects" is rejected once the earlier attributes are fine. */
  lemma NonEmptyEffectsRejected(annotation: Element, parseFloat: FloatParser)
    requires FirstChildElement(annotation, "appearance").Some?
    requires FindAttribute(FirstChildElement(annotation, "appearance").value, "effects").Some?
    requires FindAttribute(FirstChildElement(annotation, "appearance").value, "effects").value != ""
    ensures DecodeAppearance(annotation, parseFloat).Err?
  {
  }

  // ---------------------------------------------------------------------------
  // One decoded annotation

  /** A decoded annotation is assembled from the three stages, each of which succeeded. */
  lemma DecodedAnnotationStages(e: Element, parseFloat: FloatParser)
    requires DecodeAnnotation(e, parseFloat).Ok? && DecodeAnnotation(e, parseFloat).value.Some?
    ensures ReadPreamble(e).Ok? && ReadPreamble(e).value.Some?
    ensures var p := ReadPreamble(e).value.value;
            && DecodeRectRegions(p.movingRegion, parseFloat).Ok?
            && DecodeAppearance(e, parseFloat).Ok?
            && DecodeAnnotation(e, parseFloat).value.value
               == Assemble(p, DecodeRectRegions(p.movingRegion, parseFloat).value, DecodeAppearance(e, parseFloat).value)
  {
  }

  /** The <TEXT> of an annotation is accepted exactly when its first child is a
      text node, and its text is that node's; an empty <TEXT/> is rejected. */
  lemma TextIsFirstTextNode(annotation: Element)
    requires FirstChildElement(annotation, "TEXT").Some?
    ensures var t := FirstChildElement(annotation, "TEXT").value;
            && (ReadText(annotation).Ok? <==> |t.children| > 0 && t.children[0].TextNode?)
            && (ReadText(annotation).Ok? ==> t.children[0] == TextNode(ReadText(annotation).value))
            && (NoChildren(t) ==> ReadText(annotation) == Err("<TEXT> with no text"))
  {
  }

  /** What the checks before the rectangles hand on: the id (empty when
      absent), the derived link, and the <movingRegion> of the <segment>. */
  lemma PreambleFields(e: Element, p: Preamble)
    requires ReadPreamble(e) == Ok(Some(p))
    ensures FindAttribute(e, "id").Some? ==> p.id == FindAttribute(e, "id").value
    ensures FindAttribute(e, "id").None? ==> p.id == ""
    ensures ReadText(e) == Ok(p.text)
    ensures DeriveType(e) == Ok(p.link)
    ensures FirstChildElement(e, "segment").Some?
    ensures FirstChildElement(FirstChildElement(e, "segment").value, "movingRegion") == Some(p.movingRegion)
  {
  }

  /** A decoded annotation carries the element's id (empty when absent), its
      <TEXT>, the type and click URL its <action> derives, the first
      <rectRegion> as start rectangle and the second, when there is one, as
      end rectangle, and the text size, colours and alpha of its <appearance>. */
  lemma DecodedAnnotationFields(e: Element, parseFloat: FloatParser)
    requires DecodeAnnotation(e, parseFloat).Ok? && DecodeAnnotation(e, parseFloat).value.Some?
    ensures IsRealAnnotation(e)
    ensures var a := DecodeAnnotation(e, parseFloat).value.value;
            && (FindAttribute(e, "id").Some? ==> a.id == FindAttribute(e, "id").value)
            && (FindAttribute(e, "id").None? ==> a.id == "")
            && ReadText(e) == Ok(a.text)
            && DeriveType(e) == Ok(Link(a.kind, a.clickUrl))
            && a.backgroundRgb <= MaxRgb && a.foregroundRgb <= MaxRgb
            && 0.0 <= a.backgroundAlpha <= 1.0
    ensures FirstChildElement(e, "appearance").Some?
    ensures var a := DecodeAnnotation(e, parseFloat).value.value;
            var appearance := FirstChildElement(e, "appearance").value;
            && FindAttribute(appearance, "textSize").Some? && parseFloat(FindAttribute(appearance, "textSize").value) == Some(a.textSize)
            && FindAttribute(appearance, "bgAlpha").Some? && parseFloat(FindAttribute(appearance, "bgAlpha").value) == Some(a.backgroundAlpha)
            && FindAttribute(appearance, "bgColor").Some? && FromCharsU32(FindAttribute(appearance, "bgColor").value) == Some(a.backgroundRgb)
            && FindAttribute(appearance, "fgColor").Some? && FromCharsU32(FindAttribute(appearance, "fgColor").value) == Some(a.foregroundRgb)
    ensures FirstChildElement(FirstChildElement(e, "segment").value, "movingRegion").Some?
    ensures var a := DecodeAnnotation(e, parseFloat).value.value;
            var movingRegion := FirstChildElement(FirstChildElement(e, "segment").value, "movingRegion").value;
            var regions := ElementsNamed(movingRegion.children, "rectRegion");
            && 1 <= |regions| <= 2
            && DecodeRectRegion(regions[0], parseFloat) == Ok(a.startRect)
            && (a.endRect.Some? <==> |regions| == 2)
            && (|regions| == 2 ==> DecodeRectRegion(regions[1], parseFloat) == Ok(a.endRect.value))
  {
    DecodedIffReal(e, parseFloat);
    DecodedAnnotationStages(e, parseFloat);
    var p := ReadPreamble(e).value.value;
    PreambleFields(e, p);
    RectRegionCount(p.movingRegion, parseFloat);
    AppearanceAccepted(e, parseFloat);
  }
}
