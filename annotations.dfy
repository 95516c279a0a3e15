/** The data model of annotations.hh: one decoded annotation, its time-stamped
    rectangles, the error kinds of the decoder and the decoder's result. */
module Annotations {
  import opened Wrappers

  /** Annotation::Type: what activating the annotation does. */
  datatype Type = Gameplay | Notes | ExternalLink

  /** Annotation::RectRegion: a rectangle in percentages of the frame, shown at
      `time` milliseconds into the video. The coordinates are floats in the
      source; here they are the values the float parser produced. */
  datatype RectRegion = RectRegion(x: real, y: real, width: real, height: real, time: nat)

  /** Annotation. `kind` is the source's `type` field: None when the decoder
      left it unassigned (an action whose url target is neither "current" nor
      "new"). The background colour is an RGB value with an alpha channel, the
      foreground colour an RGB value. */
  datatype Annotation = Annotation(
    id: string,
    text: string,
    startRect: RectRegion,
    endRect: Option<RectRegion>,
    backgroundRgb: nat,
    backgroundAlpha: real,
    foregroundRgb: nat,
    textSize: real,
    clickUrl: string,
    kind: Option<Type>)

  /** ParseAnnotationsError, enumerators in declaration order. */
  datatype ParseAnnotationsError = Success | FileNotFound | CannotReadFile | InvalidXml | InvalidFormat

  /** ParseAnnotationsResult: `annotations` is empty unless `error` is Success. */
  datatype ParseAnnotationsResult = ParseAnnotationsResult(
    error: ParseAnnotationsError,
    annotations: seq<Annotation>,
    errorString: string)

  /** The enumerator names, indexed by underlying value: the table `to_string` reads. */
  const ErrorNames: seq<string> := ["success", "file_not_found", "cannot_read_file", "invalid_xml", "invalid_format"]

  /** The underlying value of an enumerator. */
  function Ordinal(e: ParseAnnotationsError): (i: nat)
    ensures i < |ErrorNames|
  {
    match e
    case Success => 0
    case FileNotFound => 1
    case CannotReadFile => 2
    case InvalidXml => 3
    case InvalidFormat => 4
  }

  /** static_cast from the underlying value back to the enumeration, for values in range. */
  function FromOrdinal(i: nat): (r: Option<ParseAnnotationsError>)
    ensures r.Some? <==> i < |ErrorNames|
  {
    if i == 0 then Some(Success)
    else if i == 1 then Some(FileNotFound)
    else if i == 2 then Some(CannotReadFile)
    else if i == 3 then Some(InvalidXml)
    else if i == 4 then Some(InvalidFormat)
    else None
  }

  /** to_string(ParseAnnotationsError): the enumerator's name, read from the
      table at the enumerator's underlying value, which is always in bounds. */
  function ToString(e: ParseAnnotationsError): (s: string)
    ensures s in ErrorNames
    ensures s == ErrorNames[Ordinal(e)]
  {
    ErrorNames[Ordinal(e)]
  }

  /** The enumeration has exactly five values, numbered 0 to 4 in declaration
      order: the underlying value is a bijection onto the table's indices. */
  lemma OrdinalBijection(e: ParseAnnotationsError, i: nat)
    ensures FromOrdinal(Ordinal(e)) == Some(e)
    ensures i < |ErrorNames| ==> Ordinal(FromOrdinal(i).value) == i
  {
  }

  /** Distinct enumerators have distinct names, so a name identifies its enumerator. */
  lemma ToStringInjective(a: ParseAnnotationsError, b: ParseAnnotationsError)
    ensures ToString(a) == ToString(b) ==> a == b
  {
  }

  /** Each enumerator is written as its own name. */
  lemma ToStringNames()
    ensures ToString(Success) == "success"
    ensures ToString(FileNotFound) == "file_not_found"
    ensures ToString(CannotReadFile) == "cannot_read_file"
    ensures ToString(InvalidXml) == "invalid_xml"
    ensures ToString(InvalidFormat) == "invalid_format"
  {
  }

  /** Reading the name back: the enumerator whose underlying value is the
      name's index in the table is the one that was written. */
  lemma ToStringRoundTrip(e: ParseAnnotationsError, i: nat)
    requires i < |ErrorNames| && ErrorNames[i] == ToString(e)
    ensures FromOrdinal(i) == Some(e)
  {
    OrdinalBijection(e, i);
    ToStringInjective(e, FromOrdinal(i).value);
  }
}
