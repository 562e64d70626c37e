/** Reading a photo's capture time from its EXIF tags (src/photo.rs). */
module ExifDates {
  import opened Wrappers
  import opened Text
  import opened Chrono

  /** An EXIF field value: ASCII (one byte string per component), or any other type. */
  datatype ExifValue = Ascii(strings: seq<seq<Unit>>) | OtherValue

  /** The two tags of the primary image directory that are consulted; an absent tag is
      `None`. */
  datatype ExifTags = ExifTags(dateTimeOriginal: Option<ExifValue>, dateTime: Option<ExifValue>)

  /** What opening a file and reading its EXIF container yields: the file cannot be
      opened, or it opens and its container is readable (`Some`) or not (`None`). */
  datatype ExifFile = CannotOpen(error: Error) | Opened(container: Option<ExifTags>)

  /** A text parser with the behaviour of chrono's `parse_from_str` for the format
      `%Y:%m:%d %H:%M:%S`. */
  type Parser = string -> Option<NaiveDateTime>

  /** `%Y:%m:%d %H:%M:%S`, the EXIF date-time form. */
  function ExifText(t: NaiveDateTime): string
  {
    YearString(t.year) + Sep2(':', t.month) + Sep2(':', t.day) + FormatClock(t.hour, t.minute, ShownSecond(t))
  }

  /** The parser reads back every EXIF date-time text, to the whole second. */
  ghost predicate ReadsExifText(parse: Parser)
  {
    forall t: NaiveDateTime :: parse(ExifText(t)) == Some(WholeSecond(t))
  }

  /** `parse_exif_datetime`: the first component of an ASCII value, decoded lossily and
      trimmed, handed to the parser. */
  function ParseExifDatetime(v: ExifValue, parse: Parser): Option<NaiveDateTime>
  {
    match v
    case Ascii(strings) => if |strings| == 0 then None else parse(Trim(Lossy(strings[0])))
    case OtherValue => None
  }

  /** `get_field(tag, In::PRIMARY).and_then(parse_exif_datetime)`. */
  function TagDatetime(tag: Option<ExifValue>, parse: Parser): Option<NaiveDateTime>
  {
    match tag
    case None => None
    case Some(v) => ParseExifDatetime(v, parse)
  }

  /** `exif_capture_datetime`. */
  function ExifCaptureDatetime(f: ExifFile, parse: Parser): (r: Result<Option<NaiveDateTime>>)
    ensures r.Failure? <==> f.CannotOpen?
    ensures f.CannotOpen? ==> r.error == f.error
  {
    match f
    case CannotOpen(e) => Failure(e)
    case Opened(None) => Success(None)
    case Opened(Some(tags)) =>
      match TagDatetime(tags.dateTimeOriginal, parse)
      case Some(t) => Success(Some(t))
      case None => Success(TagDatetime(tags.dateTime, parse))
  }

  /** A file whose container cannot be read has no capture time, and that is not an
      error. */
  lemma UnreadableContainerIsNoDate(parse: Parser)
    ensures ExifCaptureDatetime(Opened(None), parse) == Success(None)
  {
  }

  /** `DateTimeOriginal` wins whenever it parses, whatever `DateTime` holds; otherwise
      `DateTime` decides. */
  lemma OriginalBeforeDateTime(tags: ExifTags, other: Option<ExifValue>, parse: Parser)
    ensures TagDatetime(tags.dateTimeOriginal, parse).Some? ==>
              ExifCaptureDatetime(Opened(Some(tags)), parse) == Success(TagDatetime(tags.dateTimeOriginal, parse))
              && ExifCaptureDatetime(Opened(Some(tags.(dateTime := other))), parse)
                 == ExifCaptureDatetime(Opened(Some(tags)), parse)
    ensures TagDatetime(tags.dateTimeOriginal, parse).None? ==>
              ExifCaptureDatetime(Opened(Some(tags)), parse) == Success(TagDatetime(tags.dateTime, parse))
  {
  }

  /** A value that is not ASCII, or has no component, never yields a time; components
      after the first are never looked at. */
  lemma OnlyFirstAsciiComponentCounts(first: seq<Unit>, rest1: seq<seq<Unit>>, rest2: seq<seq<Unit>>, parse: Parser)
    ensures ParseExifDatetime(OtherValue, parse).None?
    ensures ParseExifDatetime(Ascii([]), parse).None?
    ensures ParseExifDatetime(Ascii([first] + rest1), parse) == ParseExifDatetime(Ascii([first] + rest2), parse)
  {
  }

  /** The EXIF text of a time starts with a digit or sign and ends with a digit, so
      trimming leaves it whole. */
  lemma ExifTextIsTrimmed(t: NaiveDateTime)
    ensures Trimmed(ExifText(t))
  {
    YearRoundTrip(t.year);
    var s := ExifText(t);
    assert s[0] == YearString(t.year)[0];
    var c := FormatClock(t.hour, t.minute, ShownSecond(t));
    assert s[|s| - 1] == c[8] == Pad2(ShownSecond(t))[1];
  }

  /** A tag holding the EXIF text of a time, padded with any whitespace, yields that
      time to the whole second, provided the parser reads EXIF texts. */
  lemma PaddedExifTextIsRead(p: string, q: string, rest: seq<seq<Unit>>, t: NaiveDateTime, parse: Parser)
    requires AllWhitespace(p) && AllWhitespace(q) && ReadsExifText(parse)
    ensures ParseExifDatetime(Ascii([FromStr(p + ExifText(t) + q)] + rest), parse) == Some(WholeSecond(t))
  {
    ToStrFromStr(p + ExifText(t) + q);
    ExifTextIsTrimmed(t);
    TrimRemovesPadding(p, ExifText(t), q);
  }

  /** Bytes that are not UTF-8 reach the parser as U+FFFD, so a tag that differs only
      in which invalid bytes it holds yields the same time. */
  lemma InvalidBytesAreInterchangeable(u: seq<Unit>, v: seq<Unit>, parse: Parser)
    requires |u| == |v|
    requires forall i :: 0 <= i < |u| ==> (u[i].Char? || v[i].Char? ==> u[i] == v[i])
    ensures ParseExifDatetime(Ascii([u]), parse) == ParseExifDatetime(Ascii([v]), parse)
  {
    assert Lossy(u) == Lossy(v);
  }
}
