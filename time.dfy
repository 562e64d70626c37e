/** Choosing the best capture time of a file or of a DVD rip, and recording where it
    came from (src/time.rs). */
module Time {
  import opened Wrappers
  import opened Paths
  import opened Chrono
  import opened Classification
  import opened ExifDates

  /** Where a time came from; `NoSource` is the source's `DateSource::None`. */
  datatype DateSource = Exif | Ffprobe | Mtime | NoSource

  /** A resolved time and its source. */
  datatype Dated = Dated(dt: Option<NaiveDateTime>, source: DateSource)

  /** What the file system and the external tools report for a path: the EXIF reading,
      the `ffprobe` creation time, and the modification time in local time (`file_mtime`,
      `None` when the metadata cannot be read). */
  datatype Probes = Probes(
    parse: Parser,
    exif: Path -> ExifFile,
    ffprobe: Path -> Result<Option<NaiveDateTime>>,
    mtime: Path -> Option<NaiveDateTime>)

  /** `best_datetime_for_file`. */
  function BestDatetimeForFile(p: Path, probes: Probes): (r: Result<Dated>)
    ensures r.Success? ==> (r.value.dt.None? <==> r.value.source == NoSource)
    ensures r.Success? && r.value.source == Exif ==> IsJpeg(p)
    ensures r.Success? && r.value.source == Ffprobe ==> Classify(p) == Video
    ensures r.Success? && r.value.source == Mtime ==>
              Classify(p) in {Photo, Video} && r.value.dt == probes.mtime(p)
    ensures r.Failure? ==>
              (IsJpeg(p) && ExifCaptureDatetime(probes.exif(p), probes.parse).Failure?) ||
              (Classify(p) == Video && probes.ffprobe(p).Failure?)
  {
    match Classify(p)
    case Photo =>
      var fromExif := if IsJpeg(p) then ExifCaptureDatetime(probes.exif(p), probes.parse) else Success(None);
      if fromExif.Failure? then Failure(fromExif.error)
      else if fromExif.value.Some? then Success(Dated(fromExif.value, Exif))
      else FromMtime(p, probes)
    case Video =>
      var fromProbe := probes.ffprobe(p);
      if fromProbe.Failure? then Failure(fromProbe.error)
      else if fromProbe.value.Some? then Success(Dated(fromProbe.value, Ffprobe))
      else FromMtime(p, probes)
    case _ => Success(Dated(None, NoSource))
  }

  /** The modification-time fallback shared by photos, videos and DVD rips. */
  function FromMtime(p: Path, probes: Probes): Result<Dated>
  {
    match probes.mtime(p)
    case Some(t) => Success(Dated(Some(t), Mtime))
    case None => Success(Dated(None, NoSource))
  }

  /** `best_datetime_for_dvd`: only the modification time of the rip's directory. */
  function BestDatetimeForDvd(root: Path, probes: Probes): (d: Dated)
    ensures d.dt == probes.mtime(root)
    ensures d.source == (if d.dt.Some? then Mtime else NoSource)
  {
    match probes.mtime(root)
    case Some(t) => Dated(Some(t), Mtime)
    case None => Dated(None, NoSource)
  }

  /** The priority order for a JPEG: a readable EXIF time first, then the modification
      time; a failure to open the file is the only error. */
  lemma JpegPriority(p: Path, probes: Probes)
    requires IsJpeg(p)
    ensures BestDatetimeForFile(p, probes).Failure? <==> probes.exif(p).CannotOpen?
    ensures match ExifCaptureDatetime(probes.exif(p), probes.parse)
            case Success(Some(t)) => BestDatetimeForFile(p, probes) == Success(Dated(Some(t), Exif))
            case Success(None) => BestDatetimeForFile(p, probes) == FromMtime(p, probes)
            case Failure(e) => BestDatetimeForFile(p, probes) == Failure(e)
  {
    JpegIsPhoto(p);
  }

  /** A photo that is not a JPEG (a PNG) never has its EXIF read: whatever the EXIF
      reader would report, the result is the modification time. */
  lemma NonJpegPhotoSkipsExif(p: Path, probes: Probes, other: Path -> ExifFile)
    requires Classify(p) == Photo && !IsJpeg(p)
    ensures BestDatetimeForFile(p, probes) == FromMtime(p, probes)
    ensures BestDatetimeForFile(p, probes.(exif := other)) == BestDatetimeForFile(p, probes)
  {
  }

  /** The priority order for a video: the `ffprobe` time first, then the modification
      time; an `ffprobe` failure is passed on. */
  lemma VideoPriority(p: Path, probes: Probes, other: Path -> ExifFile)
    requires Classify(p) == Video
    ensures match probes.ffprobe(p)
            case Success(Some(t)) => BestDatetimeForFile(p, probes) == Success(Dated(Some(t), Ffprobe))
            case Success(None) => BestDatetimeForFile(p, probes) == FromMtime(p, probes)
            case Failure(e) => BestDatetimeForFile(p, probes) == Failure(e)
    ensures BestDatetimeForFile(p, probes.(exif := other)) == BestDatetimeForFile(p, probes)
  {
  }

  /** Anything that is neither photo nor video gets no time and consults no probe. */
  lemma OtherKindsHaveNoDate(p: Path, probes: Probes)
    requires Classify(p) in {Dvd, Ignore}
    ensures BestDatetimeForFile(p, probes) == Success(Dated(None, NoSource))
  {
  }
}
