/** The pure half of planning (src/plan.rs): the records of a plan, the destination
    of an item, and the action a video needs. */
module Plan {
  import opened Wrappers
  import opened Text
  import opened Paths
  import opened Chrono
  import opened Time
  import Classification

  datatype Action = Copy | ConvertVideo | ConvertDvd

  datatype MediaKind = Photo | Video | Dvd

  /** One line of the manifest. Paths are kept as the text `to_string_lossy` made of them;
      sizes are unbounded where the source has `u64`. */
  datatype PlannedItem = PlannedItem(
    kind: MediaKind,
    action: Action,
    src: string,
    dst: string,
    bestDt: Option<string>,
    dateSource: DateSource,
    sizeBytes: Option<nat>,
    contentHash: Option<string>,
    duplicateOf: Option<string>)

  datatype PlanSummary = PlanSummary(
    planned: nat,
    photos: nat,
    videos: nat,
    dvds: nat,
    missingDate: nat,
    needConvertVideo: nat,
    needConvertDvd: nat,
    duplicatePhotos: nat,
    duplicateVideos: nat)

  /** `PlanSummary::new`. */
  const NewSummary := PlanSummary(0, 0, 0, 0, 0, 0, 0, 0, 0)

  // ---------------------------------------------------------------------------
  // What the summary counts

  /** The groups of items the summary keeps a counter for. */
  datatype Category = OfKind(kind: MediaKind) | Undated | Needs(action: Action) | DuplicateOfKind(dupKind: MediaKind)

  predicate InCategory(it: PlannedItem, c: Category)
  {
    match c
    case OfKind(k) => it.kind == k
    case Undated => it.bestDt.None?
    case Needs(a) => it.action == a
    case DuplicateOfKind(k) => it.kind == k && it.duplicateOf.Some?
  }

  function Count(items: seq<PlannedItem>, c: Category): (n: nat)
    ensures n <= |items|
  {
    if |items| == 0 then 0
    else Count(items[..|items| - 1], c) + (if InCategory(items[|items| - 1], c) then 1 else 0)
  }

  lemma CountAppend(items: seq<PlannedItem>, it: PlannedItem, c: Category)
    ensures Count(items + [it], c) == Count(items, c) + (if InCategory(it, c) then 1 else 0)
  {
    assert (items + [it])[..|items|] == items;
  }

  /** The categories the summary keeps a counter for. */
  predicate Counted(c: Category)
  {
    !(c.Needs? && c.action == Copy) && !(c.DuplicateOfKind? && c.dupKind == Dvd)
  }

  /** The counter the summary keeps for a category. */
  function Counter(s: PlanSummary, c: Category): nat
  {
    match c
    case OfKind(Photo) => s.photos
    case OfKind(Video) => s.videos
    case OfKind(Dvd) => s.dvds
    case Undated => s.missingDate
    case Needs(Copy) => 0
    case Needs(ConvertVideo) => s.needConvertVideo
    case Needs(ConvertDvd) => s.needConvertDvd
    case DuplicateOfKind(Photo) => s.duplicatePhotos
    case DuplicateOfKind(Video) => s.duplicateVideos
    case DuplicateOfKind(Dvd) => 0
  }

  /** Every counter of the summary is the number of items in its category, and
      `planned` is the number of items. */
  ghost predicate Agrees(items: seq<PlannedItem>, s: PlanSummary)
  {
    && s.planned == |items|
    && forall c :: Counted(c) ==> Counter(s, c) == Count(items, c)
  }

  /** The counters bumped when an item is pushed onto the plan. */
  function Tally(s: PlanSummary, it: PlannedItem): PlanSummary
  {
    PlanSummary(
      s.planned + 1,
      s.photos + (if InCategory(it, OfKind(Photo)) then 1 else 0),
      s.videos + (if InCategory(it, OfKind(Video)) then 1 else 0),
      s.dvds + (if InCategory(it, OfKind(Dvd)) then 1 else 0),
      s.missingDate + (if InCategory(it, Undated) then 1 else 0),
      s.needConvertVideo + (if InCategory(it, Needs(ConvertVideo)) then 1 else 0),
      s.needConvertDvd + (if InCategory(it, Needs(ConvertDvd)) then 1 else 0),
      s.duplicatePhotos + (if InCategory(it, DuplicateOfKind(Photo)) then 1 else 0),
      s.duplicateVideos + (if InCategory(it, DuplicateOfKind(Video)) then 1 else 0))
  }

  /** The fresh summary agrees with the empty plan, and pushing an item with its tally
      keeps the agreement. */
  lemma TallyAgrees(items: seq<PlannedItem>, s: PlanSummary, it: PlannedItem)
    ensures Agrees([], NewSummary)
    ensures Agrees(items, s) ==> Agrees(items + [it], Tally(s, it))
  {
    forall c: Category {
      CountAppend(items, it, c);
    }
  }

  /** Every item is a photo, a video or a DVD rip, so `planned` is their sum. */
  lemma {:induction false} KindsPartition(items: seq<PlannedItem>)
    ensures Count(items, OfKind(Photo)) + Count(items, OfKind(Video)) + Count(items, OfKind(Dvd)) == |items|
  {
    if |items| > 0 {
      KindsPartition(items[..|items| - 1]);
    }
  }

  lemma PlannedIsSumOfKinds(items: seq<PlannedItem>, s: PlanSummary)
    requires Agrees(items, s)
    ensures s.planned == s.photos + s.videos + s.dvds == |items|
  {
    KindsPartition(items);
    assert Counter(s, OfKind(Photo)) == Count(items, OfKind(Photo));
    assert Counter(s, OfKind(Video)) == Count(items, OfKind(Video));
    assert Counter(s, OfKind(Dvd)) == Count(items, OfKind(Dvd));
  }

  /** `Path::join` with a single plain name (every piece joined here is one). */
  function Join(p: Path, name: string): Path
  {
    p + [Normal(FromStr(name))]
  }

  /** `safe_stem`: the file stem when it is valid UTF-8, `file` otherwise. */
  function SafeStem(p: Path): string
  {
    match FileStem(p)
    case None => "file"
    case Some(s) =>
      match ToStr(s)
      case None => "file"
      case Some(t) => t
  }

  function KindFolder(kind: MediaKind): string
  {
    match kind
    case Photo => "Photos"
    case Video => "Videos"
    case Dvd => "DVDs"
  }

  const UnknownDate := "UnknownDate"

  /** The extension the destination gets: photos keep their own (lower-cased, `jpg` when
      there is none), videos and DVD rips become `mp4`. */
  function DstExtension(kind: MediaKind, src: Path): string
  {
    match kind
    case Photo =>
      (match Classification.NormalizeExtension(src)
       case Some(e) => e
       case None => "jpg")
    case _ => "mp4"
  }

  /** The name before that extension: the rip directory's own name for a DVD (`DVD`
      when it has none), the safe stem otherwise. */
  function DstName(kind: MediaKind, src: Path): string
  {
    match kind
    case Dvd =>
      (match FileName(src)
       case None => "DVD"
       case Some(n) =>
         match ToStr(n)
         case None => "DVD"
         case Some(s) => s)
    case _ => SafeStem(src)
  }

  function DstFileName(kind: MediaKind, src: Path): string
  {
    DstName(kind, src) + "." + DstExtension(kind, src)
  }

  /** `plan_dst`. */
  function PlanDst(outRoot: Path, kind: MediaKind, src: Path, dt: Option<NaiveDateTime>): Path
  {
    var base := Join(outRoot, KindFolder(kind));
    var (year, ym, ymd) :=
      match dt
      case Some(t) => (YearString(t.year), FormatYearMonth(t.year, t.month), FormatDate(t.year, t.month, t.day))
      case None => (UnknownDate, UnknownDate, UnknownDate);
    var dir := if year == UnknownDate then Join(base, UnknownDate) else Join(Join(Join(base, year), ym), ymd);
    Join(dir, DstFileName(kind, src))
  }

  /** `action_for_video`. */
  function ActionForVideo(p: Path): Action
  {
    if Classification.NormalizeExtension(p) == Some("avi") then ConvertVideo else Copy
  }

  // ---------------------------------------------------------------------------
  // Reading a destination back

  /** What a destination says about its item: the kind folder, the date folders
      (year, month, day) or `UnknownDate`, and the file name. */
  datatype DstParts = DstParts(kind: MediaKind, date: Option<(int, int, int)>, fileName: string)

  function FolderKind(name: Option<string>): Option<MediaKind>
  {
    if name == Some("Photos") then Some(Photo)
    else if name == Some("Videos") then Some(Video)
    else if name == Some("DVDs") then Some(Dvd)
    else None
  }

  function NameText(c: Component): Option<string>
  {
    if c.Normal? then ToStr(c.name) else None
  }

  /** Reads the three date folders `YYYY`, `YYYY-MM`, `YYYY-MM-DD` back, when they agree. */
  function ReadDateFolders(c1: Component, c2: Component, c3: Component): Option<(int, int, int)>
  {
    match (NameText(c1), NameText(c2), NameText(c3))
    case (Some(y), Some(ym), Some(ymd)) => ReadDateTexts(y, ym, ymd)
    case _ => None
  }

  function ReadDateTexts(y: string, ym: string, ymd: string): Option<(int, int, int)>
  {
    match (ParseYear(y), ParseYearMonth(ym), ParseDate(ymd))
    case (Some(year), Some((year', month)), Some((year'', month', day))) =>
      if year == year' == year'' && month == month' then Some((year, month, day)) else None
    case _ => None
  }

  /** Reads a destination under `outRoot` back into its parts. */
  function ReadDst(outRoot: Path, dst: Path): Option<DstParts>
  {
    if |dst| < |outRoot| + 3 || dst[..|outRoot|] != outRoot then None
    else
      var rest := dst[|outRoot|..];
      var kind := FolderKind(NameText(rest[0]));
      var file := NameText(rest[|rest| - 1]);
      if kind.None? || file.None? then None
      else if |rest| == 3 && NameText(rest[1]) == Some(UnknownDate) then
        Some(DstParts(kind.value, None, file.value))
      else if |rest| == 5 && ReadDateFolders(rest[1], rest[2], rest[3]).Some? then
        Some(DstParts(kind.value, ReadDateFolders(rest[1], rest[2], rest[3]), file.value))
      else None
  }

  function DateOf(dt: Option<NaiveDateTime>): Option<(int, int, int)>
  {
    match dt
    case Some(t) => Some((t.year, t.month, t.day))
    case None => None
  }

  /** A destination is the output root, the kind folder, `YYYY/YYYY-MM/YYYY-MM-DD` for a
      dated item or the single folder `UnknownDate` for an undated one, then the file
      name: reading it back recovers the kind, the calendar date and the name. */
  lemma ReadPlanDst(outRoot: Path, kind: MediaKind, src: Path, dt: Option<NaiveDateTime>)
    ensures ReadDst(outRoot, PlanDst(outRoot, kind, src, dt)) == Some(DstParts(kind, DateOf(dt), DstFileName(kind, src)))
    ensures |PlanDst(outRoot, kind, src, dt)| == |outRoot| + (if dt.Some? then 5 else 3)
  {
    var folder, file := Normal(FromStr(KindFolder(kind))), Normal(FromStr(DstFileName(kind, src)));
    ToStrFromStr(KindFolder(kind));
    ToStrFromStr(DstFileName(kind, src));
    assert FolderKind(NameText(folder)) == Some(kind);
    assert NameText(file) == Some(DstFileName(kind, src));
    match dt {
      case None =>
        ToStrFromStr(UnknownDate);
        var middle := Normal(FromStr(UnknownDate));
        assert PlanDst(outRoot, kind, src, dt) == outRoot + [folder, middle, file];
        ReadDstOf(outRoot, [folder, middle, file]);
      case Some(t) =>
        var c1, c2, c3 := DateFolders(t);
        DatedDst(outRoot, kind, src, t, c1, c2, c3);
        ReadDstOf(outRoot, [folder, c1, c2, c3, file]);
    }
  }

  lemma DatedDst(outRoot: Path, kind: MediaKind, src: Path, t: NaiveDateTime, c1: Component, c2: Component, c3: Component)
    requires c1 == Normal(FromStr(YearString(t.year)))
    requires c2 == Normal(FromStr(FormatYearMonth(t.year, t.month)))
    requires c3 == Normal(FromStr(FormatDate(t.year, t.month, t.day)))
    requires YearString(t.year) != UnknownDate
    ensures PlanDst(outRoot, kind, src, Some(t))
         == outRoot + [Normal(FromStr(KindFolder(kind))), c1, c2, c3, Normal(FromStr(DstFileName(kind, src)))]
  {
  }

  /** The date folders of a time, and the fact that they read back to its date. */
  lemma DateFolders(t: NaiveDateTime) returns (c1: Component, c2: Component, c3: Component)
    ensures c1 == Normal(FromStr(YearString(t.year)))
    ensures c2 == Normal(FromStr(FormatYearMonth(t.year, t.month)))
    ensures c3 == Normal(FromStr(FormatDate(t.year, t.month, t.day)))
    ensures YearString(t.year) != UnknownDate
    ensures ReadDateFolders(c1, c2, c3) == Some((t.year, t.month, t.day))
  {
    var y, ym, ymd := YearString(t.year), FormatYearMonth(t.year, t.month), FormatDate(t.year, t.month, t.day);
    YearRoundTrip(t.year);
    YearMonthRoundTrip(t.year, t.month);
    DateRoundTrip(t.year, t.month, t.day);
    assert UnknownDate[0] == 'U';
    ToStrFromStr(y);
    ToStrFromStr(ym);
    ToStrFromStr(ymd);
    c1, c2, c3 := Normal(FromStr(y)), Normal(FromStr(ym)), Normal(FromStr(ymd));
  }

  lemma ReadDstOf(outRoot: Path, rest: Path)
    requires |rest| >= 3
    ensures ReadDst(outRoot, outRoot + rest) ==
              var kind := FolderKind(NameText(rest[0]));
              var file := NameText(rest[|rest| - 1]);
              if kind.None? || file.None? then None
              else if |rest| == 3 && NameText(rest[1]) == Some(UnknownDate) then
                Some(DstParts(kind.value, None, file.value))
              else if |rest| == 5 && ReadDateFolders(rest[1], rest[2], rest[3]).Some? then
                Some(DstParts(kind.value, ReadDateFolders(rest[1], rest[2], rest[3]), file.value))
              else None
  {
    assert (outRoot + rest)[..|outRoot|] == outRoot;
    assert (outRoot + rest)[|outRoot|..] == rest;
  }

  /** Only the source's own name decides the destination, never its directory: two
      sources with the same name and date collide, and nothing here separates them. */
  lemma SourceDirectoryIsIrrelevant(outRoot: Path, kind: MediaKind, dir1: Path, dir2: Path, name: Component, dt: Option<NaiveDateTime>)
    ensures PlanDst(outRoot, kind, dir1 + [name], dt) == PlanDst(outRoot, kind, dir2 + [name], dt)
  {
    LastComponentDecides(dir1 + [name], dir2 + [name]);
    assert DstFileName(kind, dir1 + [name]) == DstFileName(kind, dir2 + [name]);
  }

  /** A photo `stem.ext` keeps its stem and its extension, lower-cased. */
  lemma PhotoFileName(dir: Path, stem: string, ext: string)
    requires |stem| > 0 && '.' !in ext && stem + "." + ext != ".."
    ensures DstFileName(Photo, dir + [Normal(FromStr(stem + "." + ext))]) == stem + "." + AsciiLowercase(ext)
  {
    assert FromStr(stem + "." + ext) == FromStr(stem) + [Dot] + FromStr(ext);
    assert NoDot(FromStr(ext));
    assert FromStr(stem + "." + ext) != FromStr("..") by {
      ToStrFromStr(stem + "." + ext);
      ToStrFromStr("..");
    }
    JoinedNameSplits(dir, FromStr(stem), FromStr(ext));
    ToStrFromStr(stem);
    ToStrFromStr(ext);
  }

  /** A photo without a usable extension is named `.jpg`; a name without a usable stem
      becomes `file`. */
  lemma PhotoFallbacks(src: Path)
    ensures Classification.NormalizeExtension(src).None? ==> DstExtension(Photo, src) == "jpg"
    ensures FileStem(src).None? ==> DstName(Photo, src) == "file" && DstName(Video, src) == "file"
    ensures FileStem(src).Some? && ToStr(FileStem(src).value).None? ==>
              DstName(Photo, src) == "file" && DstName(Video, src) == "file"
    ensures FileStem(src).Some? && ToStr(FileStem(src).value).Some? ==>
              DstName(Photo, src) == ToStr(FileStem(src).value).value == DstName(Video, src)
  {
  }

  /** Videos and DVD rips always land in an `.mp4`; a DVD keeps its directory's whole
      name, dots included, and is called `DVD` when that name is missing or not UTF-8. */
  lemma VideoAndDvdFileNames(dir: Path, name: string, src: Path)
    ensures DstExtension(Video, src) == "mp4" && DstExtension(Dvd, src) == "mp4"
    ensures DstFileName(Dvd, dir + [Normal(FromStr(name))]) == name + ".mp4"
    ensures DstFileName(Video, src) == SafeStem(src) + ".mp4"
    ensures FileName(src).None? || ToStr(FileName(src).value).None? ==> DstFileName(Dvd, src) == "DVD.mp4"
  {
    ToStrFromStr(name);
    assert FileName(dir + [Normal(FromStr(name))]) == Some(FromStr(name));
    assert DstName(Dvd, dir + [Normal(FromStr(name))]) == name;
    if FileName(src).None? || ToStr(FileName(src).value).None? {
      assert DstName(Dvd, src) == "DVD";
    }
  }

  /** Only AVI is converted; the other video containers are copied as they are, in any
      letter case. */
  lemma ActionForVideoTable(p: Path)
    requires Classification.Classify(p) == Classification.Video
    ensures ActionForVideo(p) == ConvertVideo <==> Classification.NormalizeExtension(p) == Some("avi")
    ensures ActionForVideo(p) == Copy <==> Classification.NormalizeExtension(p) in {Some("mp4"), Some("mov"), Some("m4v")}
  {
    Classification.ClassifyTable(p);
  }
}
