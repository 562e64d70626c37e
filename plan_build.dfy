/** Building the plan (`build_plan` in src/plan.rs): one pass over the directory walk
    that plans photos and videos and collects DVD rips, the duplicate pass over what was
    planned, then one item per rip. */
module PlanBuild {
  import opened Wrappers
  import opened Paths
  import opened Chrono
  import opened Time
  import Classification
  import opened Plan
  import opened PlanDuplicates

  /** What `DirEntry::file_type` says of an entry. */
  datatype FileType = Directory | RegularFile | OtherFile

  /** One step of the directory walk: an entry, or an error the walk reports. */
  datatype WalkEntry = Entry(path: Path, fileType: FileType) | WalkError

  /** What the planner consults outside its own code: the time probes, the DVD helpers
      `dvd_root_from_video_ts_dir`, `is_inside_video_ts` and `dvd_main_title_vobs`, the
      duplicate finder and the size `fs::metadata` reports. */
  datatype Collaborators = Collaborators(
    probes: Probes,
    dvdRootOf: Path -> Option<Path>,
    insideVideoTs: Path -> bool,
    titleVobs: Path -> Result<seq<Path>>,
    find: Finder,
    size: string -> Option<nat>)

  /** `dt.map(format_dt)`. */
  function FormatDt(dt: Option<NaiveDateTime>): Option<string>
  {
    match dt
    case Some(t) => Some(FormatDateTime(t))
    case None => None
  }

  /** The item pushed for a photo, a video or a DVD rip at `src`. */
  function NewItem(kind: MediaKind, action: Action, src: Path, outRoot: Path, d: Dated): PlannedItem
  {
    PlannedItem(kind, action, Display(src), Display(PlanDst(outRoot, kind, src, d.dt)),
                FormatDt(d.dt), d.source, None, None, None)
  }

  // ---------------------------------------------------------------------------
  // The walk

  /** What the walk loop has built so far: the plan, the summary, the DVD roots. */
  datatype ScanState = ScanState(items: seq<PlannedItem>, summary: PlanSummary, roots: set<Path>)

  /** The kind a walk entry is planned as: a regular file outside every `VIDEO_TS`
      directory that classifies as a photo or a video. */
  function FileKind(e: WalkEntry, col: Collaborators): Option<MediaKind>
  {
    if e.WalkError? || e.fileType != RegularFile || col.insideVideoTs(e.path) then None
    else if Classification.Classify(e.path) == Classification.Photo then Some(Photo)
    else if Classification.Classify(e.path) == Classification.Video then Some(Video)
    else None
  }

  /** The item the walk loop pushes for a photo (copied) or a video (copied or
      converted, as `action_for_video` says). */
  function FileItem(path: Path, kind: MediaKind, outRoot: Path, d: Dated): PlannedItem
  {
    NewItem(kind, if kind == Photo then Copy else ActionForVideo(path), path, outRoot, d)
  }

  /** The walk loop cannot plan an entry: a file it would plan has a time that cannot
      be read. */
  predicate DateFails(e: WalkEntry, col: Collaborators)
  {
    FileKind(e, col).Some? && BestDatetimeForFile(e.path, col.probes).Failure?
  }

  /** One turn of the walk loop. */
  function Visit(st: ScanState, e: WalkEntry, outRoot: Path, col: Collaborators): Result<ScanState>
  {
    if e.Entry? && e.fileType == Directory then
      match col.dvdRootOf(e.path)
      case Some(root) => Success(st.(roots := st.roots + {root}))
      case None => Success(st)
    else
      match FileKind(e, col)
      case None => Success(st)
      case Some(kind) =>
        match BestDatetimeForFile(e.path, col.probes)
        case Failure(err) => Failure(err)
        case Success(d) =>
          var it := FileItem(e.path, kind, outRoot, d);
          Success(ScanState(st.items + [it], Tally(st.summary, it), st.roots))
  }

  /** The walk loop over a prefix of the walk; the first error ends it. */
  function Scan(walk: seq<WalkEntry>, outRoot: Path, col: Collaborators): Result<ScanState>
  {
    if |walk| == 0 then Success(ScanState([], NewSummary, {}))
    else
      match Scan(walk[..|walk| - 1], outRoot, col)
      case Failure(err) => Failure(err)
      case Success(st) => Visit(st, walk[|walk| - 1], outRoot, col)
  }

  /** The entries the walk plans, in walk order. */
  function Plannable(walk: seq<WalkEntry>, col: Collaborators): (r: seq<WalkEntry>)
    ensures forall k :: 0 <= k < |r| ==> FileKind(r[k], col).Some?
  {
    if |walk| == 0 then []
    else
      var e := walk[|walk| - 1];
      Plannable(walk[..|walk| - 1], col) + (if FileKind(e, col).Some? then [e] else [])
  }

  /** The DVD roots the walk's directories name. */
  function DvdRootsOf(walk: seq<WalkEntry>, col: Collaborators): set<Path>
  {
    set j | 0 <= j < |walk| && walk[j].Entry? && walk[j].fileType == Directory && col.dvdRootOf(walk[j].path).Some?
          :: col.dvdRootOf(walk[j].path).value
  }

  // ---------------------------------------------------------------------------
  // The DVD rips

  function DvdItem(root: Path, outRoot: Path, col: Collaborators): PlannedItem
  {
    NewItem(Dvd, ConvertDvd, root, outRoot, BestDatetimeForDvd(root, col.probes))
  }

  function DvdItems(order: seq<Path>, outRoot: Path, col: Collaborators): (r: seq<PlannedItem>)
    ensures |r| == |order|
  {
    seq(|order|, i requires 0 <= i < |order| => DvdItem(order[i], outRoot, col))
  }

  /** `order` lists every root of the set once: an order in which a `HashSet` may be
      iterated. */
  ghost predicate Enumerates(order: seq<Path>, roots: set<Path>)
  {
    && (forall i, j :: 0 <= i < j < |order| ==> order[i] != order[j])
    && (forall x :: x in order <==> x in roots)
  }

  // ---------------------------------------------------------------------------
  // The operation

  /** `build_plan`. The roots set is iterated in an order the model does not fix; the
      order taken is returned as `dvdOrder`. */
  method BuildPlan(walk: seq<WalkEntry>, outRoot: Path, col: Collaborators)
    returns (r: Result<(seq<PlannedItem>, PlanSummary)>, ghost dvdOrder: seq<Path>)
    requires ValidFinder(col.find)
    ensures match Scan(walk, outRoot, col)
      case Failure(e) => r == Failure(e)
      case Success(st) =>
        var found := col.find(Candidates(st.items));
        if found.Failure? then r == Failure(found.error)
        else
          && WellFormedGroups(found.value)
          && (r.Failure? ==> exists root :: root in st.roots && col.titleVobs(root).Failure? && col.titleVobs(root).error == r.error)
          && (r.Success? ==>
                && (forall root :: root in st.roots ==> col.titleVobs(root).Success?)
                && Enumerates(dvdOrder, st.roots)
                && r.value.0 == MarkAll(st.items, found.value, col.size, PathLe) + DvdItems(dvdOrder, outRoot, col)
                && (forall k :: 0 <= k < |r.value.0| ==> (r.value.0[k].kind == Dvd <==> k >= |st.items|))
                && Agrees(r.value.0, r.value.1))
  {
    dvdOrder := [];
    var scanned := WalkPass(walk, outRoot, col);
    if scanned.Failure? {
      return Failure(scanned.error), [];
    }
    var planned, summary, dvdRoots := scanned.value.items, scanned.value.summary, scanned.value.roots;
    ScanInvariant(walk, outRoot, col);

    var items := new PlannedItem[|planned|](i requires 0 <= i < |planned| => planned[i]);
    assert items[..] == planned;
    var marked := MarkInputDuplicates(items, summary, col.find, col.size);
    if marked.Failure? {
      return Failure(marked.error), [];
    }
    MarkingKeepsAgreement(planned, summary, col.find(Candidates(planned)).value, col.size, PathLe);
    r, dvdOrder := DvdPass(items[..], marked.value, dvdRoots, outRoot, col);
  }

  /** The walk loop of `build_plan`. */
  method WalkPass(walk: seq<WalkEntry>, outRoot: Path, col: Collaborators) returns (r: Result<ScanState>)
    ensures r == Scan(walk, outRoot, col)
  {
    var planned: seq<PlannedItem> := [];
    var summary := NewSummary;
    var dvdRoots: set<Path> := {};
    for i := 0 to |walk|
      invariant Scan(walk[..i], outRoot, col) == Success(ScanState(planned, summary, dvdRoots))
    {
      assert walk[..i + 1][..i] == walk[..i];
      var entry := walk[i];
      if entry.WalkError? {
        continue;
      }
      var path := entry.path;
      if entry.fileType == Directory {
        var root := col.dvdRootOf(path);
        if root.Some? {
          dvdRoots := dvdRoots + {root.value};
        }
        continue;
      }
      if entry.fileType != RegularFile || col.insideVideoTs(path) {
        continue;
      }
      var kind := Classification.Classify(path);
      var next: Result<(seq<PlannedItem>, PlanSummary)>;
      if kind == Classification.Photo {
        next := PlanPhoto(path, outRoot, col, planned, summary);
      } else if kind == Classification.Video {
        next := PlanVideo(path, outRoot, col, planned, summary);
      } else {
        continue;
      }
      if next.Failure? {
        ScanFailureSticks(walk, i + 1, outRoot, col);
        return Failure(next.error);
      }
      planned, summary := next.value.0, next.value.1;
    }
    assert walk[..|walk|] == walk;
    return Success(ScanState(planned, summary, dvdRoots));
  }

  /** The walk loop's work on a photo: its time, its destination, the item and the
      counters it bumps (`photos`, `missing_date`, `planned`). */
  method PlanPhoto(path: Path, outRoot: Path, col: Collaborators, planned: seq<PlannedItem>, summary: PlanSummary)
    returns (r: Result<(seq<PlannedItem>, PlanSummary)>)
    ensures match BestDatetimeForFile(path, col.probes)
      case Failure(e) => r == Failure(e)
      case Success(d) =>
        var it := FileItem(path, Photo, outRoot, d);
        r.Success? && r.value.0 == planned + [it] && r.value.1 == Tally(summary, it)
  {
    var best := BestDatetimeForFile(path, col.probes);
    if best.Failure? {
      return Failure(best.error);
    }
    var d := best.value;
    var dst := PlanDst(outRoot, Photo, path, d.dt);
    var item := PlannedItem(Photo, Copy, Display(path), Display(dst), FormatDt(d.dt), d.source, None, None, None);
    return Success((planned + [item], Tally(summary, item)));
  }

  /** The walk loop's work on a video: as for a photo, with the action `action_for_video`
      picks and the `need_convert_video` counter. */
  method PlanVideo(path: Path, outRoot: Path, col: Collaborators, planned: seq<PlannedItem>, summary: PlanSummary)
    returns (r: Result<(seq<PlannedItem>, PlanSummary)>)
    ensures match BestDatetimeForFile(path, col.probes)
      case Failure(e) => r == Failure(e)
      case Success(d) =>
        var it := FileItem(path, Video, outRoot, d);
        r.Success? && r.value.0 == planned + [it] && r.value.1 == Tally(summary, it)
  {
    var best := BestDatetimeForFile(path, col.probes);
    if best.Failure? {
      return Failure(best.error);
    }
    var d := best.value;
    var action := ActionForVideo(path);
    var dst := PlanDst(outRoot, Video, path, d.dt);
    var item := PlannedItem(Video, action, Display(path), Display(dst), FormatDt(d.dt), d.source, None, None, None);
    return Success((planned + [item], Tally(summary, item)));
  }

  /** The DVD loop's work on one rip: its time, the check that its main title can be
      found, its destination, the item and the counters it bumps (`dvds`,
      `missing_date`, `need_convert_dvd`, `planned`). */
  method PlanDvd(root: Path, outRoot: Path, col: Collaborators, planned: seq<PlannedItem>, summary: PlanSummary)
    returns (r: Result<(seq<PlannedItem>, PlanSummary)>)
    ensures match col.titleVobs(root)
      case Failure(e) => r == Failure(e)
      case Success(_) =>
        var it := DvdItem(root, outRoot, col);
        r.Success? && r.value.0 == planned + [it] && r.value.1 == Tally(summary, it)
  {
    var d := BestDatetimeForDvd(root, col.probes);
    var vobs := col.titleVobs(root);
    if vobs.Failure? {
      return Failure(vobs.error);
    }
    var dst := PlanDst(outRoot, Dvd, root, d.dt);
    var item := PlannedItem(Dvd, ConvertDvd, Display(root), Display(dst), FormatDt(d.dt), d.source, None, None, None);
    return Success((planned + [item], Tally(summary, item)));
  }

  /** The DVD loop of `build_plan`: one item per rip root, in the order the set yields
      them; a rip whose main title cannot be found ends the plan with that error. */
  method DvdPass(items: seq<PlannedItem>, summary0: PlanSummary, dvdRoots: set<Path>, outRoot: Path, col: Collaborators)
    returns (r: Result<(seq<PlannedItem>, PlanSummary)>, ghost dvdOrder: seq<Path>)
    requires Agrees(items, summary0)
    ensures r.Failure? ==> exists root :: root in dvdRoots && col.titleVobs(root).Failure? && col.titleVobs(root).error == r.error
    ensures r.Success? ==>
              && (forall root :: root in dvdRoots ==> col.titleVobs(root).Success?)
              && Enumerates(dvdOrder, dvdRoots)
              && r.value.0 == items + DvdItems(dvdOrder, outRoot, col)
              && Agrees(r.value.0, r.value.1)
  {
    dvdOrder := [];
    var planned := items;
    var summary := summary0;
    var remaining := dvdRoots;
    while remaining != {}
      invariant DvdProgress(items, dvdRoots, remaining, dvdOrder, planned, summary, outRoot, col)
      decreases remaining
    {
      var root :| root in remaining;
      var next := PlanDvd(root, outRoot, col, planned, summary);
      if next.Failure? {
        return Failure(next.error), dvdOrder;
      }
      DvdProgressStep(items, dvdRoots, remaining, dvdOrder, planned, summary, root, outRoot, col);
      planned, summary := next.value.0, next.value.1;
      dvdOrder := dvdOrder + [root];
      remaining := remaining - {root};
    }
    assert dvdRoots - remaining == dvdRoots;
    return Success((planned, summary)), dvdOrder;
  }

  /** The DVD loop after the rips of `dvdOrder`: they are those of `dvdRoots` not
      `remaining`, each once, each with a main title, and each planned, in that order,
      after the files; the summary agrees with the plan. */
  ghost predicate DvdProgress(items: seq<PlannedItem>, dvdRoots: set<Path>, remaining: set<Path>, dvdOrder: seq<Path>,
                              planned: seq<PlannedItem>, summary: PlanSummary, outRoot: Path, col: Collaborators)
  {
    && remaining <= dvdRoots
    && Enumerates(dvdOrder, dvdRoots - remaining)
    && (forall k :: 0 <= k < |dvdOrder| ==> col.titleVobs(dvdOrder[k]).Success?)
    && planned == items + DvdItems(dvdOrder, outRoot, col)
    && Agrees(planned, summary)
  }

  /** One turn of the DVD loop keeps `DvdProgress`. */
  lemma DvdProgressStep(items: seq<PlannedItem>, dvdRoots: set<Path>, remaining: set<Path>, dvdOrder: seq<Path>,
                        planned: seq<PlannedItem>, summary: PlanSummary, root: Path, outRoot: Path, col: Collaborators)
    requires DvdProgress(items, dvdRoots, remaining, dvdOrder, planned, summary, outRoot, col)
    requires root in remaining && col.titleVobs(root).Success?
    ensures var it := DvdItem(root, outRoot, col);
            DvdProgress(items, dvdRoots, remaining - {root}, dvdOrder + [root], planned + [it], Tally(summary, it), outRoot, col)
  {
    var it := DvdItem(root, outRoot, col);
    assert Agrees(planned + [it], Tally(summary, it)) by {
      TallyAgrees(planned, summary, it);
    }
    assert planned + [it] == items + DvdItems(dvdOrder + [root], outRoot, col) by {
      AppendDvd(items, dvdOrder, root, outRoot, col);
    }
    assert Enumerates(dvdOrder + [root], dvdRoots - (remaining - {root})) by {
      EnumeratesStep(dvdOrder, dvdRoots - remaining, root);
      assert dvdRoots - (remaining - {root}) == (dvdRoots - remaining) + {root};
    }
    assert forall k :: 0 <= k < |dvdOrder + [root]| ==> col.titleVobs((dvdOrder + [root])[k]).Success? by {
      forall k | 0 <= k < |dvdOrder + [root]|
        ensures col.titleVobs((dvdOrder + [root])[k]).Success?
      {
        if k < |dvdOrder| {
          assert (dvdOrder + [root])[k] == dvdOrder[k];
        }
      }
    }
  }

  lemma EnumeratesStep(order: seq<Path>, done: set<Path>, x: Path)
    requires Enumerates(order, done) && x !in done
    ensures Enumerates(order + [x], done + {x})
  {
  }

  lemma AppendDvd(front: seq<PlannedItem>, order: seq<Path>, root: Path, outRoot: Path, col: Collaborators)
    ensures front + DvdItems(order, outRoot, col) + [DvdItem(root, outRoot, col)] == front + DvdItems(order + [root], outRoot, col)
  {
    var longer := order + [root];
    var a := DvdItems(longer, outRoot, col);
    var b := DvdItems(order, outRoot, col) + [DvdItem(root, outRoot, col)];
    forall i | 0 <= i < |a|
      ensures a[i] == b[i]
    {
      if i < |order| {
        assert longer[i] == order[i];
      }
    }
    assert a == b;
  }

  // ---------------------------------------------------------------------------
  // What the walk loop promises

  /** The first error ends the walk: whatever follows, the result is that error. */
  lemma {:induction false} ScanFailureSticks(walk: seq<WalkEntry>, n: nat, outRoot: Path, col: Collaborators)
    requires n <= |walk| && Scan(walk[..n], outRoot, col).Failure?
    ensures Scan(walk, outRoot, col) == Scan(walk[..n], outRoot, col)
  {
    if n < |walk| {
      assert walk[..|walk| - 1][..n] == walk[..n];
      ScanFailureSticks(walk[..|walk| - 1], n, outRoot, col);
    } else {
      assert walk[..n] == walk;
    }
  }

  /** What the walk loop keeps: the summary agrees with the plan, which holds only
      photos and videos, none of them marked. */
  ghost predicate Walked(st: ScanState)
  {
    && Agrees(st.items, st.summary)
    && (forall k :: 0 <= k < |st.items| ==> st.items[k].kind != Dvd && st.items[k].duplicateOf.None?)
  }

  lemma VisitKeepsWalked(st: ScanState, e: WalkEntry, outRoot: Path, col: Collaborators)
    requires Walked(st)
    ensures Visit(st, e, outRoot, col).Success? ==> Walked(Visit(st, e, outRoot, col).value)
  {
    if !(e.Entry? && e.fileType == Directory) && FileKind(e, col).Some? && BestDatetimeForFile(e.path, col.probes).Success? {
      var it := FileItem(e.path, FileKind(e, col).value, outRoot, BestDatetimeForFile(e.path, col.probes).value);
      assert Agrees(st.items + [it], Tally(st.summary, it)) by {
        TallyAgrees(st.items, st.summary, it);
      }
      assert it.kind != Dvd && it.duplicateOf.None?;
    }
  }

  /** After the walk the summary agrees with the plan, which holds only unmarked photos
      and videos. */
  lemma {:induction false} ScanInvariant(walk: seq<WalkEntry>, outRoot: Path, col: Collaborators)
    ensures Scan(walk, outRoot, col).Success? ==> Walked(Scan(walk, outRoot, col).value)
  {
    if |walk| == 0 {
      TallyAgrees([], NewSummary, PlannedItem(Photo, Copy, "", "", None, NoSource, None, None, None));
    } else {
      ScanInvariant(walk[..|walk| - 1], outRoot, col);
      var prev := Scan(walk[..|walk| - 1], outRoot, col);
      if prev.Success? {
        VisitKeepsWalked(prev.value, walk[|walk| - 1], outRoot, col);
      }
    }
  }

  /** The walk plans exactly the regular photo and video files outside `VIDEO_TS`
      directories, in walk order, each with its own time and destination. */
  lemma {:induction false} ScanPlansTheFiles(walk: seq<WalkEntry>, outRoot: Path, col: Collaborators)
    ensures Scan(walk, outRoot, col).Success? ==>
              var items := Scan(walk, outRoot, col).value.items;
              var files := Plannable(walk, col);
              && |items| == |files|
              && forall k :: 0 <= k < |files| ==>
                   && BestDatetimeForFile(files[k].path, col.probes).Success?
                   && items[k] == FileItem(files[k].path, FileKind(files[k], col).value, outRoot,
                                           BestDatetimeForFile(files[k].path, col.probes).value)
  {
    if |walk| > 0 {
      var prefix := walk[..|walk| - 1];
      ScanPlansTheFiles(prefix, outRoot, col);
    }
  }

  /** `Plannable` is the filter of the walk by `FileKind`. */
  lemma {:induction false} PlannableIsFilter(walk: seq<WalkEntry>, col: Collaborators)
    ensures forall e :: e in Plannable(walk, col) <==> e in walk && FileKind(e, col).Some?
  {
    if |walk| > 0 {
      var prefix := walk[..|walk| - 1];
      PlannableIsFilter(prefix, col);
      assert walk == prefix + [walk[|walk| - 1]];
    }
  }

  /** The rips found are exactly those the walk's directories name. */
  lemma {:induction false} ScanFindsTheRips(walk: seq<WalkEntry>, outRoot: Path, col: Collaborators)
    ensures Scan(walk, outRoot, col).Success? ==> Scan(walk, outRoot, col).value.roots == DvdRootsOf(walk, col)
  {
    if |walk| > 0 {
      var n := |walk| - 1;
      var prefix := walk[..n];
      ScanFindsTheRips(prefix, outRoot, col);
      if Scan(walk, outRoot, col).Success? {
        var e := walk[n];
        forall x
          ensures x in DvdRootsOf(walk, col) <==>
                    x in DvdRootsOf(prefix, col) ||
                    (e.Entry? && e.fileType == Directory && col.dvdRootOf(e.path) == Some(x))
        {
          if x in DvdRootsOf(walk, col) {
            var j :| 0 <= j < |walk| && walk[j].Entry? && walk[j].fileType == Directory
                     && col.dvdRootOf(walk[j].path).Some? && col.dvdRootOf(walk[j].path).value == x;
            if j < n {
              assert prefix[j] == walk[j];
            }
          }
          if x in DvdRootsOf(prefix, col) {
            var j :| 0 <= j < |prefix| && prefix[j].Entry? && prefix[j].fileType == Directory
                     && col.dvdRootOf(prefix[j].path).Some? && col.dvdRootOf(prefix[j].path).value == x;
            assert walk[j] == prefix[j];
          }
        }
      }
    }
  }

  /** What each item of the walk pass is: a regular file outside every `VIDEO_TS`
      directory, a photo that is copied or a video whose action `action_for_video`
      picks, filed where `plan_dst` puts it. */
  lemma ScannedItems(walk: seq<WalkEntry>, outRoot: Path, col: Collaborators)
    ensures Scan(walk, outRoot, col).Success? ==>
              var items := Scan(walk, outRoot, col).value.items;
              var files := Plannable(walk, col);
              |items| == |files| &&
              forall k :: 0 <= k < |items| ==>
                && files[k] in walk && files[k].Entry? && files[k].fileType == RegularFile
                && !col.insideVideoTs(files[k].path)
                && items[k].src == Display(files[k].path)
                && (items[k].kind == Photo || items[k].kind == Video)
                && (items[k].kind == Photo <==> Classification.Classify(files[k].path) == Classification.Photo)
                && (items[k].kind == Photo ==> items[k].action == Copy)
                && (items[k].kind == Video ==> items[k].action == ActionForVideo(files[k].path))
                && BestDatetimeForFile(files[k].path, col.probes).Success?
                && items[k].dst == Display(PlanDst(outRoot, items[k].kind, files[k].path,
                                                   BestDatetimeForFile(files[k].path, col.probes).value.dt))
                && items[k].duplicateOf.None?
  {
    ScanPlansTheFiles(walk, outRoot, col);
    PlannableIsFilter(walk, col);
  }

  /** The position of the first entry the walk loop cannot plan because its time cannot
      be read, or the length of the walk if there is none. */
  function FirstDateError(walk: seq<WalkEntry>, col: Collaborators): (j: nat)
    ensures j <= |walk|
    ensures forall i :: 0 <= i < j ==> !DateFails(walk[i], col)
    ensures j < |walk| ==> DateFails(walk[j], col)
  {
    if |walk| == 0 then 0
    else
      var n := |walk| - 1;
      var j := FirstDateError(walk[..n], col);
      assert forall i :: 0 <= i < j ==> walk[i] == walk[..n][i];
      if j < n then j
      else if DateFails(walk[n], col) then n
      else |walk|
  }

  /** The walk fails exactly when some file it would plan has an unreadable time, and
      then with the error of the first such file. */
  lemma {:induction false} ScanFailsOnFirstDateError(walk: seq<WalkEntry>, outRoot: Path, col: Collaborators)
    ensures var j := FirstDateError(walk, col);
            && (Scan(walk, outRoot, col).Failure? <==> j < |walk|)
            && (j < |walk| ==> Scan(walk, outRoot, col).error == BestDatetimeForFile(walk[j].path, col.probes).error)
  {
    if |walk| > 0 {
      var n := |walk| - 1;
      var prefix := walk[..n];
      ScanFailsOnFirstDateError(prefix, outRoot, col);
      var j := FirstDateError(prefix, col);
      if j < n {
        assert walk[j] == prefix[j];
      } else {
        VisitFails(Scan(prefix, outRoot, col).value, walk[n], outRoot, col);
      }
    }
  }

  /** Hence the walk fails exactly when some file it would plan has an unreadable
      time. */
  lemma ScanFailsOnDateError(walk: seq<WalkEntry>, outRoot: Path, col: Collaborators)
    ensures Scan(walk, outRoot, col).Failure? <==> exists j :: 0 <= j < |walk| && DateFails(walk[j], col)
  {
    ScanFailsOnFirstDateError(walk, outRoot, col);
  }

  /** One turn of the walk loop fails exactly when the entry's time cannot be read, and
      with that error. */
  lemma VisitFails(st: ScanState, e: WalkEntry, outRoot: Path, col: Collaborators)
    ensures Visit(st, e, outRoot, col).Failure? <==> DateFails(e, col)
    ensures DateFails(e, col) ==> Visit(st, e, outRoot, col).error == BestDatetimeForFile(e.path, col.probes).error
  {
  }
}
