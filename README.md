# media_organizer, modelled in Dafny

media_organizer sorts a media library into a tree arranged by date, in two phases.

- **plan** walks an input directory. It classifies every file by extension as a photo, a video, a DVD part or something to ignore. It then resolves a date for each photo and video:
  - for JPEG photos, the EXIF `DateTimeOriginal` tag, then the EXIF `DateTime` tag, then the file's modification time;
  - for videos, the creation time ffprobe reports, then the modification time.

  Each file gets a destination `Photos|Videos|DVDs/YYYY/YYYY-MM/YYYY-MM-DD/<name>.<ext>`, or `…/UnknownDate/…` when no date is found. The plan phase marks byte-identical photos and videos as duplicates of the first path of their group in path order. It adds one conversion item per DVD rip (a directory holding a `VIDEO_TS` folder), and keeps a `PlanSummary` of counters.
- **apply** replays the planned items:
  - a duplicate is skipped, with a `SKIP_DUP` line;
  - an item whose destination already exists is skipped silently;
  - every other item is copied or converted, and a success gets an `OK` line while a failure gets a `FAIL` line.

  Every outcome has its own counter in an `ApplySummary`. A failure to write a log line ends the run.

The model covers `src/classify.rs`, `src/dvd.rs`, `src/photo.rs`, `src/time.rs`, `src/plan.rs` and `src/apply.rs`. The file system, the EXIF reader, ffprobe/ffmpeg, the content hasher and the DVD helpers the planner calls are parameters (oracles).

| file | module | what it holds |
|---|---|---|
| `wrappers.dfy` | `Wrappers` | `Option`, `Result` (with an `Error` message), `Outcome` |
| `text.dfy` | `Text` | OS strings as sequences of characters and invalid bytes (`Unit`); `to_str`, `to_string_lossy`, ASCII lowercasing and `eq_ignore_ascii_case`, Unicode-whitespace `trim` |
| `paths.dfy` | `Paths` | paths as component sequences; `file_name`, `extension`, `file_stem`; display and parse; the component-wise order `PathBuf` sorts by |
| `chrono.dfy` | `Chrono` | naive date-times, and the `%Y`, `%Y-%m`, `%Y-%m-%d` and `%Y-%m-%d %H:%M:%S` formats with parsers that invert them |
| `classify.dfy` | `Classification` | `normalize_extension`, `classify`, `is_jpeg` |
| `dvd.dfy` | `DvdLayout` | `is_dvd_video_ts_dir` |
| `photo.dfy` | `ExifDates` | `parse_exif_datetime`, `exif_capture_datetime` |
| `time.dfy` | `Time` | `DateSource`, `best_datetime_for_file`, `best_datetime_for_dvd` |
| `plan.dfy` | `Plan` | `Action`, `MediaKind`, `PlannedItem`, `PlanSummary` and its counters, `safe_stem`, `plan_dst`, `action_for_video` |
| `plan_duplicates.dfy` | `PlanDuplicates` | `mark_input_duplicates`: an imperative method over an array of items, proved against `MarkAll` |
| `plan_build.dfy` | `PlanBuild` | `build_plan`: an imperative walk pass and DVD pass, proved against the fold `Scan` |
| `apply.dfy` | `Apply` | `apply_items`: a `Workspace` class (existing destinations and three logs) whose `ApplyItems` loop is proved against the fold `ApplyRun` |

Three behaviours of the code are worth stating up front:

- **Canonical duplicate.** The canonical member of a duplicate group is the first one after `group.sort()` on `PathBuf`s (src/plan.rs:148). `PathBuf`s compare component by component, not as strings. `Paths.PathOrderIsNotStringOrder` shows the two orders differ: `a/b` sorts before `a-b` as a path, but after it as a string. The model uses the path order.
- **Date-source errors.** A JPEG that cannot be opened for EXIF, or an ffprobe failure, is returned with `?` (src/time.rs:34,44). The walk loop propagates the error too (src/plan.rs:219,242), so it aborts `build_plan`. `Time.BestDatetimeForFile`, `PlanBuild.ScanFailsOnFirstDateError` and `PlanBuild.BuildPlan` state this.
- **Hash and size annotations.** `mark_input_duplicates` attaches a hash only to members of a returned group. It attaches a size wherever `fs::metadata` succeeds (src/plan.rs:166-171).

## Model

| member | source | states |
|---|---|---|
| Text.ToStrFromStr | src/classify.rs:13 | `to_str` of a string's own encoding gives that string back, and so does `to_string_lossy` |
| Text.LossyAgreesWithToStr | src/photo.rs:8 | on valid text, `to_string_lossy` agrees with `to_str` |
| Text.AsciiLowercaseIdempotent | src/classify.rs:14 | lowercasing twice equals lowercasing once, and the result has no ASCII capitals |
| Text.EqIgnoreAsciiCaseIsLowercaseEq | src/dvd.rs:7 | `eq_ignore_ascii_case` holds exactly when the ASCII-lowercased strings are equal |
| Text.ToStrIgnoresAsciiCase | src/classify.rs:12-14 | two OS strings that differ only in ASCII case are both valid or both invalid, and lowercase to the same string |
| Text.TrimStartPadded | src/photo.rs:12 | trimming the start removes exactly a whitespace prefix in front of text that starts with a non-space |
| Text.TrimEndPadded | src/photo.rs:12 | trimming the end removes exactly a whitespace suffix behind text that ends with a non-space |
| Text.TrimRemovesPadding | src/photo.rs:12 | `trim` of whitespace + trimmed text + whitespace is that text |
| Paths.StemAndExtensionRebuildName | src/plan.rs:67-72 | a file stem exists exactly when a file name does; stem + `.` + extension rebuilds the name; the extension has no dot; with no extension, the stem is the whole name |
| Paths.JoinedNameSplits | src/classify.rs:12 | the name `stem.ext`, with a dot-free `ext`, has extension `ext` and stem `stem` |
| Paths.LastComponentDecides | src/plan.rs:112-118 | file name, extension and stem depend only on the last component |
| Paths.ParseDisplay | src/plan.rs:229 | parsing the displayed string of a well-formed path gives the path back, so the `src` written into an item names the walked path |
| Paths.PathLeTotalPreorder | src/plan.rs:148 | the component-wise path order is total and transitive |
| Paths.PathOrderIsNotStringOrder | src/plan.rs:148 | path order and string order disagree on `a/b` and `a-b` |
| Chrono.YearRoundTrip | src/plan.rs:89 | the `%Y` text of any year parses back to that year and has at least four characters |
| Chrono.YearMonthRoundTrip | src/plan.rs:90 | `%Y-%m` parses back to its year and month |
| Chrono.DateRoundTrip | src/plan.rs:91 | `%Y-%m-%d` parses back to its date |
| Chrono.DateTimeParts | src/time.rs:26-28 | the printed date and the printed clock (second 60 during a leap second) each parse back |
| Chrono.DateTimeRoundTrip | src/time.rs:26-28 | `format_dt`'s text parses back to the date-time cut to the whole second: the fraction is lost, a leap second (printed as second 60) is kept |
| Chrono.FormatDateTimeInjective | src/time.rs:26-28 | two date-times format alike exactly when they agree to the whole second, leap seconds included |
| Classification.NormalizeExtensionOfName | src/classify.rs:11-15 | for `stem.ext`: None exactly when `ext` is not valid text, otherwise the ASCII-lowercased `ext`, which has no capitals |
| Classification.NoExtensionIsIgnored | src/classify.rs:17-23 | no extension, or one that is not valid text, is Ignore and not JPEG |
| Classification.ClassifyTable | src/classify.rs:17-24 | Photo, Video, Dvd and Ignore each hold exactly for their extension list, in both directions |
| Classification.JpegIsPhoto | src/classify.rs:27-32 | a JPEG is a photo; `png` is a photo but not a JPEG |
| Classification.CaseChangeKeepsDots | src/classify.rs:12-14 | changing ASCII case never introduces a dot |
| Classification.ClassifyIgnoresExtensionCase | src/classify.rs:11-32 | changing the ASCII case of an extension changes neither the normalized extension, nor the kind, nor JPEG-ness |
| DvdLayout.VideoTsNamesExactly | src/dvd.rs:4-9 | a path ending in a text component is a `VIDEO_TS` directory exactly when that name lowercases to `video_ts` |
| DvdLayout.NoFileNameIsNotVideoTs | src/dvd.rs:4-9 | the empty path, the root, or a path ending in `..` (no file name) is not one |
| DvdLayout.InvalidNameIsNotVideoTs | src/dvd.rs:6-8 | a last component that is not valid text gives false |
| DvdLayout.OnlyLastComponentMatters | src/dvd.rs:4-7 | a child of `VIDEO_TS` with another name gives false, while the `VIDEO_TS` directory itself gives true |
| ExifDates.ExifCaptureDatetime | src/photo.rs:16-38 | the function fails exactly when the file cannot be opened, and it fails with that error |
| ExifDates.UnreadableContainerIsNoDate | src/photo.rs:20-22 | a file with no readable EXIF container yields `Ok(None)` |
| ExifDates.OriginalBeforeDateTime | src/photo.rs:23-35 | a parseable `DateTimeOriginal` wins, and `DateTime` is then irrelevant; otherwise `DateTime` decides |
| ExifDates.OnlyFirstAsciiComponentCounts | src/photo.rs:6-10 | a non-Ascii value and an empty Ascii vector give None; only the first Ascii component matters |
| ExifDates.ExifTextIsTrimmed | src/photo.rs:12 | the Exif `YYYY:MM:DD HH:MM:SS` text of a date-time has no surrounding whitespace |
| ExifDates.PaddedExifTextIsRead | src/photo.rs:8-13 | with a parser that reads the Exif layout, a whitespace-padded first component is read as its date-time, to the whole second |
| ExifDates.InvalidBytesAreInterchangeable | src/photo.rs:8 | the values of the invalid bytes in a tag do not matter, since lossy decoding replaces them with U+FFFD |
| Time.BestDatetimeForFile | src/time.rs:30-54 | a date is present exactly when a source is named; Exif only for JPEGs, Ffprobe only for videos, Mtime only for photos and videos and equal to the mtime; an error comes only from a JPEG's EXIF open or a video's ffprobe |
| Time.BestDatetimeForDvd | src/time.rs:56-61 | the date is the root's mtime, with source Mtime when there is one and NoSource otherwise |
| Time.JpegPriority | src/time.rs:32-41 | a JPEG fails exactly when its file cannot be opened; an EXIF date wins; otherwise the mtime fallback applies |
| Time.NonJpegPhotoSkipsExif | src/time.rs:33-40 | a non-JPEG photo goes straight to mtime, and its EXIF oracle is never consulted |
| Time.VideoPriority | src/time.rs:43-51 | a video's ffprobe date wins, an ffprobe error is returned, and otherwise mtime is used; EXIF is never consulted |
| Time.OtherKindsHaveNoDate | src/time.rs:52 | DVD parts and ignored files get `(None, None)` |
| Plan.CountAppend | src/plan.rs:38-65 | appending an item raises a category count by one exactly when the item is in the category |
| Plan.TallyAgrees | src/plan.rs:216-265 | the counter bumps for a pushed item keep every `PlanSummary` counter equal to its count over the items, starting from `PlanSummary::new` |
| Plan.KindsPartition | src/plan.rs:18-23 | photos, videos and DVDs partition the items |
| Plan.PlannedIsSumOfKinds | src/plan.rs:217-297 | a summary that agrees with its items has `planned == photos + videos + dvds == items.len()` |
| Plan.ReadPlanDst | src/plan.rs:74-122 | the destination reads back as kind folder, `YYYY/YYYY-MM/YYYY-MM-DD` of the date (or `UnknownDate`) and file name, two or four levels under `out_root` |
| Plan.DatedDst | src/plan.rs:86-105 | with a date, the destination is `out_root/<kind>/YYYY/YYYY-MM/YYYY-MM-DD/<name>` |
| Plan.DateFolders | src/plan.rs:86-92 | the three date folders of a date-time are never `UnknownDate` and read back as its year, month and day |
| Plan.ReadDstOf | src/plan.rs:80-121 | the reader accepts exactly the kind-folder / date-or-`UnknownDate` / name layout |
| Plan.SourceDirectoryIsIrrelevant | src/plan.rs:107-121 | the destination depends on the source's last component only |
| Plan.PhotoFileName | src/plan.rs:107-121 | a photo `stem.ext` is filed as `stem.` + lowercased `ext` |
| Plan.PhotoFallbacks | src/plan.rs:67-72 | the extension falls back to `jpg`; a stem that is missing or not UTF-8 becomes `file`; a valid stem is kept |
| Plan.VideoAndDvdFileNames | src/plan.rs:107-119 | videos and DVDs end in `.mp4`; a DVD keeps its whole directory name, or becomes `DVD.mp4` when the name is missing or not UTF-8; a video keeps its safe stem |
| Plan.ActionForVideoTable | src/plan.rs:124-129 | a video is converted exactly when its extension is `avi`, and copied exactly when it is `mp4`, `mov` or `m4v` |
| PlanDuplicates.PathOrderIsTotalPreorder | src/plan.rs:148 | the order groups are sorted by is a total preorder |
| PlanDuplicates.MinIndexIsFirstMinimal | src/plan.rs:148-149 | the chosen index holds a member no greater than any other, and it is the first such member, as a stable sort puts first |
| PlanDuplicates.GroupOfUnique | src/plan.rs:144-158 | in pairwise-disjoint groups, a member's group is the one it was found in |
| PlanDuplicates.CanonicalSortsFirst | src/plan.rs:147-149 | the canonical path is in the group, precedes every member, and is itself not a duplicate |
| PlanDuplicates.CandidatesAreSources | src/plan.rs:132-140 | every hashed path is the source of a photo or video item |
| PlanDuplicates.MarkItemFrame | src/plan.rs:161-180 | marking changes only size, hash and `duplicate_of`; it leaves DVD items alone; it sets a hash only for group members and `duplicate_of` only for duplicates |
| PlanDuplicates.DuplicateTargetsAreCanonical | src/plan.rs:147-174 | every `duplicate_of` target is another photo or video item with the same hash, carries no `duplicate_of`, and sorts no later |
| PlanDuplicates.MarkItemCategory | src/plan.rs:173-179 | marking moves an item into a duplicate category exactly when it is a non-DVD duplicate, and keeps every other category |
| PlanDuplicates.CountAfterMarking | src/plan.rs:173-180 | after marking, each duplicate count is the number of duplicates of that kind, and every other count is unchanged |
| PlanDuplicates.MarkingKeepsAgreement | src/plan.rs:173-180 | raising `duplicate_photos` and `duplicate_videos` by the numbers marked keeps the summary in agreement with the items |
| PlanDuplicates.NoneMarked | src/plan.rs:131-181 | before marking, no item counts as a duplicate |
| PlanDuplicates.TablesComplete | src/plan.rs:144-159 | the built `hash_of` covers exactly the group members, with their group's hash; `duplicate_of` covers exactly the non-canonical members, with their canonical path |
| PlanDuplicates.BuildTables | src/plan.rs:144-159 | the table loop fills both maps for every group |
| PlanDuplicates.EnterGroup | src/plan.rs:147-158 | entering one group extends the tables by exactly that group |
| PlanDuplicates.CollectCandidates | src/plan.rs:132-140 | the collected paths are the photo and video sources, in plan order |
| PlanDuplicates.MarkOne | src/plan.rs:161-180 | one turn of the marking loop marks the item as `MarkAll` does, and reports whether it was a duplicate |
| PlanDuplicates.MarkItems | src/plan.rs:161-181 | the in-place loop leaves `MarkAll` of the old items in the array, and raises the two duplicate counters by the numbers marked |
| PlanDuplicates.DuplicatesStep | src/plan.rs:173-179 | the duplicate count of a prefix grows by one exactly for a duplicate of that kind |
| PlanDuplicates.MarkInputDuplicates | src/plan.rs:131-184 | a finder error is returned with the items untouched; otherwise the items are marked as `MarkAll` says and the counters are raised by the numbers marked |
| PlanBuild.BuildPlan | src/plan.rs:186-301 | a walk, finder or VOB error is returned as such; otherwise every DVD root is listed once, the plan is the marked photos and videos followed by one item per root, DVD items come exactly after the others, and the summary agrees with the plan |
| PlanBuild.WalkPass | src/plan.rs:192-269 | the walk loop computes the fold `Scan` |
| PlanBuild.PlanPhoto | src/plan.rs:216-238 | a date error is returned; otherwise a Copy item is pushed and tallied |
| PlanBuild.PlanVideo | src/plan.rs:239-266 | a date error is returned; otherwise an item with `action_for_video`'s action is pushed and tallied |
| PlanBuild.PlanDvd | src/plan.rs:274-297 | a VOB-listing error is returned; otherwise a ConvertDvd item is pushed and tallied |
| PlanBuild.DvdPass | src/plan.rs:273-298 | either some root's VOB listing failed with the returned error, or every root yields one item in an order that lists each root once, and the summary stays in agreement |
| PlanBuild.DvdProgressStep | src/plan.rs:273-298 | one DVD turn keeps the loop's invariant |
| PlanBuild.EnumeratesStep | src/plan.rs:273 | taking a new root extends an enumeration of the roots taken so far |
| PlanBuild.AppendDvd | src/plan.rs:287-296 | pushing a root's item equals listing it after the roots already taken |
| PlanBuild.ScanFailureSticks | src/plan.rs:219 | once the walk loop has failed, the rest of the walk does not change the result |
| PlanBuild.VisitKeepsWalked | src/plan.rs:192-269 | one walk turn keeps the summary in agreement with the items, and keeps every item a non-duplicate photo or video |
| PlanBuild.ScanInvariant | src/plan.rs:192-269 | that holds after the whole walk |
| PlanBuild.ScanPlansTheFiles | src/plan.rs:192-269 | the walk plans exactly the plannable entries, in walk order, each with its resolved date |
| PlanBuild.PlannableIsFilter | src/plan.rs:196-213 | plannable entries are exactly the regular, non-`VIDEO_TS`, photo or video entries of the walk |
| PlanBuild.ScanFindsTheRips | src/plan.rs:200-205 | the collected roots are exactly the DVD roots the walk's directories name |
| PlanBuild.ScannedItems | src/plan.rs:207-265 | each walked item comes from a regular file outside `VIDEO_TS`; photos are copied; videos take `action_for_video`'s action; `dst` is `plan_dst` of the resolved date |
| PlanBuild.FirstDateError | src/plan.rs:219 | the index returned is the first entry whose date cannot be resolved |
| PlanBuild.ScanFailsOnFirstDateError | src/plan.rs:219-242 | the walk fails exactly when some plannable entry's date fails, and it fails with the first such entry's error |
| PlanBuild.ScanFailsOnDateError | src/plan.rs:219-242 | the walk fails exactly when some entry's date fails |
| PlanBuild.VisitFails | src/plan.rs:219-242 | one turn fails exactly on a date failure, and with that error |
| Apply.Workspace.WriteLine | src/apply.rs:66 | a written line is appended to its log; a failed write leaves the workspace as it was |
| Apply.Workspace.ApplyItems | src/apply.rs:45-109 | the loop leaves the workspace in `ApplyRun`'s final state and returns `ApplyRun`'s result |
| Apply.Workspace.ApplyOne | src/apply.rs:61-105 | one turn of the loop leaves the workspace, the summary and the fates exactly as `Step` says, and reports the log-write error that ends the run |
| Apply.EndedRunStays | src/apply.rs:66-103 | after a log-write error nothing more happens |
| Apply.OccurrencesAppend | src/apply.rs:61-105 | a fate count grows by one exactly for an item with that fate |
| Apply.StepTallies | src/apply.rs:61-105 | each item raises exactly its own outcome counter and `total` |
| Apply.ReplayTallies | src/apply.rs:61-105 | every counter equals the number of items with that outcome, and a completed replay has one fate per item |
| Apply.FatesPartition | src/apply.rs:61-105 | the six outcomes partition the items |
| Apply.ApplyCounts | src/apply.rs:61-105 | `total == copied + converted_video + converted_dvd + skipped_existing + skipped_dupliace + failed`, and `total` is the item count when no log write failed |
| Apply.StepShape | src/apply.rs:64-104 | a step appends one fate: duplicate exactly when `duplicate_of` is set; otherwise existing exactly when `dst` exists; otherwise done with the item's action exactly when `perform` passes, and failed with `perform`'s error otherwise. A destination is created exactly on success. The run ends exactly when writing the fate's line to its log fails, with the write's error |
| Apply.ReplayFates | src/apply.rs:64-104 | the replay appends at most one fate per item, each matching its item |
| Apply.ReplayDecides | src/apply.rs:64-104 | every fate of a replay is the one `duplicate_of`, `dst in existing` and `perform` decide, given the destinations the items before it left existing |
| Apply.ReplayKeepsDestinations | src/apply.rs:78-96 | existing destinations stay, and every successful item's destination exists afterwards |
| Apply.ReplayCreatesOnlyDone | src/apply.rs:73-96 | every new destination is that of an item that succeeded |
| Apply.ExistingAreSkipped | src/apply.rs:64-76 | an item whose destination existed at the start is skipped as a duplicate or as existing |
| Apply.StepLogs | src/apply.rs:64-104 | a step that does not end the run writes exactly its fate's line (`OK` on success, `FAIL` with `perform`'s error on failure, `SKIP_DUP` for a duplicate, none when skipped as existing), and the fate is decided by the effects as in `StepShape` |
| Apply.ReplayDupLog | src/apply.rs:64-68 | a completed replay appends one `SKIP_DUP` line per duplicate, in order |
| Apply.ReplayOkLog | src/apply.rs:84-96 | a completed replay appends one `OK` line per successful item, in order |
| Apply.ReplayFailLog | src/apply.rs:97-104 | a completed replay appends one `FAIL` line per failed item, in order |
| Apply.ApplyLogs | src/apply.rs:64-104 | a run with no write error has one fate per item, each decided by `duplicate_of`, `dst in existing` and `perform` given what the earlier items left existing, and each log gains exactly its lines, in item order |
| Apply.ApplyDecides | src/apply.rs:64-104 | every fate of a whole run is the one `duplicate_of`, `dst in existing` and `perform` decide, given what the earlier items left existing |
| Apply.RerunSkipsWhatSucceeded | src/apply.rs:73-76 | re-running the same items skips every item that succeeded the first time as existing, whatever the effects do |

## Left out

- `src/video.rs` and `src/video_meta.rs` are not part of this model. The ffprobe creation time is the oracle `Probes.ffprobe`, and video and DVD transcoding are the `perform` effect.
- `src/main.rs` is an earlier scan-and-print binary and is not part of this model.
- `dvd_root_from_video_ts_dir`, `is_inside_video_ts`, `dvd_main_title_vobs` and `convert_dvd_vobs_to_single_mp4` are not part of this model. They are the oracles `dvdRootOf`, `insideVideoTs` and `titleVobs`, and the `perform` effect.
- `deduplicate::find_exact_duplicates` and content hashing are not part of this model. The groups come from the oracle `find`. `BuildPlan` and `MarkInputDuplicates` require that its groups are non-empty, repeat no path, are pairwise disjoint and are drawn from the paths it was given (`ValidFinder`).
- The directory walk is a given sequence of entries. Walk errors are entries that are skipped. WalkDir's traversal order is not modelled.
- `fs::metadata` sizes and modification times, and the conversion to local time, are oracles (`size`, `Probes.mtime`).
- The EXIF reader is an oracle `Probes.exif` that says whether the file opened and which tags its container holds.
- chrono's `parse_from_str` is the oracle `Probes.parse`. Only `ExifDates.PaddedExifTextIsRead` assumes it reads the Exif layout (`ReadsExifText`).
- The order in which the `HashSet` of DVD roots is iterated is not fixed. `BuildPlan` returns the order taken as a ghost `dvdOrder` and proves only that it lists every root once.
- HashMap and HashSet iteration over duplicate groups: `BuildTables` visits groups in an order it picks, and its result does not depend on that order.
- `group.sort()` is modelled by where it puts the minimum (`MinIndex`). Nothing after the first member is used by the source.
- The conversions between `PathBuf` and its lossy string in `mark_input_duplicates` are taken as the identity on the item's `src` string.
- `ApplySummary` and `PlanSummary` counters are unbounded; `u64` overflow is not modelled.
- Serde manifest reading and writing, `ensure_parent_dir`, and the text of `anyhow` error contexts are left out. A failure carries an `Error` message.
- `dst.exists()` is membership of the destination string in a set of existing paths. Symbolic links and paths that name the same file through different strings are not modelled.
- `perform` is a function of the action, source and destination. A failed action is taken to leave no destination behind, so a partial copy is not modelled.
- Log files are opened once, in append mode. Opening is the `openLog` effect, and each write is decided by the `write` effect from the log and its current length.
- `PlanBuild.FormatDt` states no contract of its own. `format_dt` is `Chrono.FormatDateTime`, whose round trip and injectivity are proved.
- `Text.Lossy` turns each invalid byte into one U+FFFD. `from_utf8_lossy` turns each maximal invalid sequence into one, so the number of replacement characters can differ. Neither can be parsed as a date.
- Paths come from the walk as component sequences, and `Paths.Display` prints them with single separators and without interior `.` components. `to_string_lossy` keeps the spelling the walk root and the output root were given (`in//x`, `in/./x`), so for such roots the `src` and `dst` strings of the model can be spelt differently from the program's while naming the same file.
- Years are any integer. `%Y` follows chrono, so years outside 0–9999 carry a sign or more digits, and `Chrono.YearRoundTrip` covers them too.
