/** Carrying out a plan (src/apply.rs): every item is skipped as a duplicate, skipped
    because its destination exists, or copied or converted, and the outcome is counted
    and logged. */
module Apply {
  import opened Wrappers
  import opened Plan

  /** `ApplySummary`: one counter per outcome, and the number of items seen. */
  datatype ApplySummary = ApplySummary(
    total: nat,
    copied: nat,
    convertedVideo: nat,
    convertedDvd: nat,
    skippedExisting: nat,
    skippedDuplicate: nat,
    failed: nat)

  /** `ApplySummary::new`. */
  const NewApplySummary := ApplySummary(0, 0, 0, 0, 0, 0, 0)

  /** The three append-only logs: `apply_ok.log`, `apply_fail.log` and
      `apply_duplicates_skipped.log`. */
  datatype LogName = OkLog | FailLog | DupLog

  /** What the file system and the converters do: opening a log for appending, carrying
      out an action from a source to a destination (`copy_file`,
      `ffmpeg_convert_to_mp4`, `convert_dvd_vobs_to_single_mp4`), and writing the line of
      a log that follows its first `n` lines. */
  datatype Effects = Effects(
    openLog: LogName -> Outcome,
    perform: (Action, string, string) -> Outcome,
    write: (LogName, nat) -> Outcome)

  /** What a run acts on: the destinations that exist, and the lines of the three logs. */
  datatype World = World(existing: set<string>, okLog: seq<string>, failLog: seq<string>, dupLog: seq<string>)

  /** What became of one item. */
  datatype Fate = Duplicate | Existing | Done(action: Action) | Failed(error: Error)

  /** A run so far: the world, the summary, the fate of each item seen, and the error that
      ended the run, if one did. */
  datatype Run = Run(world: World, summary: ApplySummary, fates: seq<Fate>, error: Option<Error>)

  // ---------------------------------------------------------------------------
  // Log lines

  /** `{:?}` of an action. */
  function ActionName(a: Action): string
  {
    match a
    case Copy => "Copy"
    case ConvertVideo => "ConvertVideo"
    case ConvertDvd => "ConvertDvd"
  }

  function DupLine(src: string, canon: string): string
  {
    "SKIP_DUP\t" + src + "\tdup_of=" + canon
  }

  function OkLine(it: PlannedItem): string
  {
    "OK\t" + ActionName(it.action) + "\t" + it.src + "\t->\t" + it.dst
  }

  function FailLine(it: PlannedItem, e: Error): string
  {
    "FAIL\t" + ActionName(it.action) + "\t" + it.src + "\t->\t" + it.dst + "\t[" + e.message + "]"
  }

  function Lines(w: World, log: LogName): seq<string>
  {
    match log
    case OkLog => w.okLog
    case FailLog => w.failLog
    case DupLog => w.dupLog
  }

  function Appended(w: World, log: LogName, line: string): World
  {
    match log
    case OkLog => w.(okLog := w.okLog + [line])
    case FailLog => w.(failLog := w.failLog + [line])
    case DupLog => w.(dupLog := w.dupLog + [line])
  }

  // ---------------------------------------------------------------------------
  // The run, one item at a time

  /** `writeln!(log, …)?`: the line is appended, or the run ends with the write's error. */
  function Log(w: World, log: LogName, line: string, s: ApplySummary, fates: seq<Fate>, fx: Effects): Run
  {
    match fx.write(log, |Lines(w, log)|)
    case Pass => Run(Appended(w, log, line), s, fates, None)
    case Fail(e) => Run(w, s, fates, Some(e))
  }

  /** The counter a successful action bumps. */
  function Performed(s: ApplySummary, a: Action): ApplySummary
  {
    match a
    case Copy => s.(copied := s.copied + 1)
    case ConvertVideo => s.(convertedVideo := s.convertedVideo + 1)
    case ConvertDvd => s.(convertedDvd := s.convertedDvd + 1)
  }

  /** One turn of the loop of `apply_items`; a run that has ended stays as it is. */
  function Step(r: Run, it: PlannedItem, fx: Effects): Run
  {
    if r.error.Some? then r
    else
      var s := r.summary.(total := r.summary.total + 1);
      if it.duplicateOf.Some? then
        Log(r.world, DupLog, DupLine(it.src, it.duplicateOf.value),
            s.(skippedDuplicate := s.skippedDuplicate + 1), r.fates + [Duplicate], fx)
      else if it.dst in r.world.existing then
        Run(r.world, s.(skippedExisting := s.skippedExisting + 1), r.fates + [Existing], None)
      else
        match fx.perform(it.action, it.src, it.dst)
        case Pass =>
          Log(r.world.(existing := r.world.existing + {it.dst}), OkLog, OkLine(it),
              Performed(s, it.action), r.fates + [Done(it.action)], fx)
        case Fail(e) =>
          Log(r.world, FailLog, FailLine(it, e), s.(failed := s.failed + 1), r.fates + [Failed(e)], fx)
  }

  /** The loop of `apply_items` from a run so far over the items still to come. */
  function Replay(r: Run, items: seq<PlannedItem>, fx: Effects): Run
    decreases |items|
  {
    if |items| == 0 then r else Replay(Step(r, items[0], fx), items[1..], fx)
  }

  /** `apply_items` on a world: open the three logs, then run the loop. */
  function ApplyRun(w: World, items: seq<PlannedItem>, fx: Effects): Run
  {
    if fx.openLog(OkLog).Fail? then Run(w, NewApplySummary, [], Some(fx.openLog(OkLog).error))
    else if fx.openLog(FailLog).Fail? then Run(w, NewApplySummary, [], Some(fx.openLog(FailLog).error))
    else if fx.openLog(DupLog).Fail? then Run(w, NewApplySummary, [], Some(fx.openLog(DupLog).error))
    else Replay(Run(w, NewApplySummary, [], None), items, fx)
  }

  /** What `apply_items` returns for a run. */
  function Returned(run: Run): Result<ApplySummary>
  {
    match run.error
    case Some(e) => Failure(e)
    case None => Success(run.summary)
  }

  // ---------------------------------------------------------------------------
  // The file system and the three logs

  class Workspace {
    /** The destinations that exist (`Path::exists`). */
    var existing: set<string>
    var okLog: seq<string>
    var failLog: seq<string>
    var dupLog: seq<string>

    constructor(existing: set<string>, okLog: seq<string>, failLog: seq<string>, dupLog: seq<string>)
      ensures State() == World(existing, okLog, failLog, dupLog)
    {
      this.existing := existing;
      this.okLog := okLog;
      this.failLog := failLog;
      this.dupLog := dupLog;
    }

    function State(): World
      reads this
    {
      World(existing, okLog, failLog, dupLog)
    }

    /** `writeln!` on one of the logs. */
    method WriteLine(log: LogName, line: string, fx: Effects) returns (o: Outcome)
      modifies this
      ensures o == fx.write(log, |Lines(old(State()), log)|)
      ensures State() == if o.Pass? then Appended(old(State()), log, line) else old(State())
    {
      var n: nat;
      match log {
        case OkLog => n := |okLog|;
        case FailLog => n := |failLog|;
        case DupLog => n := |dupLog|;
      }
      o := fx.write(log, n);
      if o.Pass? {
        match log {
          case OkLog => okLog := okLog + [line];
          case FailLog => failLog := failLog + [line];
          case DupLog => dupLog := dupLog + [line];
        }
      }
    }

    /** `apply_items`. */
    method ApplyItems(items: seq<PlannedItem>, fx: Effects) returns (r: Result<ApplySummary>)
      modifies this
      ensures State() == ApplyRun(old(State()), items, fx).world
      ensures r == Returned(ApplyRun(old(State()), items, fx))
    {
      var logOpened := fx.openLog(OkLog);
      if logOpened.Fail? {
        return Failure(logOpened.error);
      }
      logOpened := fx.openLog(FailLog);
      if logOpened.Fail? {
        return Failure(logOpened.error);
      }
      logOpened := fx.openLog(DupLog);
      if logOpened.Fail? {
        return Failure(logOpened.error);
      }

      var summary := NewApplySummary;
      ghost var fates: seq<Fate> := [];
      for i := 0 to |items|
        invariant Replay(Run(State(), summary, fates, None), items[i..], fx) == ApplyRun(old(State()), items, fx)
      {
        assert items[i..][1..] == items[i + 1..];
        var ended: Option<Error>;
        summary, fates, ended := ApplyOne(items[i], summary, fates, fx);
        if ended.Some? {
          EndedRunStays(Run(State(), summary, fates, ended), items[i + 1..], fx);
          return Failure(ended.value);
        }
      }
      return Success(summary);
    }

    /** One turn of the loop of `apply_items`: it ends the run when a log line cannot
        be written. */
    method ApplyOne(item: PlannedItem, summary0: ApplySummary, ghost fates0: seq<Fate>, fx: Effects)
      returns (summary: ApplySummary, ghost fates: seq<Fate>, ended: Option<Error>)
      modifies this
      ensures Run(State(), summary, fates, ended) == Step(Run(old(State()), summary0, fates0, None), item, fx)
    {
      ended := None;
      summary := summary0.(total := summary0.total + 1);
      if item.duplicateOf.Some? {
        summary := summary.(skippedDuplicate := summary.skippedDuplicate + 1);
        fates := fates0 + [Duplicate];
        var written := WriteLine(DupLog, DupLine(item.src, item.duplicateOf.value), fx);
        if written.Fail? {
          ended := Some(written.error);
        }
        return;
      }

      if item.dst in existing {
        summary := summary.(skippedExisting := summary.skippedExisting + 1);
        fates := fates0 + [Existing];
        return;
      }

      var result := fx.perform(item.action, item.src, item.dst);
      match result {
        case Pass =>
          existing := existing + {item.dst};
          match item.action {
            case Copy => summary := summary.(copied := summary.copied + 1);
            case ConvertVideo => summary := summary.(convertedVideo := summary.convertedVideo + 1);
            case ConvertDvd => summary := summary.(convertedDvd := summary.convertedDvd + 1);
          }
          fates := fates0 + [Done(item.action)];
          var written := WriteLine(OkLog, OkLine(item), fx);
          if written.Fail? {
            ended := Some(written.error);
          }
        case Fail(e) =>
          summary := summary.(failed := summary.failed + 1);
          fates := fates0 + [Failed(e)];
          var written := WriteLine(FailLog, FailLine(item, e), fx);
          if written.Fail? {
            ended := Some(written.error);
          }
      }
    }
  }

  // ---------------------------------------------------------------------------
  // What a run promises

  /** A failed log write ends the run: no later item is looked at. */
  lemma {:induction false} EndedRunStays(r: Run, items: seq<PlannedItem>, fx: Effects)
    requires r.error.Some?
    decreases |items|
    ensures Replay(r, items, fx) == r
  {
    if |items| > 0 {
      EndedRunStays(Step(r, items[0], fx), items[1..], fx);
    }
  }

  // ---------------------------------------------------------------------------
  // What the counters count

  /** The outcomes the summary keeps a counter for. */
  datatype Counter = SkippedDuplicate | SkippedExisting | Succeeded(action: Action) | FailedAction

  predicate CountedBy(f: Fate, c: Counter)
  {
    match c
    case SkippedDuplicate => f.Duplicate?
    case SkippedExisting => f.Existing?
    case Succeeded(a) => f == Done(a)
    case FailedAction => f.Failed?
  }

  /** How many items met the fates a counter counts. */
  function Occurrences(fates: seq<Fate>, c: Counter): (n: nat)
    ensures n <= |fates|
  {
    if |fates| == 0 then 0
    else Occurrences(fates[..|fates| - 1], c) + (if CountedBy(fates[|fates| - 1], c) then 1 else 0)
  }

  /** Every counter of the summary is the number of items that met its fate, and `total`
      is the number of items seen. */
  predicate Tallies(fates: seq<Fate>, s: ApplySummary)
  {
    && s.total == |fates|
    && s.skippedDuplicate == Occurrences(fates, SkippedDuplicate)
    && s.skippedExisting == Occurrences(fates, SkippedExisting)
    && s.copied == Occurrences(fates, Succeeded(Copy))
    && s.convertedVideo == Occurrences(fates, Succeeded(ConvertVideo))
    && s.convertedDvd == Occurrences(fates, Succeeded(ConvertDvd))
    && s.failed == Occurrences(fates, FailedAction)
  }

  lemma OccurrencesAppend(fates: seq<Fate>, x: Fate, c: Counter)
    ensures Occurrences(fates + [x], c) == Occurrences(fates, c) + (if CountedBy(x, c) then 1 else 0)
  {
    assert (fates + [x])[..|fates|] == fates;
  }

  lemma StepTallies(r: Run, it: PlannedItem, fx: Effects)
    requires Tallies(r.fates, r.summary)
    ensures Tallies(Step(r, it, fx).fates, Step(r, it, fx).summary)
    ensures |Step(r, it, fx).fates| == |r.fates| + (if r.error.None? then 1 else 0)
  {
    if r.error.None? {
      var x := Step(r, it, fx).fates[|r.fates|];
      assert Step(r, it, fx).fates == r.fates + [x];
      forall c: Counter {
        OccurrencesAppend(r.fates, x, c);
      }
    }
  }

  lemma {:induction false} ReplayTallies(r: Run, items: seq<PlannedItem>, fx: Effects)
    requires Tallies(r.fates, r.summary)
    decreases |items|
    ensures Tallies(Replay(r, items, fx).fates, Replay(r, items, fx).summary)
    ensures Replay(r, items, fx).error.None? ==> |Replay(r, items, fx).fates| == |r.fates| + |items|
  {
    if |items| > 0 {
      StepTallies(r, items[0], fx);
      ReplayTallies(Step(r, items[0], fx), items[1..], fx);
      if Step(r, items[0], fx).error.Some? {
        EndedRunStays(Step(r, items[0], fx), items[1..], fx);
      }
    }
  }

  /** Every fate is exactly one of the six outcomes. */
  lemma {:induction false} FatesPartition(fates: seq<Fate>)
    ensures Occurrences(fates, SkippedDuplicate) + Occurrences(fates, SkippedExisting)
            + Occurrences(fates, Succeeded(Copy)) + Occurrences(fates, Succeeded(ConvertVideo))
            + Occurrences(fates, Succeeded(ConvertDvd)) + Occurrences(fates, FailedAction) == |fates|
  {
    if |fates| > 0 {
      FatesPartition(fates[..|fates| - 1]);
      match fates[|fates| - 1]
      case Done(a) => assert a == Copy || a == ConvertVideo || a == ConvertDvd;
      case _ =>
    }
  }

  /** `total` is the sum of the six outcome counters, and after a run that no log write
      ended it is the number of items. */
  lemma ApplyCounts(w: World, items: seq<PlannedItem>, fx: Effects)
    ensures var run := ApplyRun(w, items, fx);
            && Tallies(run.fates, run.summary)
            && run.summary.total == run.summary.copied + run.summary.convertedVideo + run.summary.convertedDvd
                                    + run.summary.skippedExisting + run.summary.skippedDuplicate + run.summary.failed
            && (run.error.None? ==> run.summary.total == |items|)
  {
    var start := Run(w, NewApplySummary, [], None);
    ReplayTallies(start, items, fx);
    FatesPartition(ApplyRun(w, items, fx).fates);
  }

  // ---------------------------------------------------------------------------
  // What becomes of each item

  /** The fate of an item agrees with the item: it is skipped as a duplicate exactly when
      it names the copy it duplicates, and a performed action is the item's own. */
  predicate FitsItem(f: Fate, it: PlannedItem)
  {
    && (f.Duplicate? <==> it.duplicateOf.Some?)
    && (f.Done? ==> f.action == it.action)
  }

  /** How the item and the effects decide a fate, given the destinations that exist: a
      duplicate is skipped first, then an existing destination; otherwise the action is
      carried out, and it is done exactly when `perform` passes and failed with
      `perform`'s own error otherwise. */
  predicate FateFollows(f: Fate, it: PlannedItem, existing: set<string>, fx: Effects)
  {
    var outcome := fx.perform(it.action, it.src, it.dst);
    && FitsItem(f, it)
    && (f == Existing <==> it.duplicateOf.None? && it.dst in existing)
    && (f.Done? <==> it.duplicateOf.None? && it.dst !in existing && outcome.Pass?)
    && (f.Failed? ==> it.duplicateOf.None? && it.dst !in existing && outcome == Fail(f.error))
  }

  /** The log a fate writes its line to; an item skipped as existing writes none. */
  function LogOf(f: Fate): Option<LogName>
  {
    match f
    case Duplicate => Some(DupLog)
    case Existing => None
    case Done(_) => Some(OkLog)
    case Failed(_) => Some(FailLog)
  }

  /** One step of a run that has not ended appends exactly one fate, which the effects
      decide; only a successful action adds a destination; and the run ends exactly when
      writing the fate's line fails, with the write's error. */
  predicate StepShapeHolds(r: Run, it: PlannedItem, fx: Effects)
    requires r.error.None?
  {
    var next := Step(r, it, fx);
    && |next.fates| == |r.fates| + 1
    && next.fates[..|r.fates|] == r.fates
    && FateFollows(next.fates[|r.fates|], it, r.world.existing, fx)
    && next.world.existing == (if next.fates[|r.fates|].Done? then r.world.existing + {it.dst} else r.world.existing)
    && (it.dst in r.world.existing ==> next.fates[|r.fates|] in {Duplicate, Existing})
    && var log := LogOf(next.fates[|r.fates|]);
       && (next.error.Some? <==> log.Some? && fx.write(log.value, |Lines(r.world, log.value)|).Fail?)
       && (next.error.Some? ==> next.error.value == fx.write(log.value, |Lines(r.world, log.value)|).error)
  }

  lemma StepShape(r: Run, it: PlannedItem, fx: Effects)
    requires r.error.None?
    ensures StepShapeHolds(r, it, fx)
  {
    assert (r.fates + [Duplicate])[..|r.fates|] == r.fates;
    assert (r.fates + [Existing])[..|r.fates|] == r.fates;
  }

  /** A run only ever appends fates, at most one per item, each fitting its item. */
  lemma {:induction false} ReplayFates(r: Run, items: seq<PlannedItem>, fx: Effects)
    decreases |items|
    ensures var fates := Replay(r, items, fx).fates;
            && |r.fates| <= |fates| <= |r.fates| + |items|
            && fates[..|r.fates|] == r.fates
            && forall k :: |r.fates| <= k < |fates| ==> FitsItem(fates[k], items[k - |r.fates|])
  {
    if |items| > 0 {
      if r.error.Some? {
        EndedRunStays(r, items, fx);
      } else {
        var next := Step(r, items[0], fx);
        StepShape(r, items[0], fx);
        ReplayFates(next, items[1..], fx);
        var fates := Replay(next, items[1..], fx).fates;
        assert fates[..|r.fates|] == fates[..|next.fates|][..|r.fates|];
        forall k | |r.fates| <= k < |fates|
          ensures FitsItem(fates[k], items[k - |r.fates|])
        {
          if k == |r.fates| {
            assert fates[k] == fates[..|next.fates|][k];
          } else {
            assert items[1..][k - |next.fates|] == items[k - |r.fates|];
          }
        }
      }
    }
  }

  /** Every fate of a run is the one the effects decide for its item, given the
      destinations that exist once the items before it have been carried out. */
  lemma {:induction false} ReplayDecides(r: Run, items: seq<PlannedItem>, fx: Effects, j: nat)
    requires j < |items| && |r.fates| + j < |Replay(r, items, fx).fates|
    decreases |items|
    ensures FateFollows(Replay(r, items, fx).fates[|r.fates| + j], items[j], Replay(r, items[..j], fx).world.existing, fx)
  {
    if r.error.Some? {
      EndedRunStays(r, items, fx);
      assert false;
    }
    var next := Step(r, items[0], fx);
    StepShape(r, items[0], fx);
    var fates := Replay(r, items, fx).fates;
    if j == 0 {
      ReplayFates(next, items[1..], fx);
      assert fates[|r.fates|] == fates[..|next.fates|][|r.fates|];
    } else {
      if next.error.Some? {
        EndedRunStays(next, items[1..], fx);
        assert false;
      }
      ReplayDecides(next, items[1..], fx, j - 1);
      assert items[..j][0] == items[0] && items[..j][1..] == items[1..][..j - 1];
    }
  }

  /** Destinations only ever come into existence, and every action that succeeded
      leaves its destination existing. */
  lemma {:induction false} ReplayKeepsDestinations(r: Run, items: seq<PlannedItem>, fx: Effects)
    decreases |items|
    ensures var run := Replay(r, items, fx);
            && r.world.existing <= run.world.existing
            && forall k :: |r.fates| <= k < |run.fates| && k < |r.fates| + |items| && run.fates[k].Done? ==>
                 items[k - |r.fates|].dst in run.world.existing
  {
    if |items| > 0 {
      if r.error.Some? {
        EndedRunStays(r, items, fx);
      } else {
        var next := Step(r, items[0], fx);
        StepShape(r, items[0], fx);
        ReplayKeepsDestinations(next, items[1..], fx);
        ReplayFates(next, items[1..], fx);
        var run := Replay(next, items[1..], fx);
        forall k | |r.fates| <= k < |run.fates| && k < |r.fates| + |items| && run.fates[k].Done?
          ensures items[k - |r.fates|].dst in run.world.existing
        {
          if k == |r.fates| {
            assert run.fates[k] == run.fates[..|next.fates|][k];
          } else {
            assert items[1..][k - |next.fates|] == items[k - |r.fates|];
          }
        }
      }
    }
  }

  /** A destination comes into existence only through an action that succeeded: a
      duplicate, an existing destination or a failed action creates nothing. */
  lemma {:induction false} ReplayCreatesOnlyDone(r: Run, items: seq<PlannedItem>, fx: Effects)
    decreases |items|
    ensures var run := Replay(r, items, fx);
            forall x :: x in run.world.existing && x !in r.world.existing ==>
              exists k :: |r.fates| <= k < |run.fates| && k < |r.fates| + |items| && run.fates[k].Done? &&
                items[k - |r.fates|].dst == x
  {
    if |items| > 0 {
      if r.error.Some? {
        EndedRunStays(r, items, fx);
      } else {
        var next := Step(r, items[0], fx);
        StepShape(r, items[0], fx);
        ReplayCreatesOnlyDone(next, items[1..], fx);
        ReplayFates(next, items[1..], fx);
        var run := Replay(next, items[1..], fx);
        forall x | x in run.world.existing && x !in r.world.existing
          ensures exists k :: |r.fates| <= k < |run.fates| && k < |r.fates| + |items| && run.fates[k].Done? &&
                    items[k - |r.fates|].dst == x
        {
          if x in next.world.existing {
            var k := |r.fates|;
            assert run.fates[k] == run.fates[..|next.fates|][k];
          } else {
            var k :| |next.fates| <= k < |run.fates| && k < |next.fates| + |items[1..]| && run.fates[k].Done? &&
                     items[1..][k - |next.fates|].dst == x;
            assert items[1..][k - |next.fates|] == items[k - |r.fates|];
          }
        }
      }
    }
  }

  /** An item whose destination exists when the run starts is never acted on: it is
      skipped, as a duplicate or as existing. */
  lemma {:induction false} ExistingAreSkipped(r: Run, items: seq<PlannedItem>, fx: Effects, k: nat)
    requires |r.fates| <= k < |Replay(r, items, fx).fates| && k < |r.fates| + |items|
    requires items[k - |r.fates|].dst in r.world.existing
    decreases |items|
    ensures Replay(r, items, fx).fates[k] in {Duplicate, Existing}
  {
    if r.error.Some? {
      EndedRunStays(r, items, fx);
    } else {
      var next := Step(r, items[0], fx);
      StepShape(r, items[0], fx);
      ReplayFates(next, items[1..], fx);
      var run := Replay(next, items[1..], fx);
      if k == |r.fates| {
        assert run.fates[k] == run.fates[..|next.fates|][k];
      } else {
        assert items[1..][k - |next.fates|] == items[k - |r.fates|];
        ExistingAreSkipped(next, items[1..], fx, k);
      }
    }
  }

  /** The lines `apply_ok.log` gains: one per action that succeeded, in item order. */
  function OkLines(items: seq<PlannedItem>, fates: seq<Fate>): seq<string>
    decreases |items|
  {
    if |items| == 0 || |fates| == 0 then []
    else (if fates[0].Done? then [OkLine(items[0])] else []) + OkLines(items[1..], fates[1..])
  }

  /** The lines `apply_fail.log` gains: one per action that failed, with its error. */
  function FailLines(items: seq<PlannedItem>, fates: seq<Fate>): seq<string>
    decreases |items|
  {
    if |items| == 0 || |fates| == 0 then []
    else (if fates[0].Failed? then [FailLine(items[0], fates[0].error)] else []) + FailLines(items[1..], fates[1..])
  }

  /** The lines `apply_duplicates_skipped.log` gains: one per duplicate item. */
  function DupLines(items: seq<PlannedItem>): seq<string>
    decreases |items|
  {
    if |items| == 0 then []
    else (if items[0].duplicateOf.Some? then [DupLine(items[0].src, items[0].duplicateOf.value)] else [])
         + DupLines(items[1..])
  }

  /** One step that did not end the run writes exactly the line its fate calls for, to
      the log the fate calls for, and nothing else. */
  lemma StepLogs(r: Run, it: PlannedItem, fx: Effects)
    requires r.error.None? && Step(r, it, fx).error.None?
    ensures StepShapeHolds(r, it, fx)
    ensures var next := Step(r, it, fx);
            var f := next.fates[|r.fates|];
            && next.world.okLog == r.world.okLog + (if f.Done? then [OkLine(it)] else [])
            && next.world.failLog == r.world.failLog + (if f.Failed? then [FailLine(it, f.error)] else [])
            && next.world.dupLog == r.world.dupLog +
                 (if it.duplicateOf.Some? then [DupLine(it.src, it.duplicateOf.value)] else [])
  {
    StepShape(r, it, fx);
  }

  /** A run that does not end early handles every item and appends one duplicate line
      per duplicate item, in item order. */
  lemma {:induction false} ReplayDupLog(r: Run, items: seq<PlannedItem>, fx: Effects)
    requires r.error.None?
    decreases |items|
    ensures var run := Replay(r, items, fx);
            run.error.None? ==>
              && |run.fates| == |r.fates| + |items|
              && run.world.dupLog == r.world.dupLog + DupLines(items)
  {
    if |items| > 0 && Replay(r, items, fx).error.None? {
      var next := Step(r, items[0], fx);
      if next.error.Some? {
        EndedRunStays(next, items[1..], fx);
      } else {
        StepLogs(r, items[0], fx);
        ReplayDupLog(next, items[1..], fx);
      }
    }
  }

  /** A run that does not end early appends one line to `apply_ok.log` per action that
      succeeded, in item order. */
  lemma {:induction false} ReplayOkLog(r: Run, items: seq<PlannedItem>, fx: Effects)
    requires r.error.None?
    decreases |items|
    ensures var run := Replay(r, items, fx);
            run.error.None? && |r.fates| <= |run.fates| ==>
              run.world.okLog == r.world.okLog + OkLines(items, run.fates[|r.fates|..])
  {
    if |items| > 0 && Replay(r, items, fx).error.None? {
      var next := Step(r, items[0], fx);
      if next.error.Some? {
        EndedRunStays(next, items[1..], fx);
      } else {
        var run := Replay(next, items[1..], fx);
        StepLogs(r, items[0], fx);
        ReplayOkLog(next, items[1..], fx);
        ReplayFates(next, items[1..], fx);
        var fates := run.fates[|r.fates|..];
        assert fates[0] == run.fates[..|next.fates|][|r.fates|];
        assert fates[1..] == run.fates[|next.fates|..];
      }
    }
  }

  /** A run that does not end early appends one line to `apply_fail.log` per action that
      failed, with its error, in item order. */
  lemma {:induction false} ReplayFailLog(r: Run, items: seq<PlannedItem>, fx: Effects)
    requires r.error.None?
    decreases |items|
    ensures var run := Replay(r, items, fx);
            run.error.None? && |r.fates| <= |run.fates| ==>
              run.world.failLog == r.world.failLog + FailLines(items, run.fates[|r.fates|..])
  {
    if |items| > 0 && Replay(r, items, fx).error.None? {
      var next := Step(r, items[0], fx);
      if next.error.Some? {
        EndedRunStays(next, items[1..], fx);
      } else {
        var run := Replay(next, items[1..], fx);
        StepLogs(r, items[0], fx);
        ReplayFailLog(next, items[1..], fx);
        ReplayFates(next, items[1..], fx);
        var fates := run.fates[|r.fates|..];
        assert fates[0] == run.fates[..|next.fates|][|r.fates|];
        assert fates[1..] == run.fates[|next.fates|..];
      }
    }
  }

  /** `apply_items` that returns a summary has handled every item and appended to each
      log exactly the lines for its outcomes, in item order; an item skipped because its
      destination exists is logged nowhere; and each item's outcome is the one the effects
      decide, given the destinations the items before it left existing. */
  lemma ApplyLogs(w: World, items: seq<PlannedItem>, fx: Effects)
    ensures var run := ApplyRun(w, items, fx);
            run.error.None? ==>
              && |run.fates| == |items|
              && run.world.okLog == w.okLog + OkLines(items, run.fates)
              && run.world.failLog == w.failLog + FailLines(items, run.fates)
              && run.world.dupLog == w.dupLog + DupLines(items)
              && forall j :: 0 <= j < |items| ==>
                   FateFollows(run.fates[j], items[j], ApplyRun(w, items[..j], fx).world.existing, fx)
  {
    var start := Run(w, NewApplySummary, [], None);
    ReplayDupLog(start, items, fx);
    ReplayOkLog(start, items, fx);
    ReplayFailLog(start, items, fx);
    assert Replay(start, items, fx).fates[0..] == Replay(start, items, fx).fates;
    ApplyDecides(w, items, fx);
  }

  /** Each fate of a whole run is decided by `duplicate_of`, by what the earlier items
      left existing and by `perform`. */
  lemma ApplyDecides(w: World, items: seq<PlannedItem>, fx: Effects)
    ensures var run := ApplyRun(w, items, fx);
            forall j :: 0 <= j < |run.fates| && j < |items| ==>
              FateFollows(run.fates[j], items[j], ApplyRun(w, items[..j], fx).world.existing, fx)
  {
    var start := Run(w, NewApplySummary, [], None);
    forall j | 0 <= j < |ApplyRun(w, items, fx).fates| && j < |items|
      ensures FateFollows(ApplyRun(w, items, fx).fates[j], items[j], ApplyRun(w, items[..j], fx).world.existing, fx)
    {
      ReplayDecides(start, items, fx, j);
    }
  }

  /** Running the same plan again: every item whose action succeeded the first time is
      skipped as existing the second time, whatever the converters would now do. */
  lemma RerunSkipsWhatSucceeded(w: World, items: seq<PlannedItem>, fx1: Effects, fx2: Effects)
    ensures var first := ApplyRun(w, items, fx1);
            var second := ApplyRun(first.world, items, fx2);
            forall k :: 0 <= k < |first.fates| && k < |second.fates| && first.fates[k].Done? ==>
              second.fates[k] == Existing
  {
    var first := ApplyRun(w, items, fx1);
    var second := ApplyRun(first.world, items, fx2);
    ReplayFates(Run(w, NewApplySummary, [], None), items, fx1);
    ReplayKeepsDestinations(Run(w, NewApplySummary, [], None), items, fx1);
    ReplayFates(Run(first.world, NewApplySummary, [], None), items, fx2);
    forall k | 0 <= k < |first.fates| && k < |second.fates| && first.fates[k].Done?
      ensures second.fates[k] == Existing
    {
      ExistingAreSkipped(Run(first.world, NewApplySummary, [], None), items, fx2, k);
    }
  }
}
