/**
 * The push receiver run by the server-side hook: it checks whether an update
 * rewrites history, and it handles one pushed update by parsing the hook
 * input, applying the master-only policy, checking the new revision out into
 * a fresh workspace under the temporary directory, calling the configured
 * handler, and removing the workspace again unless debugging.
 *
 * The tools it runs (`git merge-base`, `git archive | tar -x`), the id
 * generator and the directory creation are oracles: their results are
 * parameters.
 */
module PushReceiver {
  import opened Wrappers
  import opened Strings
  import opened Hooks

  /** A tool run: its combined output, and whether it exited with success. */
  datatype ToolRun = ToolRun(output: string, ok: bool)

  datatype ForcePushError = MergeBaseFailed(output: string)

  /**
   * `IsForcePush`: an update that creates or deletes the ref is never a force
   * push; otherwise it is one exactly when the merge base of the two
   * revisions, as printed by `git merge-base old new`, is not the old
   * revision. `mergeBase` is that tool, run on the two revisions.
   */
  function IsForcePush(hook: HookInfo, mergeBase: (string, string) -> ToolRun): (r: (bool, Option<ForcePushError>))
    ensures hook.oldRev == ZeroSHA || hook.newRev == ZeroSHA ==> r == (false, None)
    ensures r.1.Some? ==> !r.0 && r.1 == Some(MergeBaseFailed(mergeBase(hook.oldRev, hook.newRev).output))
    ensures r.0 ==> TrimSpace(mergeBase(hook.oldRev, hook.newRev).output) != hook.oldRev
    ensures hook.oldRev != ZeroSHA && hook.newRev != ZeroSHA ==>
      && (r.1.Some? <==> !mergeBase(hook.oldRev, hook.newRev).ok)
      && (mergeBase(hook.oldRev, hook.newRev).ok ==> r.0 == (TrimSpace(mergeBase(hook.oldRev, hook.newRev).output) != hook.oldRev))
  {
    if hook.oldRev == ZeroSHA || hook.newRev == ZeroSHA then (false, None)
    else
      var run := mergeBase(hook.oldRev, hook.newRev);
      if !run.ok then (false, Some(MergeBaseFailed(run.output)))
      else (TrimSpace(run.output) != hook.oldRev, None)
  }

  /** A created or deleted ref is decided without consulting the merge base at all. */
  lemma ZeroRevisionSkipsMergeBase(hook: HookInfo, m1: (string, string) -> ToolRun, m2: (string, string) -> ToolRun)
    requires hook.oldRev == ZeroSHA || hook.newRev == ZeroSHA
    ensures IsForcePush(hook, m1) == IsForcePush(hook, m2) == (false, None)
  {
  }

  /**
   * A merge base that is the old revision itself (printed with its line end)
   * makes the update a fast-forward; any other revision makes it a force push.
   */
  lemma FastForwardIsNotForced(hook: HookInfo, mergeBase: (string, string) -> ToolRun, base: string, lineEnd: string)
    requires hook.oldRev != ZeroSHA && hook.newRev != ZeroSHA
    requires base != "" && !IsSpace(base[0]) && !IsSpace(base[|base| - 1])
    requires forall k :: 0 <= k < |lineEnd| ==> IsSpace(lineEnd[k])
    requires mergeBase(hook.oldRev, hook.newRev) == ToolRun(base + lineEnd, true)
    ensures IsForcePush(hook, mergeBase) == (base != hook.oldRev, None)
  {
    TrimSpacePadded(base, lineEnd);
  }

  /** The ref the master-only policy admits. */
  const MasterRef: string := "refs/heads/master"

  /** The text `tar` prints when `git archive` of an empty repository gives it nothing. */
  const DamagedTar: string := "Damaged tar archive"

  /** Why `Handle` failed; `HandlerFailed` carries the handler's own error. */
  datatype HandleError =
    | HookInputError(cause: HookError)
    | NonMasterPush
    | MkdirFailed(reason: string)
    | RepositoryEmpty
    | ArchiveFailed(output: string)
    | HandlerFailed(reason: string)

  /** The receiver's configuration; `hasHandler` says whether `HandlerFunc` is set. */
  datatype Settings = Settings(debug: bool, masterOnly: bool, tmpDir: string, hasHandler: bool)

  /**
   * The results of everything `Handle` calls out to: the fresh id, the
   * directory creation's error, the archive pipeline (its output, its
   * success, and the entries it extracted, relative to the workspace) and
   * the handler's error.
   */
  datatype Oracles = Oracles(id: string, mkdirError: Option<string>, archive: ToolRun, extracted: set<string>, handlerError: Option<string>)

  /** The effects of `Handle` on the world, in the order they happen. */
  datatype Step =
    | MakeWorkspace(path: string)
    | Extract(rev: string, path: string, entries: set<string>)
    | CallHandler(hook: HookInfo, path: string)
    | RemoveWorkspace(path: string)

  datatype Run = Run(err: Option<HandleError>, steps: seq<Step>)

  /** The workspace for one push: `path.Join(TmpDir, id)`. */
  function Workspace(tmpDir: string, id: string): string
  {
    JoinPath([tmpDir, id])
  }

  /** `d` is `ws` or lies below it. */
  predicate Under(d: string, ws: string)
  {
    d == ws || HasPrefix(d, ws + "/")
  }

  /** The paths the extraction creates in the workspace. */
  function Extracted(ws: string, entries: set<string>): (paths: set<string>)
    ensures forall p :: p in paths ==> Under(p, ws)
  {
    set e | e in entries :: ws + "/" + e
  }

  /** `os.RemoveAll(ws)`: the workspace and everything below it are gone. */
  function RemoveUnder(dirs: set<string>, ws: string): (left: set<string>)
    ensures left <= dirs
    ensures forall d :: d in dirs ==> (d in left <==> !Under(d, ws))
  {
    set d | d in dirs && !Under(d, ws)
  }

  /** The directory set after one step. */
  function Apply(dirs: set<string>, step: Step): set<string>
  {
    match step
    case MakeWorkspace(ws) => dirs + {ws}
    case Extract(_, ws, entries) => dirs + Extracted(ws, entries)
    case CallHandler(_, _) => dirs
    case RemoveWorkspace(ws) => RemoveUnder(dirs, ws)
  }

  /** The directory set after a sequence of steps. */
  function ApplyAll(dirs: set<string>, steps: seq<Step>): set<string>
  {
    if steps == [] then dirs else Apply(ApplyAll(dirs, steps[..|steps| - 1]), steps[|steps| - 1])
  }

  /** One more step applies after the ones before it. */
  lemma ApplyAllSnoc(dirs: set<string>, steps: seq<Step>, step: Step)
    ensures ApplyAll(dirs, steps + [step]) == Apply(ApplyAll(dirs, steps), step)
  {
    assert (steps + [step])[..|steps|] == steps;
  }

  /** The handler's error, returned as it is. */
  function HandlerOutcome(handlerError: Option<string>): (err: Option<HandleError>)
    ensures err.None? <==> handlerError.None?
    ensures err.Some? ==> err.value.HandlerFailed? && err.value.reason == handlerError.value
  {
    match handlerError
    case None => None
    case Some(e) => Some(HandlerFailed(e))
  }

  /** The error for a failed archive pipeline: an empty repository, told apart by tar's complaint, or the output. */
  function ArchiveOutcome(output: string): (err: HandleError)
    ensures err == RepositoryEmpty <==> Contains(output, DamagedTar)
    ensures err != RepositoryEmpty ==> err == ArchiveFailed(output)
  {
    if |output| > 0 && Contains(output, DamagedTar) then RepositoryEmpty else ArchiveFailed(output)
  }

  /**
   * What `Handle` does with one hook input: its error and the steps it
   * takes, in order.
   */
  function HandleRun(s: Settings, input: string, wd: string, o: Oracles): Run
  {
    HandleParsed(s, ReadHookInput(input, wd), o)
  }

  /** `HandleRun` once the hook input has been read and parsed into `parsed`. */
  function HandleParsed(s: Settings, parsed: (HookInfo, Option<HookError>), o: Oracles): Run
  {
    var (hook, parseError) := parsed;
    if parseError.Some? then Run(Some(HookInputError(parseError.value)), [])
    else if s.masterOnly && hook.ref != MasterRef then Run(Some(NonMasterPush), [])
    else if o.mkdirError.Some? then Run(Some(MkdirFailed(o.mkdirError.value)), [])
    else WorkspaceRun(s, hook, Workspace(s.tmpDir, o.id), o)
  }

  /** What `Handle` does once workspace `ws` has been created for `hook`. */
  function WorkspaceRun(s: Settings, hook: HookInfo, ws: string, o: Oracles): Run
  {
    var made := [MakeWorkspace(ws), Extract(hook.newRev, ws, o.extracted)];
    var cleanup := if s.debug then [] else [RemoveWorkspace(ws)];
    if !o.archive.ok then Run(Some(ArchiveOutcome(o.archive.output)), made + cleanup)
    else if s.hasHandler then Run(HandlerOutcome(o.handlerError), made + [CallHandler(hook, ws)] + cleanup)
    else Run(None, made + cleanup)
  }

  /**
   * Nothing happens before the input parses, the policy admits the ref and
   * the workspace has been made: those three failures take no step, and
   * every other outcome does.
   */
  lemma NoEffectBeforeWorkspace(s: Settings, parsed: (HookInfo, Option<HookError>), o: Oracles)
    ensures var run := HandleParsed(s, parsed, o);
      && (parsed.1.Some? ==> run == Run(Some(HookInputError(parsed.1.value)), []))
      && (parsed.1.None? && s.masterOnly && parsed.0.ref != MasterRef ==> run == Run(Some(NonMasterPush), []))
      && (run.steps == [] <==> run.err.Some? && (run.err.value.HookInputError? || run.err.value == NonMasterPush || run.err.value.MkdirFailed?))
  {
  }

  /**
   * Once the workspace exists it is the one under the temporary directory
   * named by the fresh id, the new revision is extracted into it, and its
   * removal is the last step exactly when not debugging.
   */
  lemma WorkspaceLifetime(s: Settings, parsed: (HookInfo, Option<HookError>), o: Oracles)
    requires HandleParsed(s, parsed, o).steps != []
    ensures var steps := HandleParsed(s, parsed, o).steps;
      var ws := Workspace(s.tmpDir, o.id);
      && steps[0] == MakeWorkspace(ws)
      && steps[1] == Extract(parsed.0.newRev, ws, o.extracted)
      && (!s.debug <==> steps[|steps| - 1] == RemoveWorkspace(ws))
      && (forall i :: 0 <= i < |steps| - 1 ==> !steps[i].RemoveWorkspace?)
  {
  }

  /**
   * The handler is called, once, with the parsed hook and the workspace,
   * exactly when the archive succeeded and a handler is set; its error is
   * then the result.
   */
  lemma HandlerCalledOnceAfterArchive(s: Settings, parsed: (HookInfo, Option<HookError>), o: Oracles)
    ensures var run := HandleParsed(s, parsed, o);
      && ((exists i :: 0 <= i < |run.steps| && run.steps[i].CallHandler?) <==> run.steps != [] && o.archive.ok && s.hasHandler)
      && (forall i, j :: 0 <= i < j < |run.steps| && run.steps[i].CallHandler? ==> !run.steps[j].CallHandler?)
      && (forall i :: 0 <= i < |run.steps| && run.steps[i].CallHandler?
            ==> run.steps[i] == CallHandler(parsed.0, Workspace(s.tmpDir, o.id)) && run.err == HandlerOutcome(o.handlerError))
  {
    var run := HandleParsed(s, parsed, o);
    if run.steps != [] && o.archive.ok && s.hasHandler {
      assert run.steps[2].CallHandler?;
    }
  }

  /**
   * A push succeeds exactly when its workspace was made, the archive
   * succeeded, and either no handler is set or the handler reports no
   * error; with no handler a successful archive is the end of the push.
   */
  lemma PushSucceeds(s: Settings, parsed: (HookInfo, Option<HookError>), o: Oracles)
    ensures var run := HandleParsed(s, parsed, o);
      && (run.err.None? <==> run.steps != [] && o.archive.ok && (!s.hasHandler || o.handlerError.None?))
      && (run.steps != [] && o.archive.ok && !s.hasHandler ==> run.err == None)
  {
  }

  /** A failed archive ends the push with an empty-repository error or the tool output, and with no handler call. */
  lemma ArchiveFailureStops(s: Settings, parsed: (HookInfo, Option<HookError>), o: Oracles)
    requires HandleParsed(s, parsed, o).steps != [] && !o.archive.ok
    ensures var run := HandleParsed(s, parsed, o);
      && (run.err == Some(RepositoryEmpty) <==> Contains(o.archive.output, DamagedTar))
      && (run.err != Some(RepositoryEmpty) ==> run.err == Some(ArchiveFailed(o.archive.output)))
      && (forall i :: 0 <= i < |run.steps| ==> !run.steps[i].CallHandler?)
  {
  }

  /**
   * Without debugging, a push that got as far as its workspace leaves the
   * directory set as it found it, except that the workspace and all below
   * it are gone.
   */
  lemma CleanupRestoresDirectories(s: Settings, hook: HookInfo, ws: string, o: Oracles, dirs: set<string>)
    requires !s.debug
    ensures ApplyAll(dirs, WorkspaceRun(s, hook, ws, o).steps) == RemoveUnder(dirs, ws)
  {
    var steps := WorkspaceRun(s, hook, ws, o).steps;
    var body := steps[..|steps| - 1];
    CleanupLast(s, hook, ws, o);
    ApplyAllAddsOnlyUnder(dirs, body, ws);
    ApplyAllKeeps(dirs, body, ws);
    RemoveAfterWithin(dirs, ApplyAll(dirs, body), ws);
  }

  /** Without debugging, the run ends in the removal, and every step before it stays within the workspace. */
  lemma CleanupLast(s: Settings, hook: HookInfo, ws: string, o: Oracles)
    requires !s.debug
    ensures var steps := WorkspaceRun(s, hook, ws, o).steps;
      && steps != [] && steps[|steps| - 1] == RemoveWorkspace(ws)
      && forall i :: 0 <= i < |steps| - 1 ==> StepWithin(steps[i], ws)
  {
  }

  /** Removing the workspace from a set that grew only below it gives the original set without it. */
  lemma RemoveAfterWithin(dirs: set<string>, grown: set<string>, ws: string)
    requires dirs <= grown && forall d :: d in grown ==> d in dirs || Under(d, ws)
    ensures RemoveUnder(grown, ws) == RemoveUnder(dirs, ws)
  {
  }

  /** Steps that make, fill or use workspace `ws` only add paths below it. */
  lemma {:induction false} ApplyAllAddsOnlyUnder(dirs: set<string>, steps: seq<Step>, ws: string)
    requires forall i :: 0 <= i < |steps| ==> StepWithin(steps[i], ws)
    ensures forall d :: d in ApplyAll(dirs, steps) ==> d in dirs || Under(d, ws)
    decreases |steps|
  {
    if steps != [] {
      ApplyAllAddsOnlyUnder(dirs, steps[..|steps| - 1], ws);
    }
  }

  /** Steps that make, fill or use workspace `ws` remove nothing. */
  lemma {:induction false} ApplyAllKeeps(dirs: set<string>, steps: seq<Step>, ws: string)
    requires forall i :: 0 <= i < |steps| ==> StepWithin(steps[i], ws)
    ensures dirs <= ApplyAll(dirs, steps)
    decreases |steps|
  {
    if steps != [] {
      ApplyAllKeeps(dirs, steps[..|steps| - 1], ws);
    }
  }

  /** A step that adds only within workspace `ws` and removes nothing. */
  predicate StepWithin(step: Step, ws: string)
  {
    || (step.MakeWorkspace? && step.path == ws)
    || (step.Extract? && step.path == ws)
    || step.CallHandler?
  }

  /** With debugging on, the workspace and what was extracted into it stay. */
  lemma DebugKeepsWorkspace(s: Settings, hook: HookInfo, ws: string, o: Oracles, dirs: set<string>)
    requires s.debug
    ensures ApplyAll(dirs, WorkspaceRun(s, hook, ws, o).steps) == dirs + {ws} + Extracted(ws, o.extracted)
  {
    var steps := WorkspaceRun(s, hook, ws, o).steps;
    assert steps[..1] == [MakeWorkspace(ws)];
    assert ApplyAll(dirs, steps[..1]) == dirs + {ws} by {
      assert steps[..1][..0] == [];
    }
    assert steps[..2][..1] == steps[..1];
    if |steps| == 3 {
      assert steps[..2] == steps[..|steps| - 1];
    } else {
      assert steps == steps[..2];
    }
  }

  /**
   * The push receiver: its configuration, the directories that exist under
   * its control, and the record of what it has done so far.
   */
  class Receiver {
    const debug: bool
    const masterOnly: bool
    const tmpDir: string
    const hasHandler: bool
    var dirs: set<string>
    var steps: seq<Step>

    constructor(debug: bool, masterOnly: bool, tmpDir: string, hasHandler: bool, dirs: set<string>)
      ensures this.debug == debug && this.masterOnly == masterOnly
      ensures this.tmpDir == tmpDir && this.hasHandler == hasHandler
      ensures this.dirs == dirs && this.steps == []
    {
      this.debug := debug;
      this.masterOnly := masterOnly;
      this.tmpDir := tmpDir;
      this.hasHandler := hasHandler;
      this.dirs := dirs;
      this.steps := [];
    }

    function Config(): Settings
    {
      Settings(debug, masterOnly, tmpDir, hasHandler)
    }

    /**
     * `Receiver.Handle`: handles one pushed update read from `input`, with
     * `wd` the hook's working directory. The deferred removal of the
     * workspace is the last thing done before returning.
     */
    method Handle(input: string, wd: string, o: Oracles) returns (err: Option<HandleError>)
      modifies this
      ensures var run := HandleRun(Config(), input, wd, o);
        && err == run.err
        && steps == old(steps) + run.steps
        && dirs == ApplyAll(old(dirs), run.steps)
    {
      var parsed := ReadHookInput(input, wd);
      err := HandleInput(parsed, o);
    }

    /** The part of `Handle` after the hook input was read and parsed into `parsed`. */
    method HandleInput(parsed: (HookInfo, Option<HookError>), o: Oracles) returns (err: Option<HandleError>)
      modifies this
      ensures var run := HandleParsed(Config(), parsed, o);
        && err == run.err
        && steps == old(steps) + run.steps
        && dirs == ApplyAll(old(dirs), run.steps)
    {
      var hook, parseError := parsed.0, parsed.1;
      if parseError.Some? {
        return Some(HookInputError(parseError.value));
      }
      if masterOnly && hook.ref != MasterRef {
        return Some(NonMasterPush);
      }
      var ws := Workspace(tmpDir, o.id);
      if o.mkdirError.Some? {
        return Some(MkdirFailed(o.mkdirError.value));
      }
      err := InWorkspace(hook, ws, o);
    }

    /** The part of `Handle` after `MkdirAll` succeeded, up to the deferred removal. */
    method InWorkspace(hook: HookInfo, ws: string, o: Oracles) returns (err: Option<HandleError>)
      modifies this
      ensures var run := WorkspaceRun(Config(), hook, ws, o);
        && err == run.err
        && steps == old(steps) + run.steps
        && dirs == ApplyAll(old(dirs), run.steps)
    {
      ghost var dirs0, steps0 := dirs, steps;
      ghost var done;
      err, done := FillWorkspace(hook, ws, o);
      // The deferred os.RemoveAll, registered only when not debugging.
      if !debug {
        ApplyAllSnoc(dirs0, done, RemoveWorkspace(ws));
        dirs := RemoveUnder(dirs, ws);
        steps := steps + [RemoveWorkspace(ws)];
        done := done + [RemoveWorkspace(ws)];
      }
      assert done == WorkspaceRun(Config(), hook, ws, o).steps;
    }

    /**
     * The workspace made and filled from the archive, and the handler run
     * when the archive came out whole; `done` is what was done, in order.
     */
    method FillWorkspace(hook: HookInfo, ws: string, o: Oracles) returns (err: Option<HandleError>, ghost done: seq<Step>)
      modifies this
      ensures err == WorkspaceRun(Config(), hook, ws, o).err
      ensures done == [MakeWorkspace(ws), Extract(hook.newRev, ws, o.extracted)] + (if o.archive.ok && hasHandler then [CallHandler(hook, ws)] else [])
      ensures steps == old(steps) + done && dirs == ApplyAll(old(dirs), done)
    {
      ghost var dirs0 := dirs;
      done := [];
      dirs := dirs + {ws};
      steps := steps + [MakeWorkspace(ws)];
      ApplyAllSnoc(dirs0, done, MakeWorkspace(ws));
      done := done + [MakeWorkspace(ws)];

      dirs := dirs + Extracted(ws, o.extracted);
      steps := steps + [Extract(hook.newRev, ws, o.extracted)];
      ApplyAllSnoc(dirs0, done, Extract(hook.newRev, ws, o.extracted));
      done := done + [Extract(hook.newRev, ws, o.extracted)];

      if !o.archive.ok {
        err := Some(ArchiveOutcome(o.archive.output));
      } else if hasHandler {
        steps := steps + [CallHandler(hook, ws)];
        ApplyAllSnoc(dirs0, done, CallHandler(hook, ws));
        done := done + [CallHandler(hook, ws)];
        err := HandlerOutcome(o.handlerError);
      } else {
        err := None;
      }
    }
  }

}
