/**
 * `SlidevProjectService` (app/services/slidev_project_service.rb:1-62): the
 * scaffold, build and delete operations around the external Slidev CLI.
 * The shell commands and file-system calls are not modelled; each appears
 * as the outcome it reports back (exit status, whether a path exists,
 * whether a removal raised).
 */
module ProjectService {
  import opened Wrappers
  import opened Text
  import opened Slides
  import opened BuildLog

  /** `PROJECTS_DIR` and `PUBLIC_SLIDES_DIR` (source lines 2-3) as absolute paths. */
  datatype Config = Config(projectsDir: string, publicSlidesDir: string)

  /** `Pathname#join` of a directory and a relative name. */
  function PathJoin(dir: string, name: string): (r: string)
    ensures |r| == |dir| + 1 + |name| && r[|dir|] == '/'
    ensures !Blank(r) && r != PENDING_PATH
  {
    var r := dir + "/" + name;
    assert !IsWhiteSpace(r[|dir|]);
    assert r != PENDING_PATH by {
      if |r| == |PENDING_PATH| {
        assert PENDING_PATH[|dir|] != '/';
      }
    }
    r
  }

  /** What `system(cmd)` and `$?` report: success, and the exit status (nil when killed by a signal). */
  datatype CommandRun = CommandRun(succeeded: bool, exitStatus: Option<nat>)

  const CREATE_FAILED: string := "Slidevプロジェクト作成に失敗しました。終了コード: "

  /** Ruby's `"#{$?.exitstatus}"`: the decimal status, or "" for nil. */
  function ExitStatusText(code: Option<nat>): (r: string)
    ensures AllDigits(r)
    ensures r == [] <==> code.None?
    ensures r != [] && r[0] == '0' ==> r == "0"
  {
    match code
    case Some(n) => NatToString(n)
    case None => ""
  }

  /** `create_project(name)`: the project directory named after `name`, or the exit-status error. */
  function CreateProject(config: Config, name: string, run: CommandRun): (r: Result<string, string>)
    ensures r.Success? <==> run.succeeded
    ensures r.Success? ==> r.value == PathJoin(config.projectsDir, name)
    ensures r.Failure? ==> StartsWith(r.error, CREATE_FAILED) && AllDigits(r.error[|CREATE_FAILED|..])
  {
    if run.succeeded then
      Success(PathJoin(config.projectsDir, name))
    else
      var message := CREATE_FAILED + ExitStatusText(run.exitStatus);
      assert message[..|CREATE_FAILED|] == CREATE_FAILED;
      assert message[|CREATE_FAILED|..] == ExitStatusText(run.exitStatus);
      Failure(message)
  }

  /**
   * The exit status can be read back from the scaffold error, written in
   * canonical decimal (no leading zero), and a nil status leaves it empty.
   */
  lemma CreateProjectReportsExitStatus(config: Config, name: string, run: CommandRun)
    requires !run.succeeded
    ensures var tail := CreateProject(config, name, run).error[|CREATE_FAILED|..];
            && (run.exitStatus.Some? ==>
                  && tail != [] && AllDigits(tail) && (tail[0] == '0' ==> tail == "0")
                  && DigitsValue(tail) == run.exitStatus.value)
            && (run.exitStatus.None? ==> tail == [])
  {
    var message := CREATE_FAILED + ExitStatusText(run.exitStatus);
    assert message[|CREATE_FAILED|..] == ExitStatusText(run.exitStatus);
    if run.exitStatus.Some? {
      NatToStringRoundTrip(run.exitStatus.value);
    }
  }

  /**
   * `build_project(slide)`: on success the published output directory, on
   * failure the diagnostic extracted from the build log (`log` is its text,
   * `None` when the file is missing).
   */
  function BuildProject(config: Config, slug: string, succeeded: bool, log: Option<string>): (r: Result<string, string>)
    ensures r.Success? <==> succeeded
    ensures r.Success? ==> r.value == PathJoin(config.publicSlidesDir, slug)
    ensures r.Failure? ==> r.error == ExtractBuildError(log, slug)
  {
    if succeeded then
      Success(PathJoin(config.publicSlidesDir, slug))
    else
      Failure(ExtractBuildError(log, slug))
  }

  /** A failed build without a log reports the missing log; one with an unreadable log names the log file. */
  lemma BuildFailureMessage(config: Config, slug: string, log: Option<string>)
    ensures log.None? ==> BuildProject(config, slug, false, log) == Failure(LOG_MISSING)
    ensures log.Some? && (forall i | 0 <= i < |Lines(log.value)| ::
              !IsMarkerLine(Lines(log.value)[i]) && !IsKeywordLine(Lines(log.value)[i])) ==>
              Contains(BuildProject(config, slug, false, log).error, LogFileName(slug))
  {
  }

  // ---------------------------------------------------------------------
  // delete_project (source lines 45-62)

  /** What the file system holds at a path: nothing, or a tree whose `rm_rf` passes or raises. */
  datatype PathState = Absent | Exists(removal: Outcome<string>)

  /** The removals attempted and what `delete_project` raised, if anything. */
  datatype Deletion = Deletion(removed: seq<string>, outcome: Outcome<string>)

  const PROJECT_DELETE_ERROR: string := "プロジェクト削除エラー: "
  const OUTPUT_DELETE_ERROR: string := "ビルド成果物削除エラー: "

  predicate RemovalFails(p: PathState) {
    p.Exists? && p.removal.Fail?
  }

  function FailureLines(prefix: string, p: PathState): seq<string> {
    if RemovalFails(p) then [prefix + p.removal.error] else []
  }

  function Removed(path: string, p: PathState): seq<string> {
    if p.Exists? then [path] else []
  }

  /**
   * `delete_project(slide)`: remove the project directory, then the build
   * output, each only if it exists, the second whatever became of the first;
   * raise the collected errors joined with ", ".
   */
  function DeleteProject(config: Config, slide: Slide, project: PathState, output: PathState): (r: Deletion)
    ensures var out := PathJoin(config.publicSlidesDir, slide.slug);
            && |r.removed| == (if project.Exists? then 1 else 0) + (if output.Exists? then 1 else 0)
            && (project.Exists? ==> r.removed[0] == slide.projectPath)
            && (output.Exists? ==> r.removed[|r.removed| - 1] == out)
    ensures r.outcome.Fail? <==> RemovalFails(project) || RemovalFails(output)
    ensures RemovalFails(project) ==> StartsWith(r.outcome.error, PROJECT_DELETE_ERROR + project.removal.error)
    ensures RemovalFails(project) && !RemovalFails(output) ==>
              r.outcome.error == PROJECT_DELETE_ERROR + project.removal.error
    ensures !RemovalFails(project) && RemovalFails(output) ==>
              r.outcome.error == OUTPUT_DELETE_ERROR + output.removal.error
    ensures RemovalFails(project) && RemovalFails(output) ==>
              r.outcome.error == PROJECT_DELETE_ERROR + project.removal.error + ", " + OUTPUT_DELETE_ERROR + output.removal.error
  {
    var out := PathJoin(config.publicSlidesDir, slide.slug);
    var removed := Removed(slide.projectPath, project) + Removed(out, output);
    var errors := FailureLines(PROJECT_DELETE_ERROR, project) + FailureLines(OUTPUT_DELETE_ERROR, output);
    var message := Join(errors, ", ");
    assert RemovalFails(project) && RemovalFails(output) ==>
             message == PROJECT_DELETE_ERROR + project.removal.error + ", " + OUTPUT_DELETE_ERROR + output.removal.error by {
      if RemovalFails(project) && RemovalFails(output) {
        JoinTwo(errors[0], errors[1], ", ");
        assert errors == [errors[0], errors[1]];
      }
    }
    assert RemovalFails(project) ==> StartsWith(message, PROJECT_DELETE_ERROR + project.removal.error) by {
      if RemovalFails(project) && RemovalFails(output) {
        JoinTwo(errors[0], errors[1], ", ");
        assert errors == [errors[0], errors[1]];
        assert message[..|errors[0]|] == errors[0];
      }
    }
    Deletion(removed, if |errors| > 0 then Fail(message) else Pass)
  }
}
