/**
 * The two background jobs (app/jobs/create_slidev_project_job.rb and
 * app/jobs/build_slidev_project_job.rb), one attempt each.
 *
 * A job works on the record it loaded: every `slide.update(...)` changes
 * that in-memory record and then saves it; the job never looks at whether
 * the save went through. So an attempt is modelled in two layers: what the
 * job does to its in-memory record (`CreateAttempt`, `BuildAttempt`, which
 * do not see the table), and what the table makes of the saves
 * (`Persist`). External steps are inputs: what the scaffold and build
 * commands report, whether writing the content raised, whether the
 * project directory exists and whether removing it raised.
 */
module Jobs {
  import opened Wrappers
  import opened Text
  import opened Slides
  import opened ProjectService
  import opened BuildLog

  /** What a job does, in order. */
  datatype Step =
    | Saving(record: Slide)
    | Scaffold(name: string)
    | ContentWrite(path: string, content: string)
    | BuildRun(path: string)
    | Cleanup(path: string, outcome: Outcome<string>)

  /** The in-memory record at the end, the steps taken, and the error re-raised if any. */
  datatype Attempt = Attempt(slide: Slide, steps: seq<Step>, raised: Option<string>)

  /**
   * What the world reports to the create job: the scaffold command, whether
   * writing the content raised, the build command and its log, whether the
   * project directory exists when the rescue clause looks, and whether
   * removing it raised.
   */
  datatype CreateEnv = CreateEnv(
    scaffold: CommandRun,
    write: Outcome<string>,
    buildSucceeded: bool,
    log: Option<string>,
    dirExists: bool,
    cleanup: Outcome<string>)

  /** `perform`'s default `initial_content`. */
  const INITIAL_CONTENT: string := "Hello, World!"

  /** `project_path.present? && project_path != "pending" && File.exist?(project_path)`. */
  predicate ShouldClean(path: string, dirExists: bool) {
    !Blank(path) && path != PENDING_PATH && dirExists
  }

  predicate HasCleanup(steps: seq<Step>) {
    exists st | st in steps :: st.Cleanup?
  }

  /** The statuses of the records saved, in order. */
  function SavedStatuses(steps: seq<Step>): (r: seq<Status>)
    ensures |r| <= |steps|
    decreases |steps|
  {
    if |steps| == 0 then []
    else (if steps[0].Saving? then [steps[0].record.status] else []) + SavedStatuses(steps[1..])
  }

  lemma {:induction false} SavedStatusesAppend(a: seq<Step>, b: seq<Step>)
    ensures SavedStatuses(a + b) == SavedStatuses(a) + SavedStatuses(b)
    decreases |a|
  {
    if |a| == 0 {
      assert a + b == b;
    } else {
      var head := if a[0].Saving? then [a[0].record.status] else [];
      assert (a + b)[0] == a[0];
      assert (a + b)[1..] == a[1..] + b;
      assert SavedStatuses(a + b) == head + SavedStatuses(a[1..] + b);
      SavedStatusesAppend(a[1..], b);
      assert SavedStatuses(a) == head + SavedStatuses(a[1..]);
    }
  }

  // ---------------------------------------------------------------------
  // The create job (create_slidev_project_job.rb:5-46)

  /**
   * The `rescue` clause (source lines 25-44): remove the project directory
   * when there is one, swallowing any error doing so, then save `failed`
   * with the original message (the path as it is) and re-raise.
   */
  function Rescue(r: Slide, steps: seq<Step>, error: string, env: CreateEnv): (a: Attempt)
    ensures a.raised == Some(error)
    ensures a.slide == r.(status := Failed, errorMessage := Some(error))
    // after the steps taken so far: the cleanup when there is a directory to remove, then the save
    ensures a.steps == steps
              + (if ShouldClean(r.projectPath, env.dirExists) then [Cleanup(r.projectPath, env.cleanup)] else [])
              + [Saving(a.slide)]
  {
    var failed := r.(status := Failed, errorMessage := Some(error));
    var cleanup := if ShouldClean(r.projectPath, env.dirExists) then [Cleanup(r.projectPath, env.cleanup)] else [];
    Attempt(failed, steps + cleanup + [Saving(failed)], Some(error))
  }

  /** What `build_project` raised, if anything (source line 21 calling slidev_project_service.rb:25-43). */
  function BuildRaised(config: Config, slug: string, succeeded: bool, log: Option<string>): (o: Outcome<string>)
    ensures o.Pass? <==> succeeded
    ensures o.Fail? ==> o.error == ExtractBuildError(log, slug)
  {
    match BuildProject(config, slug, succeeded, log)
    case Success(_) => Pass
    case Failure(e) => Fail(e)
  }

  /**
   * What `CreateSlidevProjectJob#perform` does to the record `r0` it
   * loaded, given what `build_project` raises (`build`).
   */
  function CreateAttempt(r0: Slide, content: string, config: Config, env: CreateEnv, build: Outcome<string>): (a: Attempt)
    // it completes exactly when all three external steps succeed
    ensures a.raised.None? <==> env.scaffold.succeeded && env.write.Pass? && build.Pass?
    ensures a.slide.status == (if a.raised.None? then Completed else Failed)
    ensures a.slide.errorMessage == a.raised
    // only status, path and error message change; the path only by a successful scaffold
    ensures a.slide.(status := r0.status, projectPath := r0.projectPath, errorMessage := r0.errorMessage) == r0
    ensures a.slide.projectPath == (if env.scaffold.succeeded then PathJoin(config.projectsDir, r0.slug) else r0.projectPath)
    // the first thing it does is save `building` with no error; then it scaffolds
    ensures |a.steps| >= 3 && a.steps[0] == Saving(StartBuilding(r0)) && a.steps[1] == Scaffold(r0.slug)
    // it ends by saving its final record
    ensures a.steps[|a.steps| - 1] == Saving(a.slide)
  {
    var building := StartBuilding(r0);
    var started := [Saving(building), Scaffold(r0.slug)];
    match CreateProject(config, r0.slug, env.scaffold)
    case Failure(e) => Rescue(building, started, e, env)
    case Success(path) =>
      var scaffolded := building.(projectPath := path);
      var written := started + [Saving(scaffolded), ContentWrite(path, content)];
      match env.write
      case Fail(e) => Rescue(scaffolded, written, e, env)
      case Pass =>
        var built := written + [BuildRun(path)];
        match build
        case Fail(e) => Rescue(scaffolded, built, e, env)
        case Pass =>
          var done := scaffolded.(status := Completed);
          Attempt(done, built + [Saving(done)], None)
  }

  /** The four ways an attempt can go, each with the steps it takes. */
  lemma CreateAttemptCases(r0: Slide, content: string, config: Config, env: CreateEnv, build: Outcome<string>)
    ensures var a := CreateAttempt(r0, content, config, env, build);
            var building := StartBuilding(r0);
            var started := [Saving(building), Scaffold(r0.slug)];
            var path := PathJoin(config.projectsDir, r0.slug);
            var scaffolded := building.(projectPath := path);
            var written := started + [Saving(scaffolded), ContentWrite(path, content)];
            var built := written + [BuildRun(path)];
            && (!env.scaffold.succeeded ==>
                  a == Rescue(building, started, CreateProject(config, r0.slug, env.scaffold).error, env))
            && (env.scaffold.succeeded && env.write.Fail? ==>
                  a == Rescue(scaffolded, written, env.write.error, env))
            && (env.scaffold.succeeded && env.write.Pass? && build.Fail? ==>
                  a == Rescue(scaffolded, built, build.error, env))
            && (env.scaffold.succeeded && env.write.Pass? && build.Pass? ==>
                  a.steps == built + [Saving(a.slide)])
  {
  }

  /** The error re-raised is the one the failing step raised. */
  lemma CreateAttemptRaises(r0: Slide, content: string, config: Config, env: CreateEnv, build: Outcome<string>)
    ensures var a := CreateAttempt(r0, content, config, env, build);
            && (!env.scaffold.succeeded ==> a.raised == Some(CreateProject(config, r0.slug, env.scaffold).error))
            && (env.scaffold.succeeded && env.write.Fail? ==> a.raised == Some(env.write.error))
            && (env.scaffold.succeeded && env.write.Pass? && build.Fail? ==> a.raised == Some(build.error))
  {
    CreateAttemptCases(r0, content, config, env, build);
  }

  /** The content is written, and the build run, in the directory the scaffold reported. */
  lemma CreateAttemptUsesScaffoldedPath(r0: Slide, content: string, config: Config, env: CreateEnv, build: Outcome<string>)
    ensures var a := CreateAttempt(r0, content, config, env, build);
            var path := PathJoin(config.projectsDir, r0.slug);
            forall st | st in a.steps ::
              && (st.ContentWrite? ==> st == ContentWrite(path, content))
              && (st.BuildRun? ==> st == BuildRun(path))
  {
    var a := CreateAttempt(r0, content, config, env, build);
    CreateAttemptCases(r0, content, config, env, build);
    var building := StartBuilding(r0);
    var started := [Saving(building), Scaffold(r0.slug)];
    var path := PathJoin(config.projectsDir, r0.slug);
    var scaffolded := building.(projectPath := path);
    var written := started + [Saving(scaffolded), ContentWrite(path, content)];
    var built := written + [BuildRun(path)];
    var inner :=
      if !env.scaffold.succeeded then started
      else if env.write.Fail? then written
      else built;
    assert forall st | st in inner :: (st.ContentWrite? ==> st == ContentWrite(path, content)) && (st.BuildRun? ==> st == BuildRun(path));
    assert forall st | st in a.steps :: st in inner || st.Saving? || st.Cleanup?;
  }

  /** Every save keeps the row's name, slug and description, and holds its old path or the scaffolded one. */
  lemma CreateAttemptSaves(r0: Slide, content: string, config: Config, env: CreateEnv, build: Outcome<string>)
    ensures var a := CreateAttempt(r0, content, config, env, build);
            forall st | st in a.steps && st.Saving? ::
              && st.record.(status := r0.status, projectPath := r0.projectPath, errorMessage := r0.errorMessage) == r0
              && (st.record.projectPath == r0.projectPath || st.record.projectPath == PathJoin(config.projectsDir, r0.slug))
  {
    var a := CreateAttempt(r0, content, config, env, build);
    var middle := CreateAttemptShape(r0, content, config, env, build);
    forall st | st in a.steps && st.Saving?
      ensures st.record.(status := r0.status, projectPath := r0.projectPath, errorMessage := r0.errorMessage) == r0
      ensures st.record.projectPath == r0.projectPath || st.record.projectPath == PathJoin(config.projectsDir, r0.slug)
    {
      assert st == Saving(StartBuilding(r0)) || st in middle || st == Saving(a.slide);
    }
  }

  /**
   * Cleanup is attempted exactly when the job fails holding a present,
   * non-placeholder path that exists — so never when the scaffold itself
   * failed on a record still at "pending".
   */
  lemma CreateAttemptCleanup(r0: Slide, content: string, config: Config, env: CreateEnv, build: Outcome<string>)
    ensures var a := CreateAttempt(r0, content, config, env, build);
            HasCleanup(a.steps) <==> a.raised.Some? && ShouldClean(a.slide.projectPath, env.dirExists)
  {
    var a := CreateAttempt(r0, content, config, env, build);
    CreateAttemptCases(r0, content, config, env, build);
    var building := StartBuilding(r0);
    var started := [Saving(building), Scaffold(r0.slug)];
    var path := PathJoin(config.projectsDir, r0.slug);
    var scaffolded := building.(projectPath := path);
    var written := started + [Saving(scaffolded), ContentWrite(path, content)];
    var built := written + [BuildRun(path)];
    if !env.scaffold.succeeded {
      RescueCleanup(building, started, CreateProject(config, r0.slug, env.scaffold).error, env);
    } else if env.write.Fail? {
      RescueCleanup(scaffolded, written, env.write.error, env);
    } else if build.Fail? {
      RescueCleanup(scaffolded, built, build.error, env);
    } else {
      assert forall st | st in a.steps :: !st.Cleanup?;
    }
  }

  /** The rescue adds a cleanup step exactly when the record's path warrants one. */
  lemma RescueCleanup(r: Slide, steps: seq<Step>, error: string, env: CreateEnv)
    requires forall st | st in steps :: !st.Cleanup?
    ensures HasCleanup(Rescue(r, steps, error, env).steps) <==> ShouldClean(r.projectPath, env.dirExists)
  {
    var a := Rescue(r, steps, error, env);
    if HasCleanup(a.steps) {
      var st :| st in a.steps && st.Cleanup?;
      assert st !in steps;
    }
    if ShouldClean(r.projectPath, env.dirExists) {
      assert a.steps[|steps|] == Cleanup(r.projectPath, env.cleanup);
    }
  }

  /** Removing the directory may raise, but that changes nothing except the logged cleanup step. */
  lemma CreateAttemptIgnoresCleanupOutcome(r0: Slide, content: string, config: Config, env: CreateEnv, build: Outcome<string>,
                                           outcome: Outcome<string>)
    ensures var a := CreateAttempt(r0, content, config, env, build);
            var b := CreateAttempt(r0, content, config, env.(cleanup := outcome), build);
            && a.slide == b.slide && a.raised == b.raised && |a.steps| == |b.steps|
            && forall k | 0 <= k < |a.steps| :: a.steps[k] == b.steps[k] || (a.steps[k].Cleanup? && b.steps[k].Cleanup?)
  {
    var env' := env.(cleanup := outcome);
    var a := CreateAttempt(r0, content, config, env, build);
    var b := CreateAttempt(r0, content, config, env', build);
    var building := StartBuilding(r0);
    var started := [Saving(building), Scaffold(r0.slug)];
    if !env.scaffold.succeeded {
      var e := CreateProject(config, r0.slug, env.scaffold).error;
      assert a == Rescue(building, started, e, env);
      assert b == Rescue(building, started, e, env');
      RescueIgnoresCleanupOutcome(building, started, e, env, outcome);
    } else {
      var path := PathJoin(config.projectsDir, r0.slug);
      var scaffolded := building.(projectPath := path);
      var written := started + [Saving(scaffolded), ContentWrite(path, content)];
      if env.write.Fail? {
        assert a == Rescue(scaffolded, written, env.write.error, env);
        assert b == Rescue(scaffolded, written, env.write.error, env');
        RescueIgnoresCleanupOutcome(scaffolded, written, env.write.error, env, outcome);
      } else if build.Fail? {
        var built := written + [BuildRun(path)];
        assert a == Rescue(scaffolded, built, build.error, env);
        assert b == Rescue(scaffolded, built, build.error, env');
        RescueIgnoresCleanupOutcome(scaffolded, built, build.error, env, outcome);
      } else {
        assert a == b;
      }
    }
  }

  /** A rescue with another cleanup outcome differs at most in the logged cleanup step. */
  lemma RescueIgnoresCleanupOutcome(r: Slide, steps: seq<Step>, error: string, env: CreateEnv, outcome: Outcome<string>)
    ensures var a := Rescue(r, steps, error, env);
            var b := Rescue(r, steps, error, env.(cleanup := outcome));
            && a.slide == b.slide && a.raised == b.raised && |a.steps| == |b.steps|
            && forall k | 0 <= k < |a.steps| :: a.steps[k] == b.steps[k] || (a.steps[k].Cleanup? && b.steps[k].Cleanup?)
  {
  }

  // ---------------------------------------------------------------------
  // The build job (build_slidev_project_job.rb:5-29)

  /** What `BuildSlidevProjectJob#perform` does to the record `r0` it loaded, given what `build_project` raises. */
  function BuildAttempt(r0: Slide, build: Outcome<string>): (a: Attempt)
    ensures a.steps == [Saving(StartBuilding(r0)), BuildRun(r0.projectPath), Saving(a.slide)]
    ensures a.raised.None? <==> build.Pass?
    ensures a.raised.Some? ==> a.raised.value == build.error
    ensures a.slide.status == (if build.Pass? then Completed else Failed)
    ensures a.slide.errorMessage == a.raised
    ensures a.slide.(status := r0.status, errorMessage := r0.errorMessage) == r0
  {
    var building := StartBuilding(r0);
    var steps := [Saving(building), BuildRun(building.projectPath)];
    match build
    case Pass =>
      var done := building.(status := Completed);
      Attempt(done, steps + [Saving(done)], None)
    case Fail(e) =>
      var failed := building.(status := Failed, errorMessage := Some(e));
      Attempt(failed, steps + [Saving(failed)], Some(e))
  }

  // ---------------------------------------------------------------------
  // Status transitions

  /**
   * The moves a job makes: anything may be (re)set to `building`, and only
   * `building` moves on, to `completed` or `failed`.
   */
  predicate Transition(from: Status, to: Status) {
    to == Building || (from == Building && (to == Completed || to == Failed))
  }

  /** Starting from `from`, each saved status is a legal move from the one before. */
  predicate Follows(from: Status, ss: seq<Status>)
    decreases |ss|
  {
    |ss| == 0 || (Transition(from, ss[0]) && Follows(ss[0], ss[1..]))
  }

  lemma {:induction false} FollowsAppend(from: Status, a: seq<Status>, b: seq<Status>)
    requires Follows(from, a)
    requires Follows(if |a| == 0 then from else a[|a| - 1], b)
    ensures Follows(from, a + b)
    decreases |a|
  {
    if |a| > 0 {
      assert (a + b)[1..] == a[1..] + b;
      FollowsAppend(a[0], a[1..], b);
    } else {
      assert a + b == b;
    }
  }

  /**
   * The create job saves `building` first and its final record last, and
   * everything it saves in between is `building` too.
   */
  lemma CreateAttemptShape(r0: Slide, content: string, config: Config, env: CreateEnv, build: Outcome<string>)
    returns (middle: seq<Step>)
    ensures var a := CreateAttempt(r0, content, config, env, build);
            a.steps == [Saving(StartBuilding(r0))] + middle + [Saving(a.slide)]
    ensures forall st | st in middle && st.Saving? ::
              st.record == StartBuilding(r0).(projectPath := PathJoin(config.projectsDir, r0.slug))
  {
    if !env.scaffold.succeeded {
      middle := ShapeWhenScaffoldFails(r0, content, config, env, build);
    } else {
      middle := ShapeWhenScaffolded(r0, content, config, env, build);
    }
  }

  /** `CreateAttemptShape` when the scaffold command fails. */
  lemma ShapeWhenScaffoldFails(r0: Slide, content: string, config: Config, env: CreateEnv, build: Outcome<string>)
    returns (middle: seq<Step>)
    requires !env.scaffold.succeeded
    ensures var a := CreateAttempt(r0, content, config, env, build);
            a.steps == [Saving(StartBuilding(r0))] + middle + [Saving(a.slide)]
    ensures forall st | st in middle && st.Saving? ::
              st.record == StartBuilding(r0).(projectPath := PathJoin(config.projectsDir, r0.slug))
  {
    var a := CreateAttempt(r0, content, config, env, build);
    var building := StartBuilding(r0);
    var first := Saving(building);
    var started := [first, Scaffold(r0.slug)];
    var e := CreateProject(config, r0.slug, env.scaffold).error;
    assert a == Rescue(building, started, e, env);
    assert started == [first] + [Scaffold(r0.slug)];
    middle := RescueShape(building, first, [Scaffold(r0.slug)], e, env);
  }

  /** `CreateAttemptShape` once the project is scaffolded. */
  lemma ShapeWhenScaffolded(r0: Slide, content: string, config: Config, env: CreateEnv, build: Outcome<string>)
    returns (middle: seq<Step>)
    requires env.scaffold.succeeded
    ensures var a := CreateAttempt(r0, content, config, env, build);
            a.steps == [Saving(StartBuilding(r0))] + middle + [Saving(a.slide)]
    ensures forall st | st in middle && st.Saving? ::
              st.record == StartBuilding(r0).(projectPath := PathJoin(config.projectsDir, r0.slug))
  {
    if env.write.Fail? {
      middle := ShapeWhenWriteFails(r0, content, config, env, build);
    } else if build.Fail? {
      middle := ShapeWhenBuildFails(r0, content, config, env, build);
    } else {
      middle := ShapeWhenCompleted(r0, content, config, env, build);
    }
  }

  /** `CreateAttemptShape` when writing the content raises. */
  lemma ShapeWhenWriteFails(r0: Slide, content: string, config: Config, env: CreateEnv, build: Outcome<string>)
    returns (middle: seq<Step>)
    requires env.scaffold.succeeded && env.write.Fail?
    ensures var a := CreateAttempt(r0, content, config, env, build);
            a.steps == [Saving(StartBuilding(r0))] + middle + [Saving(a.slide)]
    ensures forall st | st in middle && st.Saving? ::
              st.record == StartBuilding(r0).(projectPath := PathJoin(config.projectsDir, r0.slug))
  {
    var a := CreateAttempt(r0, content, config, env, build);
    var first := Saving(StartBuilding(r0));
    var path := PathJoin(config.projectsDir, r0.slug);
    var scaffolded := StartBuilding(r0).(projectPath := path);
    var written := [first, Scaffold(r0.slug)] + [Saving(scaffolded), ContentWrite(path, content)];
    var inner := [Scaffold(r0.slug), Saving(scaffolded), ContentWrite(path, content)];
    assert written == [first] + inner;
    assert a == Rescue(scaffolded, written, env.write.error, env);
    middle := RescueShape(scaffolded, first, inner, env.write.error, env);
  }

  /** `CreateAttemptShape` when the build raises. */
  lemma ShapeWhenBuildFails(r0: Slide, content: string, config: Config, env: CreateEnv, build: Outcome<string>)
    returns (middle: seq<Step>)
    requires env.scaffold.succeeded && env.write.Pass? && build.Fail?
    ensures var a := CreateAttempt(r0, content, config, env, build);
            a.steps == [Saving(StartBuilding(r0))] + middle + [Saving(a.slide)]
    ensures forall st | st in middle && st.Saving? ::
              st.record == StartBuilding(r0).(projectPath := PathJoin(config.projectsDir, r0.slug))
  {
    var a := CreateAttempt(r0, content, config, env, build);
    var first := Saving(StartBuilding(r0));
    var path := PathJoin(config.projectsDir, r0.slug);
    var scaffolded := StartBuilding(r0).(projectPath := path);
    var written := [first, Scaffold(r0.slug)] + [Saving(scaffolded), ContentWrite(path, content)];
    var inner := [Scaffold(r0.slug), Saving(scaffolded), ContentWrite(path, content)];
    assert written == [first] + inner;
    assert a == Rescue(scaffolded, written + [BuildRun(path)], build.error, env);
    assert written + [BuildRun(path)] == [first] + (inner + [BuildRun(path)]);
    middle := RescueShape(scaffolded, first, inner + [BuildRun(path)], build.error, env);
  }

  /** `CreateAttemptShape` when every step succeeds. */
  lemma ShapeWhenCompleted(r0: Slide, content: string, config: Config, env: CreateEnv, build: Outcome<string>)
    returns (middle: seq<Step>)
    requires env.scaffold.succeeded && env.write.Pass? && build.Pass?
    ensures var a := CreateAttempt(r0, content, config, env, build);
            a.steps == [Saving(StartBuilding(r0))] + middle + [Saving(a.slide)]
    ensures forall st | st in middle && st.Saving? ::
              st.record == StartBuilding(r0).(projectPath := PathJoin(config.projectsDir, r0.slug))
  {
    var a := CreateAttempt(r0, content, config, env, build);
    var first := Saving(StartBuilding(r0));
    var path := PathJoin(config.projectsDir, r0.slug);
    var scaffolded := StartBuilding(r0).(projectPath := path);
    var written := [first, Scaffold(r0.slug)] + [Saving(scaffolded), ContentWrite(path, content)];
    var inner := [Scaffold(r0.slug), Saving(scaffolded), ContentWrite(path, content)];
    assert written == [first] + inner;
    assert a.steps == written + [BuildRun(path)] + [Saving(a.slide)];
    middle := inner + [BuildRun(path)];
  }

  /** A rescued attempt is its first step, what came between, and the final save. */
  lemma RescueShape(r: Slide, first: Step, inner: seq<Step>, error: string, env: CreateEnv) returns (middle: seq<Step>)
    ensures var a := Rescue(r, [first] + inner, error, env);
            a.steps == [first] + middle + [Saving(a.slide)]
    ensures middle == inner + (if ShouldClean(r.projectPath, env.dirExists) then [Cleanup(r.projectPath, env.cleanup)] else [])
  {
    middle := inner + (if ShouldClean(r.projectPath, env.dirExists) then [Cleanup(r.projectPath, env.cleanup)] else []);
  }

  /** The statuses the create job saves follow the lifecycle, and it never ends in `building`. */
  lemma CreateAttemptTransitions(r0: Slide, content: string, config: Config, env: CreateEnv, build: Outcome<string>)
    ensures var a := CreateAttempt(r0, content, config, env, build);
            && Follows(r0.status, SavedStatuses(a.steps))
            && a.slide.status != Building
  {
    var a := CreateAttempt(r0, content, config, env, build);
    var first := Saving(StartBuilding(r0));
    var last := Saving(a.slide);
    var middle := CreateAttemptShape(r0, content, config, env, build);
    MiddleStatuses(middle);
    SavedStatusesAppend([first] + middle, [last]);
    SavedStatusesAppend([first], middle);
    assert SavedStatuses([first]) == [Building] by {
      assert [first][1..] == [];
    }
    assert SavedStatuses([last]) == [a.slide.status] by {
      assert [last][1..] == [];
    }
    FollowsAppend(r0.status, [Building], SavedStatuses(middle));
    FollowsAppend(r0.status, [Building] + SavedStatuses(middle), [a.slide.status]);
  }

  /** Between its first and last saves the create job only ever saves `building`. */
  lemma {:induction false} MiddleStatuses(steps: seq<Step>)
    requires forall st | st in steps && st.Saving? :: st.record.status == Building
    ensures forall k | 0 <= k < |SavedStatuses(steps)| :: SavedStatuses(steps)[k] == Building
    ensures Follows(Building, SavedStatuses(steps))
    decreases |steps|
  {
    if |steps| > 0 {
      assert forall st | st in steps[1..] :: st in steps;
      MiddleStatuses(steps[1..]);
      var rest := SavedStatuses(steps[1..]);
      if steps[0].Saving? {
        assert SavedStatuses(steps) == [Building] + rest;
      } else {
        assert SavedStatuses(steps) == [] + rest;
        assert [] + rest == rest;
      }
    }
    AllBuildingFollows(SavedStatuses(steps));
  }

  /** A run of `building` saves follows from `building`. */
  lemma {:induction false} AllBuildingFollows(ss: seq<Status>)
    requires forall k | 0 <= k < |ss| :: ss[k] == Building
    ensures Follows(Building, ss)
    decreases |ss|
  {
    if |ss| > 0 {
      assert forall k | 0 <= k < |ss[1..]| :: ss[1..][k] == ss[k + 1];
      AllBuildingFollows(ss[1..]);
    }
  }

  /** The statuses the build job saves follow the lifecycle, and it never ends in `building`. */
  lemma BuildAttemptTransitions(r0: Slide, build: Outcome<string>)
    ensures var a := BuildAttempt(r0, build);
            && SavedStatuses(a.steps) == [Building, a.slide.status]
            && Follows(r0.status, SavedStatuses(a.steps))
            && a.slide.status != Building
  {
    var a := BuildAttempt(r0, build);
    var st := a.slide.status;
    assert a.steps[1..] == [a.steps[1], a.steps[2]];
    assert a.steps[1..][1..] == [a.steps[2]];
    assert a.steps[1..][1..][1..] == [];
    assert SavedStatuses(a.steps[1..][1..]) == [st] + SavedStatuses([]);
    assert SavedStatuses(a.steps[1..]) == [] + SavedStatuses(a.steps[1..][1..]);
    assert SavedStatuses(a.steps) == [Building] + SavedStatuses(a.steps[1..]);
    assert [st][1..] == [];
    assert Follows(st, []);
    assert Follows(Building, [st]);
    assert [Building, st][1..] == [st];
  }

  // ---------------------------------------------------------------------
  // Saving into the table

  datatype Persisted = Persisted(store: Store, saved: seq<bool>)

  /** The record of the last save in `steps`, or `r` when there is none. */
  function LastSaved(steps: seq<Step>, r: Slide): Slide
    decreases |steps|
  {
    if |steps| == 0 then r
    else LastSaved(steps[1..], if steps[0].Saving? then steps[0].record else r)
  }

  /**
   * Each save of row `id` in turn (`slide.update`), the table validating it
   * in the update context; `saved` is what each `update` returned.
   */
  function Persist(s: Store, id: nat, steps: seq<Step>): (p: Persisted)
    requires id in s.records
    ensures p.store.records.Keys == s.records.Keys && p.store.nextId == s.nextId
    ensures forall other | other in s.records && other != id :: p.store.records[other] == s.records[other]
    ensures |p.saved| == |SavedStatuses(steps)|
    decreases |steps|
  {
    if |steps| == 0 then Persisted(s, [])
    else if steps[0].Saving? then
      var u := SaveExisting(s, id, steps[0].record);
      var rest := Persist(u.store, id, steps[1..]);
      Persisted(rest.store, [u.saved] + rest.saved)
    else Persist(s, id, steps[1..])
  }

  /** The saves in `steps` keep the row's name and slug. */
  predicate KeepsKeys(steps: seq<Step>, name: string, slug: string) {
    forall st | st in steps && st.Saving? :: st.record.name == name && st.record.slug == slug
  }

  /** Replaying saves keeps the table valid, whatever the saves hold. */
  lemma {:induction false} PersistKeepsValid(s: Store, id: nat, steps: seq<Step>)
    requires Valid(s) && id in s.records
    ensures Valid(Persist(s, id, steps).store)
    decreases |steps|
  {
    if |steps| > 0 {
      if steps[0].Saving? {
        var u := SaveExisting(s, id, steps[0].record);
        SaveExistingPreservesValid(s, id, steps[0].record);
        PersistKeepsValid(u.store, id, steps[1..]);
        assert Persist(s, id, steps).store == Persist(u.store, id, steps[1..]).store;
      } else {
        PersistKeepsValid(s, id, steps[1..]);
        assert Persist(s, id, steps) == Persist(s, id, steps[1..]);
      }
    }
  }

  /**
   * While the row alone holds its name and slug, saves that keep both all
   * go through, and the row ends up holding the
   * last record saved.
   */
  lemma {:induction false} PersistSavesAll(s: Store, id: nat, steps: seq<Step>)
    requires OwnsKeys(s, id)
    requires KeepsKeys(steps, s.records[id].name, s.records[id].slug)
    ensures var p := Persist(s, id, steps);
            && false !in p.saved
            && p.store.records[id] == LastSaved(steps, s.records[id])
    decreases |steps|
  {
    if |steps| > 0 {
      var r := s.records[id];
      assert KeepsKeys(steps[1..], r.name, r.slug) by {
        forall st | st in steps[1..] ensures st in steps {}
      }
      if steps[0].Saving? {
        var rec := steps[0].record;
        var u := SaveExisting(s, id, rec);
        SaveOwnKeys(s, id, rec);
        PersistSavesAll(u.store, id, steps[1..]);
        var rest := Persist(u.store, id, steps[1..]);
        assert Persist(s, id, steps) == Persisted(rest.store, [u.saved] + rest.saved);
        assert LastSaved(steps, r) == LastSaved(steps[1..], rec);
      } else {
        PersistSavesAll(s, id, steps[1..]);
        assert Persist(s, id, steps) == Persist(s, id, steps[1..]);
        assert LastSaved(steps, r) == LastSaved(steps[1..], r);
      }
    }
  }

  /**
   * On a valid table, saves that keep the row's name and slug all go
   * through: the table stays valid and ends up
   * holding the last record saved.
   */
  lemma PersistAll(s: Store, id: nat, steps: seq<Step>)
    requires Valid(s) && id in s.records
    requires KeepsKeys(steps, s.records[id].name, s.records[id].slug)
    ensures var p := Persist(s, id, steps);
            && Valid(p.store)
            && false !in p.saved
            && p.store.records[id] == LastSaved(steps, s.records[id])
  {
    PersistKeepsValid(s, id, steps);
    ValidOwnsKeys(s, id);
    PersistSavesAll(s, id, steps);
  }

  lemma {:induction false} LastSavedIsLast(steps: seq<Step>, r: Slide)
    requires |steps| > 0 && steps[|steps| - 1].Saving?
    ensures LastSaved(steps, r) == steps[|steps| - 1].record
    decreases |steps|
  {
    if |steps| > 1 {
      LastSavedIsLast(steps[1..], if steps[0].Saving? then steps[0].record else r);
    }
  }

  // ---------------------------------------------------------------------
  // The jobs as the queue runs them

  /** One attempt: `Slide.find` raised, or the job ran to the end. */
  datatype JobRun =
    | RecordNotFound
    | Finished(store: Store, attempt: Attempt, saved: seq<bool>)

  /** `CreateSlidevProjectJob.perform_now(id, content)` against the table. */
  function CreateJob(store: Store, id: nat, content: string, config: Config, env: CreateEnv): (j: JobRun)
    ensures j.RecordNotFound? <==> id !in store.records
    ensures j.Finished? ==>
              && j.store.records.Keys == store.records.Keys
              && (forall other | other in store.records && other != id :: j.store.records[other] == store.records[other])
              && |j.saved| == |SavedStatuses(j.attempt.steps)|
  {
    if id !in store.records then RecordNotFound
    else
      var r0 := store.records[id];
      var a := CreateAttempt(r0, content, config, env, BuildRaised(config, r0.slug, env.buildSucceeded, env.log));
      var p := Persist(store, id, a.steps);
      Finished(p.store, a, p.saved)
  }

  /** A failed build is re-raised with the diagnostic extracted from its log. */
  lemma CreateJobBuildFailure(store: Store, id: nat, content: string, config: Config, env: CreateEnv)
    requires id in store.records
    requires env.scaffold.succeeded && env.write.Pass? && !env.buildSucceeded
    ensures CreateJob(store, id, content, config, env).attempt.raised
              == Some(ExtractBuildError(env.log, store.records[id].slug))
  {
    var r0 := store.records[id];
    var build := BuildRaised(config, r0.slug, env.buildSucceeded, env.log);
    CreateAttemptRaises(r0, content, config, env, build);
  }

  /** `BuildSlidevProjectJob.perform_now(id)` against the table. */
  function BuildJob(store: Store, id: nat, config: Config, succeeded: bool, log: Option<string>): (j: JobRun)
    ensures j.RecordNotFound? <==> id !in store.records
    ensures j.Finished? ==>
              && j.store.records.Keys == store.records.Keys
              && (forall other | other in store.records && other != id :: j.store.records[other] == store.records[other])
              && (j.attempt.raised.None? <==> succeeded)
              && (j.attempt.raised.Some? ==> j.attempt.raised.value == ExtractBuildError(log, store.records[id].slug))
  {
    if id !in store.records then RecordNotFound
    else
      var r0 := store.records[id];
      var a := BuildAttempt(r0, BuildRaised(config, r0.slug, succeeded, log));
      var p := Persist(store, id, a.steps);
      Finished(p.store, a, p.saved)
  }

  /**
   * An attempt whose saves keep the row's name and slug, and which ends by
   * saving its final record, leaves a valid table with every save gone
   * through and the row holding that record.
   */
  lemma AttemptPersists(s: Store, id: nat, a: Attempt)
    requires Valid(s) && id in s.records
    requires KeepsKeys(a.steps, s.records[id].name, s.records[id].slug)
    requires |a.steps| > 0 && a.steps[|a.steps| - 1] == Saving(a.slide)
    ensures var p := Persist(s, id, a.steps);
            && Valid(p.store)
            && false !in p.saved
            && p.store.records[id] == a.slide
  {
    PersistAll(s, id, a.steps);
    LastSavedIsLast(a.steps, s.records[id]);
  }

  /** The create job's saves keep the row's name and slug. */
  lemma CreateAttemptKeepsKeys(r0: Slide, content: string, config: Config, env: CreateEnv, build: Outcome<string>)
    ensures KeepsKeys(CreateAttempt(r0, content, config, env, build).steps, r0.name, r0.slug)
  {
    CreateAttemptSaves(r0, content, config, env, build);
  }

  /** On a valid table every save of the create job goes through and the row ends as the job's record. */
  lemma CreateJobPersists(store: Store, id: nat, content: string, config: Config, env: CreateEnv)
    requires Valid(store) && id in store.records
    ensures var j := CreateJob(store, id, content, config, env);
            && Valid(j.store)
            && false !in j.saved
            && j.store.records[id] == j.attempt.slide
  {
    var r0 := store.records[id];
    var build := BuildRaised(config, r0.slug, env.buildSucceeded, env.log);
    var a := CreateAttempt(r0, content, config, env, build);
    CreateAttemptKeepsKeys(r0, content, config, env, build);
    AttemptPersists(store, id, a);
  }

  /** On a valid table both saves of the build job go through and the row ends as the job's record. */
  lemma BuildJobPersists(store: Store, id: nat, config: Config, succeeded: bool, log: Option<string>)
    requires Valid(store) && id in store.records
    ensures var j := BuildJob(store, id, config, succeeded, log);
            && Valid(j.store)
            && false !in j.saved
            && j.store.records[id] == j.attempt.slide
  {
    var r0 := store.records[id];
    var a := BuildAttempt(r0, BuildRaised(config, r0.slug, succeeded, log));
    assert KeepsKeys(a.steps, r0.name, r0.slug);
    AttemptPersists(store, id, a);
  }

  /**
   * The program's writes keep every stored path present: the create job
   * only ever saves the row's own path or the joined project path.
   */
  lemma CreateJobKeepsPaths(store: Store, id: nat, content: string, config: Config, env: CreateEnv)
    requires Valid(store) && PathsPresent(store) && id in store.records
    ensures PathsPresent(CreateJob(store, id, content, config, env).store)
  {
    var j := CreateJob(store, id, content, config, env);
    CreateJobPersists(store, id, content, config, env);
    forall other | other in j.store.records ensures !Blank(j.store.records[other].projectPath) {
      if other != id {
        assert j.store.records[other] == store.records[other];
      }
    }
  }

  /** The build job never changes the row's path, so every stored path stays present. */
  lemma BuildJobKeepsPaths(store: Store, id: nat, config: Config, succeeded: bool, log: Option<string>)
    requires Valid(store) && PathsPresent(store) && id in store.records
    ensures PathsPresent(BuildJob(store, id, config, succeeded, log).store)
  {
    var j := BuildJob(store, id, config, succeeded, log);
    BuildJobPersists(store, id, config, succeeded, log);
    forall other | other in j.store.records ensures !Blank(j.store.records[other].projectPath) {
      if other != id {
        assert j.store.records[other] == store.records[other];
      }
    }
  }

  /** The create job as `create` enqueues it, `perform_later(@slide.id)`: with `perform`'s default content. */
  function EnqueuedCreateJob(store: Store, id: nat, config: Config, env: CreateEnv): (j: JobRun)
    ensures j.RecordNotFound? <==> id !in store.records
  {
    CreateJob(store, id, INITIAL_CONTENT, config, env)
  }

  /** Once the project is scaffolded, the enqueued job writes the default content into its directory. */
  lemma EnqueuedCreateJobWritesDefault(store: Store, id: nat, config: Config, env: CreateEnv)
    requires id in store.records && env.scaffold.succeeded
    ensures var j := EnqueuedCreateJob(store, id, config, env);
            ContentWrite(PathJoin(config.projectsDir, store.records[id].slug), INITIAL_CONTENT) in j.attempt.steps
  {
    var r0 := store.records[id];
    var build := BuildRaised(config, r0.slug, env.buildSucceeded, env.log);
    var a := CreateAttempt(r0, INITIAL_CONTENT, config, env, build);
    CreateAttemptCases(r0, INITIAL_CONTENT, config, env, build);
    assert a.steps[3] == ContentWrite(PathJoin(config.projectsDir, r0.slug), INITIAL_CONTENT);
  }
}
