# slidev-rails in Dafny

A model of the core of slidev-rails, a Rails application that turns a
Markdown deck into a Slidev project, builds it with the Slidev CLI in a
background job and publishes the static output. Two parts are modelled:

* **Build-log diagnostics** (`SlidevProjectService#extract_build_error` and
  its helpers). A failed `npm run build` leaves a log file, and the service
  condenses that log into one message for the user. It tries three things
  in order. First, the Vite/Vue compile error: the first `[vite:vue]` or
  `SyntaxError:` line, with its tool prefix removed, plus a `slides.md`
  line/column sentence and a hint. Next, up to five lines that mention
  `Error:`, `ERROR` or `failed`. Last, a generic message that names the log
  file. The service's scaffold, build and delete operations are modelled
  too, with the shell and file-system calls replaced by what they report.
* **The slide lifecycle.** This covers the `Slide` record and its table, and
  `generate_slug`. It covers the presence and uniqueness validations as
  the invariant of the table. It covers the two background jobs, which
  move a record through `pending → building → completed | failed`. And it
  covers the controller actions that create, build, edit, update and
  destroy records.

Modules, one per file, import each other in this order:

| file | module | models |
|---|---|---|
| `wrappers.dfy` | `Wrappers` | `Option`, `Outcome` (pass or a raised message), `Result` |
| `text.dfy` | `Text` | Ruby's `include?`, `strip`, `lines` and `join`, Rails' `blank?`/`present?`, and integer-to-decimal |
| `log_patterns.dfy` | `LogPatterns` | The two `gsub` prefix removals and the two location regexes of the Vite extractor |
| `build_log.dfy` | `BuildLog` | `extract_build_error`, `extract_vite_error`, `extract_general_error`, `get_error_hint` |
| `slides.dfy` | `Slides` | The `Slide` record, `generate_slug`, the validations, `save` and the table invariant `Valid` |
| `project_service.dfy` | `ProjectService` | `create_project`, `build_project`, `delete_project` |
| `jobs.dfy` | `Jobs` | `CreateSlidevProjectJob#perform`, `BuildSlidevProjectJob#perform` |
| `slides_controller.dfy` | `SlidesController` | `create`, `build`, `edit`, `update`, `destroy` |

Each job is modelled in two layers. The jobs work on the record they
loaded: every `slide.update(...)` assigns to that in-memory record and
then saves it, and the job never checks whether the save went through.

* `CreateAttempt` and `BuildAttempt` describe what a job does to its
  in-memory record. The result is the final record, the sequence of steps
  (saves, scaffold, write, build, cleanup) and the error it re-raises.
* `Persist` replays the saves against the table, each validated in the
  update context.

On a valid table every save the jobs make goes through (`PersistAll`), and
the row ends up equal to the job's final record.

## Model

| member | source | states |
|---|---|---|
| Text.Strip | app/services/slidev_project_service.rb:97 | A stripped line neither starts nor ends with NUL, `\t`, `\n`, `\v`, `\f`, `\r` or a space |
| Text.StripDecompose | app/services/slidev_project_service.rb:97 | `strip` removes a run of such spaces from each end and nothing else: the line is the two runs around the stripped text |
| Text.StripKeepsCore | app/services/slidev_project_service.rb:137 | Any piece of a text that begins and ends with a non-space character survives `strip` |
| Text.Lines | app/services/slidev_project_service.rb:71 | `String#lines`: every line is non-empty, holds "\n" only as its last character, and every line but the last ends in "\n" |
| Text.LinesRoundTrip | app/services/slidev_project_service.rb:71 | Splitting the log into lines loses nothing: the lines concatenate back to the log text |
| Text.NatToString | app/services/slidev_project_service.rb:19 | The interpolated exit status is a non-empty string of decimal digits with no leading zero: it starts with "0" exactly when the status is 0, and is then "0" |
| Text.NatToStringRoundTrip | app/services/slidev_project_service.rb:19 | Reading those digits back gives the exit status |
| Text.NatToStringUnique | app/services/slidev_project_service.rb:19 | The printed form is the only one: any digit string with no leading zero is the printed form of the number it denotes |
| LogPatterns.SpaceRun | app/services/slidev_project_service.rb:97 | What `\s*` consumes: the longest prefix of ASCII regex spaces |
| LogPatterns.TagMatchSpec | app/services/slidev_project_service.rb:97-100 | The scanner reports a match of length `n` exactly when the lead, a maximal `\s` run, the tag and a maximal `\s` run cover the first `n` characters, as the pattern `lead\s*tag\s*` does |
| LogPatterns.SpaceRunMaximal | app/services/slidev_project_service.rb:97 | A greedy `\s*` has exactly one possible end: a run of `\s` ending at the text's end or at a non-space is the one `SpaceRun` measures |
| LogPatterns.TagMatchPrefix | app/services/slidev_project_service.rb:97 | On `lead + spaces + tag + spaces + rest`, the match covers exactly the part before `rest` |
| LogPatterns.RemoveTagWithoutLead | app/services/slidev_project_service.rb:97-100 | `gsub` leaves a text without the lead marker unchanged |
| LogPatterns.RemoveTagOffLineStart | app/services/slidev_project_service.rb:100 | The `^`-anchored `gsub` changes nothing when the scan is not at the start of a line and the text has no "\n" |
| LogPatterns.RemoveTagPrefix | app/services/slidev_project_service.rb:97 | The unanchored `gsub` on `lead + spaces + tag + spaces + rest` leaves exactly `rest`, when `rest` does not repeat the marker |
| LogPatterns.RemoveAnchoredTagPrefix | app/services/slidev_project_service.rb:100 | The anchored `gsub` on a single line `lead + spaces + tag + spaces + rest` leaves exactly `rest` |
| LogPatterns.StripViteTagPrefix | app/services/slidev_project_service.rb:97 | A stripped `[vite:vue] [plugin vite:vue] msg` line yields `msg` |
| LogPatterns.StripSyntaxTagPrefix | app/services/slidev_project_service.rb:100 | A stripped `SyntaxError: [plugin vite:vue] msg` line yields `msg` |
| LogPatterns.LineColAtSound | app/services/slidev_project_service.rb:108-115 | What the scanner captures is a `(\d+):(\d+)` match: two non-empty digit runs around ":", with no digit after them |
| LogPatterns.LineColAtComplete | app/services/slidev_project_service.rb:108-115 | Every such match is found, with the same captures |
| LogPatterns.LineColAtSpec | app/services/slidev_project_service.rb:108-115 | The scanner captures a location exactly when the pattern's groups capture it |
| LogPatterns.Search | app/services/slidev_project_service.rb:108 | `=~` finds the leftmost match: no position before it matches, and no match at all means no position matches |
| LogPatterns.SearchFirst | app/services/slidev_project_service.rb:108-112 | A search from the start of the line yields the leftmost match, and none exactly when no position matches |
| LogPatterns.FileLocation | app/services/slidev_project_service.rb:106-116 | If the `slides.md__slidev_N.md:L:C` form matches anywhere, the location is the capture of its leftmost match; otherwise it is the capture of the leftmost `slides.md:L:C` match. There is no location exactly when neither form matches anywhere |
| LogPatterns.LineColAtOf | app/services/slidev_project_service.rb:108-115 | On `L:C` followed by a non-digit, the scanner captures exactly `L` and `C` |
| LogPatterns.LocationTextRoundTrip | app/services/slidev_project_service.rb:111 | The location sentence carries the captured line and column unchanged: both read back from it |
| BuildLog.FirstIndex | app/services/slidev_project_service.rb:88 | `find_index`: the index of the first line that passes, with none before it; nil exactly when no line passes |
| BuildLog.ErrorHint | app/services/slidev_project_service.rb:141-152 | No hint exactly when no pattern matches; otherwise the hint of the first matching `when`, in order |
| BuildLog.ErrorHintPriority | app/services/slidev_project_service.rb:142-148 | The first matching `when` decides, whatever later patterns match |
| BuildLog.MessageLines | app/services/slidev_project_service.rb:95-102 | A marker line yields exactly one message; `[vite:vue]` is checked before `SyntaxError:`, each with its own prefix removal on the stripped line |
| BuildLog.ViteMarkerWins | app/services/slidev_project_service.rb:95-100 | A line carrying both markers is treated as a `[vite:vue]` line |
| BuildLog.ViteMessageIsTrimmedLineWithoutPrefix | app/services/slidev_project_service.rb:95-98 | The message of a `[vite:vue] [plugin vite:vue] msg` line is exactly `msg`, after stripping |
| BuildLog.ViteError | app/services/slidev_project_service.rb:86-89 | The Vite extractor gives nil exactly when no line carries a marker |
| BuildLog.ViteErrorShape | app/services/slidev_project_service.rb:86-126 | The diagnostic comes from the first marker line. It is the header, then the message, the location sentence (at most one) and the message's hint joined by "\n", then the advice |
| BuildLog.LocationDigits | app/services/slidev_project_service.rb:108-115 | Captured line and column numbers are non-empty digit strings |
| BuildLog.FileLocationRoundTrip | app/services/slidev_project_service.rb:106-116 | Whatever location a `file:` line yields, its sentence reads back as that location |
| BuildLog.LocationLinesFound | app/services/slidev_project_service.rb:105-116 | The first `file:` line mentioning slides.md determines the location sentence |
| BuildLog.ViteErrorReportsLocation | app/services/slidev_project_service.rb:105-125 | When that line has a location, the diagnostic contains its sentence, and the numbers read back from it |
| BuildLog.ViteErrorWithoutLocation | app/services/slidev_project_service.rb:105-117 | No location sentence is added exactly when there is no `file:` line mentioning slides.md or the first one has no location; later `file:` lines are never read |
| BuildLog.KeywordLines | app/services/slidev_project_service.rb:131-132 | `select` keeps only keyword lines, keeps every keyword line, and adds nothing |
| BuildLog.KeywordLinesAppend | app/services/slidev_project_service.rb:131-132 | `select` keeps the log's order: it distributes over concatenation |
| BuildLog.Take | app/services/slidev_project_service.rb:133 | `first(n)` is the prefix of length `n`, or all of a shorter list |
| BuildLog.KeywordLinesFirst | app/services/slidev_project_service.rb:131-133 | The first selected line is the first keyword line of the log |
| BuildLog.GeneralError | app/services/slidev_project_service.rb:129-138 | The keyword extractor gives nil exactly when no line is a keyword line. Otherwise its message is the header followed by the stripped "\n"-join of the first five keyword lines in log order |
| BuildLog.GeneralErrorFirstFive | app/services/slidev_project_service.rb:131-133 | Once a log holds five keyword lines, whatever follows them never changes the keyword message |
| BuildLog.GeneralErrorKeepsLines | app/services/slidev_project_service.rb:131-137 | Each of the first five keyword lines appears, stripped, in the message |
| BuildLog.ExtractBuildError | app/services/slidev_project_service.rb:67-83 | A missing log gives the missing-log message. Any marker line gives the Vite diagnostic. Otherwise the keyword message is used, or finally the generic message that names `log/slidev_build_<slug>.log` |
| BuildLog.HeaderIsNotGeneric | app/services/slidev_project_service.rb:78-82 | An extracted diagnostic never coincides with the generic fallback |
| BuildLog.KeywordLineReported | app/services/slidev_project_service.rb:73-82 | A log with no marker line but some keyword line yields a specific message that contains its first keyword line |
| ProjectService.PathJoin | app/services/slidev_project_service.rb:11 | A joined project or output path is never blank and never the "pending" placeholder |
| ProjectService.ExitStatusText | app/services/slidev_project_service.rb:19 | The interpolated status is all digits with no leading zero, and empty exactly when the status is nil |
| ProjectService.CreateProject | app/services/slidev_project_service.rb:10-23 | Scaffolding succeeds exactly when the command does, returning the project directory; otherwise it raises the exit-code message |
| ProjectService.CreateProjectReportsExitStatus | app/services/slidev_project_service.rb:18-20 | The scaffold error ends in the exit status in canonical decimal (non-empty digits, no leading zero) that reads back as the status; a nil status leaves it empty |
| ProjectService.BuildProject | app/services/slidev_project_service.rb:25-43 | A build succeeds exactly when the command does, returning the output directory; otherwise it raises the diagnostic extracted from the log |
| ProjectService.BuildFailureMessage | app/services/slidev_project_service.rb:36-40 | A failed build with no log reports the missing log; one whose log has nothing recognisable names the log file |
| ProjectService.DeleteProject | app/services/slidev_project_service.rb:45-62 | Each existing path is removed, the project before the output. It raises exactly when a removal raised, with each failure's prefixed message joined by ", " |
| Slides.GenerateSlug | app/models/slide.rb:10-12 | Only the slug changes, and only from nil, to the parameterized name when the name is present |
| Slides.GenerateSlugIdempotent | app/models/slide.rb:11 | Running `generate_slug` twice is the same as once |
| Slides.GenerateSlugKeepsSlug | app/models/slide.rb:11 | A set slug, even an empty one, is never recomputed, whatever the name |
| Slides.Validate | app/models/slide.rb:2-3 | As written, a record is valid exactly when name and slug are present and unused by other rows; project_path is never checked |
| Slides.ValidateIntended | app/models/slide.rb:2-4 | The declared rules with project_path presence: valid exactly when the as-written rules pass and the path is present |
| Slides.ValidateIgnoresPath | app/models/slide.rb:4 | As written, the path never changes the validation outcome |
| Slides.BlankPathAcceptedAsWritten | app/models/slide.rb:4 | A record with an empty path passes the as-written rules and fails the declared ones |
| Slides.SaveNew | app/models/slide.rb:2-6 | Saving a new record defaults the slug first and runs the rules that execute (name and slug only). It is rejected exactly when they fail; a nil path then hits the NOT NULL column; otherwise the record takes the next id and no other row changes |
| Slides.SaveNewPreservesValid | app/models/slide.rb:2-3 | An accepted new record keeps names and slugs unique and present |
| Slides.SaveNewKeepsPaths | app/models/slide.rb:4 | As the rules run, an inserted record keeps every stored path non-blank exactly when its own path is present: a blank path is stored unchecked |
| Slides.SaveNewBlankPathAsWritten | app/models/slide.rb:4-6 | A new record named "deck" with an empty path is inserted by the executed save and rejected with `PathBlank` by the intended one |
| Slides.SaveExisting | app/models/slide.rb:2-4 | `update` saves exactly when name and slug are present and unused by the other rows (the path is not checked), and leaves the table unchanged otherwise |
| Slides.SaveExistingPreservesValid | app/models/slide.rb:2-3 | Every update, saved or not, keeps names and slugs unique and present |
| Slides.SaveExistingKeepsPaths | app/models/slide.rb:4 | As the rules run, an update keeps every stored path non-blank exactly when it is refused or its own path is not blank |
| Slides.SaveNewIntended | app/models/slide.rb:2-6 | With the path rule in force, a new record is rejected exactly when the declared rules fail, never reaches the NOT NULL column, and is otherwise inserted as the executed save inserts it |
| Slides.SaveExistingIntended | app/models/slide.rb:2-4 | With the path rule in force, an update saves exactly when the declared rules pass |
| Slides.SaveNewIntendedPreservesValid | app/models/slide.rb:2-4 | Under the declared rules an accepted new record keeps names and slugs unique and present and every path non-blank |
| Slides.SaveExistingIntendedPreservesValid | app/models/slide.rb:2-4 | Under the declared rules every update keeps names and slugs unique and present and every path non-blank |
| Slides.SavesAgreeOnPresentPath | app/models/slide.rb:2-4 | For a record whose path is present, the executed and the intended saves give the same result |
| Slides.SaveOwnKeys | app/models/slide.rb:2-3 | An update that keeps a row's own unique name and slug is saved, whatever its path, and the row still owns them afterwards |
| Slides.SaveKeepingNameAndSlug | app/models/slide.rb:2-3 | On a valid table, an update that keeps name and slug always saves |
| Jobs.Rescue | app/jobs/create_slidev_project_job.rb:25-44 | The rescue removes the directory only for a present, non-placeholder, existing path. It then saves `failed` with the message and the path unchanged, and re-raises |
| Jobs.BuildRaised | app/jobs/create_slidev_project_job.rb:21 | The build step raises exactly when the build fails, with the extracted diagnostic |
| Jobs.CreateAttempt | app/jobs/create_slidev_project_job.rb:9-45 | It completes exactly when scaffold, write and build all succeed. Only status, path and error change; the path changes only after a successful scaffold. It saves `building` first and its final record last |
| Jobs.CreateAttemptCases | app/jobs/create_slidev_project_job.rb:9-45 | Gives the exact steps of each of the four ways the attempt ends |
| Jobs.CreateAttemptRaises | app/jobs/create_slidev_project_job.rb:25-44 | The re-raised error is the one the failing step raised |
| Jobs.CreateAttemptUsesScaffoldedPath | app/jobs/create_slidev_project_job.rb:14-21 | Content is written, and the build run, in the directory the scaffold returned |
| Jobs.CreateAttemptSaves | app/jobs/create_slidev_project_job.rb:11-43 | Every save keeps name, slug and description, and holds the old or the scaffolded path |
| Jobs.CreateAttemptCleanup | app/jobs/create_slidev_project_job.rb:33-40 | Cleanup happens exactly when the job fails holding a present, non-placeholder path that exists |
| Jobs.CreateAttemptIgnoresCleanupOutcome | app/jobs/create_slidev_project_job.rb:34-39 | A failed removal changes nothing but the cleanup step itself |
| Jobs.CreateAttemptTransitions | app/jobs/create_slidev_project_job.rb:11-43 | Every status the create job saves is a legal move from the one before, and it never ends in `building` |
| Jobs.CreateAttemptShape | app/jobs/create_slidev_project_job.rb:11-43 | The create job saves `building` first and its final record last; every save in between is the `building` record with the scaffolded path |
| Jobs.MiddleStatuses | app/jobs/create_slidev_project_job.rb:11-21 | Between its first and last saves the create job saves only `building` |
| Jobs.BuildAttempt | app/jobs/build_slidev_project_job.rb:5-29 | It saves `building` with no error, builds, then saves `completed`, or `failed` with the error. Only status and error change |
| Jobs.BuildAttemptTransitions | app/jobs/build_slidev_project_job.rb:11-27 | The build job saves exactly `building` then the outcome status, and never ends in `building` |
| Jobs.Persist | app/jobs/create_slidev_project_job.rb:11-43 | Replaying the saves never adds or removes rows, touches only the job's row, and yields one `update` result per save |
| Jobs.PersistAll | app/jobs/create_slidev_project_job.rb:11-43 | On a valid table, saves that keep name and slug all succeed. The table stays valid and holds the last record saved |
| Jobs.PersistKeepsValid | app/jobs/create_slidev_project_job.rb:11-43 | Replaying any saves of the job's row keeps the table valid, whether or not each save goes through |
| Jobs.PersistSavesAll | app/jobs/create_slidev_project_job.rb:11-43 | When the row owns its name and slug, every save that keeps them goes through, and the row ends as the last record saved |
| Jobs.CreateJob | app/jobs/create_slidev_project_job.rb:5-46 | A missing record raises before anything happens; otherwise only the job's row changes |
| Jobs.CreateJobBuildFailure | app/jobs/create_slidev_project_job.rb:21-44 | A failed build is re-raised with the diagnostic extracted from its log |
| Jobs.CreateJobPersists | app/jobs/create_slidev_project_job.rb:9-45 | On a valid table every save of the create job succeeds, and the row ends as the job's final record |
| Jobs.CreateJobKeepsPaths | app/jobs/create_slidev_project_job.rb:11-43 | On a valid table whose paths are all non-blank, the create job keeps them so: it stores only the row's own path or the joined project path |
| Jobs.EnqueuedCreateJob | app/jobs/create_slidev_project_job.rb:5 | The job `create` enqueues runs `perform` with its default content; it finds no record exactly when the id is not in the table |
| Jobs.EnqueuedCreateJobWritesDefault | app/jobs/create_slidev_project_job.rb:5-18 | Once the project is scaffolded, the enqueued job writes "Hello, World!" into the scaffolded directory |
| Jobs.BuildJob | app/jobs/build_slidev_project_job.rb:5-29 | A missing record raises; otherwise only the job's row changes, and the job re-raises exactly when the build fails, with the extracted diagnostic |
| Jobs.BuildJobPersists | app/jobs/build_slidev_project_job.rb:9-28 | On a valid table both saves of the build job succeed, and the row ends as the job's final record |
| Jobs.BuildJobKeepsPaths | app/jobs/build_slidev_project_job.rb:9-28 | The build job never changes the row's path, so a table whose paths are all non-blank stays so |
| SlidesController.Create | app/controllers/slides_controller.rb:29-75 | The checks run in order: name present, slug non-blank, slug unused, then save. A record is created exactly when name and slug are present and neither is taken. It is saved at "pending" with one create job enqueued; every other reply leaves table and queue alone |
| SlidesController.CreateMessage | app/controllers/slides_controller.rb:36-53 | Each early error has its message, and the slug-in-use message names the slug |
| SlidesController.CreateNotSavedMeansNameTaken | app/controllers/slides_controller.rb:42-69 | Once create's own checks pass, the save can only fail because the name is taken |
| SlidesController.CreatePreservesValid | app/controllers/slides_controller.rb:60-66 | Create keeps the table valid, and since it saves the "pending" placeholder it keeps every stored path non-blank |
| SlidesController.Build | app/controllers/slides_controller.rb:77-94 | A record being built is refused with nothing changed. Otherwise it is saved as `building` with no error, and a build job is enqueued whether or not the save went through |
| SlidesController.BuildMarksBuilding | app/controllers/slides_controller.rb:84-89 | On a valid table the save in `build` goes through: the row is `building` with no error and nothing else changes |
| SlidesController.BuildTwiceRejected | app/controllers/slides_controller.rb:77-89 | A second `build` before the job finishes is refused, so only one build job is enqueued |
| SlidesController.Edit | app/controllers/slides_controller.rb:107-120 | A record being built is refused; otherwise the editor opens with the file's content or reports the read error. The table is never changed |
| SlidesController.UpdateContent | app/controllers/slides_controller.rb:122-139 | A missing or building record is refused with nothing written; otherwise exactly the submitted content is handed to the write, and a write error re-shows the form with that content. The table is never changed |
| SlidesController.UpdateWritesUnlessRefused | app/controllers/slides_controller.rb:124-131 | `update` writes nothing exactly when it refuses the request |
| SlidesController.GuardsAgree | app/controllers/slides_controller.rb:77-127 | `build`, `edit` and `update` refuse exactly the same records |
| SlidesController.Destroy | app/controllers/slides_controller.rb:96-105 | The row is deleted exactly when neither removal raised. If one did, the table is unchanged and the service's message is shown |
| SlidesController.DestroyPreservesValid | app/controllers/slides_controller.rb:96-105 | Destroy keeps the table valid |
| SlidesController.DestroyCanOrphanRow | app/controllers/slides_controller.rb:98-100 | Files go before the row: when only the output removal raises, the project directory is gone while the row still points at it |

## Left out

- Shell commands (`npm create`, `npm install`, `npm run build`), `File.exist?`, `File.read` and `FileUtils.rm_rf` are not modelled. Each is replaced by what it reports: an exit status, whether a path exists, the log text, or whether a removal raised.
- `read_slides_md` and `write_slides_md` are called but defined in no file of this model. They are inputs (the content read or the error raised, and whether writing raised), and writing is assumed to leave the record alone.
- `building?` is assumed to mean status `building`: the record declares no enum, and this is the only reading its callers make sense of.
- `String#parameterize` is an uninterpreted function parameter: transliteration and Rails' inflector are out of scope.
- BuildLog.ErrorHint: the `/i` patterns fold ASCII letters only. Ruby's Onigmo also folds a few non-ASCII characters (the Kelvin sign, long s), so a hint could match there and not in the model.
- BuildLog.GeneralError: `/Error:/i` and `/ERROR/i` fold ASCII letters only, for the same reason.
- ProjectService.PathJoin: joins with "/" and does not model `Pathname#join`'s handling of absolute names, "..", or repeated separators.
- Slides.Valid: uniqueness is exact string equality, with no database collation or case-insensitive comparison. The unique index on `slug` is not modelled separately; validation already rejects a duplicate.
- The build log is taken to be valid UTF-8: it is modelled as a sequence of characters, so a log with broken bytes cannot be written down. In Ruby, `=~` or `gsub` on such a line raises `ArgumentError`, and `build_project` would raise that instead of a diagnostic.
- SlidesController.DestroyCanOrphanRow: a failed removal is an input, so the model lets either removal raise. `FileUtils.rm_rf` is `rm_r(force: true)`, which swallows file-system errors. In the program, the scenario therefore needs `File.exist?` itself to raise, for example on a path that contains a NUL byte.
- Slides.SaveNew: the NOT NULL failure on a nil path is a `NullPath` result and not a raised exception; no caller in the model saves a nil path. The `slug` unique index and the NOT NULL constraints on name and slug are never reached, because validation rejects those values first.
- Logging (`Rails.logger`) and the backtrace are left out; they have no effect on the record or the table.
- Retries and the queue adapter are left out: each job is one `perform` from start to end. Concurrency between a running job and controller actions is left out too.
- The `rescue => e` in `create` and `build` catches exceptions from calls the model treats as total, so those branches are not modelled.
- Redirects, flash messages, rendering, and the `index`, `show`, `new` and `slide_html` actions are left out. So is the `SlidesChannel` broadcast; they display state and do not change it.
- Creating `PROJECTS_DIR` and `PUBLIC_SLIDES_DIR` in the service constructor is left out; the directories are taken as given.
- Jobs.Transition: the jobs and `build` also re-save `building` over `building` (the controller sets it and the job sets it again). The modelled lifecycle therefore allows any state to move to `building`, which is wider than `pending → building → completed | failed`.

## Findings

| source | as written | input that shows it | evidently intended | confidence | as-written member | corrected member |
|---|---|---|---|---|---|---|
| app/models/slide.rb:4 | `validates :project_path, presence: true, on: :save` names a validation context that `save` never uses (it validates in `:create` or `:update`), so the rule never runs | A new record named "deck" with slug "deck" and an empty `project_path` is accepted | A blank `project_path` is rejected on every save | medium, not executed | Slides.SaveNewBlankPathAsWritten | Slides.SaveNewIntendedPreservesValid |

The as-written half is `Slides.Validate`, `Slides.SaveNew` and
`Slides.SaveExisting`, which run only the name and slug rules, with
`Slides.BlankPathAcceptedAsWritten` and `Slides.SaveNewBlankPathAsWritten`
exhibiting a blank path going in. The corrected half is
`Slides.ValidateIntended`, `Slides.SaveNewIntended` and
`Slides.SaveExistingIntended`; they keep `Slides.PathsPresent` on every
save. The jobs and the controller use the saves as written.
`SlidesController.CreatePreservesValid`, `Jobs.CreateJobKeepsPaths` and
`Jobs.BuildJobKeepsPaths` show that the program's own writes keep every
path non-blank anyway: it stores only the "pending" placeholder and joined
project paths. `Slides.SavesAgreeOnPresentPath` shows that on such paths
the two halves coincide.
