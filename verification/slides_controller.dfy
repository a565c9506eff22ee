/**
 * The actions of `SlidesController` (app/controllers/slides_controller.rb)
 * that change the table or enqueue work: `create`'s validation chain, the
 * `building` guard of `build`, `edit` and `update`, and `destroy`'s order
 * of deleting files before the row.
 *
 * An action gets the table and its inputs and answers with what the user
 * is shown, the table afterwards and the jobs it enqueued. `set_slide`'s
 * `Slide.find` raising is the `NotFound` reply; what the filesystem and
 * the project files report are inputs.
 */
module SlidesController {
  import opened Wrappers
  import opened Text
  import opened Slides
  import opened ProjectService

  /** A job handed to the queue by `perform_later`. */
  datatype Job = CreateProjectJob(id: nat) | BuildProjectJob(id: nat)

  /** `slide_params`: the permitted `name` and `description`, either of which may be absent. */
  datatype SlideParams = SlideParams(name: Option<string>, description: Option<string>)

  /** What `create` renders: one of its three early errors, a failed save, or the redirect after saving. */
  datatype CreateReply =
    | NameMissing
    | SlugUnusable
    | SlugAlreadyUsed(slug: string)
    | NotSaved(errors: seq<Invalid>)
    | Created(id: nat)

  /** What an action on an existing record renders. */
  datatype Reply =
    | NotFound
    | Busy
    | Enqueued
    | Editing(content: string)
    | LoadFailed(error: string)
    | Updated
    | WriteFailed(error: string, content: string)
    | Deleted
    | DeleteFailed(error: string)

  /** The reply, the table after the action and the jobs it enqueued, in order. */
  datatype Response<+R> = Response(reply: R, store: Store, enqueued: seq<Job>)

  /** `update`'s response, with the contents handed to `write_slides_md`, in order. */
  datatype WriteResponse = WriteResponse(reply: Reply, store: Store, enqueued: seq<Job>, written: seq<string>)

  /** The error messages `create` adds to the name (source lines 36, 46 and 53). */
  const NAME_REQUIRED: string := "を入力してください"
  const SLUG_UNUSABLE: string := "から有効なスラッグを生成できませんでした"
  const SLUG_USED_OPEN: string := "から生成されたスラッグ「"
  const SLUG_USED_CLOSE: string := "」は既に使用されています"

  // ---------------------------------------------------------------------
  // create (source lines 29-75)

  /** The draft `create` saves: the parameterized slug, the placeholder path and `pending`. */
  function NewDraft(params: SlideParams, slug: string): Draft {
    Draft(params.name, Some(slug), params.description, Some(PENDING_PATH), Pending, None)
  }

  /**
   * `create`: the name must be present, its parameterized slug non-blank
   * and not used by any row; then the record is saved at "pending" and a
   * create job is enqueued for it.
   */
  function Create(s: Store, params: SlideParams, parameterize: string -> string): (r: Response<CreateReply>)
    // each check runs only when the ones before it passed
    ensures r.reply == NameMissing <==> !Present(params.name)
    ensures r.reply == SlugUnusable <==> Present(params.name) && Blank(parameterize(params.name.value))
    ensures r.reply.SlugAlreadyUsed? <==>
              Present(params.name) && !Blank(parameterize(params.name.value))
              && SlugInUse(s, parameterize(params.name.value), None)
    ensures r.reply.SlugAlreadyUsed? ==> r.reply.slug == parameterize(params.name.value)
    // a record is created exactly when name and slug are present and neither is taken
    ensures r.reply.Created? <==>
              && Present(params.name)
              && !Blank(parameterize(params.name.value)) && !SlugInUse(s, parameterize(params.name.value), None)
              && !NameInUse(s, params.name.value, None)
    // no reply but `Created` touches the table or the queue
    ensures !r.reply.Created? ==> r.store == s && r.enqueued == []
    ensures r.reply.Created? ==>
              && r.reply.id == s.nextId
              && r.store.records.Keys == s.records.Keys + {r.reply.id}
              && r.store.records[r.reply.id]
                   == Slide(params.name.value, parameterize(params.name.value), params.description, PENDING_PATH, Pending, None)
              && (forall id | id in s.records && id != r.reply.id :: r.store.records[id] == s.records[id])
              && r.store.nextId == s.nextId + 1
              && r.enqueued == [CreateProjectJob(r.reply.id)]
  {
    if !Present(params.name) then Response(NameMissing, s, [])
    else
      var slug := parameterize(params.name.value);
      if Blank(slug) then Response(SlugUnusable, s, [])
      else if SlugInUse(s, slug, None) then Response(SlugAlreadyUsed(slug), s, [])
      else
        assert Present(Some(PENDING_PATH)) by { assert !IsWhiteSpace(PENDING_PATH[0]); }
        match SaveNew(s, NewDraft(params, slug), parameterize)
        case Rejected(errors) => Response(NotSaved(errors), s, [])
        case Inserted(store, id) => Response(Created(id), store, [CreateProjectJob(id)])
  }

  /** The message `create` shows for each of its early errors. */
  function CreateMessage(reply: CreateReply): (m: Option<string>)
    ensures m.Some? <==> reply.NameMissing? || reply.SlugUnusable? || reply.SlugAlreadyUsed?
    ensures reply.SlugAlreadyUsed? ==> Contains(m.value, reply.slug)
  {
    match reply
    case NameMissing => Some(NAME_REQUIRED)
    case SlugUnusable => Some(SLUG_UNUSABLE)
    case SlugAlreadyUsed(slug) =>
      ContainsMiddle(SLUG_USED_OPEN, slug, SLUG_USED_CLOSE);
      Some(SLUG_USED_OPEN + slug + SLUG_USED_CLOSE)
    case _ => None
  }

  /**
   * Once `create`'s own checks pass, `save` can only object to the name:
   * the slug was checked against every row and the path is the placeholder.
   */
  lemma CreateNotSavedMeansNameTaken(s: Store, params: SlideParams, parameterize: string -> string)
    ensures var r := Create(s, params, parameterize);
            r.reply.NotSaved? ==> r.reply.errors == [NameTaken]
  {
    var r := Create(s, params, parameterize);
    if r.reply.NotSaved? {
      var slug := parameterize(params.name.value);
      assert Present(Some(PENDING_PATH)) by { assert !IsWhiteSpace(PENDING_PATH[0]); }
      assert GenerateSlug(NewDraft(params, slug), parameterize) == NewDraft(params, slug);
    }
  }

  /**
   * A record `create` saves keeps the table valid, and since it holds the
   * placeholder path it keeps every stored path present as well.
   */
  lemma CreatePreservesValid(s: Store, params: SlideParams, parameterize: string -> string)
    requires Valid(s)
    ensures Valid(Create(s, params, parameterize).store)
    ensures PathsPresent(s) ==> PathsPresent(Create(s, params, parameterize).store)
  {
    var r := Create(s, params, parameterize);
    if r.reply.Created? {
      var d := NewDraft(params, parameterize(params.name.value));
      assert Present(d.projectPath) by { assert !IsWhiteSpace(PENDING_PATH[0]); }
      SaveNewPreservesValid(s, d, parameterize);
      if PathsPresent(s) {
        SaveNewKeepsPaths(s, d, parameterize);
      }
    }
  }

  // ---------------------------------------------------------------------
  // build (source lines 77-94)

  /** `@slide.building?`: the record's status is `building`. */
  predicate IsBuilding(s: Store, id: nat) {
    id in s.records && s.records[id].status == Building
  }

  /**
   * `build`: a record being built is refused; otherwise it is saved as
   * `building` with no error and a build job is enqueued, whether or not
   * the save went through.
   */
  function Build(s: Store, id: nat): (r: Response<Reply>)
    ensures r.reply == NotFound <==> id !in s.records
    ensures r.reply == Busy <==> IsBuilding(s, id)
    ensures r.reply == NotFound || r.reply == Busy || r.reply == Enqueued
    ensures r.reply != Enqueued ==> r.store == s && r.enqueued == []
    ensures r.reply == Enqueued ==>
              && r.enqueued == [BuildProjectJob(id)]
              && r.store == SaveExisting(s, id, StartBuilding(s.records[id])).store
  {
    if id !in s.records then Response(NotFound, s, [])
    else if s.records[id].status == Building then Response(Busy, s, [])
    else
      var u := SaveExisting(s, id, StartBuilding(s.records[id]));
      Response(Enqueued, u.store, [BuildProjectJob(id)])
  }

  /**
   * On a valid table the save in `build` always goes through: the row is
   * `building` with no error and nothing else changes.
   */
  lemma BuildMarksBuilding(s: Store, id: nat)
    requires Valid(s) && id in s.records && !IsBuilding(s, id)
    ensures var r := Build(s, id);
            && Valid(r.store)
            && r.store.records == s.records[id := StartBuilding(s.records[id])]
            && r.store.records[id].status == Building && r.store.records[id].errorMessage.None?
  {
    SaveKeepingNameAndSlug(s, id, StartBuilding(s.records[id]));
    SaveExistingPreservesValid(s, id, StartBuilding(s.records[id]));
  }

  /** A second `build` before the job finishes is refused: one build job per record at a time. */
  lemma BuildTwiceRejected(s: Store, id: nat)
    requires Valid(s) && id in s.records && !IsBuilding(s, id)
    ensures var r := Build(s, id);
            var again := Build(r.store, id);
            again.reply == Busy && again.store == r.store && again.enqueued == []
  {
    BuildMarksBuilding(s, id);
  }

  // ---------------------------------------------------------------------
  // edit (source lines 107-120) and update (source lines 122-139)

  /**
   * `edit`: a record being built is refused; otherwise the slides file is
   * read (`read` is what `read_slides_md` returns or raises).
   */
  function Edit(s: Store, id: nat, read: Result<string, string>): (r: Response<Reply>)
    ensures r.store == s && r.enqueued == []
    ensures r.reply == NotFound <==> id !in s.records
    ensures r.reply == Busy <==> IsBuilding(s, id)
    ensures r.reply.Editing? <==> id in s.records && !IsBuilding(s, id) && read.Success?
    ensures r.reply.Editing? ==> r.reply.content == read.value
    ensures r.reply.LoadFailed? <==> id in s.records && !IsBuilding(s, id) && read.Failure?
    ensures r.reply.LoadFailed? ==> r.reply.error == read.error
  {
    if id !in s.records then Response(NotFound, s, [])
    else if s.records[id].status == Building then Response(Busy, s, [])
    else
      match read
      case Success(content) => Response(Editing(content), s, [])
      case Failure(e) => Response(LoadFailed(e), s, [])
  }

  /**
   * `update`: a record being built is refused before anything is written;
   * otherwise the submitted content is written (`write` is whether
   * `write_slides_md` raised). On an error the form is shown again holding
   * the submitted content.
   */
  function UpdateContent(s: Store, id: nat, content: string, write: Outcome<string>): (r: WriteResponse)
    ensures r.store == s && r.enqueued == []
    ensures r.reply == NotFound <==> id !in s.records
    ensures r.reply == Busy <==> IsBuilding(s, id)
    // the write is attempted exactly when the record exists and is not being built
    ensures r.written == (if id in s.records && !IsBuilding(s, id) then [content] else [])
    ensures r.reply == Updated <==> id in s.records && !IsBuilding(s, id) && write.Pass?
    ensures r.reply.WriteFailed? <==> id in s.records && !IsBuilding(s, id) && write.Fail?
    ensures r.reply.WriteFailed? ==> r.reply.error == write.error && r.reply.content == content
  {
    if id !in s.records then WriteResponse(NotFound, s, [], [])
    else if s.records[id].status == Building then WriteResponse(Busy, s, [], [])
    else
      match write
      case Pass => WriteResponse(Updated, s, [], [content])
      case Fail(e) => WriteResponse(WriteFailed(e, content), s, [], [content])
  }

  /** A refused `update` writes nothing; one that is not refused writes exactly the submitted content. */
  lemma UpdateWritesUnlessRefused(s: Store, id: nat, content: string, write: Outcome<string>)
    ensures var r := UpdateContent(s, id, content, write);
            (r.written == []) <==> (r.reply == NotFound || r.reply == Busy)
  {
  }

  /** `build`, `edit` and `update` refuse exactly the same records. */
  lemma GuardsAgree(s: Store, id: nat, read: Result<string, string>, content: string, write: Outcome<string>)
    ensures Build(s, id).reply == Busy <==> Edit(s, id, read).reply == Busy
    ensures Edit(s, id, read).reply == Busy <==> UpdateContent(s, id, content, write).reply == Busy
  {
  }

  // ---------------------------------------------------------------------
  // destroy (source lines 96-105)

  /**
   * `destroy`: the project directory and the built output are removed
   * first (`project` and `output` say whether each exists and whether its
   * removal raised); the row is deleted only when `delete_project` did not
   * raise.
   */
  function Destroy(s: Store, id: nat, config: Config, project: PathState, output: PathState): (r: Response<Reply>)
    ensures r.enqueued == []
    ensures r.reply == NotFound <==> id !in s.records
    ensures r.reply == NotFound || r.reply == Deleted || r.reply.DeleteFailed?
    ensures r.reply == Deleted <==> id in s.records && !RemovalFails(project) && !RemovalFails(output)
    ensures r.reply.DeleteFailed? ==>
              && r.store == s
              && (RemovalFails(project) ==> StartsWith(r.reply.error, PROJECT_DELETE_ERROR + project.removal.error))
              && (!RemovalFails(project) ==> r.reply.error == OUTPUT_DELETE_ERROR + output.removal.error)
    ensures r.reply == Deleted ==>
              && r.store.records == s.records - {id}
              && r.store.nextId == s.nextId
    ensures r.reply == NotFound ==> r.store == s
  {
    if id !in s.records then Response(NotFound, s, [])
    else
      match DeleteProject(config, s.records[id], project, output).outcome
      case Fail(e) => Response(DeleteFailed(e), s, [])
      case Pass => Response(Deleted, s.(records := s.records - {id}), [])
  }

  /** Deleting a row keeps the table valid. */
  lemma DestroyPreservesValid(s: Store, id: nat, config: Config, project: PathState, output: PathState)
    requires Valid(s)
    ensures Valid(Destroy(s, id, config, project, output).store)
  {
  }

  /**
   * Files go before the row: when only the output's removal raises, the
   * project directory is already gone while the row still points at it.
   */
  lemma DestroyCanOrphanRow(s: Store, id: nat, config: Config, error: string)
    requires id in s.records
    ensures var r := Destroy(s, id, config, Exists(Pass), Exists(Fail(error)));
            && r.reply == DeleteFailed(OUTPUT_DELETE_ERROR + error)
            && r.store == s
            && DeleteProject(config, s.records[id], Exists(Pass), Exists(Fail(error))).removed[0]
                 == s.records[id].projectPath
  {
  }
}
