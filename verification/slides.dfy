/**
 * The `Slide` record (app/models/slide.rb) and the table that persists it:
 * slug defaulting before the first save, the presence and uniqueness
 * validations, and the store invariant those validations maintain.
 */
module Slides {
  import opened Wrappers
  import opened Text

  /** The four values the `status` column takes. */
  datatype Status = Pending | Building | Completed | Failed

  /** A persisted row; the schema makes name, slug and project_path NOT NULL. */
  datatype Slide = Slide(
    name: string,
    slug: string,
    description: Option<string>,
    projectPath: string,
    status: Status,
    errorMessage: Option<string>)

  /** The attributes of a record not yet saved: any of them may still be nil. */
  datatype Draft = Draft(
    name: Option<string>,
    slug: Option<string>,
    description: Option<string>,
    projectPath: Option<string>,
    status: Status,
    errorMessage: Option<string>)

  /** The `slides` table: rows by primary key (the `id` column) and the next key to hand out. */
  datatype Store = Store(records: map<nat, Slide>, nextId: nat)

  /** The placeholder path a record holds between its creation and its scaffolding. */
  const PENDING_PATH: string := "pending"

  /** The validation errors, one per failing rule. */
  datatype Invalid = NameBlank | NameTaken | SlugBlank | SlugTaken | PathBlank

  function ToDraft(r: Slide): Draft {
    Draft(Some(r.name), Some(r.slug), r.description, Some(r.projectPath), r.status, r.errorMessage)
  }

  /** The record with `status: 'building', error_message: nil`. */
  function StartBuilding(r: Slide): Slide {
    r.(status := Building, errorMessage := None)
  }

  // ---------------------------------------------------------------------
  // generate_slug (source lines 6 and 10-12)

  /**
   * `self.slug ||= name.parameterize if name.present?`; `parameterize` is
   * Rails' `String#parameterize`, left uninterpreted.
   */
  function GenerateSlug(d: Draft, parameterize: string -> string): (r: Draft)
    ensures r.(slug := d.slug) == d
    ensures d.slug.Some? ==> r.slug == d.slug
    ensures !Present(d.name) ==> r == d
    ensures r.slug.None? <==> d.slug.None? && !Present(d.name)
    ensures d.slug.None? && Present(d.name) ==> r.slug == Some(parameterize(d.name.value))
  {
    if d.slug.None? && Present(d.name) then d.(slug := Some(parameterize(d.name.value))) else d
  }

  /** Defaulting is idempotent: a second run finds the slug set and keeps it. */
  lemma GenerateSlugIdempotent(d: Draft, parameterize: string -> string)
    ensures GenerateSlug(GenerateSlug(d, parameterize), parameterize) == GenerateSlug(d, parameterize)
  {
  }

  /** A slug of any value, even an empty one, is never recomputed from the name. */
  lemma GenerateSlugKeepsSlug(d: Draft, parameterize: string -> string, name: string)
    requires d.slug.Some?
    ensures GenerateSlug(d.(name := Some(name)), parameterize).slug == d.slug
  {
  }

  // ---------------------------------------------------------------------
  // Validations (source lines 2-4)

  /** Some row other than `except` already has this name. */
  predicate NameInUse(s: Store, name: string, except: Option<nat>) {
    exists id | id in s.records :: Some(id) != except && s.records[id].name == name
  }

  /** Some row other than `except` already has this slug. */
  predicate SlugInUse(s: Store, slug: string, except: Option<nat>) {
    exists id | id in s.records :: Some(id) != except && s.records[id].slug == slug
  }

  /**
   * The rules `save` actually runs: presence and uniqueness of name and
   * slug. `except` is the row being updated, which the uniqueness checks
   * skip; a nil value is only reported as blank.
   */
  function Validate(s: Store, d: Draft, except: Option<nat>): (r: seq<Invalid>)
    ensures r == [] <==>
              && Present(d.name) && !NameInUse(s, d.name.value, except)
              && Present(d.slug) && !SlugInUse(s, d.slug.value, except)
    ensures forall k | 0 <= k < |r| :: r[k] != PathBlank
  {
    (if Present(d.name) then [] else [NameBlank])
    + (if d.name.Some? && NameInUse(s, d.name.value, except) then [NameTaken] else [])
    + (if Present(d.slug) then [] else [SlugBlank])
    + (if d.slug.Some? && SlugInUse(s, d.slug.value, except) then [SlugTaken] else [])
  }

  /** The rules with the project_path presence check the model declares as well. */
  function ValidateIntended(s: Store, d: Draft, except: Option<nat>): (r: seq<Invalid>)
    ensures r == [] <==> Validate(s, d, except) == [] && Present(d.projectPath)
    ensures PathBlank in r <==> !Present(d.projectPath)
  {
    Validate(s, d, except) + (if Present(d.projectPath) then [] else [PathBlank])
  }

  /** The as-written rules never look at project_path. */
  lemma ValidateIgnoresPath(s: Store, d: Draft, except: Option<nat>, path: Option<string>)
    ensures Validate(s, d.(projectPath := path), except) == Validate(s, d, except)
  {
  }

  /**
   * `validates :project_path, presence: true, on: :save` names a context
   * `save` never uses (it validates in `:create` or `:update`), so a record
   * with an empty path is accepted; the intended rules reject it.
   */
  lemma BlankPathAcceptedAsWritten()
    ensures var d := Draft(Some("deck"), Some("deck"), None, Some(""), Pending, None);
            && Validate(Store(map[], 0), d, None) == []
            && ValidateIntended(Store(map[], 0), d, None) == [PathBlank]
  {
    var d := Draft(Some("deck"), Some("deck"), None, Some(""), Pending, None);
    assert !IsWhiteSpace("deck"[0]);
    assert Present(d.name) && Present(d.slug);
  }

  // ---------------------------------------------------------------------
  // The store invariant

  /**
   * What a table written only through `save` holds: keys precede `nextId`,
   * no name or slug is blank, and no two rows share a name or a slug.
   */
  ghost predicate Valid(s: Store) {
    && (forall id | id in s.records :: id < s.nextId)
    && (forall id | id in s.records :: !Blank(s.records[id].name) && !Blank(s.records[id].slug))
    && (forall i, j | i in s.records && j in s.records && i != j ::
          s.records[i].name != s.records[j].name && s.records[i].slug != s.records[j].slug)
  }

  /**
   * No row holds a blank project_path. The executed rules do not keep this;
   * the intended rule at line 4 would, and so do the program's own writes,
   * which only ever store the placeholder or a joined project path.
   */
  ghost predicate PathsPresent(s: Store) {
    forall id | id in s.records :: !Blank(s.records[id].projectPath)
  }

  // ---------------------------------------------------------------------
  // save

  /**
   * What `save` of a new record comes to: inserted, rejected by validation,
   * or — validation passed with a nil project_path — refused by the
   * column's NOT NULL constraint, which makes the INSERT raise.
   */
  datatype Insert = Inserted(store: Store, id: nat) | Rejected(errors: seq<Invalid>) | NullPath

  /**
   * `save` of a new record: the create context runs `generate_slug` before
   * validating with the rules that actually run; a valid draft becomes the
   * row with the next id unless its path is nil.
   */
  function SaveNew(s: Store, d: Draft, parameterize: string -> string): (r: Insert)
    ensures var g := GenerateSlug(d, parameterize);
            && (r.Rejected? <==> Validate(s, g, None) != [])
            && (r.Rejected? ==> r.errors == Validate(s, g, None))
            && (r.NullPath? <==> Validate(s, g, None) == [] && d.projectPath.None?)
            && (r.Inserted? ==>
                  && r.id == s.nextId
                  && r.store.records.Keys == s.records.Keys + {r.id}
                  && ToDraft(r.store.records[r.id]) == g
                  && (forall id | id in s.records && id != r.id :: r.store.records[id] == s.records[id])
                  && r.store.nextId == s.nextId + 1)
  {
    var g := GenerateSlug(d, parameterize);
    var errors := Validate(s, g, None);
    if errors != [] then Rejected(errors)
    else if g.projectPath.None? then NullPath
    else
      var record := Slide(g.name.value, g.slug.value, g.description, g.projectPath.value, g.status, g.errorMessage);
      Inserted(Store(s.records[s.nextId := record], s.nextId + 1), s.nextId)
  }

  /** An accepted new record keeps names and slugs present and unique. */
  lemma SaveNewPreservesValid(s: Store, d: Draft, parameterize: string -> string)
    requires Valid(s)
    ensures SaveNew(s, d, parameterize).Inserted? ==> Valid(SaveNew(s, d, parameterize).store)
  {
    var r := SaveNew(s, d, parameterize);
    if r.Inserted? {
      var g := GenerateSlug(d, parameterize);
      var rec := r.store.records[r.id];
      assert rec.name == g.name.value && rec.slug == g.slug.value;
      assert r.store == s.(records := s.records[s.nextId := rec], nextId := s.nextId + 1);
      InsertKeepsValid(s, rec);
    }
  }

  /**
   * As the rules run, an inserted record keeps every stored path present
   * exactly when its own path is not blank: a blank path goes in unchecked.
   */
  lemma SaveNewKeepsPaths(s: Store, d: Draft, parameterize: string -> string)
    requires PathsPresent(s)
    ensures var r := SaveNew(s, d, parameterize);
            r.Inserted? ==> (PathsPresent(r.store) <==> Present(d.projectPath))
  {
    var r := SaveNew(s, d, parameterize);
    if r.Inserted? {
      assert r.store.records[r.id].projectPath == d.projectPath.value;
      if Present(d.projectPath) {
        forall id | id in r.store.records ensures !Blank(r.store.records[id].projectPath) {
          if id != r.id {
            assert r.store.records[id] == s.records[id];
          }
        }
      }
    }
  }

  /** Adding a row with present, unused keys under the next id keeps the table valid. */
  lemma InsertKeepsValid(s: Store, rec: Slide)
    requires Valid(s)
    requires !Blank(rec.name) && !Blank(rec.slug)
    requires !NameInUse(s, rec.name, None) && !SlugInUse(s, rec.slug, None)
    ensures Valid(Store(s.records[s.nextId := rec], s.nextId + 1))
  {
    var m := s.records[s.nextId := rec];
    assert s.nextId !in s.records;
    forall i, j | i in m && j in m && i != j
      ensures m[i].name != m[j].name && m[i].slug != m[j].slug
    {
      if i == s.nextId {
        assert m[j] == s.records[j];
      } else if j == s.nextId {
        assert m[i] == s.records[i];
      }
    }
  }

  /**
   * A new record whose slug is defaulted from its name and whose path is
   * empty is inserted by the executed rules and rejected by the intended ones.
   */
  lemma SaveNewBlankPathAsWritten()
    ensures var d := Draft(Some("deck"), None, None, Some(""), Pending, None);
            var same := (x: string) => x;
            && SaveNew(Store(map[], 0), d, same).Inserted?
            && SaveNewIntended(Store(map[], 0), d, same) == Rejected([PathBlank])
  {
    var d := Draft(Some("deck"), None, None, Some(""), Pending, None);
    var same := (x: string) => x;
    assert !IsWhiteSpace("deck"[0]);
    var g := GenerateSlug(d, same);
    assert g == d.(slug := Some("deck"));
    assert Validate(Store(map[], 0), g, None) == [];
  }

  datatype Update = Update(store: Store, saved: bool)

  /**
   * `save` of the loaded row `id`, as `update(...)` calls it: the update
   * context runs no `generate_slug`; a row the executed rules accept
   * replaces the stored one, any other leaves the table alone and `update`
   * returns false.
   */
  function SaveExisting(s: Store, id: nat, rec: Slide): (r: Update)
    requires id in s.records
    ensures r.saved <==> Validate(s, ToDraft(rec), Some(id)) == []
    ensures r.saved ==> r.store == s.(records := s.records[id := rec])
    ensures !r.saved ==> r.store == s
    ensures r.store.records.Keys == s.records.Keys && r.store.nextId == s.nextId
  {
    if Validate(s, ToDraft(rec), Some(id)) == [] then
      Update(s.(records := s.records[id := rec]), true)
    else
      Update(s, false)
  }

  /** Every update, saved or not, keeps the table valid. */
  lemma SaveExistingPreservesValid(s: Store, id: nat, rec: Slide)
    requires Valid(s) && id in s.records
    ensures Valid(SaveExisting(s, id, rec).store)
  {
    var r := SaveExisting(s, id, rec);
    if r.saved {
      assert !NameInUse(s, rec.name, Some(id)) && !SlugInUse(s, rec.slug, Some(id));
      assert !Blank(rec.name) && !Blank(rec.slug);
      ReplaceKeepsValid(s, id, rec);
    }
  }

  /**
   * As the rules run, an update keeps every stored path present exactly
   * when it is not saved or its own path is not blank.
   */
  lemma SaveExistingKeepsPaths(s: Store, id: nat, rec: Slide)
    requires PathsPresent(s) && id in s.records
    ensures var r := SaveExisting(s, id, rec);
            PathsPresent(r.store) <==> !r.saved || !Blank(rec.projectPath)
  {
    var r := SaveExisting(s, id, rec);
    if r.saved {
      assert r.store.records[id] == rec;
      if !Blank(rec.projectPath) {
        forall other | other in r.store.records ensures !Blank(r.store.records[other].projectPath) {
          if other != id {
            assert r.store.records[other] == s.records[other];
          }
        }
      }
    }
  }

  /** Replacing row `id` by a row with present, otherwise unused keys keeps the table valid. */
  lemma ReplaceKeepsValid(s: Store, id: nat, rec: Slide)
    requires Valid(s) && id in s.records
    requires !Blank(rec.name) && !Blank(rec.slug)
    requires !NameInUse(s, rec.name, Some(id)) && !SlugInUse(s, rec.slug, Some(id))
    ensures Valid(s.(records := s.records[id := rec]))
  {
    var m := s.records[id := rec];
    forall i, j | i in m && j in m && i != j
      ensures m[i].name != m[j].name && m[i].slug != m[j].slug
    {
      if i == id {
        assert m[j] == s.records[j];
      } else if j == id {
        assert m[i] == s.records[i];
      }
    }
  }

  /**
   * The updates the jobs and the controller make — status, project path,
   * error message — are always saved on a valid table: only name and slug
   * are validated, and they are the row's own.
   */
  lemma SaveKeepingNameAndSlug(s: Store, id: nat, rec: Slide)
    requires Valid(s) && id in s.records
    requires rec.name == s.records[id].name && rec.slug == s.records[id].slug
    ensures SaveExisting(s, id, rec).saved
  {
    assert !NameInUse(s, rec.name, Some(id));
    assert !SlugInUse(s, rec.slug, Some(id));
  }

  // ---------------------------------------------------------------------
  // save under the intended rules (line 4's rule running as well)

  /** `save` of a new record with the project_path presence rule in force. */
  function SaveNewIntended(s: Store, d: Draft, parameterize: string -> string): (r: Insert)
    ensures !r.NullPath?
    ensures r.Rejected? <==> ValidateIntended(s, GenerateSlug(d, parameterize), None) != []
    ensures r.Rejected? ==> r.errors == ValidateIntended(s, GenerateSlug(d, parameterize), None)
    ensures r.Inserted? ==> r == SaveNew(s, d, parameterize)
  {
    var errors := ValidateIntended(s, GenerateSlug(d, parameterize), None);
    if errors != [] then Rejected(errors) else SaveNew(s, d, parameterize)
  }

  /** `update` with the project_path presence rule in force. */
  function SaveExistingIntended(s: Store, id: nat, rec: Slide): (r: Update)
    requires id in s.records
    ensures r.saved <==> ValidateIntended(s, ToDraft(rec), Some(id)) == []
    ensures r.saved ==> r.store == s.(records := s.records[id := rec])
    ensures !r.saved ==> r.store == s
  {
    if Blank(rec.projectPath) then Update(s, false) else SaveExisting(s, id, rec)
  }

  /** Under the intended rules every accepted new record keeps names, slugs and paths present and unique. */
  lemma SaveNewIntendedPreservesValid(s: Store, d: Draft, parameterize: string -> string)
    requires Valid(s) && PathsPresent(s)
    ensures var r := SaveNewIntended(s, d, parameterize);
            r.Inserted? ==> Valid(r.store) && PathsPresent(r.store)
  {
    var r := SaveNewIntended(s, d, parameterize);
    if r.Inserted? {
      SaveNewPreservesValid(s, d, parameterize);
      SaveNewKeepsPaths(s, d, parameterize);
    }
  }

  /** Under the intended rules every update keeps names, slugs and paths present and unique. */
  lemma SaveExistingIntendedPreservesValid(s: Store, id: nat, rec: Slide)
    requires Valid(s) && PathsPresent(s) && id in s.records
    ensures var r := SaveExistingIntended(s, id, rec);
            Valid(r.store) && PathsPresent(r.store)
  {
    SaveExistingPreservesValid(s, id, rec);
    SaveExistingKeepsPaths(s, id, rec);
  }

  /**
   * The two rule sets only part on the path: for a record whose path is
   * present, the executed save and the intended save are the same.
   */
  lemma SavesAgreeOnPresentPath(s: Store, d: Draft, id: nat, rec: Slide, parameterize: string -> string)
    requires id in s.records
    ensures Present(d.projectPath) ==> SaveNewIntended(s, d, parameterize) == SaveNew(s, d, parameterize)
    ensures !Blank(rec.projectPath) ==> SaveExistingIntended(s, id, rec) == SaveExisting(s, id, rec)
  {
  }

  /** Row `id` holds a present name and slug that no other row holds. */
  predicate OwnsKeys(s: Store, id: nat) {
    && id in s.records
    && !Blank(s.records[id].name) && !Blank(s.records[id].slug)
    && !NameInUse(s, s.records[id].name, Some(id))
    && !SlugInUse(s, s.records[id].slug, Some(id))
  }

  lemma ValidOwnsKeys(s: Store, id: nat)
    requires Valid(s) && id in s.records
    ensures OwnsKeys(s, id)
  {
  }

  /**
   * All an update that keeps the row's name and slug needs is that the row
   * owns them: it is saved, and the row still owns them afterwards.
   */
  lemma SaveOwnKeys(s: Store, id: nat, rec: Slide)
    requires OwnsKeys(s, id)
    requires rec.name == s.records[id].name && rec.slug == s.records[id].slug
    ensures var u := SaveExisting(s, id, rec);
            u.saved && u.store.records[id] == rec && OwnsKeys(u.store, id)
  {
    var u := SaveExisting(s, id, rec);
    assert u.saved;
    assert u.store.records == s.records[id := rec];
    assert !NameInUse(u.store, rec.name, Some(id)) by {
      forall other | other in u.store.records && other != id
        ensures u.store.records[other].name != rec.name
      {
        assert u.store.records[other] == s.records[other];
      }
    }
    assert !SlugInUse(u.store, rec.slug, Some(id)) by {
      forall other | other in u.store.records && other != id
        ensures u.store.records[other].slug != rec.slug
      {
        assert u.store.records[other] == s.records[other];
      }
    }
  }
}
