/** PagesManager: creating, updating, copying and destroying pages, the
    route name each new page gets, the one-level translation link, and the
    route cache rebuild every change ends with.

    The collaborators whose code is not part of this model are reduced to
    what these methods pass them and get back: `Str::slug`, the page's
    `updateFromArray`, the version and field repositories and managers are
    parameters of the class; calls to the ones with effects outside the
    page table are recorded in order. */
module PageLifecycle {
  import opened Common
  import opened PageStore
  import opened RouteTable
  import opened RouteGeneration
  import opened RouteNaming

  /** The request input array; an absent key is None. */
  datatype PageInput = PageInput(
    title: Option<string>,
    routeName: Option<string>,
    languageId: Option<int>,
    templateId: Option<int>,
    published: bool,
    httpVerb: string,
    slug: string,
    middleware: string,
    siteId: int,
    copyReason: Option<string>,
    translatedFromPageId: Option<nat>,
    pageVersionId: Option<nat>,
    slices: seq<nat>,
    meta: seq<string>)

  /** A call on a collaborator, in the order made. */
  datatype Call =
    | CreateDefaultPageVersion(pageId: nat, templateId: int, published: bool)
    | CopyPageVersionToAnotherPage(version: Option<VersionRecord>, toPageId: nat)
    | SaveSliceInstanceFields(slices: seq<nat>)
    | SavePageMeta(pageId: nat, meta: seq<string>)
    | CacheRoutes
    | MarkNoContentRequested(fieldIds: seq<nat>)

  const PageModel: string := "Devise\\Models\\DvsPage"
  const VersionModel: string := "Devise\\Models\\DvsPageVersion"

  /** The name handed to the allocator: the explicit `route_name`, else the
      slug of the title, else the slug of a random string. */
  function SuggestedRouteName(input: PageInput, randomName: string, slugify: string -> string): string {
    if input.routeName.Some? then input.routeName.value
    else if input.title.Some? then slugify(input.title.value)
    else slugify(randomName)
  }

  /** The row `createFromArray` stores for the input and the allocated
      route name (the key is assigned on insert). */
  function NewRow(input: PageInput, routeName: string, languageId: int): PageRecord {
    PageRecord(0, if input.title.Some? then input.title.value else "", routeName, languageId,
      if input.translatedFromPageId.Some? then input.translatedFromPageId.value else 0,
      input.httpVerb, input.slug, input.middleware, input.siteId)
  }

  // ---------------------------------------------------------------------
  // Translation copies

  /** The page a translation of `from` hangs under: its own parent when it
      has one, otherwise itself. */
  function TranslationRoot(from: PageRecord): nat {
    if from.translatedFromPageId != 0 then from.translatedFromPageId else from.id
  }

  /** `setTranslatedFromRouteName`: the route name of the root page; a
      missing parent row throws, as `findOrFail` does. */
  function TranslatedRouteName(pages: seq<PageRecord>, from: PageRecord): Outcome<string> {
    if from.translatedFromPageId != 0 then
      match FindPage(pages, from.translatedFromPageId)
      case None => Raised(NotFoundMessage(PageModel, from.translatedFromPageId))
      case Some(orig) => Returned(orig.routeName)
    else Returned(from.routeName)
  }

  /** Translation links are one level deep: a page that is a translation
      points at a page that is not. */
  predicate OneLevel(pages: seq<PageRecord>) {
    forall p :: p in pages && p.translatedFromPageId != 0 ==>
      FindPage(pages, p.translatedFromPageId).Some? &&
      FindPage(pages, p.translatedFromPageId).value.translatedFromPageId == 0
  }

  /** Whether `copyPage` takes the translation branch. */
  predicate IsTranslation(input: PageInput, from: PageRecord) {
    input.copyReason == Some("translate") && input.languageId != Some(from.languageId)
  }

  /** The root of any page of a one-level table is a page that is not
      itself a translation, and the route name a translation copy takes is
      that root's. */
  lemma TranslationRootSpec(pages: seq<PageRecord>, from: PageRecord)
    requires OneLevel(pages)
    requires FindPage(pages, from.id) == Some(from)
    ensures FindPage(pages, TranslationRoot(from)).Some?
    ensures FindPage(pages, TranslationRoot(from)).value.translatedFromPageId == 0
    ensures TranslatedRouteName(pages, from) == Returned(FindPage(pages, TranslationRoot(from)).value.routeName)
  {
    if from.translatedFromPageId != 0 {
      assert from in pages;
    } else {
      assert FindPage(pages, TranslationRoot(from)) == Some(from);
    }
  }

  lemma {:induction false} FindPageAppend(pages: seq<PageRecord>, row: PageRecord, id: nat)
    ensures FindPage(pages, id).Some? ==> FindPage(pages + [row], id) == FindPage(pages, id)
    ensures FindPage(pages, id).None? && row.id == id ==> FindPage(pages + [row], id) == Some(row)
  {
    if pages == [] {
      assert pages + [row] == [row];
    } else {
      assert (pages + [row])[1..] == pages[1..] + [row];
      FindPageAppend(pages[1..], row, id);
    }
  }

  /** A translation copy keeps links one level deep: the new row points at
      the root of the page it was copied from. */
  lemma TranslationCopyKeepsOneLevel(pages: seq<PageRecord>, from: PageRecord, row: PageRecord)
    requires OneLevel(pages)
    requires FindPage(pages, from.id) == Some(from)
    requires FindPage(pages, row.id).None?
    requires row.translatedFromPageId == TranslationRoot(from)
    ensures OneLevel(pages + [row])
  {
    TranslationRootSpec(pages, from);
    var pages' := pages + [row];
    forall p | p in pages' && p.translatedFromPageId != 0
      ensures FindPage(pages', p.translatedFromPageId).Some? &&
        FindPage(pages', p.translatedFromPageId).value.translatedFromPageId == 0
    {
      FindPageAppend(pages, row, p.translatedFromPageId);
    }
  }

  // ---------------------------------------------------------------------
  // markContentRequestedFieldsComplete

  /** The loop over a page's versions: the field lists handed to
      `markNoContentRequested`, in order, and whether every call succeeded.
      The loop stops at the first failure. */
  function MarkAll(versionIds: seq<nat>, requestedFieldsOf: nat -> seq<nat>, mark: seq<nat> -> bool): (seq<seq<nat>>, bool)
  {
    if versionIds == [] then ([], true)
    else
      var ids := requestedFieldsOf(versionIds[0]);
      if !mark(ids) then ([ids], false)
      else
        var (rest, ok) := MarkAll(versionIds[1..], requestedFieldsOf, mark);
        ([ids] + rest, ok)
  }

  /** The loop reports success exactly when every version's fields were
      marked; it asks for the versions in order and, on a failure, stops
      right after the first version that failed. */
  lemma {:induction false} MarkAllSpec(versionIds: seq<nat>, requestedFieldsOf: nat -> seq<nat>, mark: seq<nat> -> bool)
    ensures var (asked, ok) := MarkAll(versionIds, requestedFieldsOf, mark);
      (ok <==> forall i :: 0 <= i < |versionIds| ==> mark(requestedFieldsOf(versionIds[i]))) &&
      |asked| <= |versionIds| &&
      (forall i :: 0 <= i < |asked| ==> asked[i] == requestedFieldsOf(versionIds[i])) &&
      (forall i :: 0 <= i < |asked| - 1 ==> mark(asked[i])) &&
      (ok ==> |asked| == |versionIds|) &&
      (!ok ==> |asked| >= 1 && !mark(asked[|asked| - 1]))
  {
    if versionIds != [] {
      MarkAllSpec(versionIds[1..], requestedFieldsOf, mark);
      var (rest, ok) := MarkAll(versionIds[1..], requestedFieldsOf, mark);
      if mark(requestedFieldsOf(versionIds[0])) {
        forall i | 0 <= i < |versionIds| && i > 0
          ensures versionIds[i] == versionIds[1..][i - 1]
        {
        }
      }
    }
  }

  function VersionIds(versions: seq<VersionRecord>): (ids: seq<nat>)
    ensures |ids| == |versions|
    ensures forall i :: 0 <= i < |versions| ==> ids[i] == versions[i].id
  {
    seq(|versions|, i requires 0 <= i < |versions| => versions[i].id)
  }

  /** `$fromPage->versions()->findOrFail($id)`. */
  function FindVersion(versions: seq<VersionRecord>, id: nat): (r: Option<VersionRecord>)
    ensures r.Some? ==> r.value in versions && r.value.id == id
    ensures r.None? ==> forall v :: v in versions ==> v.id != id
  {
    if versions == [] then None
    else if versions[0].id == id then Some(versions[0])
    else FindVersion(versions[1..], id)
  }

  /** `getLiveVersion()`: the page's first version marked live, if any. */
  function LiveVersion(versions: seq<VersionRecord>): (r: Option<VersionRecord>)
    ensures r.Some? ==> r.value in versions && r.value.live
    ensures r.None? ==> forall v :: v in versions ==> !v.live
  {
    if versions == [] then None
    else if versions[0].live then Some(versions[0])
    else LiveVersion(versions[1..])
  }

  /** `$this->message` after `cacheDeviseRoutes`: the exception's message
      when the rebuild threw, otherwise what it was before. */
  function RebuildMessage(prev: Option<string>, out: Outcome<bool>): (m: Option<string>)
    ensures out.Raised? ==> m == Some(out.message)
    ensures out.Returned? ==> m == prev
  {
    if out.Raised? then Some(out.message) else prev
  }

  /** The page manager with its collaborators and the fields it writes. */
  class PagesManager {
    const db: Database
    const generator: RoutesGenerator
    /** `devise.languages.primary_language_id`. */
    const primaryLanguageId: int
    /** `Str::slug`. */
    const slugify: string -> string
    /** `DvsPage::updateFromArray`: the page row after applying the input. */
    const updateFromArray: (PageRecord, PageInput) -> PageRecord
    /** `FieldsRepository::findContentRequestedFieldsList`. */
    const requestedFieldsOf: nat -> seq<nat>
    /** `FieldManager::markNoContentRequested`: whether the update succeeded. */
    const markNoContentRequested: seq<nat> -> bool

    /** `$this->message`: why the last route cache rebuild failed. */
    var message: Option<string>
    /** Calls made on collaborators, oldest first. */
    var calls: seq<Call>

    ghost predicate Valid()
      reads db
    {
      generator.db == db && db.Valid()
    }

    constructor (db: Database, generator: RoutesGenerator, primaryLanguageId: int, slugify: string -> string,
                 updateFromArray: (PageRecord, PageInput) -> PageRecord,
                 requestedFieldsOf: nat -> seq<nat>, markNoContentRequested: seq<nat> -> bool)
      requires generator.db == db && db.Valid()
      ensures Valid()
      ensures this.db == db && this.generator == generator && this.primaryLanguageId == primaryLanguageId
      ensures this.slugify == slugify && this.updateFromArray == updateFromArray
      ensures this.requestedFieldsOf == requestedFieldsOf && this.markNoContentRequested == markNoContentRequested
      ensures message == None && calls == []
    {
      this.db := db;
      this.generator := generator;
      this.primaryLanguageId := primaryLanguageId;
      this.slugify := slugify;
      this.updateFromArray := updateFromArray;
      this.requestedFieldsOf := requestedFieldsOf;
      this.markNoContentRequested := markNoContentRequested;
      message := None;
      calls := [];
    }

    /** What `cacheRoutes` does on the current page table. */
    function RebuildNow(): (CacheState, Outcome<bool>)
      reads db, generator
    {
      Rebuild(generator.State(), generator.enabled, generator.cachePath, RowsOf(db.pages), generator.render, generator.artisan)
    }

    /** `cacheDeviseRoutes()`: rebuilds the route cache and never lets its
        exception out; the message is kept in `message` instead. */
    method CacheDeviseRoutes()
      requires Valid()
      modifies generator`hostCached, generator`cacheFile, generator`log, this`message, this`calls
      ensures Valid()
      ensures generator.State() == old(RebuildNow()).0
      ensures message == RebuildMessage(old(message), old(RebuildNow()).1)
      ensures calls == old(calls) + [CacheRoutes]
    {
      calls := calls + [CacheRoutes];
      var result := generator.CacheRoutes();
      if result.Raised? {
        message := Some(result.message);
      }
    }

    /** `findAvailableRoute($suggestedRoute, $languageId)`. */
    method FindAvailableRoute(suggested: string, languageId: int) returns (r: Outcome<string>)
      ensures r == AvailableRoute(RouteNames(db.pages), suggested, languageId, primaryLanguageId, db.languages)
    {
      var sanity: nat := 0;
      var modified := suggested;
      if languageId != primaryLanguageId {
        if languageId !in db.languages {
          return Raised(NotFoundMessage("Devise\\Models\\DvsLanguage", languageId));
        }
        modified := db.languages[languageId] + "-" + suggested;
      }
      ghost var start := modified;
      var taken := RouteNames(db.pages);
      while modified in taken && sanity < MaxSuffixes
        invariant sanity <= MaxSuffixes
        invariant modified == Suffixed(start, sanity)
        invariant FreeIndex(taken, start, 0) == FreeIndex(taken, start, sanity)
        decreases MaxSuffixes - sanity
      {
        FreeIndexStep(taken, start, sanity);
        sanity := sanity + 1;
        modified := modified + "-" + NatToString(sanity);
      }
      return Returned(modified);
    }

    /** What `createPageFromInput` stores for the input on the current
        table: the row with the allocated route name and the next key, or
        the exception. */
    function CreatedRow(input: PageInput, randomName: string): (r: Outcome<PageRecord>)
      reads db
      ensures db.Valid() && r.Returned? ==> FindPage(db.pages, r.value.id).None?
    {
      if input.languageId.None? then Raised("Undefined index: language_id")
      else match AvailableRoute(RouteNames(db.pages), SuggestedRouteName(input, randomName, slugify),
                                input.languageId.value, primaryLanguageId, db.languages)
        case Raised(m) => Raised(m)
        case Returned(name) => Returned(NewRow(input, name, input.languageId.value).(id := db.nextPageId))
    }

    /** The row `createPageFromInput` stores: without a `language_id` the
        lookup throws; an unknown language throws; otherwise the row gets a
        name extending the starting candidate, free whenever one of the
        hundred and one candidates is, and the input's language and columns,
        under the next key. */
    lemma CreatedRowSpec(input: PageInput, randomName: string)
      ensures var r := CreatedRow(input, randomName);
        (input.languageId.None? ==> r == Raised("Undefined index: language_id")) &&
        (input.languageId.Some? ==>
           var start := StartCandidate(SuggestedRouteName(input, randomName, slugify), input.languageId.value,
                                       primaryLanguageId, db.languages);
           (start.Raised? ==> r == Raised(start.message)) &&
           (start.Returned? ==>
              r.Returned? && start.value <= r.value.routeName &&
              ((exists j :: 0 <= j <= MaxSuffixes && Suffixed(start.value, j) !in RouteNames(db.pages)) ==>
                 r.value.routeName !in RouteNames(db.pages)) &&
              r.value.id == db.nextPageId && r.value.languageId == input.languageId.value &&
              r.value.httpVerb == input.httpVerb && r.value.slug == input.slug &&
              r.value.middleware == input.middleware && r.value.siteId == input.siteId))
    {
      if input.languageId.Some? {
        var start := StartCandidate(SuggestedRouteName(input, randomName, slugify), input.languageId.value,
                                    primaryLanguageId, db.languages);
        if start.Returned? {
          AllocateSpec(RouteNames(db.pages), start.value);
        }
      }
    }

    /** `createPageFromInput($input)`: allocates the route name and stores
        the page. */
    method CreatePageFromInput(input: PageInput, randomName: string) returns (r: Outcome<PageRecord>)
      requires Valid()
      modifies db`pages, db`nextPageId
      ensures Valid()
      ensures input.languageId.None? ==> r == Raised("Undefined index: language_id") && db.pages == old(db.pages)
      ensures input.languageId.Some? ==>
        match AvailableRoute(old(RouteNames(db.pages)), SuggestedRouteName(input, randomName, slugify),
                             input.languageId.value, primaryLanguageId, db.languages)
        case Raised(m) => r == Raised(m) && db.pages == old(db.pages)
        case Returned(name) =>
          r == Returned(NewRow(input, name, input.languageId.value).(id := old(db.nextPageId))) &&
          db.pages == old(db.pages) + [r.value] && FindPage(old(db.pages), r.value.id).None?
      ensures r == old(CreatedRow(input, randomName))
    {
      var suggested := SuggestedRouteName(input, randomName, slugify);
      if input.languageId.None? {
        return Raised("Undefined index: language_id");
      }
      var name := FindAvailableRoute(suggested, input.languageId.value);
      if name.Raised? {
        return Raised(name.message);
      }
      var page := db.InsertPage(NewRow(input, name.value, input.languageId.value));
      return Returned(page);
    }

    /** `createNewPage($input)`: the page, then its default version, then
        the route cache. */
    method CreateNewPage(input: PageInput, randomName: string) returns (r: Outcome<PageRecord>)
      requires Valid()
      modifies db`pages, db`nextPageId, generator`hostCached, generator`cacheFile, generator`log, this`message, this`calls
      ensures Valid()
      ensures var created := old(CreatedRow(input, randomName));
        created.Raised? ==>
          r == created && db.pages == old(db.pages) &&
          calls == old(calls) && generator.State() == old(generator.State()) && message == old(message)
      ensures var created := old(CreatedRow(input, randomName));
        created.Returned? && input.templateId.None? ==>
          r == Raised("Undefined index: template_id") && db.pages == old(db.pages) + [created.value] &&
          calls == old(calls) && generator.State() == old(generator.State()) && message == old(message)
      ensures var created := old(CreatedRow(input, randomName));
        created.Returned? && input.templateId.Some? ==>
          var rebuilt := Rebuild(old(generator.State()), generator.enabled, generator.cachePath,
                                 RowsOf(db.pages), generator.render, generator.artisan);
          r == created && db.pages == old(db.pages) + [r.value] && FindPage(old(db.pages), r.value.id).None? &&
          calls == old(calls) + [CreateDefaultPageVersion(r.value.id, input.templateId.value, input.published), CacheRoutes] &&
          generator.State() == rebuilt.0 && message == RebuildMessage(old(message), rebuilt.1)
    {
      r := CreatePageFromInput(input, randomName);
      if r.Raised? {
        return;
      }
      if input.templateId.None? {
        return Raised("Undefined index: template_id");
      }
      calls := calls + [CreateDefaultPageVersion(r.value.id, input.templateId.value, input.published)];
      CacheDeviseRoutes();
    }

    /** `updatePage($id, $input)`: the row is updated, slice fields saved
        when slices are given, the meta saved, then the route cache. */
    method UpdatePage(id: nat, input: PageInput) returns (r: Outcome<PageRecord>)
      requires Valid()
      modifies db`pages, generator`hostCached, generator`cacheFile, generator`log, this`message, this`calls
      ensures Valid()
      ensures old(FindPage(db.pages, id)).None? ==>
        r == Raised(NotFoundMessage(PageModel, id)) && db.pages == old(db.pages) && calls == old(calls) &&
        generator.State() == old(generator.State()) && message == old(message)
      ensures old(FindPage(db.pages, id)).Some? ==>
        var updated := updateFromArray(old(FindPage(db.pages, id)).value, input).(id := id);
        var rebuilt := Rebuild(old(generator.State()), generator.enabled, generator.cachePath,
                               RowsOf(db.pages), generator.render, generator.artisan);
        r == Returned(updated) &&
        db.pages == ReplacePage(old(db.pages), updated) &&
        calls == old(calls) + (if input.slices != [] then [SaveSliceInstanceFields(input.slices)] else []) +
          [SavePageMeta(id, input.meta), CacheRoutes] &&
        generator.State() == rebuilt.0 && message == RebuildMessage(old(message), rebuilt.1)
    {
      var page := FindPage(db.pages, id);
      if page.None? {
        return Raised(NotFoundMessage(PageModel, id));
      }
      var updated := updateFromArray(page.value, input).(id := id);
      db.UpdatePage(updated);
      if input.slices != [] {
        calls := calls + [SaveSliceInstanceFields(input.slices)];
      }
      calls := calls + [SavePageMeta(id, input.meta)];
      CacheDeviseRoutes();
      return Returned(updated);
    }

    /** `destroyPage($id)`: versions are deleted, then the route cache is
        rebuilt, then the page row is deleted, so the rebuild still sees
        the page being destroyed. */
    method DestroyPage(id: nat) returns (r: Outcome<bool>)
      requires Valid()
      modifies db`pages, db`versions, generator`hostCached, generator`cacheFile, generator`log, this`message, this`calls
      ensures Valid()
      ensures old(FindPage(db.pages, id)).None? ==>
        r == Raised(NotFoundMessage(PageModel, id)) && db.pages == old(db.pages) && db.versions == old(db.versions) &&
        calls == old(calls) && generator.State() == old(generator.State()) && message == old(message)
      ensures old(FindPage(db.pages, id)).Some? ==>
        var rebuilt := Rebuild(old(generator.State()), generator.enabled, generator.cachePath,
                               RowsOf(old(db.pages)), generator.render, generator.artisan);
        r == Returned(true) &&
        db.versions == VersionsWithout(old(db.versions), id) &&
        db.pages == PagesWithout(old(db.pages), id) &&
        calls == old(calls) + [CacheRoutes] &&
        generator.State() == rebuilt.0 && message == RebuildMessage(old(message), rebuilt.1)
    {
      var page := FindPage(db.pages, id);
      if page.None? {
        return Raised(NotFoundMessage(PageModel, id));
      }
      db.DeleteVersionsOf(id);
      CacheDeviseRoutes();
      db.DeletePage(id);
      return Returned(true);
    }

    /** `setTranslatedFromPageId($fromPage, $input)`. */
    method SetTranslatedFromPageId(from: PageRecord, input: PageInput) returns (r: PageInput)
      ensures r == input.(translatedFromPageId := Some(TranslationRoot(from)))
    {
      if from.translatedFromPageId != 0 {
        r := input.(translatedFromPageId := Some(from.translatedFromPageId));
      } else {
        r := input.(translatedFromPageId := Some(from.id));
      }
    }

    /** `setTranslatedFromRouteName($fromPage, $input)`. */
    method SetTranslatedFromRouteName(from: PageRecord, input: PageInput) returns (r: Outcome<PageInput>)
      ensures r.Raised? <==> TranslatedRouteName(db.pages, from).Raised?
      ensures r.Raised? ==> r.message == TranslatedRouteName(db.pages, from).message
      ensures r.Returned? ==> r.value == input.(routeName := Some(TranslatedRouteName(db.pages, from).value))
    {
      if from.translatedFromPageId != 0 {
        var orig := FindPage(db.pages, from.translatedFromPageId);
        if orig.None? {
          return Raised(NotFoundMessage(PageModel, from.translatedFromPageId));
        }
        return Returned(input.(routeName := Some(orig.value.routeName)));
      }
      return Returned(input.(routeName := Some(from.routeName)));
    }

    /** The input `copyPage` hands to createPageFromInput. */
    function CopyInput(from: PageRecord, input: PageInput): Outcome<PageInput>
      reads db
    {
      if IsTranslation(input, from) then
        match TranslatedRouteName(db.pages, from)
        case Raised(m) => Raised(m)
        case Returned(name) => Returned(input.(translatedFromPageId := Some(TranslationRoot(from)), routeName := Some(name)))
      else Returned(input)
    }

    /** The version `copyPage` copies: the one asked for by
        `page_version_id`, renamed `Default`, or else the live one; a
        missing version throws, as `findOrFail` does. */
    function CopiedVersion(fromId: nat, input: PageInput): (r: Outcome<Option<VersionRecord>>)
      reads db
      ensures input.pageVersionId.Some? && r.Returned? ==>
        r.value.Some? && r.value.value.pageId == fromId && r.value.value.id == input.pageVersionId.value &&
        r.value.value.name == "Default"
      ensures input.pageVersionId.Some? && r.Raised? ==>
        forall v :: v in db.versions && v.pageId == fromId ==> v.id != input.pageVersionId.value
      ensures input.pageVersionId.None? ==> r == Returned(LiveVersion(VersionsOf(db.versions, fromId)))
    {
      if input.pageVersionId.Some? then
        match FindVersion(VersionsOf(db.versions, fromId), input.pageVersionId.value)
        case None => Raised(NotFoundMessage(VersionModel, input.pageVersionId.value))
        case Some(v) => Returned(Some(v.(name := "Default")))
      else Returned(LiveVersion(VersionsOf(db.versions, fromId)))
    }

    /** The choice of version at the start of `copyPage`. */
    method ChooseVersion(fromId: nat, input: PageInput) returns (r: Outcome<Option<VersionRecord>>)
      ensures r == CopiedVersion(fromId, input)
    {
      if input.pageVersionId.Some? {
        var version := FindVersion(VersionsOf(db.versions, fromId), input.pageVersionId.value);
        if version.None? {
          return Raised(NotFoundMessage(VersionModel, input.pageVersionId.value));
        }
        return Returned(Some(version.value.(name := "Default")));
      }
      return Returned(LiveVersion(VersionsOf(db.versions, fromId)));
    }

    /** `copyPage($fromPageId, $input)`: the version to copy is the one
        asked for (renamed `Default`) or the live one; a translation copy
        takes its parent link and route name from the root page; then the
        page is created, the version copied, and the route cache rebuilt. */
    method CopyPage(fromId: nat, input: PageInput, randomName: string) returns (r: Outcome<PageRecord>)
      requires Valid()
      modifies db`pages, db`nextPageId, generator`hostCached, generator`cacheFile, generator`log, this`message, this`calls
      ensures Valid()
      ensures old(FindPage(db.pages, fromId)).None? ==> r == Raised(NotFoundMessage(PageModel, fromId)) && db.pages == old(db.pages)
      ensures r.Raised? ==>
        db.pages == old(db.pages) && calls == old(calls) && generator.State() == old(generator.State()) &&
        message == old(message)
      ensures old(FindPage(db.pages, fromId)).Some? ==>
        var from := old(FindPage(db.pages, fromId)).value;
        var version := old(CopiedVersion(fromId, input));
        var copied := old(CopyInput(from, input));
        r == (if version.Raised? then Raised(version.message)
              else if copied.Raised? then Raised(copied.message)
              else old(CreatedRow(copied.value, randomName)))
      ensures r.Returned? ==>
        var from := old(FindPage(db.pages, fromId)).value;
        var rebuilt := Rebuild(old(generator.State()), generator.enabled, generator.cachePath,
                               RowsOf(db.pages), generator.render, generator.artisan);
        old(FindPage(db.pages, fromId)).Some? &&
        db.pages == old(db.pages) + [r.value] && FindPage(old(db.pages), r.value.id).None? &&
        calls == old(calls) + [CopyPageVersionToAnotherPage(old(CopiedVersion(fromId, input)).value, r.value.id), CacheRoutes] &&
        generator.State() == rebuilt.0 && message == RebuildMessage(old(message), rebuilt.1)
      ensures r.Returned? && IsTranslation(input, old(FindPage(db.pages, fromId)).value) ==>
        var from := old(FindPage(db.pages, fromId)).value;
        r.value.translatedFromPageId == TranslationRoot(from) &&
        (old(OneLevel(db.pages)) ==>
           OneLevel(db.pages) &&
           r.value.routeName == AvailableRoute(old(RouteNames(db.pages)),
             old(FindPage(db.pages, TranslationRoot(from))).value.routeName,
             input.languageId.value, primaryLanguageId, db.languages).value)
    {
      ghost var pages0 := db.pages;
      var fromPage := FindPage(db.pages, fromId);
      if fromPage.None? {
        return Raised(NotFoundMessage(PageModel, fromId));
      }
      var from := fromPage.value;
      var version := ChooseVersion(fromId, input);
      if version.Raised? {
        return Raised(version.message);
      }
      var prepared := PrepareCopyInput(from, input);
      if prepared.Raised? {
        return Raised(prepared.message);
      }
      var toInput := prepared.value;
      if IsTranslation(input, from) && OneLevel(pages0) {
        TranslationRootSpec(pages0, from);
        assert SuggestedRouteName(toInput, randomName, slugify) == FindPage(pages0, TranslationRoot(from)).value.routeName;
      }
      r := CreateCopy(toInput, version.value, randomName);
      if r.Returned? && IsTranslation(input, from) && OneLevel(pages0) {
        TranslationCopyKeepsOneLevel(pages0, from, r.value);
      }
    }

    /** The input of a copy: a translation takes its parent link and route
        name from the page it translates. */
    method PrepareCopyInput(from: PageRecord, input: PageInput) returns (r: Outcome<PageInput>)
      ensures r == CopyInput(from, input)
    {
      r := Returned(input);
      if IsTranslation(input, from) {
        var toInput := SetTranslatedFromPageId(from, input);
        r := SetTranslatedFromRouteName(from, toInput);
      }
    }

    /** The end of `copyPage`: the page is created from the prepared input,
        the chosen version copied onto it, and the route cache rebuilt. */
    method CreateCopy(toInput: PageInput, version: Option<VersionRecord>, randomName: string) returns (r: Outcome<PageRecord>)
      requires Valid()
      modifies db`pages, db`nextPageId, generator`hostCached, generator`cacheFile, generator`log, this`message, this`calls
      ensures Valid()
      ensures r == old(CreatedRow(toInput, randomName))
      ensures r.Raised? ==>
        db.pages == old(db.pages) && calls == old(calls) && generator.State() == old(generator.State()) &&
        message == old(message)
      ensures r.Returned? ==>
        var rebuilt := Rebuild(old(generator.State()), generator.enabled, generator.cachePath,
                               RowsOf(db.pages), generator.render, generator.artisan);
        db.pages == old(db.pages) + [r.value] && FindPage(old(db.pages), r.value.id).None? &&
        calls == old(calls) + [CopyPageVersionToAnotherPage(version, r.value.id), CacheRoutes] &&
        generator.State() == rebuilt.0 && message == RebuildMessage(old(message), rebuilt.1)
    {
      r := CreatePageFromInput(toInput, randomName);
      if r.Raised? {
        return;
      }
      calls := calls + [CopyPageVersionToAnotherPage(version, r.value.id)];
      CacheDeviseRoutes();
    }

    /** `markContentRequestedFieldsComplete($pageId)`: "true" when the
        fields of every version were marked, "false" at the first version
        whose update failed. */
    method MarkContentRequestedFieldsComplete(pageId: nat) returns (r: Outcome<string>)
      modifies this`calls
      ensures old(FindPage(db.pages, pageId)).None? ==> r == Raised(NotFoundMessage(PageModel, pageId)) && calls == old(calls)
      ensures old(FindPage(db.pages, pageId)).Some? ==>
        var spec := MarkAll(VersionIds(VersionsOf(db.versions, pageId)), requestedFieldsOf, markNoContentRequested);
        r == Returned(if spec.1 then "true" else "false") &&
        calls == old(calls) + MarkCalls(spec.0)
    {
      if FindPage(db.pages, pageId).None? {
        return Raised(NotFoundMessage(PageModel, pageId));
      }
      var ok := MarkVersions(VersionIds(VersionsOf(db.versions, pageId)));
      return Returned(if ok then "true" else "false");
    }

    /** The `foreach ($pageVersions …)` loop with its early return. */
    method MarkVersions(versionIds: seq<nat>) returns (ok: bool)
      modifies this`calls
      ensures var spec := MarkAll(versionIds, requestedFieldsOf, markNoContentRequested);
        ok == spec.1 && calls == old(calls) + MarkCalls(spec.0)
    {
      ghost var asked: seq<seq<nat>> := [];
      assert versionIds[0..] == versionIds;
      assert asked + MarkAll(versionIds, requestedFieldsOf, markNoContentRequested).0
        == MarkAll(versionIds, requestedFieldsOf, markNoContentRequested).0;
      for i := 0 to |versionIds|
        invariant MarkAll(versionIds, requestedFieldsOf, markNoContentRequested) ==
          (asked + MarkAll(versionIds[i..], requestedFieldsOf, markNoContentRequested).0,
           MarkAll(versionIds[i..], requestedFieldsOf, markNoContentRequested).1)
        invariant calls == old(calls) + MarkCalls(asked)
      {
        var fieldIds := requestedFieldsOf(versionIds[i]);
        MarkPrefix(versionIds, i, asked, requestedFieldsOf, markNoContentRequested);
        calls := calls + [MarkNoContentRequested(fieldIds)];
        MarkCallsAppend(asked, fieldIds);
        asked := asked + [fieldIds];
        if !markNoContentRequested(fieldIds) {
          return false;
        }
      }
      assert versionIds[|versionIds|..] == [];
      assert asked + [] == asked;
      return true;
    }
  }

  /** The loop's account after one more version: its field list is asked
      for, and the loop either goes on or stops with false. */
  lemma MarkPrefix(versionIds: seq<nat>, i: nat, asked: seq<seq<nat>>,
                   requestedFieldsOf: nat -> seq<nat>, mark: seq<nat> -> bool)
    requires i < |versionIds|
    requires MarkAll(versionIds, requestedFieldsOf, mark) ==
      (asked + MarkAll(versionIds[i..], requestedFieldsOf, mark).0, MarkAll(versionIds[i..], requestedFieldsOf, mark).1)
    ensures var ids := requestedFieldsOf(versionIds[i]);
      var next := MarkAll(versionIds[i + 1..], requestedFieldsOf, mark);
      if mark(ids) then MarkAll(versionIds, requestedFieldsOf, mark) == ((asked + [ids]) + next.0, next.1)
      else MarkAll(versionIds, requestedFieldsOf, mark) == (asked + [ids], false)
  {
    var ids := requestedFieldsOf(versionIds[i]);
    var here := MarkAll(versionIds[i..], requestedFieldsOf, mark);
    var next := MarkAll(versionIds[i + 1..], requestedFieldsOf, mark);
    MarkStep(versionIds, i, requestedFieldsOf, mark);
    if mark(ids) {
      assert here.0 == [ids] + next.0 && here.1 == next.1;
      assert asked + ([ids] + next.0) == (asked + [ids]) + next.0;
    } else {
      assert here.0 == [ids] && !here.1;
    }
  }

  /** One turn of the loop over versions. */
  lemma MarkStep(versionIds: seq<nat>, i: nat, requestedFieldsOf: nat -> seq<nat>, mark: seq<nat> -> bool)
    requires i < |versionIds|
    ensures var ids := requestedFieldsOf(versionIds[i]);
      var here := MarkAll(versionIds[i..], requestedFieldsOf, mark);
      var next := MarkAll(versionIds[i + 1..], requestedFieldsOf, mark);
      if mark(ids) then here == ([ids] + next.0, next.1) else here == ([ids], false)
  {
    assert versionIds[i..][1..] == versionIds[i + 1..];
  }

  function MarkCalls(asked: seq<seq<nat>>): (cs: seq<Call>)
    ensures |cs| == |asked|
    ensures forall i :: 0 <= i < |asked| ==> cs[i] == MarkNoContentRequested(asked[i])
  {
    seq(|asked|, i requires 0 <= i < |asked| => MarkNoContentRequested(asked[i]))
  }

  lemma MarkCallsAppend(asked: seq<seq<nat>>, ids: seq<nat>)
    ensures MarkCalls(asked + [ids]) == MarkCalls(asked) + [MarkNoContentRequested(ids)]
  {
  }
}
