/** The database tables the page and route code reads and writes
    (dvs_pages, dvs_page_versions, dvs_sites, dvs_languages), as the Eloquent
    calls of PagesManager and RoutesGenerator see them. */
module PageStore {
  import opened Common

  /** A row of dvs_pages. A NULL `translated_from_page_id` is 0. */
  datatype PageRecord = PageRecord(
    id: nat,
    title: string,
    routeName: string,
    languageId: int,
    translatedFromPageId: nat,
    httpVerb: string,
    slug: string,
    middleware: string,
    siteId: int)

  /** A row of dvs_page_versions. */
  datatype VersionRecord = VersionRecord(id: nat, pageId: nat, name: string, templateId: int, live: bool)

  /** `findOrFail($id)` on dvs_pages: the first row with that id. */
  function FindPage(pages: seq<PageRecord>, id: nat): (r: Option<PageRecord>)
    ensures r.Some? ==> r.value in pages && r.value.id == id
    ensures r.None? ==> forall p :: p in pages ==> p.id != id
  {
    if pages == [] then None
    else if pages[0].id == id then Some(pages[0])
    else FindPage(pages[1..], id)
  }

  /** The message of the exception `findOrFail` throws for a missing key. */
  function NotFoundMessage(model: string, id: int): string {
    "No query results for model [" + model + "] " + IntToString(id)
  }

  /** The route names `where('route_name', '=', …)->count() > 0` finds. */
  function RouteNames(pages: seq<PageRecord>): set<string> {
    set p | p in pages :: p.routeName
  }

  /** The rows left after `delete()` of the page with that id. */
  function PagesWithout(pages: seq<PageRecord>, id: nat): (r: seq<PageRecord>)
    ensures forall p :: p in r <==> p in pages && p.id != id
  {
    if pages == [] then []
    else (if pages[0].id == id then [] else [pages[0]]) + PagesWithout(pages[1..], id)
  }

  /** The rows after a row with the same id is saved with new columns. */
  function ReplacePage(pages: seq<PageRecord>, row: PageRecord): (r: seq<PageRecord>)
    ensures |r| == |pages|
    ensures forall i :: 0 <= i < |pages| ==> r[i] == if pages[i].id == row.id then row else pages[i]
  {
    seq(|pages|, i requires 0 <= i < |pages| => if pages[i].id == row.id then row else pages[i])
  }

  /** The versions of one page, in table order. */
  function VersionsOf(versions: seq<VersionRecord>, pageId: nat): (r: seq<VersionRecord>)
    ensures forall v :: v in r <==> v in versions && v.pageId == pageId
  {
    if versions == [] then []
    else (if versions[0].pageId == pageId then [versions[0]] else []) + VersionsOf(versions[1..], pageId)
  }

  /** The versions left after `$page->versions()->delete()`. */
  function VersionsWithout(versions: seq<VersionRecord>, pageId: nat): (r: seq<VersionRecord>)
    ensures forall v :: v in r <==> v in versions && v.pageId != pageId
  {
    if versions == [] then []
    else (if versions[0].pageId == pageId then [] else [versions[0]]) + VersionsWithout(versions[1..], pageId)
  }

  /** The database: tables that the page code changes are fields the
      methods reassign; the site and language tables are only read. */
  class Database {
    var pages: seq<PageRecord>
    var versions: seq<VersionRecord>
    var nextPageId: nat
    /** dvs_sites: site id to stored domain. */
    const sites: map<int, string>
    /** dvs_languages: language id to language code. */
    const languages: map<int, string>

    /** The auto-increment key of dvs_pages is above every key in use. */
    ghost predicate Valid()
      reads this
    {
      forall p :: p in pages ==> p.id < nextPageId
    }

    constructor (pages: seq<PageRecord>, versions: seq<VersionRecord>, sites: map<int, string>, languages: map<int, string>)
      ensures Valid()
      ensures this.pages == pages && this.versions == versions
      ensures this.sites == sites && this.languages == languages
    {
      this.pages := pages;
      this.versions := versions;
      this.sites := sites;
      this.languages := languages;
      var n: nat := 1;
      for i := 0 to |pages|
        invariant forall j :: 0 <= j < i ==> pages[j].id < n
      {
        if pages[i].id >= n {
          n := pages[i].id + 1;
        }
      }
      nextPageId := n;
    }

    /** `create(...)` on dvs_pages: the row gets the next key. */
    method InsertPage(row: PageRecord) returns (page: PageRecord)
      requires Valid()
      modifies this`pages, this`nextPageId
      ensures Valid()
      ensures page == row.(id := old(nextPageId))
      ensures pages == old(pages) + [page]
      ensures FindPage(old(pages), page.id).None?
    {
      page := row.(id := nextPageId);
      pages := pages + [page];
      nextPageId := nextPageId + 1;
    }

    /** `save()` of a changed page row. */
    method UpdatePage(row: PageRecord)
      requires Valid() && FindPage(pages, row.id).Some?
      modifies this`pages
      ensures Valid()
      ensures pages == ReplacePage(old(pages), row)
    {
      pages := ReplacePage(pages, row);
    }

    /** `delete()` of a page row. */
    method DeletePage(id: nat)
      modifies this`pages
      ensures pages == PagesWithout(old(pages), id)
    {
      pages := PagesWithout(pages, id);
    }

    /** `$page->versions()->delete()`. */
    method DeleteVersionsOf(pageId: nat)
      modifies this`versions
      ensures versions == VersionsWithout(old(versions), pageId)
    {
      versions := VersionsWithout(versions, pageId);
    }
  }
}
