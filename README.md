# Devise page routing and media URLs, modelled in Dafny

This project models three pieces of the Devise CMS for Laravel and proves
properties about them.

- **RoutesGenerator** (`src/Pages/RoutesGenerator.php`) turns the rows of
  `dvs_pages` into router registrations. It covers:
  - slug normalisation by the regex `/([^[\}]+)(?:$|\{)/`;
  - the fixed `PagesController@show` handler;
  - `explode('|', middleware)`;
  - `groupBy('site_id')`;
  - per-site domains with the `SITE_<id>_DOMAIN` override;
  - the route-cache state machine of `cacheRoutes`, and the guard that
    refuses host-cached routes when Devise routes are disabled.
- **PagesManager** (`Devise/Pages/PagesManager.php`) creates, updates, copies
  and destroys pages. It covers:
  - the route-name allocator `findAvailableRoute`;
  - the one-level translation link set up by `copyPage`;
  - the loop of `markContentRequestedFieldsComplete`;
  - `cacheDeviseRoutes`, which swallows the exception of a cache rebuild.
- **MediaController** (`Devise/Http/Controllers/MediaController.php`) builds
  signed image URLs. It covers:
  - `onlyNewSizes`;
  - `getNewMediaSignedURls`;
  - `generateSignedUrls`;
  - the field update of `reGenerateAllSignedUrls`;
  - the `str_replace` path strippers of `remove`, `details` and `preview`.

## Modules

| file | module | what it holds |
|---|---|---|
| `common.dfy` | `Common` | `Option`, an `Outcome` that either returns or throws, PHP truthiness, ASCII `strtolower`, decimal rendering |
| `slug.dfy` | `SlugNormalisation` | the regex run as the engine runs it (greedy run, backtracking, resume), and a character-wise description it is proved equal to |
| `page_store.dfy` | `PageStore` | page and version rows; a `Database` class whose page and version tables are fields the methods reassign |
| `route_table.dfy` | `RouteTable` | page rows to routes, `explode`/`implode`, Laravel's `groupBy`, domain resolution, the registration loop as a function |
| `routes_generator.dfy` | `RouteGeneration` | `Rebuild` and `Load` (what `cacheRoutes` and `loadRoutes` do), and the `RoutesGenerator` class whose methods are proved equal to them |
| `route_names.dfy` | `RouteNaming` | the accumulating `-1`, `-2`, … candidates and the hundred-step budget |
| `pages_manager.dfy` | `PageLifecycle` | the `PagesManager` class: page lifecycle, the translation link, the call log of collaborators |
| `php_arrays.dfy` | `PhpArrays` | ordered PHP arrays with string keys: lookup, `isset`, assignment, `unset`, `array_merge`, `(array)`, loose `==` |
| `media_urls.dfy` | `MediaUrls` | new sizes, signed-URL maps, the regeneration of field values |
| `media_paths.dfy` | `MediaPaths` | `str_replace` with an empty replacement, and the three path rewrites |

Collaborators outside these files are parameters of the model:
- the database is a `Database` object;
- config and `env()` values are constants;
- the cache view renderer, Artisan and the Glide URL signer are functions
  passed in;
- `Str::slug`, `updateFromArray` and the field repository are functions
  passed in;
- the storage disk's `get` is a function passed in.

Calls with effects outside the page table are appended to a log: version
creation and copy, slice fields, page meta, route caching, and field
marking. Every exception is an `Outcome.Raised` carrying its message.

### Where the code and its documented behaviour differ (the model follows the code)

- **Suffixes accumulate.** When `about` and `about-1` are taken, the allocator
  yields `about-1-2`, not `about-2` (`RouteNaming.AccumulatingExample`).
- **The allocator never fails.** When all 101 candidates are taken, it
  returns the last one, which is taken, without an error
  (`RouteNaming.AllocateExhausted`).
- **A missing domain stops all installation.** An unresolvable domain for a
  site > 0 throws from inside the loop of `loadRoutes`. Groups after it are
  not installed; groups before it stay registered
  (`RouteTable.InstallGroupsSpec`).
- **Slug lower-casing depends on the run, not on braces.** A character is
  lower-cased only when its `[`/`}`-free run reaches the end of the slug, or
  when a `{` follows it within that run. So a path segment directly followed
  by `[` or `}` keeps its case (`SlugNormalisation.KeptBeforeStop`).
- **A nested `{` reaches back.** With a `{` nested inside a placeholder, the
  name before it is lower-cased: `x{A{B}` becomes `x{a{B}`
  (`SlugNormalisation.NestedBraceExample`). The documented behaviour, that
  text between `{` and `}` is never touched, is proved when no second `{`
  opens in between (`SlugNormalisation.PlaceholderKept`).

## Model

| member | source | states |
|---|---|---|
| SlugNormalisation.NormaliseSlugSpec | src/Pages/RoutesGenerator.php:166-171 | the regex rewrite keeps the slug's length and each character is either kept or ASCII-lower-cased, exactly as the character-wise rule `Lowered` (run reaches the end or a `{` follows inside the run) decides |
| SlugNormalisation.NormaliseSlugIdempotent | src/Pages/RoutesGenerator.php:166-171 | normalising an already normalised slug changes nothing |
| SlugNormalisation.PlaceholderKept | src/Pages/RoutesGenerator.php:166-171 | every character strictly between a `{` and the next `}` is kept when no other `{` opens in between |
| SlugNormalisation.TrailingRunLowered | src/Pages/RoutesGenerator.php:166-171 | a final run with no `[` or `}` is lower-cased entirely |
| SlugNormalisation.LoweredBeforeBrace | src/Pages/RoutesGenerator.php:167 | a character followed by a `{` inside its run is lower-cased |
| SlugNormalisation.KeptBeforeStop | src/Pages/RoutesGenerator.php:167 | a character with no `{` before the next `[` or `}` is kept |
| SlugNormalisation.DelimiterKept | src/Pages/RoutesGenerator.php:167-171 | `{`, `}` and `[` are never changed |
| SlugNormalisation.BlogExample | src/Pages/RoutesGenerator.php:166-171 | `/Blog/{Category}/Post` becomes `/blog/{Category}/post` |
| SlugNormalisation.NestedBraceExample | src/Pages/RoutesGenerator.php:167-171 | `x{A{B}` becomes `x{a{B}` |
| RouteTable.RowsOf | src/Pages/RoutesGenerator.php:162 | one selected row per page, in table order, with the five selected columns |
| RouteTable.MaterialiseAllSpec | src/Pages/RoutesGenerator.php:164-174 | each row becomes one route with the same verb, name, middleware and site, a normalised slug of the same length, and the `PagesController@show` handler |
| RouteTable.Split | src/Pages/RoutesGenerator.php:61 | `explode` yields at least one piece and no piece contains the delimiter |
| RouteTable.JoinSplit | src/Pages/RoutesGenerator.php:61 | joining the pieces of `explode` with the delimiter gives back the string |
| RouteTable.SplitJoin | src/Pages/RoutesGenerator.php:61 | exploding the join of delimiter-free pieces gives back the pieces |
| RouteTable.MiddlewareOption | src/Pages/RoutesGenerator.php:59-62 | the middleware option is absent exactly when the column is falsy; otherwise it is the non-empty list of `|`-separated names whose join is the column |
| RouteTable.MiddlewareExamples | src/Pages/RoutesGenerator.php:59-62 | `auth|throttle` gives `[auth, throttle]`; the empty column gives no option |
| RouteTable.AddToGroupsSpec | src/Pages/RoutesGenerator.php:43 | adding a route to the buckets appends it to its site's bucket, or opens a new bucket at the end; sites stay distinct and no route is lost or duplicated |
| RouteTable.GroupBySiteSpec | src/Pages/RoutesGenerator.php:43 | `groupBy('site_id')` gives one non-empty bucket per distinct site; each bucket holds exactly that site's routes in source order; together the buckets are a permutation of the routes |
| RouteTable.GroupingStableExample | src/Pages/RoutesGenerator.php:43 | routes of sites 1, 0, 1 give the buckets [site 1: first and third], [site 0: second] |
| RouteTable.SiteDomainExample | src/Pages/RoutesGenerator.php:50-51 | a truthy `SITE_3_DOMAIN` wins over the stored domain; an empty or absent one falls back to it; an unknown site without an override has no domain |
| RouteTable.InstallGroupsSpec | src/Pages/RoutesGenerator.php:46-84 | the loop over buckets either registers every route with its own site's domain (none for site 0), or stops at the first site > 0 without a domain, having registered exactly the buckets before it |
| RouteTable.GroupsResolvable | src/Pages/RoutesGenerator.php:46-51 | every bucket resolves its domain exactly when every page row's site does |
| RouteTable.RegisterEachHandler | src/Pages/RoutesGenerator.php:54-65 | registrations of a permutation of the materialised routes are one per row and all use the fixed handler |
| RouteTable.InstallRowsSpec | src/Pages/RoutesGenerator.php:41-84 | for the page rows: no exception exactly when every site resolves, and then one registration per row, all with the fixed handler, buckets in first-appearance order |
| RouteGeneration.RebuildSpec | src/Pages/RoutesGenerator.php:92-117 | disabled: `route:clear` first, nothing written, the Devise file deleted only if it existed; on return, false and no cache of either kind is left. Enabled: nothing deleted; a failed render changes nothing; otherwise the rendered table is written before `route:cache`; on return, true with the host cache on. A returning call leaves the guard satisfied |
| RouteGeneration.LoadSpec | src/Pages/RoutesGenerator.php:26-85 | in the console nothing happens; otherwise the guard throws exactly when host routes are cached and Devise routes disabled; with the host cache in use nothing is registered, and with Devise routes also enabled the call returns with no exception; otherwise every row is registered once with the fixed handler unless a site's domain is missing |
| RouteGeneration.RebuildThenLoad | src/Pages/RoutesGenerator.php:26-117 | after a returning `cacheRoutes` the next `loadRoutes` passes the guard: enabled, it takes the cached exit; disabled, it registers the table |
| RouteGeneration.RoutesGenerator.constructor | src/Pages/RoutesGenerator.php:10-20 | the generator holds the given collaborators and host state, with empty logs |
| RouteGeneration.RoutesGenerator.AssertRouteCachingValid | src/Pages/RoutesGenerator.php:185-191 | throws exactly when host routes are cached and Devise routes disabled, with the documented message |
| RouteGeneration.RoutesGenerator.FindDvsPageRoutes | src/Pages/RoutesGenerator.php:160-177 | the in-place rewrite of every selected row yields the materialised routes of the page table |
| RouteGeneration.RoutesGenerator.LoadRoutes | src/Pages/RoutesGenerator.php:26-85 | the router receives exactly what `Load` says, and the exception is `Load`'s |
| RouteGeneration.RoutesGenerator.InstallSiteGroups | src/Pages/RoutesGenerator.php:46-84 | the loop over buckets registers what `InstallGroups` says and stops with its exception |
| RouteGeneration.RoutesGenerator.RegisterGroup | src/Pages/RoutesGenerator.php:54-65 | one registration per route of the bucket, in order, under the bucket's domain |
| RouteGeneration.RoutesGenerator.ClearLaravelCache | src/Pages/RoutesGenerator.php:125-128 | issues `route:clear`; the host cache is gone unless the command throws |
| RouteGeneration.RoutesGenerator.ClearDeviseRoutes | src/Pages/RoutesGenerator.php:134-139 | the Devise file is deleted if and only if it exists, and is absent afterwards |
| RouteGeneration.RoutesGenerator.CacheRoutes | src/Pages/RoutesGenerator.php:92-117 | the new host state and the result are those of `Rebuild` on the current page rows |
| Common.NatToStringValue | Devise/Pages/PagesManager.php:286 | the decimal rendering of the counter denotes the counter and has no leading zero |
| RouteNaming.SuffixedGrows | Devise/Pages/PagesManager.php:283-286 | each candidate extends all earlier ones and is strictly longer |
| RouteNaming.FreeIndex | Devise/Pages/PagesManager.php:283-286 | the number of suffixes appended is at most 100; every candidate before it is taken; below 100 the candidate reached is free |
| RouteNaming.AllocateSpec | Devise/Pages/PagesManager.php:283-288 | when any of the 101 candidates is free, the name returned is free; it always extends the starting candidate |
| RouteNaming.FreeIndexFree | Devise/Pages/PagesManager.php:283-286 | a free candidate at or after the n-th makes the loop stop on a free one |
| RouteNaming.AllocateUnchanged | Devise/Pages/PagesManager.php:283-288 | the starting candidate is returned unchanged exactly when it is free |
| RouteNaming.AllocateExhausted | Devise/Pages/PagesManager.php:283-288 | with all 101 candidates taken, the last candidate is returned although it is taken |
| RouteNaming.AccumulatingExample | Devise/Pages/PagesManager.php:283-286 | with `about` and `about-1` taken, `about-1-2` is returned |
| RouteNaming.StartCandidate | Devise/Pages/PagesManager.php:275-281 | the primary language keeps the suggested name; any other language prefixes its code and a dash, or throws when the language id is unknown |
| RouteNaming.AvailableRoutePrefixed | Devise/Pages/PagesManager.php:275-288 | for a known non-primary language the name returned begins with the language code and a dash |
| PageStore.FindPage | Devise/Pages/PagesManager.php:167 | `findOrFail` finds a row with the id when one exists and none otherwise |
| PageStore.PagesWithout | Devise/Pages/PagesManager.php:173 | deleting a page leaves exactly the rows with other ids |
| PageStore.VersionsWithout | Devise/Pages/PagesManager.php:169 | deleting a page's versions leaves exactly the versions of other pages |
| PageStore.ReplacePage | Devise/Pages/PagesManager.php:145 | saving a row replaces the row with its id and leaves the others |
| PageStore.Database.InsertPage | Devise/Pages/PagesManager.php:308 | the new row gets a fresh key not used by any row and is appended |
| PageLifecycle.TranslationRootSpec | Devise/Pages/PagesManager.php:231-259 | in a one-level table the root of a page is a page that is not a translation, and the route name a translation copy takes is that root's |
| PageLifecycle.TranslationCopyKeepsOneLevel | Devise/Pages/PagesManager.php:216-236 | adding a copy that points at the root of its source keeps every translation link one level deep |
| PageLifecycle.MarkAllSpec | Devise/Pages/PagesManager.php:318-335 | success exactly when every version's fields were marked; versions are asked in order, and the loop stops right after the first failure |
| PageLifecycle.FindVersion | Devise/Pages/PagesManager.php:190 | the version found belongs to the page and has the id; none when no version of the page has it |
| PageLifecycle.RebuildMessage | Devise/Pages/PagesManager.php:344-353 | `message` becomes the exception's message when the rebuild throws and is otherwise what it was |
| PageLifecycle.PagesManager.constructor | Devise/Pages/PagesManager.php:87-110 | the manager holds the given collaborators, no message and an empty call log |
| PageLifecycle.PagesManager.CacheDeviseRoutes | Devise/Pages/PagesManager.php:344-353 | the cache is rebuilt as `Rebuild` says; its exception only sets `message` |
| PageLifecycle.PagesManager.FindAvailableRoute | Devise/Pages/PagesManager.php:271-289 | the while loop returns the allocator's name for the route names in the table, or the unknown-language exception |
| PageLifecycle.PagesManager.CreatePageFromInput | Devise/Pages/PagesManager.php:298-309 | the result is `CreatedRow` on the table before the call; a missing `language_id` or the allocator's exception leaves the table unchanged; otherwise the row is appended under a key no row used |
| PageLifecycle.PagesManager.CreatedRow | Devise/Pages/PagesManager.php:298-309 | a row it returns has a key no row of a valid table uses |
| PageLifecycle.PagesManager.CreatedRowSpec | Devise/Pages/PagesManager.php:275-309 | without `language_id` it throws the undefined-index notice; an unknown language throws the allocator's exception; otherwise the row's route name extends the starting candidate and is free whenever one of the hundred and one candidates is, and it carries the next key and the input's language, verb, slug, middleware and site |
| PageLifecycle.PagesManager.CreateNewPage | Devise/Pages/PagesManager.php:118-130 | the result is `CreatedRow`; when it throws, table, calls, host state and `message` are unchanged; a missing `template_id` throws after the row is appended, with no call and no rebuild; otherwise the default version is requested with the input's template and published flag, then the cache is rebuilt on the new table and `message` is as `RebuildMessage` says |
| PageLifecycle.PagesManager.UpdatePage | Devise/Pages/PagesManager.php:139-157 | an unknown id throws and changes nothing; otherwise the row is replaced by the updated one under the same id, slice fields saved only when slices are given, meta saved, then the cache rebuilt on the new table, with `message` as `RebuildMessage` says |
| PageLifecycle.PagesManager.DestroyPage | Devise/Pages/PagesManager.php:165-174 | an unknown id throws and changes nothing; otherwise the versions go, the cache is rebuilt on the table that still holds the page (`message` as `RebuildMessage` says), then the page row goes and `true` is returned |
| PageLifecycle.PagesManager.SetTranslatedFromPageId | Devise/Pages/PagesManager.php:231-236 | the copy's parent is the source's parent when it has one, else the source |
| PageLifecycle.PagesManager.SetTranslatedFromRouteName | Devise/Pages/PagesManager.php:244-259 | the copy takes the route name of the source's parent, or of the source itself; a missing parent row throws |
| PageLifecycle.PagesManager.CopyPage | Devise/Pages/PagesManager.php:183-214 | an unknown source throws; any exception leaves table, calls, host state and `message` unchanged; otherwise the result is the version's exception, the translation's exception, or `CreatedRow` of `CopyInput` (fresh key, route name allocated from the copy's input); on success one page is appended, the version of `CopiedVersion` is copied onto it, then the cache is rebuilt (`message` as `RebuildMessage` says); a translation copy points at the root and, in a one-level table, keeps the table one level and takes the name allocated from the root's route name |
| PageLifecycle.PagesManager.CopiedVersion | Devise/Pages/PagesManager.php:187-195 | with `page_version_id` the version copied is the source page's version with that id, renamed `Default`, and it throws exactly when the page has no such version; without it the live version is copied |
| PageLifecycle.PagesManager.ChooseVersion | Devise/Pages/PagesManager.php:187-195 | the version chosen is `CopiedVersion` |
| PageLifecycle.PagesManager.PrepareCopyInput | Devise/Pages/PagesManager.php:198-202 | a translation's input gets its parent link and route name, or the missing-parent exception, as `CopyInput` says; other input is passed on unchanged |
| PageLifecycle.PagesManager.CreateCopy | Devise/Pages/PagesManager.php:204-211 | the page is `CreatedRow` of the prepared input; on success it is appended, then the version copy and the cache rebuild are requested in that order; an exception changes nothing |
| PageLifecycle.PagesManager.MarkContentRequestedFieldsComplete | Devise/Pages/PagesManager.php:318-335 | an unknown page throws; otherwise the result is `true` or `false` as `MarkAll` says, and the marking calls are those `MarkAll` makes |
| PageLifecycle.PagesManager.MarkVersions | Devise/Pages/PagesManager.php:324-332 | the loop with its early return makes exactly the calls and returns exactly the verdict of `MarkAll` |
| PhpArrays.Get | Devise/Http/Controllers/MediaController.php:242 | lookup succeeds exactly for keys of the array and finds an entry of the array |
| PhpArrays.GetAt | Devise/Http/Controllers/MediaController.php:239 | with distinct keys, the entry at any position is what lookup finds |
| PhpArrays.Set | Devise/Http/Controllers/MediaController.php:220 | after assignment the key holds the value and every other key is unchanged |
| PhpArrays.SetKeys | Devise/Http/Controllers/MediaController.php:220 | assignment keeps the key order and appends a new key at the end |
| PhpArrays.UnsetSpec | Devise/Http/Controllers/MediaController.php:217 | after `unset` the key is absent, every other key keeps its value, and exactly the entries under other keys remain |
| PhpArrays.MergeSpec | Devise/Http/Controllers/MediaController.php:219 | in `array_merge` the second array's value wins for its keys, other keys keep the first's value, keys stay distinct |
| MediaUrls.NewSizesSpec | Devise/Http/Controllers/MediaController.php:236-258 | `onlyNewSizes` keeps exactly the requested sizes that are not skipped, with their values; its keys are distinct requested keys; the order is kept |
| MediaUrls.NewSizesAppend | Devise/Http/Controllers/MediaController.php:239-255 | filtering a concatenation is concatenating the filtered parts, so relative order is kept |
| MediaUrls.IncompleteSizeKept | Devise/Http/Controllers/MediaController.php:242-247 | a size missing `w` or `h`, on either side, is always kept |
| MediaUrls.NewSizesExample | Devise/Http/Controllers/MediaController.php:249-252 | an 800x600 request matching a stored "800"x600 is dropped by loose equality; a "1024" request is kept |
| MediaUrls.OnlyNewSizes | Devise/Http/Controllers/MediaController.php:236-258 | unsetting the skipped sizes in a loop yields `NewSizes` of the requested sizes |
| MediaUrls.AddSizesSpec | Devise/Http/Controllers/MediaController.php:215-221 | the loop over sizes succeeds exactly when every size is an array; a size's name then maps to the URL signed with the settings merged with the size minus its `breakpoints`, other keys keep their entry |
| MediaUrls.SignedUrlsSpec | Devise/Http/Controllers/MediaController.php:208-224 | the URL map maps each size as above, `original` to the path and `orig_optimized` to the URL signed with the base settings unless a size of that name overrides them |
| MediaUrls.SignedUrlsNoSizes | Devise/Http/Controllers/MediaController.php:210-213 | with no sizes the map holds exactly `original` and `orig_optimized` |
| MediaUrls.GetNewMediaSignedUrls | Devise/Http/Controllers/MediaController.php:208-224 | the loop builds `SignedUrls` |
| MediaUrls.GenerateSignedUrls | Devise/Http/Controllers/MediaController.php:189-206 | the returned settings never hold a non-null `sizes` and keep every other key; a set `sizes` that is not an array throws the `foreach` exception; an array `sizes` gives `SignedUrls` of its entries with `sizes` unset from the settings; an unset one gives only `original` and `orig_optimized`; the alt text is that of the original |
| MediaUrls.Iterated | Devise/Http/Controllers/MediaController.php:215 | `foreach` goes through exactly the entries of an array and throws for any other value |
| MediaUrls.StartValueHasMedia | Devise/Http/Controllers/MediaController.php:163 | the value a field starts from always has a `media` key |
| MediaUrls.MergeUrlsSpec | Devise/Http/Controllers/MediaController.php:177-179 | `url` becomes the original, `sizes` all sizes, `media` the old map with new URLs overriding, and every other key is untouched |
| MediaUrls.RegenerateSpec | Devise/Http/Controllers/MediaController.php:163-183 | a field is rewritten exactly when it has an original image and some requested size is new (and every new size is an array); it is then the merge step applied with the URLs of the new sizes only |
| MediaUrls.RunTurns | Devise/Http/Controllers/MediaController.php:160-186 | each field in turn is replaced by its turn's result; an exception stops the loop leaving that field and the later ones untouched |
| MediaUrls.Turn | Devise/Http/Controllers/MediaController.php:160-186 | a field without an original image is left as it is; with one, a requested `sizes` that is not an array (null or scalar) throws the `foreach` exception; a rewritten field keeps its original image |
| MediaUrls.ReGenerateAllSignedUrls | Devise/Http/Controllers/MediaController.php:148-187 | every field of the slice instance is regenerated and saved in order as `Turn` says, stopping at the first exception and leaving that field and the later ones untouched |
| MediaPaths.StripBound | Devise/Http/Controllers/MediaController.php:107 | stripping never lengthens a path |
| MediaPaths.StripNoOccurrence | Devise/Http/Controllers/MediaController.php:107 | a path without the needle is unchanged |
| MediaPaths.StripOccurrence | Devise/Http/Controllers/MediaController.php:107 | a path holding the needle loses at least one copy of it |
| MediaPaths.StripUnchangedIff | Devise/Http/Controllers/MediaController.php:107 | a path is unchanged exactly when the needle does not occur in it |
| MediaPaths.StripFirstOccurrence | Devise/Http/Controllers/MediaController.php:107 | up to the first occurrence of the needle the path is copied, that occurrence is deleted, and the rest is stripped in the same way |
| MediaPaths.StripMissingChar | Devise/Http/Controllers/MediaController.php:122 | a path missing any character of the needle is unchanged |
| MediaPaths.RemoveTargetSpec | Devise/Http/Controllers/MediaController.php:105-112 | the file manager is asked to delete exactly when the disk holds something under the stripped path, and receives that path; a route without `storage` is passed as given |
| MediaPaths.RemoveEveryOccurrence | Devise/Http/Controllers/MediaController.php:107 | every `storage` is removed, not just a leading one: `storage<dir>storage<ext>` becomes `<dir><ext>` |
| MediaPaths.SinglePass | Devise/Http/Controllers/MediaController.php:107 | one pass only: `ststorageorage` becomes `storage`, which still holds the needle |
| MediaPaths.DetailsPreviewExample | Devise/Http/Controllers/MediaController.php:120-135 | for `/storage/media/<name>`, `details` looks up `/media/<name>` and `preview` renders `<name>` |

## Left out

- I/O and the framework are parameters or left out:
  - the database is an in-memory `Database` object, and MySQL's
    case-insensitive collation of `route_name` is not modelled (names are
    compared exactly);
  - view rendering, Artisan, Glide signing, ImageAlts, the storage disk and
    the file manager are functions passed in;
  - `env()`'s conversion of `"true"`, `"false"`, `"null"` and `"empty"` is
    not modelled.
- The Laravel error stack is reduced to the message of each thrown
  exception; error pages and reporting are not modelled.
- PHP notices and warnings (an undefined index, a `foreach` over a value
  that is not an array) are taken as the `ErrorException` Laravel's error
  handler turns them into. The message text is fixed by the model.
- Other Devise code is not part of this model; only the calls made to it
  are logged: `createFromArray`, `updateFromArray`, `getLiveVersion`,
  `createDefaultPageVersion`, `copyPageVersionToAnotherPage`,
  `saveSliceInstanceFields`, `savePageMeta`, the versions and fields
  repositories and `markNoContentRequested`.
  - `PageLifecycle.LiveVersion` takes the page's first version flagged
    live.
  - `DvsField`'s `value` and `original_image` accessors are taken as given.
- `$page->load('versions.template')` and the `DateTime` of `published` are
  left out: the model keeps only whether the input was published.
- `deviseRoutesFile` is never called by the core and is left out.
- `copyPage`'s `if (!$toPage) return false;` is unreachable, because
  `createFromArray` returns a model or throws.
- Integer array keys, and their renumbering by `array_merge`, are not
  modelled: every key is a string.
- Loose `==` is modelled only as equality, or as an integer against its
  decimal string; other numeric-string comparisons are not.
- PHP's strict `!==` between the request's `language_id` and the stored one
  is modelled on integers. A string from the request is not modelled.
- Values that are objects rather than arrays are not modelled:
  - `onlyNewSizes` reads an existing size's `->w` and `->h`, which the model
    reads as array entries;
  - a `settings` that is not an array is modelled as an empty array.
- A size that is not an array makes `array_merge` throw. The model raises a
  fixed message for it.
- `HTTP verb` values are kept as strings. Registering an unknown verb on the
  router is not modelled.
- The race between concurrent cache rebuilds is a concurrency concern and is
  out of scope.
- The route-cache effects of `route:clear` and `route:cache` on whether the
  host serves cached routes are part of the model's host state. The
  commands themselves are not modelled.
- `RouteNaming.AllocateExhausted`: proved without a body, because the
  exhausted case follows from `FreeIndex`'s contract.
- The lookup of the slice instance and its fields in
  `reGenerateAllSignedUrls` is a database query; the fields are given as an
  array.
- The storage disk's `get` is a function from path to contents. A missing
  file is the empty string; the exception some disks throw instead is not
  modelled.
