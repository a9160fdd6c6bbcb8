# Kinko product catalogue and dashboard — a Dafny model

This project models the logic of two pages of a small product-management web application.

**The catalogue page, `Products`.** It holds a list of products and a form for creating, editing
and cloning them. Its logic covers:

- deriving a product code (`slugify`, `today`, `autoCode`);
- suggesting the next version of a product family (`nextVersionForCode`);
- computing a unit cost from 3D-printing or supplier parameters;
- reading and writing the comma-separated tag field;
- building the sorted folder and tag option lists;
- the search filter;
- the list transitions of saving, removing, cloning and uploading.

**The dashboard page, `Dashboard`.** It works from the same list of products. Its logic covers:

- the kanban pipeline, with one column per status and drag-and-drop moves;
- the reminder follow-up list `suivi`, sorted by reminder day;
- the badge colour for the days left before a reminder;
- the four indicator counts.

## Modules

- `Wrappers` (`wrappers.dfy`): `Option`.
- `Seqs` (`seqs.dfy`): `Array.prototype.filter` as `Filter`, order-preserving subsequences, and
  counting lemmas about filters.
- `Text` (`text.dfy`): the string operations the pages use. These are ASCII case mapping, `trim`,
  `split`, `join`, `includes`, decimal formatting and parsing, and a code-point order for sorting.
- `Records` (`records.dfy`): the `products` row and the values it holds.
- `ProductHelpers` (`product_helpers.dfy`): the module-level functions of the catalogue page.
- `Products` (`products.dfy`): the catalogue page. The component's state is the class
  `ProductsPage`: `items`, the kind filter, the query, and the form state grouped in a `Form`
  value. Each event handler is a method of that class.
- `Dashboard` (`dashboard.dfy`): the dashboard page. Its state is the class `DashboardPage`, which
  holds `products`.

## How external things are modelled

Calls to the backend, the object storage, the clock and the random id generator become
parameters:

- the day for `today()`;
- a local id for `crypto.randomUUID()`;
- a clock reading and a stored/failed outcome for each upload;
- a `Reply` (the stored row, or an error message) for each insert or update.

`SaveItem` also returns the records it sent to the backend, in order.

## Notes on the modelled behaviour

- **Success messages.** A successful save sets a success message and then calls `resetForm()`
  within the same update. The form therefore ends with an empty message, and the model states
  that.
- **Failed file patch.** After a new product is inserted, the uploaded files are written in a
  second update. If that update fails, the inserted row is not added to the list, even though the
  backend stored it. The model keeps this behaviour.
- **Unique ids.** Replacing an entry after an update puts the returned row first and drops every
  other entry with its id. Removing an entry drops every entry with that id. A drag or a
  "done" click changes every card with the dragged id, so "exactly one card" is proved under the
  hypothesis that ids are unique (`Records.UniqueIds`). That hypothesis is the table's primary key.

## Model

| member | source | states |
|---|---|---|
| ProductHelpers.Slugify | src/pages/Products.jsx:70-77 | the result has only `a-z0-9-`, never two hyphens in a row and no hyphen at either end, and it keeps exactly the letters and digits of the lower-cased input, in order |
| ProductHelpers.SlugEmptyIff | src/pages/Products.jsx:70-77 | the slug is empty exactly when the input has no letter or digit |
| ProductHelpers.SlugFixedPoint | src/pages/Products.jsx:70-77 | every slug (only `a-z`, `0-9` and `-`, no `--`, no hyphen at either end) is its own slug, so "ab" gives "ab" and never "a-b" |
| ProductHelpers.SlugifyIdempotent | src/pages/Products.jsx:70-77 | slugifying a slug that `slugify` produced gives it back |
| ProductHelpers.SlugifyGlue | src/pages/Products.jsx:70-77 | where the lower-cased input has a letter or digit right against another, the slug keeps them together: the slug of the joined text is the slugs of the two parts joined with no hyphen |
| ProductHelpers.SlugifyJoin | src/pages/Products.jsx:74-76 | a separator between two parts that each hold a letter or digit becomes exactly one hyphen between their slugs ("a b" gives "a-b"), whatever separators surround it |
| ProductHelpers.DateStamp | src/pages/Products.jsx:78-84 | `today()` is all digits; it reads back as year, then two-digit month, then two-digit day; it is 8 characters for a four-digit year |
| ProductHelpers.AutoCode | src/pages/Products.jsx:85-89 | the code splits on `_` into exactly the kind tag (`3D` or `ORD`), the upper-cased slug of the name (of "produit" when empty) and the date stamp, and it has no lower-case letter |
| ProductHelpers.AutoCodeEmptySlug | src/pages/Products.jsx:85-89 | a non-empty name with no letter or digit gives an empty middle field, `KIND__YYYYMMDD` |
| ProductHelpers.SameCodeVersionsSpec | src/pages/Products.jsx:92-97 | the parsed versions are exactly those of the items with the code and a string version |
| ProductHelpers.NextVersionForCode | src/pages/Products.jsx:90-100 | the suggestion is "V" followed by its number written without leading zeros; the number exceeds every same-code version and is 1 or one more than one of them (max + 1) |
| ProductHelpers.NextVersionDefault | src/pages/Products.jsx:90-100 | with no same-code item holding a string version, the suggestion is "V1" |
| ProductHelpers.NextVersionIgnoresOtherCodes | src/pages/Products.jsx:92-93 | items of other codes do not affect the suggestion |
| ProductHelpers.NextVersionExample | src/pages/Products.jsx:90-100 | items X/V2, X/V5, Y/V9 give "V6" for X |
| Products.Cost3D | src/pages/Products.jsx:149-154 | the 3D cost is never negative; it is the whole total when that is not negative, else 0 (the clamp applies to the total) |
| Products.CostOrdered | src/pages/Products.jsx:156-158 | the supplier cost is never negative; it is the whole total when that is not negative, else 0 |
| Products.Cost3DMonotone | src/pages/Products.jsx:149-154 | over non-negative parameters the 3D cost does not decrease when any parameter grows |
| Products.CostOrderedMonotone | src/pages/Products.jsx:156-158 | the supplier cost does not decrease when any amount grows |
| Products.FormCost | src/pages/Products.jsx:160 | kind "3d" selects the 3D formula, any other kind the supplier formula; the cost is never negative |
| Products.Empty3D | src/pages/Products.jsx:42-51 | the default 3D parameters cost 9 |
| Products.EmptyOrdered | src/pages/Products.jsx:53-61 | the default supplier parameters cost 22.5 |
| Products.ToTagsArray | src/pages/Products.jsx:187-192 | every tag read from the field is non-empty, has no surrounding white space and no comma |
| Products.TagsRoundTrip | src/pages/Products.jsx:187-192 | reading back the `join(", ")` text of well-formed tags gives the same tags |
| Products.AddTagTags | src/pages/Products.jsx:453-459 | adding a tag appends it to the tags the field holds, unless it is already there |
| Products.AddTagIdempotent | src/pages/Products.jsx:453-459 | adding the same tag twice is adding it once |
| Products.ExistingFolders | src/pages/Products.jsx:175-178 | every non-empty folder of the list exactly once, strictly ascending |
| Products.ProductsPage.constructor | src/pages/Products.jsx:106-146 | the page starts with no items, the kind filter on "all", an empty query, the form of `resetForm` and `configured` set when a backend client exists |
| Products.ProductsPage.ExistingTags | src/pages/Products.jsx:180-184 | every tag of every item exactly once, strictly ascending |
| Products.FilterItems | src/pages/Products.jsx:462-469 | an order-preserving subsequence of the items holding every item that passes the kind and query test and no other |
| Products.FilterItemsCounts | src/pages/Products.jsx:462-469 | the list holds every copy of a matching item and no copy of any other item |
| Products.FilterItemsShowsAll | src/pages/Products.jsx:462-469 | kind "all" with an empty query lists every item |
| Products.FilterItemsCaseInsensitive | src/pages/Products.jsx:465-466 | queries equal up to letter case list the same items |
| Products.FilterItemsNarrowing | src/pages/Products.jsx:462-469 | a query containing another lists a subsequence of what the other lists |
| Products.ProductsPage.Filtered | src/pages/Products.jsx:462-469 | the listed items are a subsequence of `items` |
| Products.RemoveById | src/pages/Products.jsx:440 | exactly the entries with another id, in order |
| Products.RemoveByIdCounts | src/pages/Products.jsx:440 | every copy of an entry with another id is kept, and no entry with the id |
| Products.RemoveByIdIdempotent | src/pages/Products.jsx:440 | filtering out an id twice is filtering it once |
| Products.PutFirst | src/pages/Products.jsx:427 | the returned row comes first, followed by an order-preserving subsequence of the old list that holds every entry with another id and none with the row's id |
| Products.PutFirstKeepsUniqueIds | src/pages/Products.jsx:427 | replacing an entry keeps ids unique |
| Products.FindById | src/pages/Products.jsx:275 | none exactly when no entry has the id, otherwise the first entry with it |
| Products.EmptyForm | src/pages/Products.jsx:200-223 | the reset form edits nothing, is a 3D product at version "V1", has no message and costs 9 |
| Products.LoadProduct | src/pages/Products.jsx:225-267 | kind, status ("Prototype" when empty), name, code, description, folder, tags joined with ", ", weight, dimensions and colours (0, "" and ["Noir"] without specs), margin, reseller discount and prices (the default margin and discount and 0 without pricing) and the parameters of the kind (stored or default, the other kind reset) all come from the stored product; the other fields are unchanged |
| Products.EditDraft | src/pages/Products.jsx:225-271 | editing loads every field of the product, edits its id, takes its version or "V1" when it has none, clears the message and the clone source and keeps the author and pending files |
| Products.CloneDraft | src/pages/Products.jsx:274-323 | a clone is a new entry with every field loaded from the source, the next version of its code (above every same-code version), no pending file, no author and the clone message |
| Products.SavedCloneIsNextVersion | src/pages/Products.jsx:284-285 | saving a clone files the same code, kind and tags under a version above every same-code version |
| Products.BuildRecord | src/pages/Products.jsx:349-373 | the saved record's code is the SKU, or the automatic code of the day when the SKU is empty; its version is the form's or "V1"; its tags are the ones parsed from the tag field; its cost is the one the kind selects; name, kind, description, status, folder, author, specs, margin, prices and discount are the form's; the build holds the parameters of its kind |
| Products.UploadedRefs | src/pages/Products.jsx:326-342 | at most one reference per pending file, each path under `<productId>/` |
| Products.UploadedRefsPositions | src/pages/Products.jsx:331-340 | a rejected file leaves no reference; the reference of an accepted file, with its name and `<productId>/<now>_<name>` path, comes right after those of the files accepted before it |
| Products.UploadedRefsAllStored | src/pages/Products.jsx:331-340 | when storage accepts every file, every file is uploaded, in order |
| Products.ProductsPage.UploadFiles | src/pages/Products.jsx:326-342 | without a backend nothing is uploaded; otherwise the accepted files of the pending list, in order |
| Products.ProductsPage.SaveItem | src/pages/Products.jsx:346-435 | an empty name only sets the message; without a backend the record is put first under a local id; otherwise the insert or update branch, with its error message on a rejected reply |
| Products.ProductsPage.SaveInsert | src/pages/Products.jsx:383-407 | a rejected insert keeps the list; a stored row goes first, replaced by the patched row when files were uploaded and the patch succeeded, left out when the patch failed |
| Products.ProductsPage.SaveUpdate | src/pages/Products.jsx:408-429 | new files are appended to the files the entry already has; a stored row goes first in place of its id, a rejection keeps the list |
| Products.ProductsPage.RemoveItem | src/pages/Products.jsx:438-445 | the entries with the id are dropped unless the backend refused the delete |
| Products.ProductsPage.AddExistingTag | src/pages/Products.jsx:453-459 | the tag field becomes the text with the tag added |
| Products.ProductsPage.StartEdit | src/pages/Products.jsx:225-271 | the form becomes the edit draft of the product |
| Products.ProductsPage.CloneFromProduct | src/pages/Products.jsx:274-323 | an unknown id changes nothing; otherwise the form becomes the clone draft |
| Dashboard.Column | src/pages/Dashboard.jsx:189-191 | a column is a subsequence of the products |
| Dashboard.ColumnCounts | src/pages/Dashboard.jsx:189-191 | a column holds every copy of a product with its status and no copy of any other |
| Dashboard.ColumnMembers | src/pages/Dashboard.jsx:189-191 | a column shows exactly the products whose status is its name |
| Dashboard.UnlistedStatusHidden | src/pages/Dashboard.jsx:43-51 | a product whose status is none of the seven statuses is in no column |
| Dashboard.WithStatus | src/pages/Dashboard.jsx:59-61 | only the dragged card changes, and only in its status; every card keeps its place and id |
| Dashboard.DragMovesOneCard | src/pages/Dashboard.jsx:54-68 | with unique ids, a drop into another column takes one card from the source column, adds one to the destination and leaves every other column unchanged |
| Dashboard.DragKeepsIndicators | src/pages/Dashboard.jsx:96-127 | moving a card changes none of the four indicators |
| Dashboard.DashboardPage.OnDragEnd | src/pages/Dashboard.jsx:54-68 | no destination or the same column changes nothing; otherwise the dragged card takes the destination status |
| Dashboard.InsertPos | src/pages/Dashboard.jsx:73-75 | the insertion point follows every strictly earlier day and precedes the rest |
| Dashboard.SortByDay | src/pages/Dashboard.jsx:73-75 | the sort result is ordered by reminder day and is a permutation of its input |
| Dashboard.SortByDayStable | src/pages/Dashboard.jsx:73-75 | products of the same day keep their order (the sort is stable) |
| Dashboard.SortByDayFilterCount | src/pages/Dashboard.jsx:73-75 | sorting does not change how many products satisfy a test |
| Dashboard.Suivi | src/pages/Dashboard.jsx:71-75 | the follow-up list is ordered by day and is a permutation of the products that have a reminder |
| Dashboard.SuiviMembers | src/pages/Dashboard.jsx:71-75 | it holds exactly the products that have a reminder, and no more entries than there are products |
| Dashboard.SuiviStable | src/pages/Dashboard.jsx:71-75 | products with the same reminder day keep their list order |
| Dashboard.MarkDone | src/pages/Dashboard.jsx:82-86 | only the product with the id changes, and only by being marked done |
| Dashboard.MarkDoneIdempotent | src/pages/Dashboard.jsx:82-86 | marking done twice is marking done once |
| Dashboard.DoneLowersPending | src/pages/Dashboard.jsx:77-87 | with unique ids, marking a pending reminder done lowers the pending count by one and leaves the other indicators unchanged |
| Dashboard.DashboardPage.HandleDone | src/pages/Dashboard.jsx:77-87 | the list becomes the marked-done list, whatever the backend answered |
| Dashboard.ColorDays | src/pages/Dashboard.jsx:89-93 | red exactly for at most 0 days, orange exactly for 1 to 3, green exactly for more than 3 |
| Dashboard.ColorDaysMonotone | src/pages/Dashboard.jsx:89-93 | fewer days left never gives a less urgent colour |
| Dashboard.IndicatorsOf | src/pages/Dashboard.jsx:96-127 | the pending count is at most the follow-up length; the unanimous and warning counts are at most the total |
| Dashboard.PendingCount | src/pages/Dashboard.jsx:102-106 | the pending count is the number of products with a reminder not done, at most the follow-up length, itself at most the product count |
| Dashboard.UnanimousNeedsVotes | src/pages/Dashboard.jsx:108-118 | products without votes are never unanimous, so the two counts together are at most the product count |
| Dashboard.EmptyVotesUnanimous | src/pages/Dashboard.jsx:108-118 | an empty `votes` object counts as unanimous |
| Dashboard.SplitVoteNotUnanimous | src/pages/Dashboard.jsx:108-118 | any entry where the two voters do not both give the heart or both the thumbs-up (a heart against a thumbs-up either way round, or a missing vote) keeps a product out of the unanimous count |
| Dashboard.DashboardPage.constructor | src/pages/Dashboard.jsx:30-40 | the list is the loaded rows, or empty when the query failed or returned null |

## Left out

- Backend and storage access, and the async sequencing. Each call's outcome is a parameter, so
  interleavings of concurrent events are not modelled.
- The initial load of the catalogue page (`src/pages/Products.jsx:163-172`). It only assigns the
  fetched rows. The ordering by creation date is done by the backend on both pages.
- `ProductHelpers.Slugify`: the `normalize("NFD")` and diacritic-stripping step is not modelled,
  because it depends on Unicode tables. The model takes input whose accents are already
  stripped.
- `Text.Lower`, `Text.Upper`: only ASCII letters change case. JavaScript's full Unicode case
  mapping is not modelled.
- `Text.Less`: `localeCompare` is replaced by code-point order, a total order. The folder and
  tag lists are proved sorted for that order, not for the locale's collation.
- `Products.Cost3D`, `Products.CostOrdered`: costs are exact reals. Floating-point rounding,
  `NaN`, and the `|| 0` guard on `energyKwh` are not modelled.
- `ProductHelpers.ParseVersion`: `parseInt` is exact. Precision loss for very long digit strings
  is not modelled.
- `Products.LoadProduct`: the per-field defaults inside stored `build`, `specs` and `pricing`
  objects are not modelled. These are the `??` defaults of `build` and `pricing`, and the
  `(weight ?? 0) || 0`, `dimensions || ""` and `colors || ["Noir"]` of `specs`. A stored object
  is taken whole, with every field present; a missing one gets the page's defaults.
- `Products.FilterItems`: a null text column is read as "" (`Records.Product`). The page writes
  the word "null" into the search text for it (`src/pages/Products.jsx:465`), so the query "null"
  matches such a row there and not in the model.
- `ProductHelpers.NextVersionForCode`: a null `code` is read as "". The page compares with `===`
  (`src/pages/Products.jsx:93`) and passes `src.code || ""` (`src/pages/Products.jsx:284`), so
  cloning a product without a code does not count items whose code is null. The model counts
  them.
- `Dashboard.SortByDay`: reminder dates are taken as parsed calendar days. An unparseable
  `reminder_date` makes the page's comparator return `NaN`, which leaves the order up to the
  engine. The model has no such case.
- `Products.EditDraft`: a `version` column that holds a non-string value is read as missing, so
  it becomes "V1". The page would keep the value.
- `Dashboard.ColorDays`: date-fns `differenceInDays` and `parseISO` are not modelled. The badge
  takes the number of days as its input.
- The reminder day is compared as a calendar day. Reminders carrying a time of day are not
  modelled.
- Rendering, the file picker, the price hint text, `currency`, `getPublicUrl` and
  `isImagePath` are left out.
- The image-generation endpoints and components, the settings page, routing and the UI
  component library are not part of this model.
