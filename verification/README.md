# Image explorer store: a Dafny model

This project models the state layer of an interactive image-exploration client. The client keeps one
process-wide store holding:
- the image catalog;
- two named spatial layouts (sphere and grid);
- the positions currently in effect;
- the selected image, the sidebar state and the query highlight.

A set of actions mutates the store. They bootstrap the catalog once, switch layouts, send a
natural-language query and apply its highlight, upload images with placeholder records that are
reconciled when their descriptions arrive, and drive selection and sidebar visibility. The model also
covers the sidebar's description truncation and its choice between the detail view and the list.

The project has one file per module:

- `wrappers.dfy`, module `Wrappers`: `Option` (a nullable value) and `Result` (a call that returns or throws).
- `jsstring.dfy`, module `JsString`: the JavaScript string built-ins the code relies on.
  - `replace` with a string pattern removes only the first occurrence.
  - `split`/`join` on a space.
  - The decimal rendering of an integer in a template literal.
  - Truthiness of a string that may be null.
- `catalog.dfy`, module `Catalog`: records, coordinates and layouts, plus the pure pieces of the actions.
  - Lookup by id and reconciliation of an upload's description.
  - The start-up url map, the aspect-corrected grid and the neutral positions.
  - Code-fence stripping, upload ids and captions.
- `storemodel.dfy`, module `StoreModel`: the store as a `Snapshot` value.
  - There is one transition function per `set(state => ...)` callback, and each states which fields
    change and that all others are kept.
  - Lemmas cover several calls in sequence: init runs once, toggling twice is the identity, clearing
    is idempotent, and selecting the same image twice returns to no selection when the first call
    selected it.
  - Further lemmas cover a fenced query reply naming two files, a batch of three uploads whose
    second description fails, and an id collision between uploads.
- `actions.dfy`, module `Actions`: class `Store` with the store's fields.
  - Every action is a method that updates them in place. An async action is split at its `await`
    points into separately callable steps, so interleaved actions are arbitrary call orders.
  - Each method ensures `State() == StoreModel.X(old(State()), ...)`.
- `sidebar.dfy`, module `Sidebar`: `truncateDescription`, the thumbnail alt text, and the detail-view
  lookup.

Results of the backend, the fetches, `JSON.parse`, `Date.now()`, `Math.random()` and
`URL.createObjectURL` are parameters. `JSON.parse` followed by reading `.filenames` and `.commentary`
is a function parameter `parse: string -> JsonReply`. Its three outcomes are:
- `Malformed`: the parse throws.
- `JsonNull`: reading a property of `null` throws.
- `Parsed(filenames, commentary)`: each property is present or undefined (None).

Coordinates are `seq<real>`, as the source's arrays are. The grid computed at start-up has two
elements per entry, and an upload's placeholder position has three. Sphere entries are taken from
the fetched dataset as they are: the model does not constrain their length.

Behaviour worth knowing (the model follows the code):
- On a parse failure, `caption` is null afterwards, not its pre-query value. The first step of the
  query clears it (`images/actions.js:68`).
- `highlightNodes` is the raw `filenames` array, not a set of ids.
- Upload ids `local-<ms>-<name>` collide exactly when two files share both the millisecond and the
  name (`Catalog.UploadIdCollision`). Reconciliation then updates only the newer record, and the
  older placeholder keeps "Generating description..." for good
  (`StoreModel.CollidingPlaceholderNeverReconciled`).
- `setTargetImage` accepts an id that no image has. The sidebar then opens on the list view
  (`Sidebar.SelectUnknownShowsList`).
- `setTargetImage` called twice with the same id returns to no selection only when the first call
  selected it. If the id was already selected, the first call deselects and the second selects again.
- The bootstrap's neutral positions are overwritten at once by the switch to the sphere layout. Images
  missing from the sphere dataset are then left without a position (`StoreModel.InitCommitCoverage`).
- Truthiness: `setTargetImage` and the sidebar treat an empty-string id like null.

## Model

| member | source | states |
|---|---|---|
| `JsString.IndexOf` | images/actions.js:73 | the result is the first index at which the pattern occurs, or None exactly when it occurs nowhere |
| `JsString.ReplaceFirst` | images/actions.js:73 | removes exactly the first occurrence of the pattern; text without the pattern is returned unchanged |
| `JsString.Split` | images/Sidebar.jsx:14 | a split always yields at least one piece, even for the empty string |
| `JsString.SplitPiecesFree` | images/Sidebar.jsx:14 | no piece of a split holds the separator |
| `JsString.JoinSplit` | images/Sidebar.jsx:14-18 | joining the pieces of a split with the same separator gives the input back |
| `JsString.SplitJoin` | images/Sidebar.jsx:18 | splitting a join of separator-free pieces gives the pieces back |
| `JsString.Join` | images/Sidebar.jsx:18 | joining nothing gives ""; a join starts with its first piece and is at least one character per separator long; where the separators sit is stated by `JsString.JoinSplit` and `JsString.SplitJoin` |
| `JsString.Truthy` | images/actions.js:156-163 | a nullable string is truthy exactly when it is neither null nor "" |
| `JsString.JoinPrefix` | images/Sidebar.jsx:18 | joining the first k pieces gives a prefix of joining them all |
| `JsString.SplitAppend` | images/Sidebar.jsx:18 | a separator between two strings splits them apart: the pieces are those of each side |
| `JsString.NatToString` | images/actions.js:96 | the decimal rendering is a non-empty digit string that denotes n, with no leading zero unless n is 0 |
| `JsString.NatToStringInjective` | images/actions.js:100 | different numbers print differently |
| `Catalog.WithUrls` | images/actions.js:27-31 | each metadata entry keeps its position, id and description and gains url = storage root + id |
| `Catalog.GridFromUmap` | images/actions.js:37-42 | the grid has exactly the keys of the 2-D dataset; each entry has two elements, x unchanged and y compressed by 9/16 and raised by 1/4 |
| `Catalog.NeutralPositions` | images/actions.js:44-46 | every image id, and only those, gets position [0.5, 0.5, 0.5] |
| `Catalog.FindIndex` | images/actions.js:112 | the result is the index of the first record with the id, or None exactly when no record has it |
| `Catalog.Reconcile` | images/actions.js:111-124 | only the first record with the id takes the new description; length, order, ids, urls and all other records are kept; nothing changes if no record has the id |
| `Catalog.StripFences` | images/actions.js:73 | stripping never lengthens the reply and shortens it by at most the length of one ```json plus one ```; which characters go is stated by `Catalog.StripUnfenced` and `Catalog.StripFencedReply` |
| `Catalog.StripUnfenced` | images/actions.js:73 | a reply with no ``` passes through the fence stripping unchanged |
| `Catalog.ReplaceClosingFence` | images/actions.js:73 | removing the first ``` from a fence-free body followed by ``` gives the body back, even when the body ends in backticks |
| `Catalog.StripFencedReply` | images/actions.js:73 | ```json + body + ``` strips to body when body holds no ``` |
| `Catalog.StripExampleReply` | images/actions.js:73 | the reply ```json + a JSON object naming "a" and "b" with commentary "x" + ``` strips to exactly that object |
| `Catalog.UploadId` | images/actions.js:100 | the id is "local-", then exactly the decimal text of the milliseconds (no leading zero, value equal to the milliseconds), then "-", then the file name, and nothing else |
| `Catalog.UploadIdCollision` | images/actions.js:100 | two upload ids are equal exactly when the milliseconds and the file names are |
| `Catalog.UploadingCaption` | images/actions.js:96 | the caption is "Uploading ", then exactly the decimal text of n, then " image"; it is one character longer and ends in "s..." exactly when n > 1 |
| `Catalog.AddedCaption` | images/actions.js:132 | the caption is "Successfully added ", then exactly the decimal text of n, then " new image"; it is one character longer and ends in "s." exactly when n > 1 |
| `Catalog.UploadingCaptionExamples` | images/actions.js:96 | the caption during an upload reads "Uploading 1 image..." for one file and "Uploading 3 images..." for three |
| `Catalog.AddedCaptionExamples` | images/actions.js:132 | the closing caption reads "Successfully added 1 new image." for one file and "Successfully added 3 new images." for three |
| `StoreModel.InitBegin` | images/actions.js:12-19 | a second init changes nothing; the first sets the guard, before any fetch, and nothing else |
| `StoreModel.CommitDatasets` | images/actions.js:27-47 | images in order with urls, sphere verbatim, the grid equal to the aspect-corrected 2-D dataset, the neutral position for each image id and no other key; no other field changes |
| `StoreModel.InitCommit` | images/actions.js:27-49 | after the final switch the layout is sphere and the positions equal the sphere dataset, so they agree with the active layout |
| `StoreModel.Init` | images/actions.js:12-50 | the guard ends set; a repeated init is a no-op; a failed fetch leaves only the guard set and no catalog |
| `StoreModel.InitIsOnce` | images/actions.js:12-19 | a second init after the first, whatever its fetch outcome, changes nothing |
| `StoreModel.InitCommitCoverage` | images/actions.js:44-49 | every image has a position after init exactly when the sphere dataset has every image id |
| `StoreModel.SetLayout` | images/actions.js:52-56 | sets the layout and the positions together, so they agree; nothing else changes |
| `StoreModel.SetSphereLayout` | images/actions.js:58-61 | replaces only the stored sphere table; positions in effect and grid untouched |
| `StoreModel.SphereRecomputeNeedsSwitch` | images/actions.js:52-61 | replacing the active sphere table breaks the layout/positions agreement until the next switch, which shows the new table |
| `StoreModel.QueryBegin` | images/actions.js:64-69 | busy, no target, camera reset requested, caption cleared; nothing else changes |
| `StoreModel.QueryApply` | images/actions.js:71-80 | on a parsed reply, highlight = filenames and caption = commentary of the fence-stripped text; on a parse failure or null nothing changes |
| `StoreModel.QueryEnd` | images/actions.js:82-86 | not busy; nothing else changes |
| `StoreModel.SendQuery` | images/actions.js:63-87 | not busy on every exit, including a backend throw; the parsed reply sets highlight and caption, and otherwise the highlight is kept and the caption is null; other fields kept |
| `StoreModel.SendQueryExample` | images/actions.js:63-87 | a reply fenced as ```json ... ``` that names "a" and "b" with commentary "x" highlights ["a", "b"] with caption "x" |
| `StoreModel.ClearQuery` | images/actions.js:137-142 | highlight, caption and target become null; nothing else changes |
| `StoreModel.ClearQueryIdempotent` | images/actions.js:137-142 | clearing twice is clearing once |
| `StoreModel.UploadBegin` | images/actions.js:89-97 | null or no files is a no-op; otherwise busy with the caption "Uploading n image(s)..." and nothing else changes |
| `StoreModel.UploadInsert` | images/actions.js:102-107 | the placeholder is inserted at index 0 with "Generating description...", the rest shifted; its position is set, and other positions and fields are kept |
| `StoreModel.UploadResolve` | images/actions.js:109-116 | the catalog is reconciled with the description; no other field changes |
| `StoreModel.UploadFail` | images/actions.js:117-124 | the catalog is reconciled with the error text; no other field changes |
| `StoreModel.UploadFinish` | images/actions.js:128-133 | not busy, caption "Successfully added n new image(s)."; nothing else changes |
| `StoreModel.UploadKeepsPositionsCovered` | images/actions.js:104-124 | placeholders and reconciliation keep every image placed |
| `StoreModel.CollidingPlaceholderNeverReconciled` | images/actions.js:100-124 | with two placeholders of one id, both answers land on the newer record and the older keeps the placeholder text |
| `StoreModel.ReconcileAt` | images/actions.js:111-124 | reconciling an id whose first record is at k rewrites exactly that record's description |
| `StoreModel.ReconcileThree` | images/actions.js:109-125 | three distinct placeholders reconciled in order, the middle one failing, carry exactly their own texts |
| `StoreModel.UploadBatchExample` | images/actions.js:89-133 | three files, the second failing: newest first, only the second's record has the error text, older images untouched, caption counts 3, not busy |
| `StoreModel.SetXRayMode` | images/actions.js:144-147 | sets the x-ray flag; nothing else changes |
| `StoreModel.SetTargetImage` | images/actions.js:149-170 | choosing the current target yields null, any other choice is taken unchecked; not busy and no highlight afterwards; the sidebar is forced open iff the result is truthy, and is otherwise unchanged |
| `StoreModel.SetTargetImageTwice` | images/actions.js:149-170 | the same choice twice returns to null when the first call selected, and to the original target when it deselected |
| `StoreModel.ToggleSidebar` | images/actions.js:172-175 | flips the sidebar; nothing else changes |
| `StoreModel.ToggleSidebarTwice` | images/actions.js:172-175 | toggling twice is the identity |
| `StoreModel.SetSidebarOpen` | images/actions.js:177-180 | sets the sidebar flag; nothing else changes |
| `Actions.Store.InitBegin` | images/actions.js:12-19 | returns whether init proceeds (the guard was clear); the new state is `StoreModel.InitBegin` of the old |
| `Actions.Store.InitCommit` | images/actions.js:27-49 | commits the datasets in place, then switches to sphere, as `StoreModel.InitCommit` |
| `Actions.Store.Init` | images/actions.js:12-50 | runs both steps without interleaving; the fetch error propagates when init proceeded |
| `Actions.Store.SetLayout` | images/actions.js:52-56 | in-place `StoreModel.SetLayout` |
| `Actions.Store.SetSphereLayout` | images/actions.js:58-61 | in-place `StoreModel.SetSphereLayout` |
| `Actions.Store.QueryBegin` | images/actions.js:64-69 | in-place `StoreModel.QueryBegin` |
| `Actions.Store.QueryApply` | images/actions.js:71-80 | in-place `StoreModel.QueryApply` |
| `Actions.Store.QueryEnd` | images/actions.js:82-86 | in-place `StoreModel.QueryEnd` |
| `Actions.Store.SendQuery` | images/actions.js:63-87 | the three steps with nothing interleaved: not busy afterwards, and the backend error propagates after the finally step |
| `Actions.Store.ClearQuery` | images/actions.js:137-142 | in-place `StoreModel.ClearQuery` |
| `Actions.Store.UploadBegin` | images/actions.js:89-97 | returns whether there were files; in-place `StoreModel.UploadBegin` |
| `Actions.Store.UploadInsert` | images/actions.js:99-107 | returns the id local-ms-name; unshifts the placeholder and sets its random position |
| `Actions.Store.UploadResolve` | images/actions.js:109-116 | find-then-assign of the description, as `StoreModel.UploadResolve` |
| `Actions.Store.UploadFail` | images/actions.js:117-124 | find-then-assign of the error text, as `StoreModel.UploadFail` |
| `Actions.Store.UploadFinish` | images/actions.js:128-133 | in-place `StoreModel.UploadFinish` |
| `Actions.Store.SetXRayMode` | images/actions.js:144-147 | in-place `StoreModel.SetXRayMode` |
| `Actions.Store.SetTargetImage` | images/actions.js:149-170 | both `set` calls run back to back, and the final state is `StoreModel.SetTargetImage` of the old |
| `Actions.Store.ToggleSidebar` | images/actions.js:172-175 | in-place `StoreModel.ToggleSidebar` |
| `Actions.Store.SetSidebarOpen` | images/actions.js:177-180 | in-place `StoreModel.SetSidebarOpen` |
| `Sidebar.TruncateDescription` | images/Sidebar.jsx:10-19 | the result is "" exactly for a null or empty input; otherwise it is the input, or a prefix of the input followed by " ..." |
| `Sidebar.TruncateWithinLimit` | images/Sidebar.jsx:14-17 | a description of at most wordLimit pieces (empty pieces count) is returned unchanged |
| `Sidebar.TruncateSplitsAtLimit` | images/Sidebar.jsx:18 | a cut description splits into the input's first wordLimit pieces and "...", wordLimit + 1 pieces in all |
| `Sidebar.ThumbnailAlt` | images/Sidebar.jsx:52 | the alt text has at most 3 + 1 pieces and is non-empty for a non-empty description |
| `Sidebar.DetailTarget` | images/Sidebar.jsx:26-28 | the detail view shows the first image whose id equals a truthy target id; None (the list view) exactly when the target is null, empty, or matched by no image |
| `Sidebar.SelectUnknownShowsList` | images/Sidebar.jsx:26-40 | selecting an id no image has opens the sidebar on the list view |

## Left out

- The service worker (`images/public/service-worker.js`) is a browser cache intermediary. It is not part of this model.
- `images/ImageDetail.jsx` and the JSX markup of `images/Sidebar.jsx` only render. Their one action, `setTargetImage(null)`, is modelled.
- `fetch`, `Promise.all`, `queryLlm`, `generateDescription`, `queryPrompt` and `JSON.parse` are calls into code outside the model. Their results are parameters.
- `StoreModel.QueryApply`: the model carries `filenames` and `commentary` only when they are a string array and a string. Other JSON values are not represented.
- `Date.now()`, `Math.random()` and `URL.createObjectURL` are nondeterministic, so their values are parameters. The model does not require the random draws to lie in [0, 1).
- Coordinates are exact reals. The double rounding of `y / (16 / 9) + 0.25` is not modelled.
- `setLayout` accepts only `sphere` and `grid`. Any other name would set the positions to `undefined`.
- The store definition (`store.js`), including the store's initial values, is not part of this model. The constructor takes an initial snapshot.
- The immer-style `set` is assumed to have value semantics. After a switch, `nodePositions` and `layouts[layout]` do not alias, so changing one does not change the other.
- Subscribers are not modelled. Two `set` calls with no `await` between them are treated as one step: the commit and the layout switch of `init`, and the two calls of `setTargetImage`.
- The class does not enforce step order:
  - a file's placeholder insertion comes before its reconciliation;
  - all placeholders of a batch are inserted before any reply;
  - the batch finishes after every file settles.
  Every call order is allowed, which includes the orders the scheduler can produce.
- `ImageRecord` keeps only `id`, `description` and `url`. Other metadata properties that `...img` would copy are dropped.
- Logging (`console.log`, `console.error`) is left out. So is the module-load `init()` call and what happens to its rejected promise.
- `images?.find` on a null catalog is not modelled: the catalog is always a sequence.
- The default `wordLimit = 7` of `truncateDescription` is not modelled. The only caller passes 3, and the model takes the limit as an argument.
