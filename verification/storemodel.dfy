/**
 * The store of the image explorer as a value, and every `set(state => ...)`
 * callback of the store actions as a function from the snapshot before to
 * the snapshot after. An async action is split at its `await` points into
 * steps; results of the backend, the clock and the random generator are
 * parameters. Each transition states which fields it changes and that every
 * other field is kept.
 */
module StoreModel {
  import opened Wrappers
  import opened JsString
  import opened Catalog

  datatype Snapshot = Snapshot(
    images: seq<ImageRecord>,
    layout: Layout,
    layouts: Layouts,
    nodePositions: map<string, Coord>,
    targetImage: Option<string>,
    isSidebarOpen: bool,
    isFetching: bool,
    resetCam: bool,
    xRayMode: bool,
    didInit: bool,
    caption: Option<string>,
    highlightNodes: Option<seq<string>>)

  /** The positions in effect are those of the active layout. */
  predicate LayoutsAgree(s: Snapshot)
  {
    s.nodePositions == Table(s.layouts, s.layout)
  }

  /** Every image has a position. */
  ghost predicate PositionsCover(s: Snapshot)
  {
    forall i :: 0 <= i < |s.images| ==> s.images[i].id in s.nodePositions
  }

  // ---------------------------------------------------------------------------
  // init

  /** First step of `init`: a second call returns at once; the first sets the
      guard before anything is fetched. */
  function InitBegin(s: Snapshot): (t: Snapshot)
    ensures t.didInit
    ensures s.didInit ==> t == s
    ensures t.(didInit := s.didInit) == s
  {
    if s.didInit then s else s.(didInit := true)
  }

  /** The commit of the fetched datasets, before the layout switch. */
  function CommitDatasets(s: Snapshot, data: Datasets): (t: Snapshot)
    ensures |t.images| == |data.meta|
    ensures forall i :: 0 <= i < |data.meta| ==>
      t.images[i] == ImageRecord(data.meta[i].id, data.meta[i].description, StorageRoot + data.meta[i].id)
    ensures t.layouts.sphere == data.sphere
    ensures t.layouts.grid.Keys == data.umapGrid.Keys
    ensures forall k :: k in t.layouts.grid ==> |t.layouts.grid[k]| == 2 && t.layouts.grid[k][0] == data.umapGrid[k].x
    ensures t.layouts.grid == GridFromUmap(data.umapGrid)
    ensures forall i :: 0 <= i < |data.meta| ==> data.meta[i].id in t.nodePositions && t.nodePositions[data.meta[i].id] == Neutral
    ensures forall k :: k in t.nodePositions ==> exists i :: 0 <= i < |data.meta| && data.meta[i].id == k
    ensures t.(images := s.images, layouts := s.layouts, nodePositions := s.nodePositions) == s
  {
    var t := s.(images := WithUrls(data.meta),
                layouts := Layouts(data.sphere, GridFromUmap(data.umapGrid)),
                nodePositions := NeutralPositions(data.meta));
    assert forall i :: 0 <= i < |data.meta| ==> data.meta[i] in data.meta;
    t
  }

  /** Last step of `init`: commit, then `setLayout('sphere')`. The neutral
      positions are replaced at once by the sphere dataset. */
  function InitCommit(s: Snapshot, data: Datasets): (t: Snapshot)
    ensures t.images == CommitDatasets(s, data).images
    ensures t.layouts == CommitDatasets(s, data).layouts
    ensures t.layout == Sphere && t.nodePositions == data.sphere && LayoutsAgree(t)
    ensures t.(images := s.images, layouts := s.layouts, nodePositions := s.nodePositions, layout := s.layout) == s
  {
    SetLayout(CommitDatasets(s, data), Sphere)
  }

  /** `init` run without interleaving: a failed fetch leaves the guard set and
      no catalog. */
  function Init(s: Snapshot, fetched: Result<Datasets, string>): (t: Snapshot)
    ensures t.didInit
    ensures s.didInit ==> t == s
    ensures !s.didInit && fetched.Failure? ==> t == s.(didInit := true)
    ensures !s.didInit && fetched.Success? ==> t == InitCommit(s.(didInit := true), fetched.value)
  {
    if s.didInit then s
    else
      match fetched
      case Failure(_) => InitBegin(s)
      case Success(data) => InitCommit(InitBegin(s), data)
  }

  /** Only the first `init` has any effect. */
  lemma InitIsOnce(s: Snapshot, first: Result<Datasets, string>, second: Result<Datasets, string>)
    ensures Init(Init(s, first), second) == Init(s, first)
  {
  }

  /** Images from the metadata that the sphere dataset does not place end up
      without a position: positions cover the catalog exactly when the sphere
      dataset has every image id. */
  lemma InitCommitCoverage(s: Snapshot, data: Datasets)
    ensures PositionsCover(InitCommit(s, data)) <==> forall i :: 0 <= i < |data.meta| ==> data.meta[i].id in data.sphere
  {
    var t := InitCommit(s, data);
    if PositionsCover(t) {
      forall i | 0 <= i < |data.meta|
        ensures data.meta[i].id in data.sphere
      {
        assert t.images[i].id == data.meta[i].id;
      }
    }
  }

  // ---------------------------------------------------------------------------
  // Layouts

  /** `setLayout`: the active layout and the positions in effect change
      together, so they agree immediately afterwards. */
  function SetLayout(s: Snapshot, l: Layout): (t: Snapshot)
    ensures t.layout == l && LayoutsAgree(t)
    ensures t.(layout := s.layout, nodePositions := s.nodePositions) == s
  {
    s.(layout := l, nodePositions := Table(s.layouts, l))
  }

  /** `setSphereLayout`: only the stored sphere table is replaced; the
      positions in effect are not touched. */
  function SetSphereLayout(s: Snapshot, positions: map<string, Coord>): (t: Snapshot)
    ensures t.layouts.sphere == positions && t.layouts.grid == s.layouts.grid
    ensures t.(layouts := s.layouts) == s
  {
    s.(layouts := s.layouts.(sphere := positions))
  }

  /** A recomputed sphere shows only after the next switch to it: while the
      sphere is active, replacing its table breaks the agreement of layout
      and positions, and `setLayout('sphere')` restores it. */
  lemma SphereRecomputeNeedsSwitch(s: Snapshot, positions: map<string, Coord>)
    requires s.layout == Sphere && s.nodePositions != positions
    ensures !LayoutsAgree(SetSphereLayout(s, positions))
    ensures SetLayout(SetSphereLayout(s, positions), Sphere).nodePositions == positions
  {
  }

  // ---------------------------------------------------------------------------
  // sendQuery

  /** First step of `sendQuery`, before the backend call. */
  function QueryBegin(s: Snapshot): (t: Snapshot)
    ensures t.isFetching && t.targetImage == None && t.resetCam && t.caption == None
    ensures t.(isFetching := s.isFetching, targetImage := s.targetImage, resetCam := s.resetCam, caption := s.caption) == s
  {
    s.(isFetching := true, targetImage := None, resetCam := true, caption := None)
  }

  /** Second step of `sendQuery`, when the backend answered `response`: strip
      the fences, parse, and store the two properties unchecked. A reply that
      does not parse, or parses to null, changes nothing. */
  function QueryApply(s: Snapshot, response: string, parse: string -> JsonReply): (t: Snapshot)
    ensures parse(StripFences(response)).Parsed? ==>
      t.highlightNodes == parse(StripFences(response)).filenames &&
      t.caption == parse(StripFences(response)).commentary &&
      t.(highlightNodes := s.highlightNodes, caption := s.caption) == s
    ensures !parse(StripFences(response)).Parsed? ==> t == s
  {
    match parse(StripFences(response))
    case Parsed(filenames, commentary) => s.(highlightNodes := filenames, caption := commentary)
    case _ => s
  }

  /** The `finally` step of `sendQuery`. */
  function QueryEnd(s: Snapshot): (t: Snapshot)
    ensures !t.isFetching
    ensures t.(isFetching := s.isFetching) == s
  {
    s.(isFetching := false)
  }

  /** `sendQuery` run without interleaving; `reply` is what the backend call
      returned or threw. */
  function SendQuery(s: Snapshot, reply: Result<string, string>, parse: string -> JsonReply): (t: Snapshot)
    ensures !t.isFetching
    ensures t.targetImage == None && t.resetCam
    ensures reply.Success? && parse(StripFences(reply.value)).Parsed? ==>
      t.highlightNodes == parse(StripFences(reply.value)).filenames &&
      t.caption == parse(StripFences(reply.value)).commentary
    ensures reply.Failure? || !parse(StripFences(reply.value)).Parsed? ==>
      t.highlightNodes == s.highlightNodes && t.caption == None
    ensures t.(isFetching := s.isFetching, targetImage := s.targetImage, resetCam := s.resetCam,
               caption := s.caption, highlightNodes := s.highlightNodes) == s
  {
    match reply
    case Failure(_) => QueryEnd(QueryBegin(s))
    case Success(response) => QueryEnd(QueryApply(QueryBegin(s), response, parse))
  }

  /** A reply fenced as ```json ... ``` that names "a" and "b" with the
      commentary "x" highlights exactly those and shows that caption. */
  lemma SendQueryExample(s: Snapshot, parse: string -> JsonReply)
    requires parse(ExampleBody) == Parsed(Some(["a", "b"]), Some("x"))
    ensures SendQuery(s, Success(JsonFence + ExampleBody + Fence), parse).highlightNodes == Some(["a", "b"])
    ensures SendQuery(s, Success(JsonFence + ExampleBody + Fence), parse).caption == Some("x")
  {
    StripExampleReply();
  }

  /** `clearQuery`. */
  function ClearQuery(s: Snapshot): (t: Snapshot)
    ensures t.highlightNodes == None && t.caption == None && t.targetImage == None
    ensures t.(highlightNodes := s.highlightNodes, caption := s.caption, targetImage := s.targetImage) == s
  {
    s.(highlightNodes := None, caption := None, targetImage := None)
  }

  lemma ClearQueryIdempotent(s: Snapshot)
    ensures ClearQuery(ClearQuery(s)) == ClearQuery(s)
  {
  }

  // ---------------------------------------------------------------------------
  // uploadImages

  /** First step of `uploadImages`: null or no files is a no-op; otherwise
      the store is busy and says how many images are uploading. */
  function UploadBegin(s: Snapshot, files: Option<seq<FileInfo>>): (t: Snapshot)
    ensures files.None? || |files.value| == 0 ==> t == s
    ensures files.Some? && |files.value| > 0 ==>
      t.isFetching && t.caption == Some(UploadingCaption(|files.value|)) &&
      t.(isFetching := s.isFetching, caption := s.caption) == s
  {
    if files.None? || |files.value| == 0 then s
    else s.(isFetching := true, caption := Some(UploadingCaption(|files.value|)))
  }

  /** The placeholder of one file: a record at the front of the catalog and a
      position under its id. */
  function UploadInsert(s: Snapshot, id: string, url: string, position: Coord): (t: Snapshot)
    ensures |t.images| == |s.images| + 1
    ensures t.images[0] == ImageRecord(id, PlaceholderDescription, url) && t.images[1..] == s.images
    ensures t.nodePositions.Keys == s.nodePositions.Keys + {id} && t.nodePositions[id] == position
    ensures forall k :: k in s.nodePositions && k != id ==> t.nodePositions[k] == s.nodePositions[k]
    ensures t.(images := s.images, nodePositions := s.nodePositions) == s
  {
    s.(images := [ImageRecord(id, PlaceholderDescription, url)] + s.images,
       nodePositions := s.nodePositions[id := position])
  }

  /** A file's description arrived: the first record with its id takes it. */
  function UploadResolve(s: Snapshot, id: string, description: string): (t: Snapshot)
    ensures t.images == Reconcile(s.images, id, description)
    ensures t.(images := s.images) == s
  {
    s.(images := Reconcile(s.images, id, description))
  }

  /** A file's description failed: the first record with its id takes the
      error text. */
  function UploadFail(s: Snapshot, id: string): (t: Snapshot)
    ensures t.images == Reconcile(s.images, id, ErrorDescription)
    ensures t.(images := s.images) == s
  {
    s.(images := Reconcile(s.images, id, ErrorDescription))
  }

  /** Last step of `uploadImages`, once every file has settled. */
  function UploadFinish(s: Snapshot, count: nat): (t: Snapshot)
    ensures !t.isFetching && t.caption == Some(AddedCaption(count))
    ensures t.(isFetching := s.isFetching, caption := s.caption) == s
  {
    s.(isFetching := false, caption := Some(AddedCaption(count)))
  }

  /** Placeholders and reconciliation keep every image placed. */
  lemma UploadKeepsPositionsCovered(s: Snapshot, id: string, url: string, position: Coord, description: string)
    requires PositionsCover(s)
    ensures PositionsCover(UploadInsert(s, id, url, position))
    ensures PositionsCover(UploadResolve(s, id, description))
    ensures PositionsCover(UploadFail(s, id))
  {
    var t := UploadInsert(s, id, url, position);
    forall i | 0 <= i < |t.images|
      ensures t.images[i].id in t.nodePositions
    {
      if i > 0 {
        assert t.images[i] == s.images[i - 1];
      }
    }
  }

  /**
   * Two placeholders with the same id (same millisecond, same file name):
   * both answers land on the newer record, and the older one keeps the
   * "Generating description..." text for good.
   */
  lemma CollidingPlaceholderNeverReconciled(s: Snapshot, id: string, url1: string, p1: Coord, url2: string, p2: Coord,
                                            d1: string, d2: string)
    ensures var a := UploadInsert(UploadInsert(s, id, url1, p1), id, url2, p2);
            var t := UploadResolve(UploadResolve(a, id, d1), id, d2);
            t.images[0] == ImageRecord(id, d2, url2) && t.images[1] == ImageRecord(id, PlaceholderDescription, url1)
  {
    var a := UploadInsert(UploadInsert(s, id, url1, p1), id, url2, p2);
    assert a.images[1] == ImageRecord(id, PlaceholderDescription, url1);
    var b := UploadResolve(a, id, d1);
    assert FirstWithId(a.images, id, 0);
    assert !FirstWithId(a.images, id, 1);
    assert FirstWithId(b.images, id, 0);
    assert !FirstWithId(b.images, id, 1);
  }

  /** Reconciling an id whose first record is at `k` rewrites exactly that
      record's description. */
  lemma ReconcileAt(images: seq<ImageRecord>, id: string, k: nat, text: string)
    requires FirstWithId(images, id, k)
    ensures Reconcile(images, id, text) == images[k := images[k].(description := text)]
  {
    var r := Reconcile(images, id, text);
    forall i | 0 <= i < |images|
      ensures r[i] == images[k := images[k].(description := text)][i]
    {
      if i != k {
        assert !FirstWithId(images, id, i);
      }
    }
  }

  /** Reconciling a record that no earlier record shares its id with
      rewrites that record alone. */
  lemma ReconcileBehind(prefix: seq<ImageRecord>, r: ImageRecord, rest: seq<ImageRecord>, text: string)
    requires forall j :: 0 <= j < |prefix| ==> prefix[j].id != r.id
    ensures Reconcile(prefix + [r] + rest, r.id, text) == prefix + [r.(description := text)] + rest
  {
    var xs := prefix + [r] + rest;
    assert xs[|prefix|] == r;
    assert FirstWithId(xs, r.id, |prefix|);
    ReconcileAt(xs, r.id, |prefix|, text);
    assert xs[|prefix| := r.(description := text)] == prefix + [r.(description := text)] + rest;
  }

  /** The oldest of three placeholders is reconciled behind the two newer ones. */
  lemma ReconcileThird(older: seq<ImageRecord>, x: ImageRecord, y: ImageRecord, z: ImageRecord, text: string)
    requires x.id != z.id && y.id != z.id
    ensures Reconcile([x, y, z] + older, z.id, text) == [x, y, z.(description := text)] + older
  {
    assert [x, y, z] + older == [x, y] + [z] + older;
    ReconcileBehind([x, y], z, older, text);
    assert [x, y] + [z.(description := text)] + older == [x, y, z.(description := text)] + older;
  }

  /** The middle of three placeholders is reconciled behind the newest one. */
  lemma ReconcileSecond(older: seq<ImageRecord>, x: ImageRecord, y: ImageRecord, z: ImageRecord, text: string)
    requires x.id != y.id
    ensures Reconcile([x, y, z] + older, y.id, text) == [x, y.(description := text), z] + older
  {
    assert [x, y, z] + older == [x] + [y] + ([z] + older);
    ReconcileBehind([x], y, [z] + older, text);
    assert [x] + [y.(description := text)] + ([z] + older) == [x, y.(description := text), z] + older;
  }

  /** The newest of three placeholders is reconciled in front. */
  lemma ReconcileFirst(older: seq<ImageRecord>, x: ImageRecord, y: ImageRecord, z: ImageRecord, text: string)
    ensures Reconcile([x, y, z] + older, x.id, text) == [x.(description := text), y, z] + older
  {
    assert [x, y, z] + older == [] + [x] + ([y, z] + older);
    ReconcileBehind([], x, [y, z] + older, text);
    assert [] + [x.(description := text)] + ([y, z] + older) == [x.(description := text), y, z] + older;
  }

  /** Reconciling three distinct placeholders in insertion order, the middle
      one with the error text. */
  lemma ReconcileThree(older: seq<ImageRecord>, r0: ImageRecord, r1: ImageRecord, r2: ImageRecord, d1: string, d3: string)
    requires r0.id != r1.id && r1.id != r2.id && r0.id != r2.id
    ensures Reconcile(Reconcile(Reconcile([r2, r1, r0] + older, r0.id, d1), r1.id, ErrorDescription), r2.id, d3)
         == [r2.(description := d3), r1.(description := ErrorDescription), r0.(description := d1)] + older
  {
    var q0, q1 := r0.(description := d1), r1.(description := ErrorDescription);
    ReconcileThird(older, r2, r1, r0, d1);
    ReconcileSecond(older, r2, r1, q0, ErrorDescription);
    ReconcileFirst(older, r2, q1, q0, d3);
  }

  /**
   * A batch of three files with distinct ids, the second of
   * which fails. The newest placeholder is first; exactly the second file's
   * record carries the error text, older images follow untouched, and the
   * final caption counts three.
   */
  lemma UploadBatchExample(s: Snapshot, files: seq<FileInfo>, ids: seq<string>, urls: seq<string>, ps: seq<Coord>,
                           d1: string, d3: string)
    requires |files| == 3 && |ids| == 3 && |urls| == 3 && |ps| == 3
    requires ids[0] != ids[1] && ids[1] != ids[2] && ids[0] != ids[2]
    ensures var a := UploadBegin(s, Some(files));
            var b := UploadInsert(UploadInsert(UploadInsert(a, ids[0], urls[0], ps[0]), ids[1], urls[1], ps[1]), ids[2], urls[2], ps[2]);
            var t := UploadFinish(UploadResolve(UploadFail(UploadResolve(b, ids[0], d1), ids[1]), ids[2], d3), 3);
            && t.images == [ImageRecord(ids[2], d3, urls[2]), ImageRecord(ids[1], ErrorDescription, urls[1]), ImageRecord(ids[0], d1, urls[0])]
                           + s.images
            && t.caption == Some("Successfully added 3 new images.")
            && !t.isFetching
  {
    var r0, r1, r2 := ImageRecord(ids[0], PlaceholderDescription, urls[0]), ImageRecord(ids[1], PlaceholderDescription, urls[1]),
                      ImageRecord(ids[2], PlaceholderDescription, urls[2]);
    var a := UploadBegin(s, Some(files));
    var b := UploadInsert(UploadInsert(UploadInsert(a, ids[0], urls[0], ps[0]), ids[1], urls[1], ps[1]), ids[2], urls[2], ps[2]);
    assert b.images == [r2, r1, r0] + s.images;
    ReconcileThree(s.images, r0, r1, r2, d1, d3);
    AddedCaptionExamples();
  }

  // ---------------------------------------------------------------------------
  // Selection and visibility

  /** `setXRayMode`. */
  function SetXRayMode(s: Snapshot, on: bool): (t: Snapshot)
    ensures t.xRayMode == on
    ensures t.(xRayMode := s.xRayMode) == s
  {
    s.(xRayMode := on)
  }

  /**
   * `setTargetImage`: choosing the current target again deselects. The id is
   * not checked against the catalog. The highlight is always cleared, the
   * store ends not busy, and the sidebar is forced open only when a (truthy)
   * target results; a deselect leaves it as it was.
   */
  function SetTargetImage(s: Snapshot, target: Option<string>): (t: Snapshot)
    ensures target == s.targetImage ==> t.targetImage == None
    ensures target != s.targetImage ==> t.targetImage == target
    ensures !t.isFetching && t.highlightNodes == None
    ensures t.isSidebarOpen == (Truthy(t.targetImage) || s.isSidebarOpen)
    ensures t.(targetImage := s.targetImage, isFetching := s.isFetching, highlightNodes := s.highlightNodes,
               isSidebarOpen := s.isSidebarOpen) == s
  {
    var next := if target == s.targetImage then None else target;
    var shown := s.(targetImage := next, isFetching := Truthy(next), highlightNodes := None,
                    isSidebarOpen := if Truthy(next) then true else s.isSidebarOpen);
    if !Truthy(next) then shown else shown.(isFetching := false)
  }

  /** Choosing the same target twice: if the first call selected it, the
      second deselects; if the first deselected it, the second selects it
      again. */
  lemma SetTargetImageTwice(s: Snapshot, target: Option<string>)
    ensures target != s.targetImage ==> SetTargetImage(SetTargetImage(s, target), target).targetImage == None
    ensures target == s.targetImage ==> SetTargetImage(SetTargetImage(s, target), target).targetImage == s.targetImage
  {
  }

  /** `toggleSidebar`. */
  function ToggleSidebar(s: Snapshot): (t: Snapshot)
    ensures t.isSidebarOpen != s.isSidebarOpen
    ensures t.(isSidebarOpen := s.isSidebarOpen) == s
  {
    s.(isSidebarOpen := !s.isSidebarOpen)
  }

  lemma ToggleSidebarTwice(s: Snapshot)
    ensures ToggleSidebar(ToggleSidebar(s)) == s
  {
  }

  /** `setSidebarOpen`. */
  function SetSidebarOpen(s: Snapshot, open: bool): (t: Snapshot)
    ensures t.isSidebarOpen == open
    ensures t.(isSidebarOpen := s.isSidebarOpen) == s
  {
    s.(isSidebarOpen := open)
  }
}
