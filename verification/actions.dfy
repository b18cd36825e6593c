/**
 * The process-wide store and the actions that mutate it. Each
 * `set(state => ...)` callback is one method that updates the fields in
 * place; an async action is split at its `await` points into methods that
 * can be called in any order, which is how overlapping actions interleave.
 * Every method states its new state as a transition of StoreModel applied
 * to the old one.
 */
module Actions {
  import opened Wrappers
  import opened JsString
  import opened Catalog
  import StoreModel

  class Store {
    var images: seq<ImageRecord>
    var layout: Layout
    var layouts: Layouts
    var nodePositions: map<string, Coord>
    var targetImage: Option<string>
    var isSidebarOpen: bool
    var isFetching: bool
    var resetCam: bool
    var xRayMode: bool
    var didInit: bool
    var caption: Option<string>
    var highlightNodes: Option<seq<string>>

    /** The store's fields as one value. */
    function State(): StoreModel.Snapshot
      reads this
    {
      StoreModel.Snapshot(images, layout, layouts, nodePositions, targetImage, isSidebarOpen, isFetching,
                          resetCam, xRayMode, didInit, caption, highlightNodes)
    }

    /** A store holding `initial`; the initial values are chosen by the store
        definition, which is outside this model. */
    constructor (initial: StoreModel.Snapshot)
      ensures State() == initial
    {
      images := initial.images;
      layout := initial.layout;
      layouts := initial.layouts;
      nodePositions := initial.nodePositions;
      targetImage := initial.targetImage;
      isSidebarOpen := initial.isSidebarOpen;
      isFetching := initial.isFetching;
      resetCam := initial.resetCam;
      xRayMode := initial.xRayMode;
      didInit := initial.didInit;
      caption := initial.caption;
      highlightNodes := initial.highlightNodes;
    }

    // -------------------------------------------------------------------------
    // init

    /** `init` up to its fetch; `proceed` is false when it returned early. */
    method InitBegin() returns (proceed: bool)
      modifies this
      ensures proceed == !old(didInit)
      ensures State() == StoreModel.InitBegin(old(State()))
    {
      if didInit {
        return false;
      }
      didInit := true;
      proceed := true;
    }

    /** `init` after its three fetches succeeded. */
    method InitCommit(data: Datasets)
      modifies this
      ensures State() == StoreModel.InitCommit(old(State()), data)
    {
      images := WithUrls(data.meta);
      layouts := Layouts(data.sphere, GridFromUmap(data.umapGrid));
      nodePositions := NeutralPositions(data.meta);
      SetLayout(Sphere);
    }

    /** `init` with nothing interleaved; `fetched` is the outcome of the three
        fetches, and `err` the error the returned promise rejects with. */
    method Init(fetched: Result<Datasets, string>) returns (err: Option<string>)
      modifies this
      ensures State() == StoreModel.Init(old(State()), fetched)
      ensures err == if !old(didInit) && fetched.Failure? then Some(fetched.error) else None
    {
      var proceed := InitBegin();
      if !proceed {
        return None;
      }
      match fetched
      case Failure(e) =>
        err := Some(e);
      case Success(data) =>
        InitCommit(data);
        err := None;
    }

    // -------------------------------------------------------------------------
    // Layouts

    method SetLayout(l: Layout)
      modifies this
      ensures State() == StoreModel.SetLayout(old(State()), l)
    {
      layout := l;
      nodePositions := Table(layouts, l);
    }

    method SetSphereLayout(positions: map<string, Coord>)
      modifies this
      ensures State() == StoreModel.SetSphereLayout(old(State()), positions)
    {
      layouts := layouts.(sphere := positions);
    }

    // -------------------------------------------------------------------------
    // sendQuery

    method QueryBegin()
      modifies this
      ensures State() == StoreModel.QueryBegin(old(State()))
    {
      isFetching := true;
      targetImage := None;
      resetCam := true;
      caption := None;
    }

    /** The backend answered `response`; `parse` stands for `JSON.parse`
        followed by reading the two properties. */
    method QueryApply(response: string, parse: string -> JsonReply)
      modifies this
      ensures State() == StoreModel.QueryApply(old(State()), response, parse)
    {
      var reply := parse(StripFences(response));
      match reply
      case Parsed(filenames, commentary) =>
        highlightNodes := filenames;
        caption := commentary;
      case _ =>
    }

    method QueryEnd()
      modifies this
      ensures State() == StoreModel.QueryEnd(old(State()))
    {
      isFetching := false;
    }

    /** `sendQuery` with nothing interleaved; `reply` is what the backend call
        returned or threw, and `err` the error that propagates after the
        `finally` step. */
    method SendQuery(reply: Result<string, string>, parse: string -> JsonReply) returns (err: Option<string>)
      modifies this
      ensures State() == StoreModel.SendQuery(old(State()), reply, parse)
      ensures !isFetching
      ensures err == if reply.Failure? then Some(reply.error) else None
    {
      QueryBegin();
      match reply {
        case Failure(e) =>
          err := Some(e);
        case Success(response) =>
          QueryApply(response, parse);
          err := None;
      }
      QueryEnd();
    }

    method ClearQuery()
      modifies this
      ensures State() == StoreModel.ClearQuery(old(State()))
    {
      highlightNodes := None;
      caption := None;
      targetImage := None;
    }

    // -------------------------------------------------------------------------
    // uploadImages

    /** `uploadImages` up to the per-file tasks; `proceed` is false when there
        were no files. */
    method UploadBegin(files: Option<seq<FileInfo>>) returns (proceed: bool)
      modifies this
      ensures proceed == (files.Some? && |files.value| > 0)
      ensures State() == StoreModel.UploadBegin(old(State()), files)
    {
      if files.None? || |files.value| == 0 {
        return false;
      }
      isFetching := true;
      caption := Some(UploadingCaption(|files.value|));
      proceed := true;
    }

    /** One file's task up to its backend call: `now` is `Date.now()`, `url`
        the object url, and `x`, `y`, `z` the three `Math.random()` draws. */
    method UploadInsert(file: FileInfo, now: nat, url: string, x: real, y: real, z: real) returns (id: string)
      modifies this
      ensures id == UploadId(now, file.name)
      ensures State() == StoreModel.UploadInsert(old(State()), id, url, [x, y, z])
    {
      id := UploadId(now, file.name);
      var tempImage := ImageRecord(id, PlaceholderDescription, url);
      images := [tempImage] + images;
      nodePositions := nodePositions[id := [x, y, z]];
    }

    /** One file's task after its description arrived. */
    method UploadResolve(id: string, description: string)
      modifies this
      ensures State() == StoreModel.UploadResolve(old(State()), id, description)
    {
      var found := FindIndex(images, id);
      if found.Some? {
        var i := found.value;
        images := images[i := images[i].(description := description)];
      }
    }

    /** One file's task after its description call threw. */
    method UploadFail(id: string)
      modifies this
      ensures State() == StoreModel.UploadFail(old(State()), id)
    {
      var found := FindIndex(images, id);
      if found.Some? {
        var i := found.value;
        images := images[i := images[i].(description := ErrorDescription)];
      }
    }

    /** `uploadImages` after every file's task settled; `count` is
        `files.length`. */
    method UploadFinish(count: nat)
      modifies this
      ensures State() == StoreModel.UploadFinish(old(State()), count)
    {
      isFetching := false;
      caption := Some(AddedCaption(count));
    }

    // -------------------------------------------------------------------------
    // Selection and visibility

    method SetXRayMode(on: bool)
      modifies this
      ensures State() == StoreModel.SetXRayMode(old(State()), on)
    {
      xRayMode := on;
    }

    /** `setTargetImage`: the async function has no `await`, so its two `set`
        calls run back to back. */
    method SetTargetImage(target: Option<string>)
      modifies this
      ensures State() == StoreModel.SetTargetImage(old(State()), target)
    {
      var next := target;
      if next == targetImage {
        next := None;
      }
      targetImage := next;
      isFetching := Truthy(next);
      highlightNodes := None;
      if Truthy(next) {
        isSidebarOpen := true;
      }
      if !Truthy(next) {
        return;
      }
      isFetching := false;
    }

    method ToggleSidebar()
      modifies this
      ensures State() == StoreModel.ToggleSidebar(old(State()))
    {
      isSidebarOpen := !isSidebarOpen;
    }

    method SetSidebarOpen(open: bool)
      modifies this
      ensures State() == StoreModel.SetSidebarOpen(old(State()), open)
    {
      isSidebarOpen := open;
    }
  }
}
