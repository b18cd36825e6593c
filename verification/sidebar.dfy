/**
 * The logic of the sidebar: shortening a description to a number of words
 * for the thumbnails, and choosing between the detail view of the target
 * image and the list of all images.
 */
module Sidebar {
  import opened Wrappers
  import opened JsString
  import opened Catalog
  import StoreModel

  const ThumbnailWordLimit: nat := 3

  /**
   * `truncateDescription`: null or empty gives ""; a description of at most
   * `wordLimit` space-separated pieces is returned as it is; a longer one is
   * cut to its first `wordLimit` pieces, re-joined, followed by " ...".
   * Either way the result is the input or a prefix of it followed by " ...".
   */
  function TruncateDescription(description: Option<string>, wordLimit: nat): (r: string)
    ensures r == "" <==> !Truthy(description)
    ensures Truthy(description) ==>
      r == description.value || (|r| >= 4 && r[|r| - 4..] == " ..." && r[..|r| - 4] <= description.value)
  {
    if !Truthy(description) then ""
    else
      var words := Split(description.value, ' ');
      if |words| <= wordLimit then description.value
      else
        JoinPrefix(words, wordLimit, ' ');
        JoinSplit(description.value, ' ');
        var kept := Join(words[..wordLimit], ' ');
        assert (kept + " ...")[..|kept|] == kept;
        kept + " ..."
  }

  /** A description within the limit is shown whole. */
  lemma TruncateWithinLimit(description: string, wordLimit: nat)
    requires description != "" && |Split(description, ' ')| <= wordLimit
    ensures TruncateDescription(Some(description), wordLimit) == description
  {
  }

  /** The first `k` pieces of a split, re-joined, split back into themselves. */
  lemma SplitKeptWords(description: string, k: nat)
    requires k <= |Split(description, ' ')|
    requires 1 <= k
    ensures Split(Join(Split(description, ' ')[..k], ' '), ' ') == Split(description, ' ')[..k]
  {
    var words := Split(description, ' ');
    var kept := words[..k];
    SplitPiecesFree(description, ' ');
    assert forall i :: 0 <= i < |kept| ==> kept[i] == words[i];
    SplitJoin(kept, ' ');
  }

  /** Appending the ellipsis adds exactly one piece. */
  lemma SplitEllipsis(j: string)
    ensures Split(j + " ...", ' ') == Split(j, ' ') + ["..."]
  {
    SplitAppend(j, "...", ' ');
    SplitWithoutSep("...", ' ');
    assert j + " ..." == j + [' '] + "...";
  }

  /** A cut description splits into the input's first `wordLimit` pieces and
      a final "...": `wordLimit + 1` pieces in all. */
  lemma TruncateSplitsAtLimit(description: string, wordLimit: nat)
    requires description != "" && 1 <= wordLimit < |Split(description, ' ')|
    ensures Split(TruncateDescription(Some(description), wordLimit), ' ') == Split(description, ' ')[..wordLimit] + ["..."]
  {
    var j := Join(Split(description, ' ')[..wordLimit], ' ');
    assert TruncateDescription(Some(description), wordLimit) == j + " ...";
    SplitKeptWords(description, wordLimit);
    SplitEllipsis(j);
  }

  /** The thumbnail's alt text. */
  function ThumbnailAlt(image: ImageRecord): (r: string)
    ensures |Split(r, ' ')| <= ThumbnailWordLimit + 1
    ensures image.description != "" ==> r != ""
  {
    var r := TruncateDescription(Some(image.description), ThumbnailWordLimit);
    assert |Split(r, ' ')| <= ThumbnailWordLimit + 1 by {
      if image.description != "" && |Split(image.description, ' ')| > ThumbnailWordLimit {
        TruncateSplitsAtLimit(image.description, ThumbnailWordLimit);
      }
    }
    r
  }

  /**
   * The image the detail view shows: the first image whose id equals the
   * target id, when the target id is truthy. None means the list of all
   * images is shown.
   */
  function DetailTarget(images: seq<ImageRecord>, targetImageId: Option<string>): (r: Option<ImageRecord>)
    ensures r.Some? ==> Truthy(targetImageId)
    ensures r.Some? ==> exists i: nat :: FirstWithId(images, targetImageId.value, i) && images[i] == r.value
    ensures r.None? ==> !Truthy(targetImageId) || forall i :: 0 <= i < |images| ==> images[i].id != targetImageId.value
  {
    if !Truthy(targetImageId) then None
    else
      match FindIndex(images, targetImageId.value)
      case None => None
      case Some(i) => Some(images[i])
  }

  /** Selecting an id that no image has is accepted: the sidebar opens, yet
      it shows the list, not a detail view. */
  lemma SelectUnknownShowsList(s: StoreModel.Snapshot, id: string)
    requires id != "" && Some(id) != s.targetImage
    requires forall i :: 0 <= i < |s.images| ==> s.images[i].id != id
    ensures var t := StoreModel.SetTargetImage(s, Some(id));
            t.targetImage == Some(id) && t.isSidebarOpen && DetailTarget(t.images, t.targetImage) == None
  {
  }
}
