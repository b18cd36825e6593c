/**
 * The values the store holds and the pure pieces of the store actions:
 * image records and positions, the two named layouts, lookup of a record by
 * id, the reconciliation of an upload's description, the data derived once at
 * start-up (public urls, the aspect-corrected grid, neutral start positions),
 * the stripping of code fences from a query reply, and the ids and status
 * captions of uploads.
 */
module Catalog {
  import opened Wrappers
  import opened JsString

  /** A position as the source stores it: a JavaScript array of numbers. Grid
      entries have two elements and placeholder entries three; sphere entries
      are taken from the fetched dataset as they are. */
  type Coord = seq<real>

  datatype ImageRecord = ImageRecord(id: string, description: string, url: string)

  /** An entry of the image metadata dataset. */
  datatype MetaRecord = MetaRecord(id: string, description: string)

  /** An entry of the 2-D grid dataset, destructured as `[x, y]`. */
  datatype Point2 = Point2(x: real, y: real)

  /** The three datasets fetched at start-up. */
  datatype Datasets = Datasets(meta: seq<MetaRecord>, sphere: map<string, Coord>, umapGrid: map<string, Point2>)

  /** The part of an uploaded file the store actions read: its name. */
  datatype FileInfo = FileInfo(name: string)

  datatype Layout = Sphere | Grid

  datatype Layouts = Layouts(sphere: map<string, Coord>, grid: map<string, Coord>)

  /** `layouts[layout]`. */
  function Table(layouts: Layouts, l: Layout): map<string, Coord>
  {
    match l
    case Sphere => layouts.sphere
    case Grid => layouts.grid
  }

  const StorageRoot := "https://www.gstatic.com/aistudio/starter-apps/photosphere/"
  const Neutral: Coord := [0.5, 0.5, 0.5]
  const PlaceholderDescription := "Generating description..."
  const ErrorDescription := "Error: Could not generate description."
  const JsonFence := "```json"
  const Fence := "```"

  // ---------------------------------------------------------------------------
  // Start-up data

  /** Every metadata entry, in order, gains the url `StorageRoot + id`. */
  function WithUrls(meta: seq<MetaRecord>): (r: seq<ImageRecord>)
    ensures |r| == |meta|
    ensures forall i :: 0 <= i < |r| ==>
      r[i].id == meta[i].id && r[i].description == meta[i].description && r[i].url == StorageRoot + meta[i].id
  {
    seq(|meta|, i requires 0 <= i < |meta| => ImageRecord(meta[i].id, meta[i].description, StorageRoot + meta[i].id))
  }

  /** The grid layout: one two-element entry per key of the 2-D dataset, `x`
      kept and `y` compressed by the 16:9 aspect ratio and raised by a quarter. */
  function GridFromUmap(umap: map<string, Point2>): (r: map<string, Coord>)
    ensures r.Keys == umap.Keys
    ensures forall k :: k in r ==>
      |r[k]| == 2 && r[k][0] == umap[k].x && 16.0 * r[k][1] == 9.0 * umap[k].y + 4.0
  {
    map k | k in umap :: [umap[k].x, umap[k].y / (16.0 / 9.0) + 0.25]
  }

  /** Every image id starts at the centre `[0.5, 0.5, 0.5]`. */
  function NeutralPositions(meta: seq<MetaRecord>): (r: map<string, Coord>)
    ensures r.Keys == set m | m in meta :: m.id
    ensures forall k :: k in r ==> r[k] == Neutral
  {
    map m | m in meta :: m.id := Neutral
  }

  // ---------------------------------------------------------------------------
  // Lookup by id

  /** `i` is the index of the first record whose id is `id`. */
  ghost predicate FirstWithId(images: seq<ImageRecord>, id: string, i: nat)
  {
    i < |images| && images[i].id == id && forall j :: 0 <= j < i ==> images[j].id != id
  }

  /** `images.find(img => img.id === id)`, as an index. */
  function FindIndex(images: seq<ImageRecord>, id: string): (r: Option<nat>)
    ensures r.Some? ==> FirstWithId(images, id, r.value)
    ensures r.None? ==> forall i :: 0 <= i < |images| ==> images[i].id != id
  {
    if |images| == 0 then None
    else if images[0].id == id then Some(0)
    else
      match FindIndex(images[1..], id)
      case None => None
      case Some(i) => Some(i + 1)
  }

  /**
   * Find the first record with id `id` and overwrite its description; when no
   * record has that id nothing changes. Ids, urls, order and every other
   * record are kept.
   */
  function Reconcile(images: seq<ImageRecord>, id: string, text: string): (r: seq<ImageRecord>)
    ensures |r| == |images|
    ensures forall i :: 0 <= i < |r| ==> r[i].id == images[i].id && r[i].url == images[i].url
    ensures forall i: nat :: FirstWithId(images, id, i) ==> r[i].description == text
    ensures forall i: nat :: i < |r| && !FirstWithId(images, id, i) ==> r[i] == images[i]
    ensures (forall i :: 0 <= i < |images| ==> images[i].id != id) ==> r == images
  {
    match FindIndex(images, id)
    case None => images
    case Some(i) => images[i := images[i].(description := text)]
  }

  // ---------------------------------------------------------------------------
  // Query replies

  /**
   * What `JSON.parse` followed by reading `.filenames` and `.commentary` gives:
   * a parse error, the value `null` (reading a property of it throws), or any
   * other value, whose properties are present or undefined (None).
   */
  datatype JsonReply = Malformed | JsonNull | Parsed(filenames: Option<seq<string>>, commentary: Option<string>)

  /** `res.replace('```json', '').replace('```', '')`: at most one opening
      and one closing fence are removed, and nothing else. */
  function StripFences(res: string): (r: string)
    ensures |res| - |JsonFence| - |Fence| <= |r| <= |res|
  {
    ReplaceFirst(ReplaceFirst(res, JsonFence), Fence)
  }

  /** A reply with no fence in it passes through unchanged. */
  lemma StripUnfenced(res: string)
    requires Absent(res, Fence)
    ensures StripFences(res) == res
  {
    forall i: nat | OccursAt(res, JsonFence, i)
      ensures OccursAt(res, Fence, i)
    {
      assert res[i..i + |Fence|] == res[i..i + |JsonFence|][..|Fence|];
    }
  }

  /** Removing the first occurrence of a string that the text starts with
      drops exactly that prefix. */
  lemma ReplaceFirstAtFront(pat: string, rest: string)
    ensures ReplaceFirst(pat + rest, pat) == rest
  {
    var s := pat + rest;
    assert s[0..|pat|] == pat;
    assert FirstAt(s, pat, 0);
  }

  /** Slices inside the first part of a concatenation are slices of that part. */
  lemma PrefixSlices(body: string, suffix: string)
    ensures forall i, j :: 0 <= i <= j <= |body| ==> (body + suffix)[i..j] == body[i..j]
  {
  }

  /** Removing the first ``` from a fence-free body followed by ``` gives the
      body back, even when the body ends in one or two backticks. */
  lemma ReplaceClosingFence(body: string)
    requires Absent(body, Fence)
    ensures ReplaceFirst(body + Fence, Fence) == body
  {
    var s := body + Fence;
    assert s[|body|..|body| + 3] == Fence;
    assert OccursAt(s, Fence, |body|);
    assert IndexOf(s, Fence).Some?;
    var i := IndexOf(s, Fence).value;
    assert FirstAt(s, Fence, i);
    assert i <= |body|;
    PrefixSlices(body, Fence);
    assert !OccursAt(body, Fence, i);
    assert i + 3 > |body|;
    var r := s[..i] + s[i + 3..];
    assert |r| == |body|;
    forall k | 0 <= k < |body|
      ensures r[k] == body[k]
    {
      if k < i {
        assert r[k] == s[k] == body[k];
      } else {
        assert r[k] == s[k + 3];
        assert s[k + 3] == Fence[k + 3 - |body|];
        assert s[i..i + 3] == Fence;
        assert s[k] == s[i..i + 3][k - i];
        assert s[k] == body[k];
      }
    }
  }

  /** A body wrapped in an opening ```json fence and a closing ``` fence is
      recovered exactly, provided the body itself holds no ``` fence. */
  lemma StripFencedReply(body: string)
    requires Absent(body, Fence)
    ensures StripFences(JsonFence + body + Fence) == body
  {
    assert JsonFence + body + Fence == JsonFence + (body + Fence);
    ReplaceFirstAtFront(JsonFence, body + Fence);
    ReplaceClosingFence(body);
  }

  /** Text without a backtick holds no fence. */
  lemma NoBacktickNoFence(body: string)
    requires '`' !in body
    ensures Absent(body, Fence)
  {
    forall i: nat
      ensures !OccursAt(body, Fence, i)
    {
      if i + 3 <= |body| {
        assert body[i..i + 3][0] == body[i];
      }
    }
  }

  /** A reply body naming the files "a" and "b" with the commentary "x":
      a JSON object on its own line. */
  const ExampleBody := "\n{\"filenames\":[\"a\",\"b\"],\"commentary\":\"x\"}\n"

  /** That reply, fenced as ```json ... ```, loses exactly its two fences. */
  lemma StripExampleReply()
    ensures StripFences(JsonFence + ExampleBody + Fence) == ExampleBody
  {
    assert '`' !in ExampleBody;
    NoBacktickNoFence(ExampleBody);
    StripFencedReply(ExampleBody);
  }

  // ---------------------------------------------------------------------------
  // Uploads

  /** The pieces of `prefix + digits + suffix` sit where they were put. */
  lemma PrefixDigitsSuffix(prefix: string, d: string, suffix: string)
    ensures (prefix + d + suffix)[..|prefix|] == prefix
    ensures (prefix + d + suffix)[|prefix|..|prefix| + |d|] == d
    ensures (prefix + d + suffix)[|prefix| + |d|..] == suffix
  {
  }

  /** `local-${Date.now()}-${file.name}`. */
  function UploadId(ms: nat, name: string): (r: string)
    ensures |r| == 7 + |NatToString(ms)| + |name|
    ensures r[..6] == "local-"
    ensures r[6..6 + |NatToString(ms)|] == NatToString(ms)
    ensures DecimalValue(r[6..6 + |NatToString(ms)|]) == ms
    ensures r[6 + |NatToString(ms)|] == '-'
    ensures r[|r| - |name|..] == name
  {
    var d := NatToString(ms);
    var r := "local-" + d + "-" + name;
    PrefixDigitsSuffix("local-", d, "-" + name);
    assert r == "local-" + d + ("-" + name);
    assert r[|r| - |name|..] == name;
    r
  }

  /** In `digits + "-" + rest` the first dash sits right after the digits. */
  lemma DigitsThenDash(d: string, rest: string)
    requires forall c :: c in d ==> IsDigit(c)
    ensures (d + "-" + rest)[|d|] == '-'
    ensures forall j :: 0 <= j < |d| ==> (d + "-" + rest)[j] != '-'
  {
    forall j | 0 <= j < |d|
      ensures (d + "-" + rest)[j] != '-'
    {
      assert (d + "-" + rest)[j] == d[j];
      assert d[j] in d;
    }
  }

  /** `digits + "-" + rest` determines both the digits and the rest. */
  lemma DigitsDashUnique(d1: string, rest1: string, d2: string, rest2: string)
    requires forall c :: c in d1 ==> IsDigit(c)
    requires forall c :: c in d2 ==> IsDigit(c)
    requires d1 + "-" + rest1 == d2 + "-" + rest2
    ensures d1 == d2 && rest1 == rest2
  {
    var t := d1 + "-" + rest1;
    DigitsThenDash(d1, rest1);
    DigitsThenDash(d2, rest2);
    assert |d1| == |d2|;
    assert d1 == t[..|d1|] == d2;
    assert rest1 == t[|d1| + 1..] == rest2;
  }

  /** Two uploads get the same id exactly when they share both the
      millisecond and the file name. */
  lemma UploadIdCollision(ms1: nat, name1: string, ms2: nat, name2: string)
    ensures UploadId(ms1, name1) == UploadId(ms2, name2) <==> ms1 == ms2 && name1 == name2
  {
    if UploadId(ms1, name1) == UploadId(ms2, name2) {
      var d1, d2 := NatToString(ms1), NatToString(ms2);
      assert UploadId(ms1, name1)[6..] == d1 + "-" + name1;
      assert UploadId(ms2, name2)[6..] == d2 + "-" + name2;
      DigitsDashUnique(d1, name1, d2, name2);
      NatToStringInjective(ms1, ms2);
    }
  }

  /** The caption while a batch of `n` files uploads, with the "s" of
      `image${n > 1 ? 's' : ''}`. */
  function UploadingCaption(n: nat): (r: string)
    ensures |r| == 19 + |NatToString(n)| + (if n > 1 then 1 else 0)
    ensures |r| >= 19 + |NatToString(n)|
    ensures r[..10] == "Uploading "
    ensures r[10..10 + |NatToString(n)|] == NatToString(n)
    ensures DecimalValue(r[10..10 + |NatToString(n)|]) == n
    ensures r[10 + |NatToString(n)|..16 + |NatToString(n)|] == " image"
    ensures n > 1 <==> r[|r| - 4..] == "s..."
  {
    var d := NatToString(n);
    var tail := if n > 1 then " images..." else " image...";
    PrefixDigitsSuffix("Uploading ", d, tail);
    var r := "Uploading " + d + tail;
    assert r[10 + |d|..] == tail;
    assert r[10 + |d|..16 + |d|] == tail[..6];
    assert r[|r| - 4..] == tail[|tail| - 4..];
    r
  }

  /** The caption once every file of a batch of `n` has settled. */
  function AddedCaption(n: nat): (r: string)
    ensures |r| == 30 + |NatToString(n)| + (if n > 1 then 1 else 0)
    ensures |r| >= 30 + |NatToString(n)|
    ensures r[..19] == "Successfully added "
    ensures r[19..19 + |NatToString(n)|] == NatToString(n)
    ensures DecimalValue(r[19..19 + |NatToString(n)|]) == n
    ensures r[19 + |NatToString(n)|..29 + |NatToString(n)|] == " new image"
    ensures n > 1 <==> r[|r| - 2..] == "s."
  {
    var d := NatToString(n);
    var tail := if n > 1 then " new images." else " new image.";
    PrefixDigitsSuffix("Successfully added ", d, tail);
    var r := "Successfully added " + d + tail;
    assert r[19 + |d|..] == tail;
    assert r[19 + |d|..29 + |d|] == tail[..10];
    assert r[|r| - 2..] == tail[|tail| - 2..];
    r
  }

  /** The uploading caption of `n` spelled out from its digits. */
  lemma UploadingCaptionOf(n: nat, digits: string)
    requires NatToString(n) == digits
    ensures UploadingCaption(n) == "Uploading " + digits + (if n > 1 then " images..." else " image...")
  {
  }

  /** The closing caption of `n` spelled out from its digits. */
  lemma AddedCaptionOf(n: nat, digits: string)
    requires NatToString(n) == digits
    ensures AddedCaption(n) == "Successfully added " + digits + (if n > 1 then " new images." else " new image.")
  {
  }

  /** The renderings of the counts the examples use. */
  lemma OneAndThreeDigits()
    ensures NatToString(1) == "1" && NatToString(3) == "3"
  {
  }

  /** The literal pieces of the uploading captions for one file and for three. */
  lemma UploadingLiterals()
    ensures "Uploading " + "1" + " image..." == "Uploading 1 image..."
    ensures "Uploading " + "3" + " images..." == "Uploading 3 images..."
  {
  }

  /** The literal pieces of the closing captions for one file and for three. */
  lemma AddedLiterals()
    ensures "Successfully added " + "1" + " new image." == "Successfully added 1 new image."
    ensures "Successfully added " + "3" + " new images." == "Successfully added 3 new images."
  {
  }

  /** The uploading caption reads as English for a single file and for several. */
  lemma UploadingCaptionExamples()
    ensures UploadingCaption(1) == "Uploading 1 image..."
    ensures UploadingCaption(3) == "Uploading 3 images..."
  {
    OneAndThreeDigits();
    UploadingCaptionOf(1, "1");
    UploadingCaptionOf(3, "3");
    UploadingLiterals();
  }

  /** The closing caption reads as English for a single file and for several. */
  lemma AddedCaptionExamples()
    ensures AddedCaption(1) == "Successfully added 1 new image."
    ensures AddedCaption(3) == "Successfully added 3 new images."
  {
    OneAndThreeDigits();
    AddedCaptionOf(1, "1");
    AddedCaptionOf(3, "3");
    AddedLiterals();
  }
}
