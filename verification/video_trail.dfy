/** The list of "squares" `VideoTrail` renders, from
    public/video-ui/src/components/VideoUpload/VideoTrail.js: the upload in
    progress in this browser, the uploads waiting for YouTube, then the
    video's assets, or a single empty placeholder when there is nothing.
    React elements are modelled as the data they are built from; dates are
    not formatted. */
module VideoTrail {
  import opened Wrappers
  import opened Js

  const VideoWidth := 320
  const VideoHeight := 180
  const YoutubePlatform := "Youtube"
  const LocalUploadKey := "upload"
  const S3Message := "Uploading To S3"
  const YoutubeMessage := "Uploading To YouTube"

  /** The player of an asset: an `iframe` for YouTube, `false` otherwise. */
  datatype Embed = NoEmbed | Frame(kind: string, width: int, height: int, src: string, frameBorder: int)

  /** `embed(assetId, platform)`. */
  function EmbedFor(assetId: string, platform: string): (r: Embed)
    ensures r.Frame? <==> platform == YoutubePlatform
    ensures r.Frame? ==> && r.src == "https://www.youtube.com/embed/" + assetId + "?showinfo=0"
                         && r.kind == "text/html" && r.width == VideoWidth && r.height == VideoHeight
                         && r.frameBorder == 0
  {
    if platform == YoutubePlatform then
      Frame("text/html", VideoWidth, VideoHeight, "https://www.youtube.com/embed/" + assetId + "?showinfo=0", 0)
    else NoEmbed
  }

  /** The activation button: its classes, label, whether it is disabled, and
      the `(assetId, version)` its click selects. */
  datatype Selector = Selector(classes: string, text: string, disabled: bool, selects: (string, Option<int>))

  /** `selector(assetId, version, selectAsset, active)`. */
  function SelectorFor(assetId: string, version: Option<int>, active: bool): (s: Selector)
    ensures s.disabled <==> active
    ensures active ==> s.text == "Active" && s.classes == "button__active"
    ensures !active ==> s.text == "Activate" && s.classes == "button__secondary"
    ensures s.selects == (assetId, version)
  {
    Selector(if active then "button__active" else "button__secondary",
             if active then "Active" else "Activate",
             active, (assetId, version))
  }

  /** A video asset of the atom. An absent id is the empty string. */
  datatype Asset = Asset(id: string, platform: string, version: Option<int>, created: Option<int>)

  /** What `VideoAsset` renders: the "No Assets Added" box, or a player with
      a caption (dated when `created` is set) and the selector. */
  datatype AssetView = NoAssetsAdded | Player(embed: Embed, dated: bool, selector: Selector)

  /** `VideoAsset({id, platform, version, active, created})`. */
  function VideoAsset(id: string, platform: string, version: Option<int>, active: bool, created: Option<int>): (v: AssetView)
    ensures v.NoAssetsAdded? <==> id == ""
    ensures v.Player? ==> v.embed == EmbedFor(id, platform) && v.selector == SelectorFor(id, version, active)
    ensures v.Player? ==> (v.dated <==> Truthy(OfNumber(created)))
  {
    if id == "" then NoAssetsAdded
    else Player(EmbedFor(id, platform), Truthy(OfNumber(created)), SelectorFor(id, version, active))
  }

  /** `<VideoAsset />` with no props: the placeholder of an empty trail. */
  function EmptyAsset(): (v: AssetView)
    ensures v == NoAssetsAdded
  {
    VideoAsset("", "", None, false, None)
  }

  /** The upload running in this browser, as kept by the upload form. */
  datatype LocalUpload = LocalUpload(total: Option<int>, progress: Option<int>, created: Option<int>)

  datatype PartState = PartState(uploadedToS3: bool)

  /** An upload known to the backend, with the S3 state of its parts. */
  datatype PendingUpload = PendingUpload(id: string, parts: seq<PartState>)

  /** One element pushed onto `squares`: an `UploadAsset` (key, message,
      total, progress) or a `VideoAsset` for an asset. */
  datatype Square =
    | UploadSquare(key: string, message: string, total: Option<int>, progress: Option<int>)
    | AssetSquare(asset: Asset, active: bool)

  /** `_.find(parts, part => !part.uploadedToS3)`, as the index found. */
  function FirstNotOnS3(parts: seq<PartState>): (r: Option<nat>)
    ensures r.None? <==> forall k :: 0 <= k < |parts| ==> parts[k].uploadedToS3
    ensures r.Some? ==> && r.value < |parts| && !parts[r.value].uploadedToS3
                        && forall k :: 0 <= k < r.value ==> parts[k].uploadedToS3
    decreases |parts|
  {
    if parts == [] then None
    else if !parts[0].uploadedToS3 then Some(0)
    else
      match FirstNotOnS3(parts[1..])
      case None => None
      case Some(k) => Some(k + 1)
  }

  /** An upload is shown as going to YouTube iff no part is still missing
      from S3, which holds for an upload without parts. */
  predicate OnS3(u: PendingUpload) {
    FirstNotOnS3(u.parts).None?
  }

  function LocalSquares(localUpload: LocalUpload): (r: seq<Square>)
    ensures |r| <= 1
    ensures |r| == 1 <==> Truthy(OfNumber(localUpload.total))
  {
    if Truthy(OfNumber(localUpload.total)) then
      [UploadSquare(LocalUploadKey, S3Message, localUpload.total, localUpload.progress)]
    else []
  }

  /** The squares of the uploads on S3, in the order of `uploads`. */
  function UploadSquares(uploads: seq<PendingUpload>): (r: seq<Square>)
    ensures |r| <= |uploads|
    decreases |uploads|
  {
    if uploads == [] then []
    else
      var u := uploads[|uploads| - 1];
      UploadSquares(uploads[..|uploads| - 1]) + (if OnS3(u) then [YoutubeSquare(u)] else [])
  }

  function YoutubeSquare(u: PendingUpload): Square {
    UploadSquare(u.id, YoutubeMessage, None, None)
  }

  /** An upload gets a "Uploading To YouTube" square iff none of its parts is
      missing from S3, and every such square belongs to such an upload. */
  lemma {:induction false} UploadSquaresIff(uploads: seq<PendingUpload>)
    ensures forall i :: 0 <= i < |uploads| && OnS3(uploads[i]) ==> YoutubeSquare(uploads[i]) in UploadSquares(uploads)
    ensures forall sq :: sq in UploadSquares(uploads) ==> exists i :: 0 <= i < |uploads| && OnS3(uploads[i]) && sq == YoutubeSquare(uploads[i])
    decreases |uploads|
  {
    if uploads != [] {
      var init := uploads[..|uploads| - 1];
      UploadSquaresIff(init);
      forall sq | sq in UploadSquares(uploads)
        ensures exists i :: 0 <= i < |uploads| && OnS3(uploads[i]) && sq == YoutubeSquare(uploads[i])
      {
        if sq in UploadSquares(init) {
          var i :| 0 <= i < |init| && OnS3(init[i]) && sq == YoutubeSquare(init[i]);
          assert uploads[i] == init[i];
        } else {
          assert sq == YoutubeSquare(uploads[|uploads| - 1]);
        }
      }
      forall i | 0 <= i < |uploads| && OnS3(uploads[i])
        ensures YoutubeSquare(uploads[i]) in UploadSquares(uploads)
      {
        if i < |init| {
          assert uploads[i] == init[i];
        }
      }
    }
  }

  /** One square per asset, in order, active iff its version is the active one. */
  function AssetSquares(assets: seq<Asset>, activeVersion: Option<int>): (r: seq<Square>)
    ensures |r| == |assets|
    decreases |assets|
  {
    if assets == [] then []
    else
      var init := assets[..|assets| - 1];
      var a := assets[|assets| - 1];
      AssetSquares(init, activeVersion) + [AssetSquare(a, a.version == activeVersion)]
  }

  /** Every upload square says "Uploading To YouTube". */
  lemma {:induction false} UploadSquaresAreYoutube(uploads: seq<PendingUpload>)
    ensures forall k :: 0 <= k < |UploadSquares(uploads)| ==>
              UploadSquares(uploads)[k].UploadSquare? && UploadSquares(uploads)[k].message == YoutubeMessage
    decreases |uploads|
  {
    if uploads != [] {
      UploadSquaresAreYoutube(uploads[..|uploads| - 1]);
    }
  }

  /** The k-th asset square shows the k-th asset, active iff its version is
      the active one. */
  lemma {:induction false} AssetSquaresIndexed(assets: seq<Asset>, activeVersion: Option<int>)
    ensures forall k :: 0 <= k < |assets| ==>
              AssetSquares(assets, activeVersion)[k] == AssetSquare(assets[k], assets[k].version == activeVersion)
    decreases |assets|
  {
    if assets != [] {
      AssetSquaresIndexed(assets[..|assets| - 1], activeVersion);
    }
  }

  lemma AppendAssoc(a: seq<Square>, b: seq<Square>, c: seq<Square>)
    ensures (a + b) + c == a + (b + c)
  {
  }

  lemma UploadSquaresStep(uploads: seq<PendingUpload>, i: nat)
    requires i < |uploads|
    ensures UploadSquares(uploads[..i + 1])
            == UploadSquares(uploads[..i]) + (if OnS3(uploads[i]) then [YoutubeSquare(uploads[i])] else [])
  {
    assert uploads[..i + 1][..i] == uploads[..i];
  }

  lemma AssetSquaresStep(assets: seq<Asset>, j: nat, activeVersion: Option<int>)
    requires j < |assets|
    ensures AssetSquares(assets[..j + 1], activeVersion)
            == AssetSquares(assets[..j], activeVersion) + [AssetSquare(assets[j], assets[j].version == activeVersion)]
  {
    assert assets[..j + 1][..j] == assets[..j];
  }

  /** What the trail's container holds. */
  datatype TrailView = Squares(squares: seq<Square>) | Placeholder(view: AssetView)

  /** `VideoTrail({activeVersion, assets, selectAsset, localUpload, uploads})`. */
  method RenderTrail(activeVersion: Option<int>, assets: seq<Asset>, localUpload: LocalUpload, uploads: seq<PendingUpload>)
    returns (view: TrailView)
    ensures view.Squares? ==> view.squares == Trail(activeVersion, assets, localUpload, uploads)
    ensures view.Squares? ==> |view.squares| > 0
    ensures view.Placeholder? <==> LocalSquares(localUpload) == [] && UploadSquares(uploads) == [] && assets == []
    ensures view.Placeholder? ==> view.view == NoAssetsAdded
  {
    var squares: seq<Square> := [];
    if Truthy(OfNumber(localUpload.total)) {
      squares := squares + [UploadSquare(LocalUploadKey, S3Message, localUpload.total, localUpload.progress)];
    }
    var i := 0;
    while i < |uploads|
      invariant 0 <= i <= |uploads|
      invariant squares == LocalSquares(localUpload) + UploadSquares(uploads[..i])
    {
      UploadSquaresStep(uploads, i);
      var hidden := FirstNotOnS3(uploads[i].parts);
      if hidden.None? {
        AppendAssoc(LocalSquares(localUpload), UploadSquares(uploads[..i]), [YoutubeSquare(uploads[i])]);
        squares := squares + [YoutubeSquare(uploads[i])];
      } else {
        assert UploadSquares(uploads[..i + 1]) == UploadSquares(uploads[..i]) + [];
      }
      i := i + 1;
    }
    assert uploads[..i] == uploads;
    var j := 0;
    while j < |assets|
      invariant 0 <= j <= |assets|
      invariant squares == LocalSquares(localUpload) + UploadSquares(uploads) + AssetSquares(assets[..j], activeVersion)
    {
      AssetSquaresStep(assets, j, activeVersion);
      AppendAssoc(LocalSquares(localUpload) + UploadSquares(uploads), AssetSquares(assets[..j], activeVersion),
                  [AssetSquare(assets[j], assets[j].version == activeVersion)]);
      squares := squares + [AssetSquare(assets[j], assets[j].version == activeVersion)];
      j := j + 1;
    }
    assert assets[..j] == assets;
    TrailEmpty(activeVersion, assets, localUpload, uploads);
    if |squares| > 0 {
      view := Squares(squares);
    } else {
      view := Placeholder(EmptyAsset());
    }
  }

  /** The squares in trail order: the local upload, the uploads on S3, the assets. */
  function Trail(activeVersion: Option<int>, assets: seq<Asset>, localUpload: LocalUpload, uploads: seq<PendingUpload>): (s: seq<Square>)
    ensures |assets| <= |s| <= 1 + |uploads| + |assets|
  {
    LocalSquares(localUpload) + UploadSquares(uploads) + AssetSquares(assets, activeVersion)
  }

  lemma TrailEmpty(activeVersion: Option<int>, assets: seq<Asset>, localUpload: LocalUpload, uploads: seq<PendingUpload>)
    ensures |Trail(activeVersion, assets, localUpload, uploads)| == 0
            <==> LocalSquares(localUpload) == [] && UploadSquares(uploads) == [] && assets == []
  {
    assert |Trail(activeVersion, assets, localUpload, uploads)|
           == |LocalSquares(localUpload)| + |UploadSquares(uploads)| + |AssetSquares(assets, activeVersion)|;
  }

  /** The trail starts with the "Uploading To S3" square iff the local upload
      has a truthy total. */
  lemma LocalSquareFirst(activeVersion: Option<int>, assets: seq<Asset>, localUpload: LocalUpload, uploads: seq<PendingUpload>)
    ensures var s := Trail(activeVersion, assets, localUpload, uploads);
            (|s| > 0 && s[0].UploadSquare? && s[0].message == S3Message) <==> Truthy(OfNumber(localUpload.total))
  {
    var s := Trail(activeVersion, assets, localUpload, uploads);
    var up := UploadSquares(uploads);
    var a := AssetSquares(assets, activeVersion);
    UploadSquaresAreYoutube(uploads);
    AssetSquaresIndexed(assets, activeVersion);
    if !Truthy(OfNumber(localUpload.total)) && |s| > 0 {
      assert s == up + a;
      if |up| > 0 {
        assert s[0] == up[0];
      } else {
        assert s[0] == a[0];
      }
    }
  }

  /** Asset squares come after every upload square, one per asset in input
      order, each active iff its version is the active version. */
  lemma AssetsLast(activeVersion: Option<int>, assets: seq<Asset>, localUpload: LocalUpload, uploads: seq<PendingUpload>)
    ensures var s := Trail(activeVersion, assets, localUpload, uploads);
            && |s| >= |assets|
            && (forall k :: 0 <= k < |assets| ==>
                  s[|s| - |assets| + k] == AssetSquare(assets[k], assets[k].version == activeVersion))
            && (forall k :: 0 <= k < |s| - |assets| ==> s[k].UploadSquare?)
  {
    TrailEndsWithAssets(activeVersion, assets, localUpload, uploads);
    TrailStartsWithUploads(activeVersion, assets, localUpload, uploads);
  }

  lemma TrailEndsWithAssets(activeVersion: Option<int>, assets: seq<Asset>, localUpload: LocalUpload, uploads: seq<PendingUpload>)
    ensures var s := Trail(activeVersion, assets, localUpload, uploads);
            forall k :: 0 <= k < |assets| ==>
              s[|s| - |assets| + k] == AssetSquare(assets[k], assets[k].version == activeVersion)
  {
    var s := Trail(activeVersion, assets, localUpload, uploads);
    var p := LocalSquares(localUpload) + UploadSquares(uploads);
    var a := AssetSquares(assets, activeVersion);
    assert s == p + a;
    AssetSquaresIndexed(assets, activeVersion);
    forall k | 0 <= k < |assets|
      ensures s[|s| - |assets| + k] == AssetSquare(assets[k], assets[k].version == activeVersion)
    {
      assert s[|s| - |assets| + k] == a[k];
    }
  }

  lemma TrailStartsWithUploads(activeVersion: Option<int>, assets: seq<Asset>, localUpload: LocalUpload, uploads: seq<PendingUpload>)
    ensures var s := Trail(activeVersion, assets, localUpload, uploads);
            forall k :: 0 <= k < |s| - |assets| ==> s[k].UploadSquare?
  {
    UploadSquaresAreYoutube(uploads);
    UploadsBefore(LocalSquares(localUpload), UploadSquares(uploads), AssetSquares(assets, activeVersion));
  }

  /** Squares before the assets come from two lists of upload squares. */
  lemma UploadsBefore(l: seq<Square>, up: seq<Square>, a: seq<Square>)
    requires forall k :: 0 <= k < |l| ==> l[k].UploadSquare?
    requires forall k :: 0 <= k < |up| ==> up[k].UploadSquare?
    ensures forall k :: 0 <= k < |l| + |up| ==> (l + up + a)[k].UploadSquare?
  {
    forall k | 0 <= k < |l| + |up| ensures (l + up + a)[k].UploadSquare? {
      if k >= |l| { assert (l + up + a)[k] == up[k - |l|]; }
    }
  }

  /** An upload without parts has no part missing from S3. */
  lemma EmptyUploadOnS3(u: PendingUpload)
    requires u.parts == []
    ensures OnS3(u)
  {
  }
}
