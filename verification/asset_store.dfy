/** The asset store slice: a map from an image's original url to the url it
    is shown with (typically an uploaded file's `data:` url), and the
    scene-export rewriting of embedded `data:` urls into asset paths. */
module AssetStore {
  import opened Types
  import opened Text

  type AssetMap = map<string, string>

  /** `addAsset`: set one entry, inserting or overwriting it. */
  function AddAsset(m: AssetMap, originalUrl: string, dataUrl: string): (r: AssetMap)
    ensures r.Keys == m.Keys + {originalUrl}
    ensures r[originalUrl] == dataUrl
    ensures forall k :: k in m && k != originalUrl ==> r[k] == m[k]
  {
    m[originalUrl := dataUrl]
  }

  /** `resolveUrl`: the mapped url when there is a non-empty one, else the
      url itself (`get(url) || url`). */
  function ResolveUrl(m: AssetMap, url: string): (r: string)
    ensures r == url || (url in m && r == m[url])
    ensures url !in m || m[url] == "" ==> r == url
  {
    if url in m && m[url] != "" then m[url] else url
  }

  /** A url resolves to what was last added for it, unless that was empty. */
  lemma ResolveAfterAdd(m: AssetMap, originalUrl: string, dataUrl: string, url: string)
    ensures ResolveUrl(AddAsset(m, originalUrl, dataUrl), url)
         == if url == originalUrl then (if dataUrl != "" then dataUrl else url) else ResolveUrl(m, url)
  {
  }

  // ---- loadSceneData ----

  predicate IsDataUrl(url: string) {
    StartsWith(url, "data:")
  }

  /** The `data:` urls of a list of items. */
  function ItemsDataUrls(items: seq<ImageAsset>): set<string>
    decreases |items|
  {
    if |items| == 0 then {}
    else
      var last := items[|items| - 1];
      ItemsDataUrls(items[..|items| - 1]) + (if IsDataUrl(last.url) then {last.url} else {})
  }

  /** The `data:` urls of all items of a list of layers. */
  function LayersDataUrls(layers: seq<Layer>): set<string>
    decreases |layers|
  {
    if |layers| == 0 then {} else LayersDataUrls(layers[..|layers| - 1]) + ItemsDataUrls(layers[|layers| - 1].items)
  }

  /** The `data:` urls of the items of the scenes named by `keys`. */
  function DataUrlsOf(scenes: Scenes, keys: set<string>): set<string> {
    set k, u | k in keys && k in scenes && u in LayersDataUrls(scenes[k].layers) :: u
  }

  /** `r` is `assets` with every url of `urls` mapped to itself. */
  ghost predicate Marked(r: AssetMap, assets: AssetMap, urls: set<string>) {
    && (forall k :: k in r <==> k in assets || k in urls)
    && (forall k :: k in r ==> r[k] == if k in urls then k else assets[k])
  }

  lemma MarkOne(r: AssetMap, assets: AssetMap, urls: set<string>, u: string)
    requires Marked(r, assets, urls)
    ensures Marked(r[u := u], assets, urls + {u})
  {
  }

  /** Map each `data:` url of `items` to itself. */
  method MarkItems(r0: AssetMap, ghost assets: AssetMap, ghost urls: set<string>, items: seq<ImageAsset>)
    returns (r: AssetMap)
    requires Marked(r0, assets, urls)
    ensures Marked(r, assets, urls + ItemsDataUrls(items))
  {
    r := r0;
    var ii := 0;
    while ii < |items|
      invariant 0 <= ii <= |items|
      invariant Marked(r, assets, urls + ItemsDataUrls(items[..ii]))
    {
      assert items[..ii + 1][..ii] == items[..ii];
      if IsDataUrl(items[ii].url) {
        MarkOne(r, assets, urls + ItemsDataUrls(items[..ii]), items[ii].url);
        r := r[items[ii].url := items[ii].url];
      }
      ii := ii + 1;
    }
    assert items[..ii] == items;
  }

  /** Map each `data:` url of the items of `layers` to itself. */
  method MarkLayers(r0: AssetMap, ghost assets: AssetMap, ghost urls: set<string>, layers: seq<Layer>)
    returns (r: AssetMap)
    requires Marked(r0, assets, urls)
    ensures Marked(r, assets, urls + LayersDataUrls(layers))
  {
    r := r0;
    var li := 0;
    while li < |layers|
      invariant 0 <= li <= |layers|
      invariant Marked(r, assets, urls + LayersDataUrls(layers[..li]))
    {
      assert layers[..li + 1][..li] == layers[..li];
      r := MarkItems(r, assets, urls + LayersDataUrls(layers[..li]), layers[li].items);
      li := li + 1;
    }
    assert layers[..li] == layers;
  }

  lemma DataUrlsOfAdd(scenes: Scenes, keys: set<string>, k: string)
    requires k in scenes
    ensures DataUrlsOf(scenes, keys + {k}) == DataUrlsOf(scenes, keys) + LayersDataUrls(scenes[k].layers)
  {
  }

  /** Map each `data:` url of scene `sid` to itself. */
  method MarkScene(r0: AssetMap, ghost assets: AssetMap, scenes: Scenes, ghost done: set<string>, sid: string)
    returns (r: AssetMap)
    requires sid in scenes && Marked(r0, assets, DataUrlsOf(scenes, done))
    ensures Marked(r, assets, DataUrlsOf(scenes, done + {sid}))
  {
    r := MarkLayers(r0, assets, DataUrlsOf(scenes, done), scenes[sid].layers);
    DataUrlsOfAdd(scenes, done, sid);
  }

  /** `loadSceneData`: every `data:` item url of the scenes is mapped to
      itself; every other entry is kept; the scenes are only read. */
  method LoadSceneData(assets: AssetMap, scenes: Scenes) returns (r: AssetMap)
    ensures forall k :: k in r <==> k in assets || k in DataUrlsOf(scenes, scenes.Keys)
    ensures forall k :: k in r ==> r[k] == if k in DataUrlsOf(scenes, scenes.Keys) then k else assets[k]
  {
    r := assets;
    var left := scenes.Keys;
    ghost var done: set<string> := {};
    while left != {}
      invariant left + done == scenes.Keys && left !! done
      invariant Marked(r, assets, DataUrlsOf(scenes, done))
      decreases |left|
    {
      var sid :| sid in left;
      r := MarkScene(r, assets, scenes, done, sid);
      left := left - {sid};
      done := done + {sid};
    }
    assert done == scenes.Keys;
  }

  // ---- exportSceneData ----

  function Digit(d: nat): char
    requires d < 10
  {
    "0123456789"[d]
  }

  /** Decimal digits of `n`, as a number's template-string conversion writes them. */
  function NatToString(n: nat): (s: string)
    ensures |s| > 0
    decreases n
  {
    if n < 10 then [Digit(n)] else NatToString(n / 10) + [Digit(n % 10)]
  }

  /** The file path a production export gives an embedded image, from the
      clock reading `now`. */
  function AssetPath(now: nat): (p: string)
    ensures !IsDataUrl(p)
  {
    var p := "/assets/asset-" + NatToString(now) + ".png";
    assert p[0] == '/';
    p
  }

  function ExportItem(it: ImageAsset, path: string): ImageAsset {
    if IsDataUrl(it.url) then it.(url := path) else it
  }

  function ExportLayer(l: Layer, path: string): (r: Layer)
    ensures r.id == l.id && r.name == l.name && r.parallaxFactor == l.parallaxFactor
    ensures |r.items| == |l.items|
    ensures forall i :: 0 <= i < |l.items| ==> r.items[i] == ExportItem(l.items[i], path)
  {
    l.(items := seq(|l.items|, i requires 0 <= i < |l.items| => ExportItem(l.items[i], path)))
  }

  /** `e` is `sc` with some item urls replaced: every other field, every
      layer's other fields and every item's other fields agree, and an item
      whose url was not a `data:` url keeps it. */
  predicate SameButDataUrls(e: Scene, sc: Scene) {
    && e == sc.(layers := e.layers)
    && |e.layers| == |sc.layers|
    && forall l :: 0 <= l < |sc.layers| ==>
         && e.layers[l] == sc.layers[l].(items := e.layers[l].items)
         && |e.layers[l].items| == |sc.layers[l].items|
         && forall i :: 0 <= i < |sc.layers[l].items| ==>
              && e.layers[l].items[i] == sc.layers[l].items[i].(url := e.layers[l].items[i].url)
              && (!IsDataUrl(sc.layers[l].items[i].url) ==> e.layers[l].items[i].url == sc.layers[l].items[i].url)
  }

  /** No item of the scene has a `data:` url. */
  predicate NoDataUrls(sc: Scene) {
    forall l, i :: 0 <= l < |sc.layers| && 0 <= i < |sc.layers[l].items| ==> !IsDataUrl(sc.layers[l].items[i].url)
  }

  function ExportScene(sc: Scene, path: string): (r: Scene)
    ensures r == sc.(layers := r.layers)
    ensures |r.layers| == |sc.layers|
    ensures forall l :: 0 <= l < |sc.layers| ==> r.layers[l] == ExportLayer(sc.layers[l], path)
    ensures !IsDataUrl(path) ==> NoDataUrls(r) && SameButDataUrls(r, sc)
  {
    sc.(layers := seq(|sc.layers|, l requires 0 <= l < |sc.layers| => ExportLayer(sc.layers[l], path)))
  }

  /** `exportSceneData`: outside production the scenes are returned as they
      are; for production every embedded `data:` url becomes an asset path
      and nothing else changes. */
  function ExportSceneData(scenes: Scenes, forProduction: bool, now: nat): (r: Scenes)
    ensures !forProduction ==> r == scenes
    ensures r.Keys == scenes.Keys
    ensures forProduction ==> forall k :: k in r ==> NoDataUrls(r[k]) && SameButDataUrls(r[k], scenes[k])
  {
    if !forProduction then scenes
    else map k | k in scenes :: ExportScene(scenes[k], AssetPath(now))
  }

  /** Exporting an export for production changes nothing more. */
  lemma ExportIdempotent(scenes: Scenes, now: nat, later: nat)
    ensures ExportSceneData(ExportSceneData(scenes, true, now), true, later) == ExportSceneData(scenes, true, now)
  {
    var e := ExportSceneData(scenes, true, now);
    forall k | k in e ensures ExportScene(e[k], AssetPath(later)) == e[k] {
      var sc := e[k];
      forall l | 0 <= l < |sc.layers| ensures ExportLayer(sc.layers[l], AssetPath(later)) == sc.layers[l] {
        var x := ExportLayer(sc.layers[l], AssetPath(later));
        assert x.items == sc.layers[l].items;
      }
      assert ExportScene(sc, AssetPath(later)).layers == sc.layers;
    }
  }
}
