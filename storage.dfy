/**
 * The browser key-value store as the tour uses it: hotspot lists under
 * `hotspots_<folder>` (app.js:874-883) and photo-order name lists under
 * `photoOrder_<folder>` (app.js:870). A JSON text that parses back to the
 * value it encoded is modelled by storing the value itself.
 */
module Storage {
  import opened Basics
  import opened Hotspots

  /** What a key holds: a hotspot list or a list of image names. */
  datatype StoredValue = HotspotList(hotspots: seq<Hotspot>) | NameList(names: seq<string>)

  /** The store, keyed by string. */
  type Store = map<string, StoredValue>

  function HotspotsKey(folderName: string): (key: string)
    ensures |key| == 9 + |folderName| && key[..9] == "hotspots_" && key[9..] == folderName
  {
    "hotspots_" + folderName
  }

  function PhotoOrderKey(folderName: string): (key: string)
    ensures |key| == 11 + |folderName| && key[..11] == "photoOrder_" && key[11..] == folderName
  {
    "photoOrder_" + folderName
  }

  /** Each folder has its own hotspot key and its own photo-order key. */
  lemma KeysInjective(f: string, g: string)
    ensures HotspotsKey(f) == HotspotsKey(g) ==> f == g
    ensures PhotoOrderKey(f) == PhotoOrderKey(g) ==> f == g
  {
  }

  /** A photo-order key is never a hotspot key, whatever the folders. */
  lemma KeysDisjoint(f: string, g: string)
    ensures HotspotsKey(f) != PhotoOrderKey(g)
  {
    assert HotspotsKey(f)[0] == 'h';
    assert PhotoOrderKey(g)[0] == 'p';
  }

  /** What `loadHotspots` finds for a folder: the stored hotspot list, if any. */
  function SavedHotspots(store: Store, folderName: string): (r: Option<seq<Hotspot>>)
    ensures r.Some? <==> HotspotsKey(folderName) in store && store[HotspotsKey(folderName)].HotspotList?
  {
    var key := HotspotsKey(folderName);
    if key in store && store[key].HotspotList? then Some(store[key].hotspots) else None
  }

  /** Round trip: what `saveHotspotsToStorage` writes for a folder is what `loadHotspots` reads back. */
  lemma SaveThenLoad(store: Store, folderName: string, hs: seq<Hotspot>)
    ensures SavedHotspots(store[HotspotsKey(folderName) := HotspotList(hs)], folderName) == Some(hs)
  {
  }

  /** Saving one folder's hotspots leaves every other folder's saved hotspots as they were. */
  lemma SaveLeavesOtherFolders(store: Store, f: string, g: string, hs: seq<Hotspot>)
    requires f != g
    ensures SavedHotspots(store[HotspotsKey(f) := HotspotList(hs)], g) == SavedHotspots(store, g)
  {
    KeysInjective(f, g);
  }

  /** Saving a photo order leaves the saved hotspots of every folder as they were. */
  lemma SaveOrderLeavesHotspots(store: Store, f: string, g: string, names: seq<string>)
    ensures SavedHotspots(store[PhotoOrderKey(f) := NameList(names)], g) == SavedHotspots(store, g)
  {
    KeysDisjoint(g, f);
  }
}
