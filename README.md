# Virtual tour: navigation and hotspot state

This project models the core of a browser-based 360° tour viewer: the state
kept by its `VirtualTourApp` class. The class holds the active folder of
panoramas and the ordered list of loaded images. It also holds the current
image index and the hotspots: markers placed on one image that either
navigate to another image or show a title and a description. Further
fields are an editable photo order, a path-keyed texture cache, and the
browser's key-value store (`localStorage`), which persists hotspots and
photo orders per folder.

Layout, one module per concern:

- `basics.dfy`, module `Basics`: `Option`, for JavaScript's `null`/`undefined`.
- `text.dfy`, module `Text`: `String.prototype.trim` with ECMAScript's whitespace set, used by title validation.
- `navigation.dfy`, module `Navigation`: the circular index arithmetic, with JavaScript's truncating `%`.
- `catalog.dfy`, module `Catalog`: the static folder catalog, image paths, image records and fetch error messages.
- `hotspots.dfy`, module `Hotspots`: the hotspot record, the per-image filter, the lookup by id, and the dropdown's target indices.
- `photo_order.dfy`, module `PhotoOrder`: the splice-based move and the names that are saved.
- `storage.dfy`, module `Storage`: the storage keys, the stored values and what loading a folder reads back.
- `tour.dfy`, module `Tour`: textures, the class `VirtualTourApp` with a method per operation that changes state, plus the functions that specify what a view draws and what the cache holds afterwards.

What the source does and the model keeps:

- Hotspots are anchored by integer index only. `imageIndex` is the current index when the hotspot is saved, and `targetImageIndex` is the selected index.
- Hotspots persist only in the browser's `localStorage`, one whole list per folder; a saved list always replaces the previous one.
- `showHotspotInfo` does not range-check `targetImageIndex`. An out-of-range target is stored as the new index, and `loadCurrentImage` then throws on `images[i].loaded`. The model returns `View.Fault` and leaves the index where the source leaves it. So "the index is in bounds" (`InBounds`) is kept by navigation and folder loads, but not across such an activation.
- `saveHotspot` does not check that a placement is pending. The dev-controls form is also shown by the dev-mode toggle, and `cancelHotspot` clears the placement. A hotspot saved without a position is pushed, but `renderHotspots` then throws on `position.x` before the list is written to the store. The model returns `Committed(h, false)` and leaves the store unchanged. Later views of that image show the panorama but skip preloading (`View.MarkerFault`).
- The saved photo order is written under `photoOrder_<folder>`, but nothing reads it back. `loadFolderImages` always resets `photoOrder` to the catalog order, and navigation always walks `images`.

## Model

| member | source | states |
|---|---|---|
| Text.TrimStart | app.js:708 | the result is the suffix of the title after its leading white space; it starts with a non-space character or is empty |
| Text.TrimEnd | app.js:708 | the result is the prefix before the trailing white space; it ends with a non-space character or is empty |
| Text.Trim | app.js:708 | `title.trim()` is no longer than the title and has no white space left at either end; with `Text.TrimIsSlice`, only leading and trailing white space is removed |
| Text.TrimEmptyIffBlank | app.js:708-711 | `title.trim()` is empty exactly when every character of the title is white space |
| Text.TrimIsSlice | app.js:708 | trimming keeps a contiguous slice of the title, and everything cut off before and after it is white space |
| Navigation.JsRem | app.js:439 | JavaScript `%` with a positive divisor: the dividend is a multiple of the divisor plus the result, which lies in `[0, n)` for a non-negative dividend and in `(-n, 0]` for a negative one |
| Navigation.Next | app.js:439 | from an index in range, `(i + 1) % n` is the next index, wrapping from the last to 0, and stays in range |
| Navigation.Prev | app.js:446 | from an index in range, `(i - 1 + n) % n` is the previous index, wrapping from 0 to the last, and stays in range |
| Navigation.PrevAfterNext | app.js:436-448 | "previous" after "next" restores the index, for any tour of at least one image |
| Navigation.NextAfterPrev | app.js:436-448 | "next" after "previous" restores the index |
| Navigation.AdvanceInRange | app.js:436-441 | any number of "next" presses from an index in range stays in range |
| Navigation.AdvanceCompose | app.js:436-441 | `a` presses of "next" followed by `b` presses equal `a + b` presses |
| Navigation.AdvanceNoWrap | app.js:436-441 | before wrapping, `k` presses of "next" add `k` to the index |
| Navigation.AdvanceToStart | app.js:436-441 | pressing "next" from index `i` until past the last image lands on index 0 |
| Navigation.Reachable | app.js:436-441 | every image can be reached from every other by pressing "next" (no dead ends) |
| Navigation.FullCircle | app.js:436-441 | `n` presses of "next" in a tour of `n` images return to the starting image |
| Catalog.ImageFilesForFolder | app.js:234-279 | an unknown folder has no files; "pakapiens" has 14 files, "pietura" 9 and "spaktele" 9 |
| Catalog.ImagePath | app.js:174 | the path is three characters longer than folder and file together and ends with exactly the file name |
| Catalog.ImagePathShape | app.js:174 | the path starts with `./`, then the folder name, then `/` |
| Catalog.ImagePathInjective | app.js:174 | within a folder, different files get different `./<folder>/<file>` paths |
| Catalog.FetchError | app.js:194-203 | an image has an error message exactly when its fetch failed |
| Catalog.IsLoadOf | app.js:168-208 | in a folder load, an image's loaded flag is set exactly when it has no error message, and its path is the path of its own file |
| Catalog.CatalogNamesDistinct | app.js:237-276 | no folder lists a file twice |
| Catalog.CatalogPathsDistinct | app.js:174 | the images of a folder have pairwise different cache keys |
| Hotspots.HotspotsFor | app.js:754 | the hotspots shown are exactly the stored ones anchored to the given image index |
| Hotspots.HotspotsForAppend | app.js:754 | the filter distributes over concatenation, so the shown hotspots keep their stored order |
| Hotspots.AppendedHotspotShown | app.js:728-729 | a newly pushed hotspot appears last on its own image and on no other |
| Hotspots.HotspotsForIdempotent | app.js:754 | filtering the shown hotspots again changes nothing |
| Hotspots.FiltersDisjoint | app.js:754 | the hotspots of two different images share no record (no leak across images) |
| Hotspots.FindById | app.js:767-768 | an index is found exactly when some hotspot has the id; it is the first such hotspot |
| Hotspots.TargetIndices | app.js:796-808 | the offered targets are every index in `[0, N)` except the current one, strictly ascending, `N - 1` of them when the current index is in range |
| PhotoOrder.Moved | app.js:863-864 | the two splices keep the length and put the moved photo at `to`; photos outside the span between `from` and `to` stay put |
| PhotoOrder.MovedAt | app.js:862-864 | after a move, the moved photo is at `to`, the photos between `from` and `to` shift by one, and all others stay put |
| PhotoOrder.MovedIsPermutation | app.js:862-864 | a move keeps the length and is a permutation of the photo order |
| PhotoOrder.MovedInverse | app.js:862-864 | moving the photo back from `to` to `from` restores the original order |
| PhotoOrder.Names | app.js:870 | the saved list has one name per photo, in display order |
| PhotoOrder.NamesOfMoved | app.js:862-870 | the names saved after a move are the old names moved the same way |
| Storage.HotspotsKey | app.js:875 | the hotspot key is `hotspots_` followed by the folder name |
| Storage.PhotoOrderKey | app.js:870 | the photo-order key is `photoOrder_` followed by the folder name |
| Storage.KeysInjective | app.js:870-882 | different folders use different keys |
| Storage.KeysDisjoint | app.js:870-882 | a photo-order key never overwrites a hotspot key |
| Storage.SavedHotspots | app.js:874-879 | a folder has saved hotspots exactly when its key holds a hotspot list |
| Storage.SaveThenLoad | app.js:874-883 | what is saved under a folder is what loading that folder reads back |
| Storage.SaveLeavesOtherFolders | app.js:881-883 | saving one folder's hotspots leaves every other folder's saved hotspots unchanged |
| Storage.SaveOrderLeavesHotspots | app.js:868-872 | saving a photo order leaves every folder's saved hotspots unchanged |
| Tour.WithTextures | app.js:412-422 | adding textures for a set of paths keeps every cached entry and adds exactly the missing paths, each with the texture of its own path |
| Tour.PreloadIndices | app.js:473-476 | from an index in range, the indices looked at are the next one (wrapping from the last to 0) and then the previous one (wrapping from 0 to the last), both in range |
| Tour.LoadedPathAt | app.js:479-480 | a path is taken from an index exactly when the index names an image that loaded, and it is that image's path |
| Tour.AdjacentLoadedPaths | app.js:471-484 | the preloaded paths are those of the next and the previous image, each when it loaded, and no other; none for an empty folder |
| Tour.ViewAt | app.js:398-434 | no images draws nothing; an index out of range faults; a failed image draws its own placeholder; a loaded image draws the texture of its own path and renders exactly its own hotspots as markers, unless one lacks a position (the overlay left by the other outcomes is not part of the view) |
| Tour.CacheAfterView | app.js:398-434 | showing an image keeps every cached entry, caches the shown image's path when it loaded, and keeps a coherent cache coherent; with no images, an index out of range or a failed image the cache is unchanged; a marker fault adds only the shown image's path |
| Tour.CacheAfterViewBounded | app.js:410-484 | showing an image adds no path other than its own and those of its loaded neighbours |
| Tour.NeighboursPreloaded | app.js:471-484 | after a full view, the next and previous images are in the cache whenever they loaded |
| Tour.PlacedCommitRenders | app.js:728-729 | committing a placed hotspot onto an image whose markers all render keeps them renderable, so the commit gets stored |
| Tour.VirtualTourApp.constructor | app.js:2-29 | the initial folder "pakapiens" is loaded, the index is 0, the photo order is the image list, the hotspots are the saved list or empty, and the cache is what showing the first image leaves |
| Tour.VirtualTourApp.ShowFirstImage | app.js:313-316 | returns the view of the current image, which is nothing for a folder without images, and the cache is then what showing it leaves |
| Tour.VirtualTourApp.LoadImagesWithProgress | app.js:168-208 | exactly one entry per catalog file, in catalog order, with the name, the path `./<folder>/<file>`, a loaded flag and the error message of a failed fetch; loading continues past failures |
| Tour.VirtualTourApp.LoadFolderImages | app.js:131-147 | the images are rebuilt from the catalog, `photoOrder == images`, the index is 0, and the hotspots are the saved list for the folder, or empty |
| Tour.VirtualTourApp.SwitchFolder | app.js:634-646 | sets the current folder, then performs that folder load |
| Tour.VirtualTourApp.LoadHotspots | app.js:874-879 | takes the saved list when the key holds one and otherwise keeps the current list |
| Tour.VirtualTourApp.SaveHotspotsToStorage | app.js:881-883 | writes the whole list under `hotspots_<currentFolder>`, which then reads back to the same list |
| Tour.VirtualTourApp.SavePhotoOrder | app.js:868-872 | writes the names in photo order under `photoOrder_<currentFolder>` and disturbs no saved hotspots |
| Tour.VirtualTourApp.PreloadImage | app.js:486-500 | returns the texture for the image's path, adding it to the cache only if missing |
| Tour.VirtualTourApp.PreloadAdjacentImages | app.js:471-484 | adds textures for the next and previous images that loaded and are not cached yet; nothing else changes |
| Tour.VirtualTourApp.LoadCurrentImage | app.js:398-434 | returns `ViewAt` of the current index: with no images nothing is drawn; an undefined entry faults; a failed image draws its placeholder; otherwise the cached texture is drawn and the current image's markers are rendered, and the neighbours are preloaded; the cache becomes `CacheAfterView` |
| Tour.VirtualTourApp.NextImage | app.js:436-441 | without images nothing changes; otherwise the index becomes `(i+1) % N` and stays in bounds, and that image is loaded as `LoadCurrentImage` does |
| Tour.VirtualTourApp.PreviousImage | app.js:443-448 | without images nothing changes; otherwise the index becomes `(i-1+N) % N` and stays in bounds, and that image is loaded as `LoadCurrentImage` does |
| Tour.VirtualTourApp.CreateHotspotAtPoint | app.js:691-699 | remembers the pending placement and offers every image index except the current one, ascending |
| Tour.VirtualTourApp.CancelHotspot | app.js:741-747 | forgets the pending placement |
| Tour.VirtualTourApp.SaveHotspot | app.js:702-739 | a blank title, or an image link without a target, is rejected with hotspots and store unchanged; otherwise exactly one hotspot is appended, anchored at the current index, with a target only for image links; the whole list is written under the current folder's key exactly when its markers render |
| Tour.VirtualTourApp.ShowHotspotInfo | app.js:766-781 | an unknown id changes nothing; an image link with a target sets the index to that target and shows it; any other hotspot shows its title and description with the index unchanged |
| Tour.VirtualTourApp.ReorderPhotos | app.js:862-866 | `photoOrder` becomes the move of `from` to `to`: a permutation of the same length, with the moved photo at `to`; images and index unchanged |

## Left out

- Rendering, the camera and mouse controls (app.js:281-396 except the first-image load at 313-316). These are graphics-library calls and floating-point view math.
- The raycast and screen projection in `handleCanvasClick` and `createHotspotAtPoint` (app.js:666-689). The placement they compute is a parameter of `CreateHotspotAtPoint`, treated as an opaque value.
- `loadSingleImage` (app.js:210-232): the browser image load and its 10-second timeout. Each fetch becomes an input outcome: loaded, timed out, or failed. The model keeps the outcomes' error messages.
- The asynchronous loader. A navigation that arrives during a folder load would see an empty image list. Such interleavings are not modelled, and neither is the `.then(loadCurrentImage)` continuation of `switchFolder` (app.js:643-645).
- The DOM and UI: loading text and progress percentages (app.js:885-919), `updatePhotoOrdering` and its drag-and-drop wiring (app.js:823-860), `updateImageCounter` (app.js:450-469), the error canvas of `showImageError` (app.js:502-530), modals, alerts, the form resets, `updateHotspotLinkType` (app.js:787-794), `toggleDevMode` (app.js:648-664), the instructions overlay and its `hasSeenInstructions` key (app.js:810-821), and the keyboard wiring (app.js:103-128). The arrow keys and the space bar call `nextImage` and `previousImage`, which are modelled. Escape calls `closeModal` and h or H call `showPCModeInfo`, which only touch the UI.
- VR and XR session handling (app.js:532-614) and all of vr-button.js. These are device APIs and button styling.
- server.py is an HTTP file server. data.js is configuration data for a different viewer. Neither is part of this model.
- The `catch` branch of `loadFolderImages` (app.js:157-165). Only `loadHotspots` can throw there: `JSON.parse` of a malformed stored string, or `localStorage.getItem` when storage access is denied (app.js:146, 875). Either way `hotspots` keeps the `[]` of app.js:134, as for a missing key, and only the alert differs. The model's store holds typed values and every read succeeds, so neither throw is modelled.
- Tour.VirtualTourApp.LoadHotspots: when the hotspot key holds a name list, `JSON.parse` would set `hotspots` to an array of strings. The model keeps the current list instead. The class itself never writes such a value there (`Storage.KeysDisjoint`); it could only come from another writer.
- Tour.VirtualTourApp.ReorderPhotos: requires both indices to be in range of `photoOrder`; `splice` with other indices is not modelled. The source does not guarantee this. The dragged index is `parseInt` of the drag data (app.js:850), so a drop of foreign text gives `NaN`, which `splice` treats as 0. The rendered list can also be stale: after `switchFolder`, when the new folder's first image failed, `loadCurrentImage` returns (app.js:404-407) before `updatePhotoOrdering` (app.js:428). So 14 "pakapiens" items can stay on screen over a 9-entry `photoOrder`, and dragging item 12 then inserts `undefined`.
- Tour.VirtualTourApp.SaveHotspotsToStorage: the model's store accepts every write. `localStorage.setItem` can throw, for a full quota or disabled storage (app.js:870, 882). Nothing is then written, yet `saveHotspot` has already pushed the hotspot.
- Tour.VirtualTourApp.SavePhotoOrder: the model's store accepts every write. A throwing `localStorage.setItem` (app.js:870) writes nothing and skips the "Photo order saved!" alert; the model always writes the names.
- Catalog.ImageFilesForFolder: JavaScript's lookup of inherited object keys is not modelled. For example, `folderImages["constructor"]` is a truthy function, not `[]`. Every name other than the three folders yields no files.
- The hotspot overlay as a whole. Only `renderHotspots` clears it (app.js:750-751), and `loadCurrentImage` reaches it only for a loaded image. So `View.NoImages`, `View.Fault` and `View.ErrorPlaceholder` leave the previous image's markers on screen, still clickable, and `View.Fault` leaves the previous panorama too; `View.MarkerFault` leaves the markers appended before the first one without a position (app.js:756-762). `View` and `Tour.ViewAt` give the panorama or placeholder and the filtered markers, not what remains on screen; `Hotspots.FiltersDisjoint` says no hotspot of another image passes the filter, not that none is visible.
- `Date.now().toString()` is the `id` parameter of `SaveHotspot`. The source does not guarantee unique ids, so the model does not claim uniqueness.
- The selected target arrives already parsed, as an optional index: `parseInt` of the dropdown's decimal values, or none for the empty choice.
- A texture is represented by the path it was built from. `THREE.Texture` object identity and the `Promise` that `preloadImage` returns are not modelled.
