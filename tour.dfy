/**
 * The navigation and hotspot state of the `VirtualTourApp` class
 * (app.js:1-20): the folder, its images, the current index, the hotspots,
 * the editable photo order, the path-keyed texture cache and the browser
 * store. Rendering, the DOM and the asynchronous loader are left out: a
 * method returns the panorama and the filtered markers a view produces, not
 * the whole screen, and the outcome of each image fetch is an input.
 */
module Tour {
  import opened Basics
  import opened Text
  import opened Navigation
  import opened Catalog
  import opened Hotspots
  import opened PhotoOrder
  import opened Storage

  /** A texture built from the image at `source`; the cache keys textures by that path. */
  datatype Texture = Texture(source: string)

  /**
   * What `loadCurrentImage` produces: the panorama or placeholder it draws and
   * the current image's markers. Only `Panorama` replaces the hotspot overlay;
   * the other outcomes leave the previous markers in place (`MarkerFault`
   * after appending a prefix of the new ones).
   */
  datatype View =
    | NoImages                                         // the folder has no images: nothing happens
    | Fault                                            // `images[currentImageIndex]` is undefined: a TypeError
    | ErrorPlaceholder(name: string)                   // the image failed to load: the error canvas
    | Panorama(texture: Texture, markers: seq<Hotspot>) // the panorama with its hotspot markers
    | MarkerFault(texture: Texture)                    // the panorama, then a TypeError on a hotspot without position

  /** What activating a hotspot does. */
  datatype Activation = NotFound | Navigate(target: int, view: View) | ShowInfo(title: string, description: string)

  /** How a hotspot commit ends: rejected by validation, or pushed (and maybe written to the store). */
  datatype Commit = MissingTitle | MissingTarget | Committed(hotspot: Hotspot, stored: bool)

  /** Every cached texture was built from the image at its key. */
  predicate CacheCoherent(cache: map<string, Texture>)
  {
    forall p :: p in cache ==> cache[p] == Texture(p)
  }

  /** `cache` with a texture added for each path of `paths` it does not hold yet. */
  function WithTextures(cache: map<string, Texture>, paths: set<string>): (c: map<string, Texture>)
    ensures c.Keys == cache.Keys + paths
    ensures forall p :: p in cache ==> c[p] == cache[p]
    ensures forall p :: p in paths && p !in cache ==> c[p] == Texture(p)
  {
    map p | p in cache.Keys + paths :: if p in cache then cache[p] else Texture(p)
  }

  /** `renderHotspots` reads `position.x` of every hotspot it shows: none may lack a position. */
  predicate Renderable(shown: seq<Hotspot>)
  {
    forall k :: 0 <= k < |shown| ==> shown[k].position.Some?
  }

  /** The indices `preloadAdjacentImages` looks at: the next and the previous image, both in range. */
  function PreloadIndices(i: int, n: nat): (r: seq<int>)
    requires n > 0
    ensures |r| == 2
    ensures 0 <= i < n ==> forall k :: 0 <= k < |r| ==> 0 <= r[k] < n
    ensures 0 <= i < n ==> r[0] == (if i == n - 1 then 0 else i + 1) && r[1] == (if i == 0 then n - 1 else i - 1)
  {
    [Next(i, n), Prev(i, n)]
  }

  /** The path of the image at `j` if it loaded; an index out of range names no image. */
  function LoadedPathAt(images: seq<Image>, j: int): (r: set<string>)
    ensures forall p :: p in r ==> 0 <= j < |images| && images[j].loaded && p == images[j].path
    ensures 0 <= j < |images| && images[j].loaded ==> images[j].path in r
  {
    if 0 <= j < |images| && images[j].loaded then {images[j].path} else {}
  }

  /** The paths of the loaded images among `indices`. */
  function LoadedPaths(images: seq<Image>, indices: seq<int>): (r: set<string>)
  {
    if indices == [] then {}
    else LoadedPaths(images, indices[..|indices| - 1]) + LoadedPathAt(images, indices[|indices| - 1])
  }

  /** One more index adds the path of its image, if it loaded. */
  lemma LoadedPathsPrefix(images: seq<Image>, indices: seq<int>, k: nat)
    requires k < |indices|
    ensures LoadedPaths(images, indices[..k + 1]) == LoadedPaths(images, indices[..k]) + LoadedPathAt(images, indices[k])
  {
    assert indices[..k + 1][..k] == indices[..k];
  }

  /** Adding textures for `a` and then for `b` is adding them for both at once. */
  lemma WithTexturesUnion(cache: map<string, Texture>, a: set<string>, b: set<string>)
    ensures WithTextures(WithTextures(cache, a), b) == WithTextures(cache, a + b)
  {
    var l := WithTextures(WithTextures(cache, a), b);
    var r := WithTextures(cache, a + b);
    assert l.Keys == r.Keys;
    forall p | p in l ensures l[p] == r[p] {
    }
  }

  /** Adding a texture for a missing path is one map update. */
  lemma WithTexturesAdd(cache: map<string, Texture>, p: string)
    requires p !in cache
    ensures WithTextures(cache, {p}) == cache[p := Texture(p)]
  {
    var l := WithTextures(cache, {p});
    assert l.Keys == cache.Keys + {p};
  }

  /** Adding a texture for a path the cache already holds changes nothing. */
  lemma WithTexturesPresent(cache: map<string, Texture>, p: string)
    requires p in cache
    ensures WithTextures(cache, {p}) == cache
  {
    var l := WithTextures(cache, {p});
    assert l.Keys == cache.Keys;
  }

  /**
   * The paths `preloadAdjacentImages` adds to the cache: those of the next
   * and the previous image, each when it loaded, and no other.
   */
  function AdjacentLoadedPaths(images: seq<Image>, i: int): (r: set<string>)
    ensures images == [] ==> r == {}
    ensures images != [] ==> r == LoadedPathAt(images, Next(i, |images|)) + LoadedPathAt(images, Prev(i, |images|))
  {
    if images == [] then {}
    else
      var indices := PreloadIndices(i, |images|);
      LoadedPathsPrefix(images, indices, 0);
      LoadedPathsPrefix(images, indices, 1);
      assert indices[..0] == [] && indices[..2] == indices;
      LoadedPaths(images, indices)
  }

  /**
   * What `loadCurrentImage` draws for the image at `i`: nothing for an empty
   * folder, a fault for an index out of range, the error canvas for a failed
   * image, and otherwise the image's own texture with exactly its own hotspots
   * as the rendered markers.
   */
  function ViewAt(images: seq<Image>, hotspots: seq<Hotspot>, i: int): (v: View)
    ensures v.NoImages? <==> images == []
    ensures v.Fault? <==> images != [] && !(0 <= i < |images|)
    ensures v.ErrorPlaceholder? <==> 0 <= i < |images| && !images[i].loaded
    ensures v.ErrorPlaceholder? ==> v.name == images[i].name
    ensures v.Panorama? || v.MarkerFault? ==> 0 <= i < |images| && images[i].loaded && v.texture == Texture(images[i].path)
    ensures v.Panorama? ==> v.markers == HotspotsFor(hotspots, i) && forall h :: h in v.markers ==> h.imageIndex == i
    ensures v.MarkerFault? <==> 0 <= i < |images| && images[i].loaded && !Renderable(HotspotsFor(hotspots, i))
  {
    if images == [] then NoImages
    else if !(0 <= i < |images|) then Fault
    else if !images[i].loaded then ErrorPlaceholder(images[i].name)
    else if Renderable(HotspotsFor(hotspots, i)) then Panorama(Texture(images[i].path), HotspotsFor(hotspots, i))
    else MarkerFault(Texture(images[i].path))
  }

  /**
   * The texture cache after showing the image at `i`: every entry is kept,
   * the shown image's path is added, and a coherent cache stays coherent.
   * Nothing changes when no image is shown, and a marker fault stops before
   * the neighbours are preloaded.
   */
  function CacheAfterView(cache: map<string, Texture>, images: seq<Image>, hotspots: seq<Hotspot>, i: int): (c: map<string, Texture>)
    ensures forall p :: p in cache ==> p in c && c[p] == cache[p]
    ensures 0 <= i < |images| && images[i].loaded ==> images[i].path in c
    ensures CacheCoherent(cache) ==> CacheCoherent(c)
    ensures !(0 <= i < |images| && images[i].loaded) ==> c == cache
    ensures 0 <= i < |images| && images[i].loaded && !Renderable(HotspotsFor(hotspots, i)) ==> c.Keys == cache.Keys + {images[i].path}
  {
    if images == [] || !(0 <= i < |images|) || !images[i].loaded then cache
    else
      var withCurrent := WithTextures(cache, {images[i].path});
      if Renderable(HotspotsFor(hotspots, i)) then WithTextures(withCurrent, AdjacentLoadedPaths(images, i))
      else withCurrent
  }

  /** Showing an image adds no path but its own and those of its loaded neighbours. */
  lemma CacheAfterViewBounded(cache: map<string, Texture>, images: seq<Image>, hotspots: seq<Hotspot>, i: int)
    requires 0 <= i < |images|
    ensures CacheAfterView(cache, images, hotspots, i).Keys <= cache.Keys + {images[i].path} + AdjacentLoadedPaths(images, i)
  {
  }

  /** Once an image is shown with its markers, its loaded neighbours on both sides are cached. */
  lemma NeighboursPreloaded(cache: map<string, Texture>, images: seq<Image>, hotspots: seq<Hotspot>, i: int)
    requires ViewAt(images, hotspots, i).Panorama?
    ensures 0 <= i < |images|
    ensures var n := |images|;
            var c := CacheAfterView(cache, images, hotspots, i);
            && 0 <= Next(i, n) < n && 0 <= Prev(i, n) < n
            && (images[Next(i, n)].loaded ==> images[Next(i, n)].path in c)
            && (images[Prev(i, n)].loaded ==> images[Prev(i, n)].path in c)
  {
    var n := |images|;
    var idx := PreloadIndices(i, n);
    LoadedPathsPrefix(images, idx, 0);
    LoadedPathsPrefix(images, idx, 1);
    assert idx[..0] == [] && idx[..2] == idx;
  }

  /** Committing onto an image whose markers all render keeps it renderable when the new one is placed. */
  lemma PlacedCommitRenders(hs: seq<Hotspot>, h: Hotspot)
    requires Renderable(HotspotsFor(hs, h.imageIndex))
    requires h.position.Some?
    ensures Renderable(HotspotsFor(hs + [h], h.imageIndex))
  {
    AppendedHotspotShown(hs, h, h.imageIndex);
  }

  /** The folder a session starts in, before any folder switch. */
  const InitialFolder := "pakapiens"

  /** One tour session: the state `VirtualTourApp` keeps between events. */
  class VirtualTourApp {
    var currentFolder: string
    var images: seq<Image>
    var currentImageIndex: int
    var hotspots: seq<Hotspot>
    var photoOrder: seq<Image>
    var imageCache: map<string, Texture>
    var storage: Store
    var tempHotspotPosition: Option<Placement>

    /** The photo order is a permutation of the images, and the cache is coherent. */
    ghost predicate Valid()
      reads this
    {
      multiset(photoOrder) == multiset(images) && CacheCoherent(imageCache)
    }

    /** The current index names an image whenever there is one. */
    predicate InBounds()
      reads this
    {
      images == [] || 0 <= currentImageIndex < |images|
    }

    /**
     * `new VirtualTourApp()` with `init()` run to the end: the folder
     * "pakapiens" is loaded and, when it has images, the first is shown.
     * `initialStorage` is what the browser store already holds.
     */
    constructor (initialStorage: Store, outcomes: seq<Fetch>)
      requires |outcomes| == |ImageFilesForFolder(InitialFolder)|
      ensures Valid() && InBounds()
      ensures currentFolder == InitialFolder && storage == initialStorage && tempHotspotPosition == None
      ensures IsLoadOf(images, currentFolder, ImageFilesForFolder(currentFolder), outcomes)
      ensures photoOrder == images && currentImageIndex == 0
      ensures hotspots == match SavedHotspots(storage, currentFolder) case Some(hs) => hs case None => []
      ensures imageCache == CacheAfterView(map[], images, hotspots, 0)
    {
      currentFolder := InitialFolder;
      currentImageIndex := 0;
      images := [];
      hotspots := [];
      photoOrder := [];
      imageCache := map[];
      storage := initialStorage;
      tempHotspotPosition := None;
      new;
      LoadFolderImages(currentFolder, outcomes);
      var _ := ShowFirstImage();
    }

    /** The end of `setupThreeJS`: show the current image when the folder has any, else nothing. */
    method ShowFirstImage() returns (view: View)
      requires Valid()
      modifies this`imageCache
      ensures Valid()
      ensures view == ViewAt(images, hotspots, currentImageIndex)
      ensures imageCache == CacheAfterView(old(imageCache), images, hotspots, currentImageIndex)
    {
      view := NoImages;
      if images != [] {
        view := LoadCurrentImage();
      }
    }

    /** `loadImagesWithProgress`: one entry per file, in order; a failed file does not stop the rest. */
    static method LoadImagesWithProgress(imageFiles: seq<string>, folderName: string, outcomes: seq<Fetch>)
      returns (loadedImages: seq<Image>)
      requires |outcomes| == |imageFiles|
      ensures IsLoadOf(loadedImages, folderName, imageFiles, outcomes)
    {
      loadedImages := [];
      for i := 0 to |imageFiles|
        invariant IsLoadOf(loadedImages, folderName, imageFiles[..i], outcomes[..i])
      {
        var file := imageFiles[i];
        var imagePath := ImagePath(folderName, file);
        if outcomes[i] == Loaded {
          loadedImages := loadedImages + [Image(file, imagePath, true, None)];
        } else {
          loadedImages := loadedImages + [Image(file, imagePath, false, FetchError(outcomes[i], file))];
        }
      }
      assert imageFiles[..|imageFiles|] == imageFiles;
      assert outcomes[..|outcomes|] == outcomes;
    }

    /** `loadFolderImages`: rebuild the image list, reset the order and index, reload the hotspots. */
    method LoadFolderImages(folderName: string, outcomes: seq<Fetch>)
      requires Valid()
      requires |outcomes| == |ImageFilesForFolder(folderName)|
      modifies this`images, this`hotspots, this`photoOrder, this`currentImageIndex
      ensures Valid() && InBounds()
      ensures IsLoadOf(images, folderName, ImageFilesForFolder(folderName), outcomes)
      ensures photoOrder == images && currentImageIndex == 0
      ensures hotspots == match SavedHotspots(storage, folderName) case Some(hs) => hs case None => []
    {
      images := [];
      hotspots := [];
      var imageFiles := ImageFilesForFolder(folderName);
      var loadedImages := LoadImagesWithProgress(imageFiles, folderName, outcomes);
      images := loadedImages;
      photoOrder := images;
      currentImageIndex := 0;
      LoadHotspots(folderName);
    }

    /** `switchFolder`, up to the folder load; the continuation that shows the first image is not modelled. */
    method SwitchFolder(folderName: string, outcomes: seq<Fetch>)
      requires Valid()
      requires |outcomes| == |ImageFilesForFolder(folderName)|
      modifies this`currentFolder, this`images, this`hotspots, this`photoOrder, this`currentImageIndex
      ensures Valid() && InBounds()
      ensures currentFolder == folderName
      ensures IsLoadOf(images, folderName, ImageFilesForFolder(folderName), outcomes)
      ensures photoOrder == images && currentImageIndex == 0
      ensures hotspots == match SavedHotspots(storage, folderName) case Some(hs) => hs case None => []
    {
      currentFolder := folderName;
      LoadFolderImages(folderName, outcomes);
    }

    /** `loadHotspots`: take the saved list for the folder if there is one, else keep the current list. */
    method LoadHotspots(folderName: string)
      modifies this`hotspots
      ensures hotspots == match SavedHotspots(storage, folderName) case Some(hs) => hs case None => old(hotspots)
    {
      var key := HotspotsKey(folderName);
      if key in storage && storage[key].HotspotList? {
        hotspots := storage[key].hotspots;
      }
    }

    /** `saveHotspotsToStorage`: write the whole list under the current folder's key. */
    method SaveHotspotsToStorage()
      modifies this`storage
      ensures storage == old(storage)[HotspotsKey(currentFolder) := HotspotList(hotspots)]
      ensures SavedHotspots(storage, currentFolder) == Some(hotspots)
    {
      storage := storage[HotspotsKey(currentFolder) := HotspotList(hotspots)];
    }

    /** `savePhotoOrder`: write the names in display order under the current folder's key. */
    method SavePhotoOrder()
      modifies this`storage
      ensures storage == old(storage)[PhotoOrderKey(currentFolder) := NameList(Names(photoOrder))]
      ensures forall f :: SavedHotspots(storage, f) == SavedHotspots(old(storage), f)
    {
      storage := storage[PhotoOrderKey(currentFolder) := NameList(Names(photoOrder))];
      forall f ensures SavedHotspots(storage, f) == SavedHotspots(old(storage), f) {
        SaveOrderLeavesHotspots(old(storage), currentFolder, f, Names(photoOrder));
      }
    }

    /** `preloadImage`: the cached texture for the image's path, built and cached if missing. */
    method PreloadImage(imageData: Image) returns (texture: Texture)
      requires Valid()
      modifies this`imageCache
      ensures Valid()
      ensures texture == Texture(imageData.path)
      ensures imageCache == WithTextures(old(imageCache), {imageData.path})
    {
      if imageData.path in imageCache {
        WithTexturesPresent(imageCache, imageData.path);
        return imageCache[imageData.path];
      }
      WithTexturesAdd(imageCache, imageData.path);
      texture := Texture(imageData.path);
      imageCache := imageCache[imageData.path := texture];
    }

    /** `preloadAdjacentImages`: cache the next and the previous image when they loaded. */
    method PreloadAdjacentImages()
      requires Valid()
      modifies this`imageCache
      ensures Valid()
      ensures imageCache == WithTextures(old(imageCache), AdjacentLoadedPaths(images, currentImageIndex))
    {
      if images == [] {
        // the indices are NaN and `images[NaN]` is undefined: nothing is preloaded
        return;
      }
      var n := |images|;
      var preloadIndices := PreloadIndices(currentImageIndex, n);
      for k := 0 to |preloadIndices|
        invariant Valid()
        invariant imageCache == WithTextures(old(imageCache), LoadedPaths(images, preloadIndices[..k]))
      {
        var index := preloadIndices[k];
        LoadedPathsPrefix(images, preloadIndices, k);
        ghost var before := imageCache;
        ghost var done := LoadedPaths(images, preloadIndices[..k]);
        if 0 <= index < n && images[index].loaded && images[index].path !in imageCache {
          var _ := PreloadImage(images[index]);
          WithTexturesUnion(old(imageCache), done, {images[index].path});
        } else if 0 <= index < n && images[index].loaded {
          WithTexturesPresent(before, images[index].path);
          WithTexturesUnion(old(imageCache), done, {images[index].path});
        } else {
          assert LoadedPathAt(images, index) == {};
        }
      }
      assert preloadIndices[..|preloadIndices|] == preloadIndices;
    }

    /** `loadCurrentImage`: show the current image from the cache (adding it), its markers, and preload. */
    method LoadCurrentImage() returns (view: View)
      requires Valid()
      modifies this`imageCache
      ensures Valid()
      ensures view == ViewAt(images, hotspots, currentImageIndex)
      ensures imageCache == CacheAfterView(old(imageCache), images, hotspots, currentImageIndex)
    {
      if images == [] {
        return NoImages;
      }
      if !(0 <= currentImageIndex < |images|) {
        // `currentImage.loaded` on undefined
        return Fault;
      }
      var currentImage := images[currentImageIndex];
      if !currentImage.loaded {
        return ErrorPlaceholder(currentImage.name);
      }
      var texture;
      if currentImage.path in imageCache {
        texture := imageCache[currentImage.path];
        WithTexturesPresent(imageCache, currentImage.path);
      } else {
        texture := Texture(currentImage.path);
        WithTexturesAdd(imageCache, currentImage.path);
        imageCache := imageCache[currentImage.path := texture];
      }
      assert imageCache == WithTextures(old(imageCache), {currentImage.path});
      var shown := HotspotsFor(hotspots, currentImageIndex);
      if !Renderable(shown) {
        // `renderHotspots` reads `position.x` of a hotspot saved without a position
        return MarkerFault(texture);
      }
      PreloadAdjacentImages();
      view := Panorama(texture, shown);
    }

    /** `nextImage`: step forward circularly; nothing happens without images. */
    method NextImage() returns (view: View)
      requires Valid()
      modifies this`currentImageIndex, this`imageCache
      ensures Valid()
      ensures images == [] ==> currentImageIndex == old(currentImageIndex) && imageCache == old(imageCache)
      ensures images != [] ==> currentImageIndex == Next(old(currentImageIndex), |images|)
      ensures old(InBounds()) ==> InBounds()
      ensures view == ViewAt(images, hotspots, currentImageIndex)
      ensures imageCache == CacheAfterView(old(imageCache), images, hotspots, currentImageIndex)
    {
      if images == [] {
        return NoImages;
      }
      currentImageIndex := Next(currentImageIndex, |images|);
      view := LoadCurrentImage();
    }

    /** `previousImage`: step back circularly; nothing happens without images. */
    method PreviousImage() returns (view: View)
      requires Valid()
      modifies this`currentImageIndex, this`imageCache
      ensures Valid()
      ensures images == [] ==> currentImageIndex == old(currentImageIndex) && imageCache == old(imageCache)
      ensures images != [] ==> currentImageIndex == Prev(old(currentImageIndex), |images|)
      ensures old(InBounds()) ==> InBounds()
      ensures view == ViewAt(images, hotspots, currentImageIndex)
      ensures imageCache == CacheAfterView(old(imageCache), images, hotspots, currentImageIndex)
    {
      if images == [] {
        return NoImages;
      }
      currentImageIndex := Prev(currentImageIndex, |images|);
      view := LoadCurrentImage();
    }

    /**
     * The state part of `createHotspotAtPoint`: remember the placement and
     * offer the targets of `populateTargetImageDropdown`. The projection to
     * screen coordinates is not modelled: `position` is its result.
     */
    method CreateHotspotAtPoint(position: Placement) returns (targets: seq<nat>)
      modifies this`tempHotspotPosition
      ensures tempHotspotPosition == Some(position)
      ensures forall t: int :: t in targets <==> 0 <= t < |images| && t != currentImageIndex
      ensures forall a, b :: 0 <= a < b < |targets| ==> targets[a] < targets[b]
    {
      targets := TargetIndices(|images|, currentImageIndex);
      tempHotspotPosition := Some(position);
    }

    /** `cancelHotspot`: forget the pending placement (the form reset is DOM only). */
    method CancelHotspot()
      modifies this`tempHotspotPosition
      ensures tempHotspotPosition == None
    {
      tempHotspotPosition := None;
    }

    /**
     * `saveHotspot`: reject a blank title, and an image link without a
     * target, before changing anything; otherwise push the hotspot anchored
     * to the current index, render, and write the whole list to the store.
     * `targetImage` is the selected index (None for the empty choice) and
     * `id` stands for `Date.now().toString()`.
     */
    method SaveHotspot(title: string, description: string, linkType: string, targetImage: Option<int>, id: string)
      returns (commit: Commit)
      modifies this`hotspots, this`storage
      ensures commit == MissingTitle <==> IsBlank(title)
      ensures commit == MissingTarget <==> !IsBlank(title) && linkType == ImageLink && targetImage.None?
      ensures !commit.Committed? ==> hotspots == old(hotspots) && storage == old(storage)
      ensures commit.Committed? ==>
                && commit.hotspot == Hotspot(id, title, description, tempHotspotPosition, currentImageIndex, linkType,
                                             if linkType == ImageLink then targetImage else None)
                && hotspots == old(hotspots) + [commit.hotspot]
                && (commit.stored <==> Renderable(HotspotsFor(hotspots, currentImageIndex)))
      ensures commit.Committed? && commit.stored ==> storage == old(storage)[HotspotsKey(currentFolder) := HotspotList(hotspots)]
      ensures commit.Committed? && !commit.stored ==> storage == old(storage)
    {
      TrimEmptyIffBlank(title);
      if Trim(title) == [] {
        return MissingTitle;
      }
      if linkType == ImageLink && targetImage.None? {
        return MissingTarget;
      }
      var hotspot := Hotspot(id, title, description, tempHotspotPosition, currentImageIndex, linkType,
                             if linkType == ImageLink then targetImage else None);
      hotspots := hotspots + [hotspot];
      if !Renderable(HotspotsFor(hotspots, currentImageIndex)) {
        // `renderHotspots` throws before the list is saved
        return Committed(hotspot, false);
      }
      SaveHotspotsToStorage();
      commit := Committed(hotspot, true);
    }

    /**
     * `showHotspotInfo`: find the hotspot by id; an image link with a target
     * moves there and shows it (the target is not range-checked), anything
     * else shows its title and description.
     */
    method ShowHotspotInfo(hotspotId: string) returns (activation: Activation)
      requires Valid()
      modifies this`currentImageIndex, this`imageCache
      ensures Valid()
      ensures FindById(hotspots, hotspotId).None? ==>
                activation == NotFound && currentImageIndex == old(currentImageIndex) && imageCache == old(imageCache)
      ensures FindById(hotspots, hotspotId).Some? ==>
                var h := hotspots[FindById(hotspots, hotspotId).value];
                if h.linkType == ImageLink && h.targetImageIndex.Some? then
                  && currentImageIndex == h.targetImageIndex.value
                  && activation == Navigate(currentImageIndex, ViewAt(images, hotspots, currentImageIndex))
                  && imageCache == CacheAfterView(old(imageCache), images, hotspots, currentImageIndex)
                else
                  && activation == ShowInfo(h.title, h.description)
                  && currentImageIndex == old(currentImageIndex) && imageCache == old(imageCache)
    {
      var found := FindById(hotspots, hotspotId);
      if found.None? {
        return NotFound;
      }
      var hotspot := hotspots[found.value];
      if hotspot.linkType == ImageLink && hotspot.targetImageIndex.Some? {
        currentImageIndex := hotspot.targetImageIndex.value;
        var view := LoadCurrentImage();
        return Navigate(currentImageIndex, view);
      }
      activation := ShowInfo(hotspot.title, hotspot.description);
    }

    /** `reorderPhotos`: move one entry of the photo order; images and index stay as they are. */
    method ReorderPhotos(fromIndex: nat, toIndex: nat)
      requires Valid()
      requires fromIndex < |photoOrder| && toIndex < |photoOrder|
      modifies this`photoOrder
      ensures Valid()
      ensures photoOrder == Moved(old(photoOrder), fromIndex, toIndex)
      ensures |photoOrder| == old(|photoOrder|) && photoOrder[toIndex] == old(photoOrder[fromIndex])
    {
      var item := photoOrder[fromIndex];
      photoOrder := photoOrder[..fromIndex] + photoOrder[fromIndex + 1..];
      photoOrder := photoOrder[..toIndex] + [item] + photoOrder[toIndex..];
      MovedIsPermutation(old(photoOrder), fromIndex, toIndex);
      MovedAt(old(photoOrder), fromIndex, toIndex, toIndex);
    }
  }
}
