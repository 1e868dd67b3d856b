/**
 * The static image catalog of `getImageFilesForFolder` (app.js:234-279),
 * the image records that a folder load builds (app.js:168-208) and the
 * error messages of a failed fetch (app.js:216-228).
 */
module Catalog {
  import opened Basics

  /** The folders the catalog knows. */
  const KnownFolders: set<string> := {"pakapiens", "pietura", "spaktele"}

  /** The ordered file names of a folder; an unknown folder has none. */
  function ImageFilesForFolder(folderName: string): (files: seq<string>)
    ensures files != [] <==> folderName in KnownFolders
    ensures folderName == "pakapiens" ==> |files| == 14
    ensures folderName == "pietura" ==> |files| == 9
    ensures folderName == "spaktele" ==> |files| == 9
  {
    if folderName == "pakapiens" then
      [ "IMG_20250915_165749_00_013.jpg", "IMG_20250915_171031_00_016.jpg",
        "IMG_20250915_171631_00_018.jpg", "IMG_20250915_173327_00_021.jpg",
        "IMG_20250915_174130_00_024.jpg", "IMG_20250916_163614_00_027.jpg",
        "IMG_20250916_165334_00_030.jpg", "IMG_20250916_165451_00_032.jpg",
        "IMG_20250916_172242_00_034.jpg", "IMG_20250916_172556_00_036.jpg",
        "IMG_20250916_172951_00_038.jpg", "IMG_20250916_173054_00_040.jpg",
        "IMG_20250916_190946_00_043.jpg", "IMG_20250916_191105_00_045.jpg" ]
    else if folderName == "pietura" then
      [ "IMG_20251016_145044_00_046.jpg", "IMG_20251016_145242_00_047.jpg",
        "IMG_20251016_145554_00_049.jpg", "IMG_20251016_150014_00_052.jpg",
        "IMG_20251016_150151_00_053.jpg", "IMG_20251016_150418_00_054.jpg",
        "IMG_20251016_150620_00_055.jpg", "IMG_20251016_150744_00_056.jpg",
        "IMG_20251016_151002_00_057.jpg" ]
    else if folderName == "spaktele" then
      [ "IMG_20251016_154859_00_059.jpg", "IMG_20251016_155043_00_060.jpg",
        "IMG_20251016_155310_00_061.jpg", "IMG_20251016_155427_00_062.jpg",
        "IMG_20251016_155941_00_063.jpg", "IMG_20251016_160025_00_064.jpg",
        "IMG_20251016_160156_00_065.jpg", "IMG_20251016_160247_00_066.jpg",
        "IMG_20251016_160321_00_067.jpg" ]
    else
      []
  }

  /** The URL an image is fetched from: `./<folder>/<file>`; it ends with the file name. */
  function ImagePath(folderName: string, file: string): (r: string)
    ensures |r| == |folderName| + |file| + 3
    ensures r[|folderName| + 3..] == file
  {
    "./" + folderName + "/" + file
  }

  /** The path is `./`, then the folder name, then `/`, then the file name. */
  lemma ImagePathShape(folderName: string, file: string)
    ensures var p := ImagePath(folderName, file);
            p[..2] == "./" && p[2..|folderName| + 2] == folderName && p[|folderName| + 2] == '/'
  {
  }

  /** Within one folder, different files have different paths. */
  lemma ImagePathInjective(folderName: string, a: string, b: string)
    requires ImagePath(folderName, a) == ImagePath(folderName, b)
    ensures a == b
  {
    var p := ImagePath(folderName, a);
    var q := ImagePath(folderName, b);
    var n := |folderName| + 3;
    assert a == p[n..];
    assert b == q[n..];
  }

  /** How the fetch of one image ended; the browser's `Image` callbacks are not modelled. */
  datatype Fetch = Loaded | TimedOut | LoadFailed

  /** The error message the failed fetch rejects with (its `error.message`). */
  function FetchError(outcome: Fetch, file: string): (e: Option<string>)
    ensures e.None? <==> outcome == Loaded
  {
    match outcome
    case Loaded => None
    case TimedOut => Some("Timeout loading " + file)
    case LoadFailed => Some("Failed to load " + file)
  }

  /** One entry of `images`; the browser image element is not modelled. */
  datatype Image = Image(name: string, path: string, loaded: bool, error: Option<string>)

  /**
   * `images` is the result of loading `files` of `folderName` with fetch
   * results `outcomes`: one entry per file, in catalog order, failed ones
   * kept with their error message.
   */
  predicate IsLoadOf(images: seq<Image>, folderName: string, files: seq<string>, outcomes: seq<Fetch>): (ok: bool)
    ensures ok ==> forall k :: 0 <= k < |images| ==> (images[k].loaded <==> images[k].error.None?)
    ensures ok ==> forall k :: 0 <= k < |images| ==> images[k].path == ImagePath(folderName, images[k].name)
  {
    && |images| == |files| == |outcomes|
    && forall k :: 0 <= k < |images| ==>
         images[k] == Image(files[k], ImagePath(folderName, files[k]), outcomes[k] == Loaded, FetchError(outcomes[k], files[k]))
  }

  /** The catalog lists no file twice in a folder. */
  lemma CatalogNamesDistinct(folderName: string)
    ensures var files := ImageFilesForFolder(folderName);
            forall i, j :: 0 <= i < j < |files| ==> files[i] != files[j]
  {
  }

  /** So the images of one folder have pairwise different paths (cache keys). */
  lemma CatalogPathsDistinct(folderName: string)
    ensures var files := ImageFilesForFolder(folderName);
            forall i, j :: 0 <= i < j < |files| ==> ImagePath(folderName, files[i]) != ImagePath(folderName, files[j])
  {
    var files := ImageFilesForFolder(folderName);
    CatalogNamesDistinct(folderName);
    forall i, j | 0 <= i < j < |files|
      ensures ImagePath(folderName, files[i]) != ImagePath(folderName, files[j])
    {
      if ImagePath(folderName, files[i]) == ImagePath(folderName, files[j]) {
        ImagePathInjective(folderName, files[i], files[j]);
      }
    }
  }
}
