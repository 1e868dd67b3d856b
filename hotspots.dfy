/**
 * Hotspot records and the pure selections over them: the per-image filter
 * of `renderHotspots` (app.js:754), the lookup by id of `showHotspotInfo`
 * (app.js:767) and the target indices `populateTargetImageDropdown` offers
 * (app.js:796-808).
 */
module Hotspots {
  import opened Basics

  /** A point on the panorama sphere; opaque to this model. */
  datatype Point3 = Point3(x: real, y: real, z: real)

  /** The stored placement `{x, y, point}`: screen coordinates and the sphere point. */
  datatype Placement = Placement(x: real, y: real, point: Point3)

  /**
   * A hotspot as `saveHotspot` builds it. It is anchored to the image at
   * `imageIndex`; `position` is absent when no placement was pending, and
   * `targetImageIndex` is set only for links of type "image".
   */
  datatype Hotspot = Hotspot(
    id: string,
    title: string,
    description: string,
    position: Option<Placement>,
    imageIndex: int,
    linkType: string,
    targetImageIndex: Option<int>)

  /** The link type whose hotspots navigate to another image. */
  const ImageLink: string := "image"

  /** The hotspots shown for the image at `index`: those anchored to it, in stored order. */
  function HotspotsFor(hs: seq<Hotspot>, index: int): (shown: seq<Hotspot>)
    ensures |shown| <= |hs|
    ensures forall h :: h in shown <==> h in hs && h.imageIndex == index
  {
    if hs == [] then []
    else (if hs[0].imageIndex == index then [hs[0]] else []) + HotspotsFor(hs[1..], index)
  }

  /** Filtering distributes over concatenation, so it keeps the stored order. */
  lemma {:induction false} HotspotsForAppend(a: seq<Hotspot>, b: seq<Hotspot>, index: int)
    ensures HotspotsFor(a + b, index) == HotspotsFor(a, index) + HotspotsFor(b, index)
  {
    if a != [] {
      assert (a + b)[1..] == a[1..] + b;
      HotspotsForAppend(a[1..], b, index);
    } else {
      assert a + b == b;
    }
  }

  /** A hotspot appended for image `h.imageIndex` is shown last there and nowhere else. */
  lemma AppendedHotspotShown(hs: seq<Hotspot>, h: Hotspot, index: int)
    ensures HotspotsFor(hs + [h], index) ==
            if h.imageIndex == index then HotspotsFor(hs, index) + [h] else HotspotsFor(hs, index)
  {
    HotspotsForAppend(hs, [h], index);
    assert [h][1..] == [];
  }

  /** Filtering twice for the same image is filtering once. */
  lemma {:induction false} HotspotsForIdempotent(hs: seq<Hotspot>, index: int)
    ensures HotspotsFor(HotspotsFor(hs, index), index) == HotspotsFor(hs, index)
  {
    if hs != [] {
      HotspotsForIdempotent(hs[1..], index);
      var head := if hs[0].imageIndex == index then [hs[0]] else [];
      HotspotsForAppend(head, HotspotsFor(hs[1..], index), index);
      if head != [] {
        assert head[1..] == [];
      }
    }
  }

  /** Every hotspot lies on exactly one image: the filters of two images share nothing. */
  lemma FiltersDisjoint(hs: seq<Hotspot>, i: int, j: int)
    requires i != j
    ensures forall h :: h in HotspotsFor(hs, i) ==> h !in HotspotsFor(hs, j)
  {
  }

  /** The position of the first hotspot with id `id` (`Array.prototype.find`). */
  function FindById(hs: seq<Hotspot>, id: string): (k: Option<nat>)
    ensures k.None? <==> forall j :: 0 <= j < |hs| ==> hs[j].id != id
    ensures k.Some? ==> k.value < |hs| && hs[k.value].id == id
    ensures k.Some? ==> forall j :: 0 <= j < k.value ==> hs[j].id != id
  {
    if hs == [] then None
    else if hs[0].id == id then Some(0)
    else match FindById(hs[1..], id)
      case None => None
      case Some(k) => Some(k + 1)
  }

  /** The image indices offered as link targets: every index below `n` except `current`, ascending. */
  function TargetIndices(n: nat, current: int): (r: seq<nat>)
    ensures forall x: int :: x in r <==> 0 <= x < n && x != current
    ensures forall a, b :: 0 <= a < b < |r| ==> r[a] < r[b]
    ensures |r| == if 0 <= current < n then n - 1 else n
  {
    if n == 0 then []
    else
      var below := TargetIndices(n - 1, current);
      assert forall a :: 0 <= a < |below| ==> below[a] in below;
      below + (if n - 1 != current then [n - 1] else [])
  }
}
