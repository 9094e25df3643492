/**
 * The image store panel: the uploaded images, newest first, shown through a window that starts at six
 * images and grows by ten, with deletion from storage and from both lists.
 */
module ImageStore {
  import opened Base

  /** An uploaded image: its download URL, its creation time in milliseconds, and its storage path. */
  datatype Image = Image(url: string, timeCreated: int, path: string)

  /** Ordered by creation time, newest first. */
  predicate NewestFirst(s: seq<Image>)
  {
    forall i, j :: 0 <= i < j < |s| ==> s[i].timeCreated >= s[j].timeCreated
  }

  /** Exchanges two neighbours; the contents stay the same. */
  method SwapDown(a: array<Image>, j: int)
    requires 0 < j < a.Length
    modifies a
    ensures a[j - 1] == old(a[j]) && a[j] == old(a[j - 1])
    ensures forall k :: 0 <= k < a.Length && k != j - 1 && k != j ==> a[k] == old(a[k])
    ensures multiset(a[..]) == multiset(old(a[..]))
  {
    a[j - 1], a[j] := a[j], a[j - 1];
  }

  /** `imageList.sort((a, b) => b.timeCreated - a.timeCreated)`, in place. */
  method SortNewestFirst(a: array<Image>)
    modifies a
    ensures NewestFirst(a[..])
    ensures multiset(a[..]) == multiset(old(a[..]))
  {
    var i := 0;
    while i < a.Length
      invariant 0 <= i <= a.Length
      invariant forall p, q :: 0 <= p < q < i ==> a[p].timeCreated >= a[q].timeCreated
      invariant multiset(a[..]) == multiset(old(a[..]))
    {
      var j := i;
      while j > 0 && a[j - 1].timeCreated < a[j].timeCreated
        invariant 0 <= j <= i
        invariant forall p, q :: 0 <= p < q <= i && p != j && q != j ==> a[p].timeCreated >= a[q].timeCreated
        invariant forall q :: j < q <= i ==> a[j].timeCreated > a[q].timeCreated
        invariant multiset(a[..]) == multiset(old(a[..]))
      {
        SwapDown(a, j);
        j := j - 1;
      }
      i := i + 1;
    }
    assert a[..] == a[..a.Length];
  }

  /** The images shown: the first `n` of the list, or all of them when there are fewer. */
  function Window(images: seq<Image>, n: nat): (w: seq<Image>)
    ensures w <= images && |w| == Min(n, |images|)
  {
    images[..Min(n, |images|)]
  }

  /** `filter((image) => image.path !== path)`. */
  function WithoutPath(images: seq<Image>, path: string): (r: seq<Image>)
    ensures |r| <= |images|
    ensures forall x :: x in r ==> x in images && x.path != path
  {
    Filter(images, (im: Image) => im.path != path)
  }

  /** Deleting drops every image with the path and keeps every other image as often as before. */
  lemma WithoutPathDropsOnlyIt(images: seq<Image>, path: string, im: Image)
    ensures forall x :: x in WithoutPath(images, path) ==> x.path != path
    ensures multiset(WithoutPath(images, path))[im] == if im.path == path then 0 else multiset(images)[im]
  {
    FilterCount(images, (x: Image) => x.path != path, im);
  }

  /** Storage paths are unique. */
  predicate DistinctPaths(images: seq<Image>)
  {
    forall i, j :: 0 <= i < j < |images| ==> images[i].path != images[j].path
  }

  /**
   * Deleting a listed image shortens the list by exactly one, so the count, which is decremented
   * unconditionally, stays in step with the list only when the path was listed.
   */
  lemma {:induction false} WithoutPathLength(images: seq<Image>, path: string)
    requires DistinctPaths(images)
    ensures |WithoutPath(images, path)| == if exists i :: 0 <= i < |images| && images[i].path == path then |images| - 1 else |images|
  {
    if images != [] {
      var rest := images[1..];
      assert DistinctPaths(rest) by {
        forall i, j | 0 <= i < j < |rest| ensures rest[i].path != rest[j].path {
          assert rest[i] == images[i + 1] && rest[j] == images[j + 1];
        }
      }
      WithoutPathLength(rest, path);
      assert forall i :: 0 <= i < |rest| ==> rest[i] == images[i + 1];
      if images[0].path == path {
        assert forall i :: 0 <= i < |rest| ==> rest[i].path != path;
      } else {
        assert (exists i :: 0 <= i < |images| && images[i].path == path)
           <==> (exists i :: 0 <= i < |rest| && rest[i].path == path) by {
          forall i | 0 <= i < |images| && images[i].path == path ensures 0 <= i - 1 < |rest| && rest[i - 1].path == path {
          }
        }
      }
    }
  }

  /**
   * Right after a delete the shown list is the old window filtered; once the window effect runs again it
   * is the window of the filtered list, which extends it (an image from beyond the window moves in).
   */
  lemma DeleteThenMount(images: seq<Image>, n: nat, path: string)
    ensures WithoutPath(Window(images, n), path) <= Window(WithoutPath(images, path), n)
  {
    var k := Min(n, |images|);
    assert images == images[..k] + images[k..];
    FilterAppend(images[..k], images[k..], (im: Image) => im.path != path);
  }

  /** The panel's state. */
  class Gallery {
    var allImages: seq<Image>
    /** The images shown. */
    var imageArray: seq<Image>
    var isRefreshing: bool
    var totalImages: int
    var imagesToLoad: nat

    /** The window size is six plus a number of tens. */
    ghost predicate Valid()
      reads this
    {
      imagesToLoad >= 6 && (imagesToLoad - 6) % 10 == 0
    }

    constructor ()
      ensures Valid()
      ensures allImages == [] && imageArray == [] && !isRefreshing && totalImages == 0 && imagesToLoad == 6
    {
      allImages := [];
      imageArray := [];
      isRefreshing := false;
      totalImages := 0;
      imagesToLoad := 6;
    }

    /**
     * `fetchImages`: the listed images sorted newest first, and their number. `listing` is what listing
     * the `images` folder (with each image's URL and metadata) returns, or the error it rejects with.
     */
    method FetchImages(listing: Result<seq<Image>, string>)
      requires Valid()
      modifies this`allImages, this`totalImages, this`isRefreshing
      ensures Valid()
      ensures listing.Ok? ==>
        && NewestFirst(allImages) && multiset(allImages) == multiset(listing.value)
        && totalImages == |listing.value|
      ensures listing.Err? ==> allImages == old(allImages) && totalImages == old(totalImages)
      ensures !isRefreshing
    {
      isRefreshing := true;
      if listing.Ok? {
        var list := listing.value;
        var a := new Image[|list|](i requires 0 <= i < |list| => list[i]);
        assert a[..] == list;
        SortNewestFirst(a);
        totalImages := a.Length;
        allImages := a[..];
      }
      isRefreshing := false;
    }

    /** `mountImages`, the effect that runs whenever the list or the window size changes. */
    method MountImages()
      requires Valid()
      modifies this`imageArray
      ensures Valid()
      ensures imageArray == Window(allImages, imagesToLoad)
    {
      imageArray := allImages[..Min(imagesToLoad, |allImages|)];
    }

    /**
     * Whether the "Load 10 More" button is offered instead of "No more images". Once the list is fetched
     * and the window mounted, that is exactly when the window hides some images.
     */
    function OffersLoadMore(): (b: bool)
      reads this
      ensures totalImages == |allImages| && imageArray == Window(allImages, imagesToLoad) ==>
        (b <==> imagesToLoad < |allImages|)
    {
      totalImages > |imageArray|
    }

    /** "Load 10 More". */
    method LoadMore()
      requires Valid()
      modifies this`imagesToLoad
      ensures Valid() && imagesToLoad == old(imagesToLoad) + 10
    {
      imagesToLoad := imagesToLoad + 10;
    }

    /**
     * `deleteImage`: when the storage delete goes through, the image leaves both lists and the count
     * drops by one; when it rejects, nothing changes.
     */
    method DeleteImage(path: string, fault: Option<string>)
      requires Valid()
      modifies this`allImages, this`imageArray, this`totalImages
      ensures Valid()
      ensures fault.None? ==>
        && allImages == WithoutPath(old(allImages), path)
        && imageArray == WithoutPath(old(imageArray), path)
        && totalImages == old(totalImages) - 1
      ensures fault.Some? ==> allImages == old(allImages) && imageArray == old(imageArray) && totalImages == old(totalImages)
    {
      if fault.Some? {
        return;
      }
      allImages := WithoutPath(allImages, path);
      imageArray := WithoutPath(imageArray, path);
      totalImages := totalImages - 1;
    }
  }
}
