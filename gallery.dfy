/** The gallery carousel: a current index into a non-empty list of images,
    moved by the arrows, the dots and the thumbnails. */
module Gallery {
  import opened Wrappers
  import opened FileData

  /** `(i + 1) % n`; the dividend is never negative, so JavaScript's `%`
      agrees with Dafny's. */
  function NextIndex(i: nat, n: nat): (j: nat)
    requires i < n
    ensures j < n
    ensures j == if i == n - 1 then 0 else i + 1
  {
    (i + 1) % n
  }

  /** `(i - 1 + n) % n`, with a non-negative dividend as above. */
  function PrevIndex(i: nat, n: nat): (j: nat)
    requires i < n
    ensures j < n
    ensures j == if i == 0 then n - 1 else i - 1
  {
    (i - 1 + n) % n
  }

  lemma NextPrevInverse(i: nat, n: nat)
    requires i < n
    ensures PrevIndex(NextIndex(i, n), n) == i
    ensures NextIndex(PrevIndex(i, n), n) == i
  {
  }

  /** The index after `k` presses of the next arrow. */
  function Advance(i: nat, k: nat, n: nat): (j: nat)
    requires i < n
    ensures j < n
  {
    if k == 0 then i else NextIndex(Advance(i, k - 1, n), n)
  }

  /** Within one lap, `k` presses of the next arrow move the index `k` places
      forward, wrapping past the last image back to the first. */
  lemma {:induction false} AdvanceWithinLap(i: nat, k: nat, n: nat)
    requires i < n && k <= n
    ensures Advance(i, k, n) == if i + k < n then i + k else i + k - n
  {
    if k > 0 {
      AdvanceWithinLap(i, k - 1, n);
    }
  }

  /** `n` presses of the next arrow come back to where they started. */
  lemma FullCycle(i: nat, n: nat)
    requires i < n
    ensures Advance(i, n, n) == i
  {
    AdvanceWithinLap(i, n, n);
  }

  /** The image in view: the placeholder stands in for an empty url, and the
      caption box appears only for a non-empty caption. */
  function ImageSrc(image: GalleryImage): (src: string)
    ensures src == if image.url == "" then "/placeholder.svg" else image.url
  {
    if image.url != "" then image.url else "/placeholder.svg"
  }

  function CaptionBox(image: GalleryImage): (box: Option<string>)
    ensures box.Some? <==> Truthy(image.caption)
    ensures box.Some? ==> box == image.caption
  {
    if Truthy(image.caption) then image.caption else None
  }

  /** What the main view shows: the image source, its alt text and the
      caption box. */
  datatype Slide = Slide(src: string, alt: string, caption: Option<string>)

  /** With no images the component renders nothing. Otherwise it shows the
      image at the current index; an index past the end (`images[i]?.…`
      is undefined) shows the placeholder, the alt "Gallery image" and no
      caption. */
  function Rendered(images: seq<GalleryImage>, currentIndex: nat): (view: Option<Slide>)
    ensures view.None? <==> images == []
    ensures view.Some? && currentIndex < |images| ==>
      var image := images[currentIndex];
      view.value.src == ImageSrc(image) &&
      view.value.alt == (if image.alt == "" then "Gallery image" else image.alt) &&
      view.value.caption == CaptionBox(image)
    ensures view.Some? && currentIndex >= |images| ==>
      view.value == Slide("/placeholder.svg", "Gallery image", None)
  {
    if |images| == 0 then None
    else if currentIndex >= |images| then Some(Slide("/placeholder.svg", "Gallery image", None))
    else
      var image := images[currentIndex];
      Some(Slide(ImageSrc(image), if image.alt != "" then image.alt else "Gallery image", CaptionBox(image)))
  }

  class Carousel {
    const images: seq<GalleryImage>
    var currentIndex: nat
    var isFullscreen: bool

    ghost predicate Valid()
      reads this
    {
      |images| == 0 || currentIndex < |images|
    }

    constructor (images: seq<GalleryImage>)
      ensures this.images == images && currentIndex == 0 && !isFullscreen
      ensures Valid()
    {
      this.images := images;
      currentIndex := 0;
      isFullscreen := false;
    }

    method NextSlide()
      requires Valid() && |images| > 0
      modifies this
      ensures Valid()
      ensures currentIndex == NextIndex(old(currentIndex), |images|)
      ensures isFullscreen == old(isFullscreen)
    {
      currentIndex := (currentIndex + 1) % |images|;
    }

    method PrevSlide()
      requires Valid() && |images| > 0
      modifies this
      ensures Valid()
      ensures currentIndex == PrevIndex(old(currentIndex), |images|)
      ensures isFullscreen == old(isFullscreen)
    {
      currentIndex := (currentIndex - 1 + |images|) % |images|;
    }

    /** A click on dot `k` or thumbnail `k`. */
    method Select(k: nat)
      requires Valid() && k < |images|
      modifies this
      ensures Valid() && currentIndex == k && isFullscreen == old(isFullscreen)
    {
      currentIndex := k;
    }

    method OpenFullscreen()
      modifies this
      ensures isFullscreen && currentIndex == old(currentIndex)
    {
      isFullscreen := true;
    }
  }
}
