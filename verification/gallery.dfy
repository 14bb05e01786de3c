/**
 * The gallery lightbox: a state of (selected image or none, current index)
 * over a fixed image list, driven by clicks on a thumbnail, on the close
 * button and on the previous / next buttons.
 */
module Gallery {
  import opened Wrappers

  datatype GalleryImage = GalleryImage(src: string, alt: string, category: string)

  const Images: seq<GalleryImage> := [
    GalleryImage("/lovable-uploads/f9291e1b-a331-40ad-aaa3-99926ecc76a8.png",
      "Deva Narayan - Professional Portrait", "portrait"),
    GalleryImage("/lovable-uploads/796bbc75-a786-4ecb-8944-065bb7bcd73e.png",
      "Artistic Black & White Portrait", "artistic"),
    GalleryImage("/lovable-uploads/4731e76e-fe46-4bed-b919-8d2c8a9f781c.png",
      "Car Photography", "automotive")
  ]

  /** `selected` is `None` while the lightbox is closed. */
  datatype Lightbox = Lightbox(selected: Option<GalleryImage>, index: int)

  /** Closed, with the index at 0. */
  const Initial: Lightbox := Lightbox(None, 0)

  /**
   * JavaScript's `%` on numbers: the remainder truncates toward zero, so it
   * takes the sign of the dividend (Dafny's `%` is Euclidean instead).
   */
  function JsRem(a: int, n: int): (r: int)
    requires n > 0
    ensures a >= 0 ==> 0 <= r < n
    ensures a < 0 ==> -n < r <= 0
    ensures 0 <= a < n ==> r == a
    ensures n <= a < 2 * n ==> r == a - n
    ensures -n < a < 0 ==> r == a
  {
    RemFacts(a, n);
    if a >= 0 then a % n else -((-a) % n)
  }

  lemma RemFacts(a: int, n: int)
    requires n > 0
    ensures 0 <= a < n ==> a % n == a
    ensures n <= a < 2 * n ==> a % n == a - n
    ensures -n < a < 0 ==> (-a) % n == -a
  {
    if 0 <= a < n {
      RemOfSmall(a, n);
    } else if n <= a < 2 * n {
      RemOfWrapped(a, n);
    } else if -n < a < 0 {
      RemOfSmall(-a, n);
    }
  }

  /** Euclidean remainder of a value already in range. */
  lemma RemOfSmall(a: int, n: int)
    requires 0 <= a < n
    ensures a % n == a
  {
  }

  /** Euclidean remainder of a value within one divisor above the range. */
  lemma RemOfWrapped(a: int, n: int)
    requires 0 < n <= a < 2 * n
    ensures a % n == a - n
  {
  }

  /** Array indexing: out of range yields `undefined`. */
  function At(images: seq<GalleryImage>, k: int): (r: Option<GalleryImage>)
    ensures r.Some? <==> 0 <= k < |images|
    ensures r.Some? ==> r.value == images[k]
  {
    if 0 <= k < |images| then Some(images[k]) else None
  }

  /** The index `nextImage` moves to. */
  function NextIndex(i: int, n: int): (r: int)
    requires n > 0
    ensures -1 <= i ==> 0 <= r < n
    ensures 0 <= i < n ==> r == (if i == n - 1 then 0 else i + 1)
  {
    JsRem(i + 1, n)
  }

  /** The index `prevImage` moves to; its dividend is never negative for `i >= 0`. */
  function PrevIndex(i: int, n: int): (r: int)
    requires n > 0
    ensures 1 - n <= i ==> 0 <= r < n
    ensures 0 <= i < n ==> r == (if i == 0 then n - 1 else i - 1)
  {
    JsRem(i - 1 + n, n)
  }

  /** Index in range, and an open lightbox shows the image at the index. */
  predicate Consistent(images: seq<GalleryImage>, s: Lightbox) {
    && 0 <= s.index < |images|
    && (s.selected.Some? ==> s.selected.value == images[s.index])
  }

  /** Opening a thumbnail's (image, index) pair yields a consistent, open state. */
  function OpenLightbox(image: GalleryImage, index: int): (r: Lightbox)
    ensures r.selected.Some?
    ensures forall images :: 0 <= index < |images| && image == images[index] ==> Consistent(images, r)
  {
    Lightbox(Some(image), index)
  }

  function CloseLightbox(s: Lightbox): (r: Lightbox)
    ensures r.selected.None?
    ensures r.index == s.index
    ensures forall images :: Consistent(images, s) ==> Consistent(images, r)
  {
    s.(selected := None)
  }

  function NextImage(images: seq<GalleryImage>, s: Lightbox): (r: Lightbox)
    requires |images| > 0
    ensures Consistent(images, s) ==> Consistent(images, r) && r.selected.Some?
    ensures Consistent(images, s) ==>
      r.index == (if s.index == |images| - 1 then 0 else s.index + 1)
  {
    var k := NextIndex(s.index, |images|);
    Lightbox(At(images, k), k)
  }

  function PrevImage(images: seq<GalleryImage>, s: Lightbox): (r: Lightbox)
    requires |images| > 0
    ensures Consistent(images, s) ==> Consistent(images, r) && r.selected.Some?
    ensures Consistent(images, s) ==>
      r.index == (if s.index == 0 then |images| - 1 else s.index - 1)
  {
    var k := PrevIndex(s.index, |images|);
    Lightbox(At(images, k), k)
  }

  /** What the user can click. */
  datatype Click = Thumbnail(index: int) | CloseButton | PrevButton | NextButton

  /**
   * Thumbnails are rendered for every image; the close, previous and next
   * buttons only inside the open lightbox.
   */
  predicate Rendered(images: seq<GalleryImage>, s: Lightbox, c: Click) {
    match c
    case Thumbnail(i) => 0 <= i < |images|
    case _ => s.selected.Some?
  }

  /** One click; a click on something not rendered cannot happen and changes nothing. */
  function Step(images: seq<GalleryImage>, s: Lightbox, c: Click): (r: Lightbox)
    requires |images| > 0
    ensures !Rendered(images, s, c) ==> r == s
    ensures Consistent(images, s) ==> Consistent(images, r)
    ensures c.CloseButton? ==> r.selected.None? && r.index == s.index
    ensures c.Thumbnail? && Rendered(images, s, c) ==> r.selected == Some(images[c.index])
    ensures c.Thumbnail? && Rendered(images, s, c) ==> r.index == c.index
    ensures c.NextButton? && Rendered(images, s, c) ==> r == NextImage(images, s)
    ensures c.PrevButton? && Rendered(images, s, c) ==> r == PrevImage(images, s)
  {
    if !Rendered(images, s, c) then s
    else match c
      case Thumbnail(i) => OpenLightbox(images[i], i)
      case CloseButton => CloseLightbox(s)
      case PrevButton => PrevImage(images, s)
      case NextButton => NextImage(images, s)
  }

  /** A sequence of clicks, applied in order. */
  function Run(images: seq<GalleryImage>, s: Lightbox, clicks: seq<Click>): Lightbox
    requires |images| > 0
    decreases |clicks|
  {
    if |clicks| == 0 then s else Run(images, Step(images, s, clicks[0]), clicks[1..])
  }

  /** Every reachable state is consistent: an open lightbox shows `images[index]`. */
  lemma {:induction false} RunStaysConsistent(images: seq<GalleryImage>, s: Lightbox, clicks: seq<Click>)
    requires |images| > 0
    requires Consistent(images, s)
    ensures Consistent(images, Run(images, s, clicks))
    decreases |clicks|
  {
    if |clicks| > 0 {
      RunStaysConsistent(images, Step(images, s, clicks[0]), clicks[1..]);
    }
  }

  /** `Initial` is consistent as soon as there is an image; so is every state reached from it. */
  lemma ReachableIsConsistent(images: seq<GalleryImage>, clicks: seq<Click>)
    requires |images| > 0
    ensures Consistent(images, Run(images, Initial, clicks))
  {
    RunStaysConsistent(images, Initial, clicks);
  }

  /** Previous undoes next. */
  lemma PrevAfterNext(images: seq<GalleryImage>, s: Lightbox)
    requires |images| > 0
    requires Consistent(images, s) && s.selected.Some?
    ensures PrevImage(images, NextImage(images, s)) == s
  {
  }

  /** Next undoes previous. */
  lemma NextAfterPrev(images: seq<GalleryImage>, s: Lightbox)
    requires |images| > 0
    requires Consistent(images, s) && s.selected.Some?
    ensures NextImage(images, PrevImage(images, s)) == s
  {
  }

  /** `k` presses of the next button. */
  function NextTimes(images: seq<GalleryImage>, s: Lightbox, k: nat): Lightbox
    requires |images| > 0
  {
    if k == 0 then s else NextImage(images, NextTimes(images, s, k - 1))
  }

  /** `k` presses of the previous button. */
  function PrevTimes(images: seq<GalleryImage>, s: Lightbox, k: nat): Lightbox
    requires |images| > 0
  {
    if k == 0 then s else PrevImage(images, PrevTimes(images, s, k - 1))
  }

  lemma {:induction false} NextTimesIndex(images: seq<GalleryImage>, s: Lightbox, k: nat)
    requires |images| > 0
    requires Consistent(images, s) && s.selected.Some?
    requires k <= |images|
    ensures Consistent(images, NextTimes(images, s, k))
    ensures NextTimes(images, s, k).selected.Some?
    ensures NextTimes(images, s, k).index
         == (if s.index + k < |images| then s.index + k else s.index + k - |images|)
  {
    if k > 0 {
      NextTimesIndex(images, s, k - 1);
    }
  }

  lemma {:induction false} PrevTimesIndex(images: seq<GalleryImage>, s: Lightbox, k: nat)
    requires |images| > 0
    requires Consistent(images, s) && s.selected.Some?
    requires k <= |images|
    ensures Consistent(images, PrevTimes(images, s, k))
    ensures PrevTimes(images, s, k).selected.Some?
    ensures PrevTimes(images, s, k).index
         == (if k <= s.index then s.index - k else s.index - k + |images|)
  {
    if k > 0 {
      PrevTimesIndex(images, s, k - 1);
    }
  }

  /** Pressing next once per image comes back to the starting image. */
  lemma NextCycle(images: seq<GalleryImage>, s: Lightbox)
    requires |images| > 0
    requires Consistent(images, s) && s.selected.Some?
    ensures NextTimes(images, s, |images|) == s
  {
    NextTimesIndex(images, s, |images|);
  }

  /** Pressing previous once per image comes back to the starting image. */
  lemma PrevCycle(images: seq<GalleryImage>, s: Lightbox)
    requires |images| > 0
    requires Consistent(images, s) && s.selected.Some?
    ensures PrevTimes(images, s, |images|) == s
  {
    PrevTimesIndex(images, s, |images|);
  }

  /** With the three gallery images: open the first, then next goes 1, 2, and wraps to 0. */
  lemma ThreeImageTour()
    ensures Run(Images, Initial, [Thumbnail(0)]) == Lightbox(Some(Images[0]), 0)
    ensures Run(Images, Initial, [Thumbnail(0), NextButton]) == Lightbox(Some(Images[1]), 1)
    ensures Run(Images, Initial, [Thumbnail(0), NextButton, NextButton]) == Lightbox(Some(Images[2]), 2)
    ensures Run(Images, Initial, [Thumbnail(0), NextButton, NextButton, NextButton])
         == Lightbox(Some(Images[0]), 0)
  {
    var s0 := Lightbox(Some(Images[0]), 0);
    var s1 := Lightbox(Some(Images[1]), 1);
    var s2 := Lightbox(Some(Images[2]), 2);
    assert Step(Images, Initial, Thumbnail(0)) == s0;
    assert Step(Images, s0, NextButton) == s1;
    assert Step(Images, s1, NextButton) == s2;
    assert Step(Images, s2, NextButton) == s0;
    assert [Thumbnail(0), NextButton][1..] == [NextButton];
    assert [Thumbnail(0), NextButton, NextButton][1..] == [NextButton, NextButton];
    assert [Thumbnail(0), NextButton, NextButton, NextButton][1..] == [NextButton, NextButton, NextButton];
  }

  /** While the lightbox is closed, previous and next are not reachable. */
  lemma ClosedIgnoresArrows(images: seq<GalleryImage>, s: Lightbox)
    requires |images| > 0
    requires s.selected.None?
    ensures Step(images, s, NextButton) == s
    ensures Step(images, s, PrevButton) == s
    ensures Step(images, s, CloseButton) == s
  {
  }
}
