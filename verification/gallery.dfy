/** The home page photo gallery: eight images per page and one button per
    page. */
module Gallery {
  import opened JsText

  const ImagesPerPage: nat := 8

  /** `Math.ceil(length / imagesPerPage)`. */
  function TotalPages(n: nat): (t: nat)
    ensures t * ImagesPerPage >= n
    ensures t > 0 ==> (t - 1) * ImagesPerPage < n
  {
    (n + ImagesPerPage - 1) / ImagesPerPage
  }

  /** `galleryImages.slice(indexOfFirstImage, indexOfLastImage)` where
      `indexOfLastImage = page * 8` and `indexOfFirstImage = that - 8`. */
  function PageImages<T>(images: seq<T>, page: int): seq<T> {
    Slice(images, page * ImagesPerPage - ImagesPerPage, page * ImagesPerPage)
  }

  function Min(a: int, b: int): int {
    if a < b then a else b
  }

  /** Page `p` holds positions `(p-1)*8 .. min(p*8, n)`, so at most eight. */
  lemma PageBounds<T>(images: seq<T>, p: int)
    requires p >= 1
    ensures var lo := Min((p - 1) * ImagesPerPage, |images|);
            var hi := Min(p * ImagesPerPage, |images|);
            PageImages(images, p) == images[lo..hi]
    ensures |PageImages(images, p)| <= ImagesPerPage
  {
  }

  /** Pages `1..k` laid end to end. */
  function PagesUpTo<T>(images: seq<T>, k: nat): seq<T> {
    if k == 0 then [] else PagesUpTo(images, k - 1) + PageImages(images, k)
  }

  lemma {:induction false} PagesUpToPrefix<T>(images: seq<T>, k: nat)
    ensures PagesUpTo(images, k) == images[..Min(k * ImagesPerPage, |images|)]
  {
    if k > 0 {
      PagesUpToPrefix(images, k - 1);
      PageBounds(images, k);
    }
  }

  /** Pages `1..totalPages` cover the gallery exactly once, in order. */
  lemma PagesPartition<T>(images: seq<T>)
    ensures PagesUpTo(images, TotalPages(|images|)) == images
  {
    PagesUpToPrefix(images, TotalPages(|images|));
  }

  /** The 23-image gallery has three pages and the last holds seven. */
  lemma TwentyThreeImages<T>(images: seq<T>)
    requires |images| == 23
    ensures TotalPages(|images|) == 3
    ensures |PageImages(images, 1)| == 8 && |PageImages(images, 2)| == 8
    ensures |PageImages(images, 3)| == 7
  {
    PageBounds(images, 1);
    PageBounds(images, 2);
    PageBounds(images, 3);
  }

  /** The alt text number `indexOfFirstImage + index + 1`. */
  function AltNumber(page: int, index: nat): int {
    page * ImagesPerPage - ImagesPerPage + index + 1
  }

  /** The alt number of a shown image is its 1-based place in the gallery. */
  lemma AltIsGlobalPosition<T>(images: seq<T>, p: int, index: nat)
    requires p >= 1 && index < |PageImages(images, p)|
    ensures 1 <= AltNumber(p, index) <= |images|
    ensures images[AltNumber(p, index) - 1] == PageImages(images, p)[index]
  {
    PageBounds(images, p);
  }

  /** `Array.from({ length: totalPages }, (_, i) => i + 1)`: the page each
      button opens. */
  function PageButtons(total: nat): (b: seq<int>)
    ensures |b| == total
    ensures forall k :: 0 <= k < |b| ==> 1 <= b[k] <= total
    ensures forall k, l :: 0 <= k < l < |b| ==> b[k] < b[l]
    ensures forall p :: 1 <= p <= total ==> p in b
  {
    var b := seq(total, i requires 0 <= i < total => i + 1);
    forall p | 1 <= p <= total
      ensures p in b
    {
      assert b[p - 1] == p;
    }
    b
  }

  /** Every button opens a page that shows at least one image. */
  lemma ButtonsShowImages<T>(images: seq<T>, k: nat)
    requires k < |PageButtons(TotalPages(|images|))|
    ensures PageImages(images, PageButtons(TotalPages(|images|))[k]) != []
  {
    PageBounds(images, PageButtons(TotalPages(|images|))[k]);
  }
}
