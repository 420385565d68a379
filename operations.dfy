/** The two flip augmentations (`HorizontalFlip`, `VerticalFlip`): objects
    built around a list of images that, on each `execute`, append the flipped
    image of every input to their own output list and return that list. */
module Operations {
  import opened Rasters

  /** A sequence read back to front (a `::-1` slice). */
  function Reverse<T>(s: seq<T>): (r: seq<T>)
    ensures |r| == |s|
    ensures forall i :: 0 <= i < |s| ==> r[i] == s[|s| - 1 - i]
  {
    if s == [] then [] else [s[|s| - 1]] + Reverse(s[..|s| - 1])
  }

  lemma ReverseInvolution<T>(s: seq<T>)
    ensures Reverse(Reverse(s)) == s
  {
  }

  /** `img[:, ::-1]`: every row read right to left. */
  function MirrorColumns<P>(img: Raster<P>): (m: Raster<P>)
    ensures m.rows == img.rows && m.cols == img.cols
    ensures img.Wf() ==> m.Wf()
  {
    Raster(img.rows, img.cols, seq(|img.px|, r requires 0 <= r < |img.px| => Reverse(img.px[r])))
  }

  /** `img[::-1, :]`: the rows in reverse order. */
  function MirrorRows<P>(img: Raster<P>): (m: Raster<P>)
    ensures m.rows == img.rows && m.cols == img.cols
    ensures img.Wf() ==> m.Wf()
  {
    Raster(img.rows, img.cols, Reverse(img.px))
  }

  /** What `HorizontalFlip` does to one image. */
  function HFlip<P>(img: Raster<P>): (m: Raster<P>)
    ensures m.rows == img.rows && m.cols == img.cols
    ensures img.Wf() ==> m.Wf()
  {
    MirrorColumns(img)
  }

  /** What `VerticalFlip` does to one image: `img[:, ::-1][::-1, :]`. */
  function VFlip<P>(img: Raster<P>): (m: Raster<P>)
    ensures m.rows == img.rows && m.cols == img.cols
    ensures img.Wf() ==> m.Wf()
  {
    MirrorRows(MirrorColumns(img))
  }

  /** The horizontal flip is a mirror image left to right. */
  lemma HFlipAt<P>(img: Raster<P>, r: nat, c: nat)
    requires img.Wf() && r < img.rows && c < img.cols
    ensures HFlip(img).px[r][c] == img.px[r][img.cols - 1 - c]
  {
  }

  /** The "vertical" flip reverses both axes: a half turn, not a mirror image. */
  lemma VFlipAt<P>(img: Raster<P>, r: nat, c: nat)
    requires img.Wf() && r < img.rows && c < img.cols
    ensures VFlip(img).px[r][c] == img.px[img.rows - 1 - r][img.cols - 1 - c]
  {
  }

  lemma HFlipInvolution<P>(img: Raster<P>)
    requires img.Wf()
    ensures HFlip(HFlip(img)) == img
  {
    var twice := HFlip(HFlip(img));
    forall r | 0 <= r < img.rows
      ensures twice.px[r] == img.px[r]
    {
      ReverseInvolution(img.px[r]);
    }
  }

  lemma VFlipInvolution<P>(img: Raster<P>)
    requires img.Wf()
    ensures VFlip(VFlip(img)) == img
  {
    var once := VFlip(img);
    var twice := VFlip(once);
    forall r | 0 <= r < img.rows
      ensures twice.px[r] == img.px[r]
    {
      forall c | 0 <= c < img.cols
        ensures twice.px[r][c] == img.px[r][c]
      {
        VFlipAt(once, r, c);
        VFlipAt(img, img.rows - 1 - r, img.cols - 1 - c);
      }
    }
  }

  predicate AllWf<P>(imgs: seq<Raster<P>>)
  {
    forall i :: 0 <= i < |imgs| ==> imgs[i].Wf()
  }

  /** Each image flipped horizontally, in order. */
  function HFlipAll<P>(imgs: seq<Raster<P>>): (out: seq<Raster<P>>)
    ensures |out| == |imgs|
    ensures AllWf(imgs) ==> AllWf(out)
  {
    seq(|imgs|, i requires 0 <= i < |imgs| => HFlip(imgs[i]))
  }

  /** Each image turned by a half turn, in order. */
  function VFlipAll<P>(imgs: seq<Raster<P>>): (out: seq<Raster<P>>)
    ensures |out| == |imgs|
    ensures AllWf(imgs) ==> AllWf(out)
  {
    seq(|imgs|, i requires 0 <= i < |imgs| => VFlip(imgs[i]))
  }

  class HorizontalFlip<P> {
    const inImg: seq<Raster<P>>
    var outImg: seq<Raster<P>>

    constructor(inImg: seq<Raster<P>>)
      ensures this.inImg == inImg && outImg == []
    {
      this.inImg := inImg;
      outImg := [];
    }

    /** Appends the flipped image of every input, in order, and returns the
        whole output list, including what earlier calls appended. */
    method Execute() returns (out: seq<Raster<P>>)
      modifies this
      ensures outImg == old(outImg) + HFlipAll(inImg)
      ensures out == outImg
    {
      var index := 0;
      while index < |inImg|
        invariant 0 <= index <= |inImg|
        invariant outImg == old(outImg) + HFlipAll(inImg)[..index]
      {
        outImg := outImg + [HFlip(inImg[index])];
        index := index + 1;
      }
      return outImg;
    }
  }

  class VerticalFlip<P> {
    const inImg: seq<Raster<P>>
    var outImg: seq<Raster<P>>

    constructor(inImg: seq<Raster<P>>)
      ensures this.inImg == inImg && outImg == []
    {
      this.inImg := inImg;
      outImg := [];
    }

    /** Appends the half-turned image of every input, in order, and returns
        the whole output list, including what earlier calls appended. */
    method Execute() returns (out: seq<Raster<P>>)
      modifies this
      ensures outImg == old(outImg) + VFlipAll(inImg)
      ensures out == outImg
    {
      var index := 0;
      while index < |inImg|
        invariant 0 <= index <= |inImg|
        invariant outImg == old(outImg) + VFlipAll(inImg)[..index]
      {
        outImg := outImg + [VFlip(inImg[index])];
        index := index + 1;
      }
      return outImg;
    }
  }

  /** A fresh flip object returns one flipped image per input, in input order;
      a second `execute` on the same object returns that list twice over. */
  method HorizontalFlipTwice<P>(imgs: seq<Raster<P>>) returns (first: seq<Raster<P>>, second: seq<Raster<P>>)
    ensures |first| == |imgs| && forall i :: 0 <= i < |imgs| ==> first[i] == HFlip(imgs[i])
    ensures |second| == 2 * |imgs| && second == first + first
  {
    var op := new HorizontalFlip(imgs);
    first := op.Execute();
    assert first == HFlipAll(imgs);
    second := op.Execute();
    assert second == HFlipAll(imgs) + HFlipAll(imgs);
  }

  /** The same for the vertical flip. */
  method VerticalFlipTwice<P>(imgs: seq<Raster<P>>) returns (first: seq<Raster<P>>, second: seq<Raster<P>>)
    ensures |first| == |imgs| && forall i :: 0 <= i < |imgs| ==> first[i] == VFlip(imgs[i])
    ensures |second| == 2 * |imgs| && second == first + first
  {
    var op := new VerticalFlip(imgs);
    first := op.Execute();
    assert first == VFlipAll(imgs);
    second := op.Execute();
    assert second == VFlipAll(imgs) + VFlipAll(imgs);
  }

  /** Flipping the flipped images gives the originals back. */
  lemma FlipAllInvolution<P>(imgs: seq<Raster<P>>)
    requires AllWf(imgs)
    ensures HFlipAll(HFlipAll(imgs)) == imgs
    ensures VFlipAll(VFlipAll(imgs)) == imgs
  {
    forall i | 0 <= i < |imgs|
      ensures HFlip(HFlip(imgs[i])) == imgs[i] && VFlip(VFlip(imgs[i])) == imgs[i]
    {
      HFlipInvolution(imgs[i]);
      VFlipInvolution(imgs[i]);
    }
  }
}
