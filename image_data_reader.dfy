/** The MNIST corpus decoder (`ImageDataReader.__read_image`): two files in
    the IDX format, one of images and one of labels, become a map from the
    decimal label string to the images carrying that label, in file order.
    The files are given as byte sequences; the pixel byte `p` becomes
    `255 - p` (the source goes on to divide by 255 in floating point). */
module ImageDataReader {
  import opened Common
  import opened Rasters

  /** Magic number of an IDX file of unsigned-byte images in three dimensions. */
  const ImageMagic: nat := 2051
  /** Magic number of an IDX file of unsigned-byte labels in one dimension. */
  const LabelMagic: nat := 2049
  const Word: nat := 0x1_0000_0000

  /** The exceptions the decoder raises. */
  datatype ReadError =
    | ShortHeader(needed: nat, got: nat)
      // `struct.unpack` was given fewer bytes than its format needs
    | BadImageMagic(received: nat)
    | BadLabelMagic(received: nat)
    | ImagePayloadMismatch(payload: nat, count: nat, rows: nat, cols: nat)
      // `reshape(count, rows, cols)` of a payload of another size
    | LabelPayloadMismatch(payload: nat, count: nat)
      // `reshape(count, 1)` of a payload of another size
    | LabelIndexOutOfBounds(index: nat, size: nat)
      // a label position with no image at that position

  /** The returned dictionary: its keys in insertion order, and its entries. */
  datatype ImageMap = ImageMap(keys: seq<string>, groups: map<string, seq<Raster<byte>>>)

  // ---------------------------------------------------------------------------
  // Big-endian unsigned 32-bit words (`struct.unpack(">I", ...)`)
  // ---------------------------------------------------------------------------

  function BE32(b: seq<byte>, at: nat): (v: nat)
    requires at + 4 <= |b|
    ensures v < Word
  {
    ((b[at] as int * 256 + b[at + 1]) * 256 + b[at + 2]) * 256 + b[at + 3]
  }

  function EncodeBE32(v: nat): (b: seq<byte>)
    requires v < Word
    ensures |b| == 4
  {
    [v / 0x100_0000, (v / 0x1_0000) % 256, (v / 256) % 256, v % 256]
  }

  lemma DecodeEncodeBE32(v: nat)
    requires v < Word
    ensures BE32(EncodeBE32(v), 0) == v
  {
    Shift8(v);
    Shift8(v / 256);
    Shift8(v / 0x1_0000);
  }

  lemma EncodeDecodeBE32(b: seq<byte>, at: nat)
    requires at + 4 <= |b|
    ensures EncodeBE32(BE32(b, at)) == b[at..at + 4]
  {
    var v := BE32(b, at);
    var hi := b[at] as int * 256 + b[at + 1];
    var mid := hi * 256 + b[at + 2];
    Digit256(mid, b[at + 3]);
    Digit256(hi, b[at + 2]);
    Digit256(b[at], b[at + 1]);
    Shift8(v);
    Shift8(v / 256);
  }

  /** Dividing by 2^16 and by 2^24 is dividing by 2^8 twice and three times. */
  lemma Shift8(x: nat)
    ensures x == x / 256 * 256 + x % 256
    ensures x / 256 / 256 == x / 0x1_0000
    ensures x / 0x1_0000 / 256 == x / 0x100_0000
  {
  }

  /** The base-256 digits of `q * 256 + r`. */
  lemma Digit256(q: nat, r: nat)
    requires r < 256
    ensures (q * 256 + r) / 256 == q && (q * 256 + r) % 256 == r
  {
  }

  // ---------------------------------------------------------------------------
  // Pixels and shapes
  // ---------------------------------------------------------------------------

  /** `255 - px` for every byte of the payload. */
  function Invert(p: seq<byte>): (q: seq<byte>)
    ensures |q| == |p|
  {
    seq(|p|, i requires 0 <= i < |p| => 255 - p[i])
  }

  lemma InvertInvolution(p: seq<byte>)
    ensures Invert(Invert(p)) == p
  {
  }

  lemma MulMono(a: nat, b: nat, m: nat)
    requires a <= b
    ensures a * m <= b * m
  {
  }

  /** Position of pixel `(r, c)` of image `k` in a row-major payload. */
  function FlatIndex(count: nat, rows: nat, cols: nat, k: nat, r: nat, c: nat): (i: nat)
    requires k < count && r < rows && c < cols
    ensures i < count * (rows * cols)
  {
    assert r * cols + c < rows * cols by {
      MulMono(r + 1, rows, cols);
    }
    MulMono(k + 1, count, rows * cols);
    k * (rows * cols) + (r * cols + c)
  }

  /** All images of one shape. */
  predicate Shaped<T>(imgs: seq<Raster<T>>, rows: nat, cols: nat)
  {
    forall k :: 0 <= k < |imgs| ==> imgs[k].Wf() && imgs[k].rows == rows && imgs[k].cols == cols
  }

  /** `flat.reshape(count, rows, cols)`: consecutive runs of `rows * cols`
      values are images, and within an image consecutive runs of `cols`
      values are rows. */
  function Reshape<T>(flat: seq<T>, count: nat, rows: nat, cols: nat): (imgs: seq<Raster<T>>)
    requires |flat| == count * (rows * cols)
    ensures |imgs| == count && Shaped(imgs, rows, cols)
  {
    seq(count, k requires 0 <= k < count =>
      Raster(rows, cols, seq(rows, r requires 0 <= r < rows =>
        seq(cols, c requires 0 <= c < cols => flat[FlatIndex(count, rows, cols, k, r, c)]))))
  }

  /** The rows of an image, one after the other. */
  function FlattenRows<T>(px: seq<seq<T>>): seq<T>
  {
    if px == [] then [] else FlattenRows(px[..|px| - 1]) + px[|px| - 1]
  }

  /** The images, one after the other, each row by row: the byte order of an IDX payload. */
  function Flatten<T>(imgs: seq<Raster<T>>): seq<T>
  {
    if imgs == [] then [] else Flatten(imgs[..|imgs| - 1]) + FlattenRows(imgs[|imgs| - 1].px)
  }

  lemma Distribute(a: nat, m: nat)
    ensures (a + 1) * m == a * m + m
  {
  }

  /** Pixel `c` of row `r < n` comes before the `n`-th row of a row-major layout. */
  lemma EarlierRow(r: nat, n: nat, c: nat, cols: nat)
    requires r < n && c < cols
    ensures r * cols + c < n * cols
  {
    Distribute(r, cols);
    MulMono(r + 1, n, cols);
  }

  lemma {:induction false} FlattenRowsLength<T>(px: seq<seq<T>>, cols: nat)
    requires forall r :: 0 <= r < |px| ==> |px[r]| == cols
    ensures |FlattenRows(px)| == |px| * cols
  {
    if px != [] {
      FlattenRowsLength(px[..|px| - 1], cols);
      Distribute(|px| - 1, cols);
    }
  }

  /** Pixel `(r, c)` sits at `r * cols + c` of the flattened rows. */
  lemma {:induction false} FlattenRowsAt<T>(px: seq<seq<T>>, cols: nat, r: nat, c: nat)
    requires forall i :: 0 <= i < |px| ==> |px[i]| == cols
    requires r < |px| && c < cols
    ensures r * cols + c < |FlattenRows(px)| && FlattenRows(px)[r * cols + c] == px[r][c]
  {
    var n := |px| - 1;
    var front := px[..n];
    FlattenRowsLength(front, cols);
    FlattenRowsLength(px, cols);
    assert FlattenRows(px) == FlattenRows(front) + px[n];
    if r < n {
      EarlierRow(r, n, c, cols);
      FlattenRowsAt(front, cols, r, c);
    }
  }

  lemma {:induction false} FlattenLength<T>(imgs: seq<Raster<T>>, rows: nat, cols: nat)
    requires Shaped(imgs, rows, cols)
    ensures |Flatten(imgs)| == |imgs| * (rows * cols)
  {
    if imgs != [] {
      var n := |imgs| - 1;
      FlattenLength(imgs[..n], rows, cols);
      FlattenRowsLength(imgs[n].px, cols);
      Distribute(n, rows * cols);
    }
  }

  /** Pixel `(r, c)` of image `k` sits at `FlatIndex` of the flattened images. */
  lemma FlattenAt<T>(imgs: seq<Raster<T>>, rows: nat, cols: nat, k: nat, r: nat, c: nat)
    requires Shaped(imgs, rows, cols)
    requires k < |imgs| && r < rows && c < cols
    ensures |Flatten(imgs)| == |imgs| * (rows * cols)
    ensures Flatten(imgs)[FlatIndex(|imgs|, rows, cols, k, r, c)] == imgs[k].px[r][c]
  {
    EarlierRow(r, rows, c, cols);
    FlattenImageAt(imgs, rows, cols, rows * cols, k, r * cols + c);
    PixelAt(imgs[k], rows, cols, r, c);
  }

  /** Pixel `(r, c)` of one image sits at `r * cols + c` of its rows. */
  lemma PixelAt<T>(img: Raster<T>, rows: nat, cols: nat, r: nat, c: nat)
    requires img.Wf() && img.rows == rows && img.cols == cols && r < rows && c < cols
    ensures r * cols + c < |FlattenRows(img.px)| && FlattenRows(img.px)[r * cols + c] == img.px[r][c]
  {
    FlattenRowsAt(img.px, cols, r, c);
  }

  /** Value `o` of image `k` sits `k` whole images into the flattened images. */
  lemma {:induction false} FlattenImageAt<T>(imgs: seq<Raster<T>>, rows: nat, cols: nat, size: nat, k: nat, o: nat)
    requires Shaped(imgs, rows, cols) && size == rows * cols
    requires k < |imgs| && o < size
    ensures |Flatten(imgs)| == |imgs| * size
    ensures k * size + o < |Flatten(imgs)| && o < |FlattenRows(imgs[k].px)|
    ensures Flatten(imgs)[k * size + o] == FlattenRows(imgs[k].px)[o]
  {
    var n := |imgs| - 1;
    var front := imgs[..n];
    FlattenLength(imgs, rows, cols);
    FlattenLength(front, rows, cols);
    FlattenRowsLength(imgs[k].px, cols);
    FlattenRowsLength(imgs[n].px, cols);
    assert Flatten(imgs) == Flatten(front) + FlattenRows(imgs[n].px);
    if k < n {
      EarlierRow(k, n, o, size);
      FlattenImageAt(front, rows, cols, size, k, o);
    } else {
      Distribute(k, size);
    }
  }

  /** Reshaping the flattened images gives them back: no pixel is moved. */
  lemma ReshapeFlatten<T>(imgs: seq<Raster<T>>, rows: nat, cols: nat)
    requires Shaped(imgs, rows, cols)
    ensures |Flatten(imgs)| == |imgs| * (rows * cols)
    ensures Reshape(Flatten(imgs), |imgs|, rows, cols) == imgs
  {
    FlattenLength(imgs, rows, cols);
    var back := Reshape(Flatten(imgs), |imgs|, rows, cols);
    forall k | 0 <= k < |imgs|
      ensures back[k] == imgs[k]
    {
      forall r | 0 <= r < rows
        ensures back[k].px[r] == imgs[k].px[r]
      {
        forall c | 0 <= c < cols
          ensures back[k].px[r][c] == imgs[k].px[r][c]
        {
          FlattenAt(imgs, rows, cols, k, r, c);
        }
      }
    }
  }

  // ---------------------------------------------------------------------------
  // The two files
  // ---------------------------------------------------------------------------

  /** The image file: a header of four big-endian words (magic, count, rows,
      cols), then one byte per pixel. */
  function DecodeImages(file: seq<byte>): (r: Result<seq<Raster<byte>>, ReadError>)
    ensures r.Ok? ==> |file| >= 16 && BE32(file, 0) == ImageMagic
    ensures r.Ok? ==> |r.value| == BE32(file, 4) && Shaped(r.value, BE32(file, 8), BE32(file, 12))
    ensures r.Ok? ==> |file| - 16 == BE32(file, 4) * (BE32(file, 8) * BE32(file, 12))
  {
    if |file| < 16 then Err(ShortHeader(16, |file|))
    else
      var magic, count, rows, cols := BE32(file, 0), BE32(file, 4), BE32(file, 8), BE32(file, 12);
      if magic != ImageMagic then Err(BadImageMagic(magic))
      else
        var payload := file[16..];
        if |payload| != count * (rows * cols) then Err(ImagePayloadMismatch(|payload|, count, rows, cols))
        else Ok(Reshape(Invert(payload), count, rows, cols))
  }

  /** The label file: a header of two big-endian words (magic, count), then one byte per label. */
  function DecodeLabels(file: seq<byte>): (r: Result<seq<byte>, ReadError>)
    ensures r.Ok? ==> |file| >= 8 && BE32(file, 0) == LabelMagic && r.value == file[8..]
    ensures r.Ok? ==> |r.value| == BE32(file, 4)
  {
    if |file| < 8 then Err(ShortHeader(8, |file|))
    else
      var magic, count := BE32(file, 0), BE32(file, 4);
      if magic != LabelMagic then Err(BadLabelMagic(magic))
      else
        var payload := file[8..];
        if |payload| != count then Err(LabelPayloadMismatch(|payload|, count))
        else Ok(payload)
  }

  /** An image file holding `imgs`, each `rows` x `cols`, stored inverted. */
  function EncodeImages(imgs: seq<Raster<byte>>, rows: nat, cols: nat): (file: seq<byte>)
    requires Shaped(imgs, rows, cols) && |imgs| < Word && rows < Word && cols < Word
  {
    EncodeBE32(ImageMagic) + EncodeBE32(|imgs|) + EncodeBE32(rows) + EncodeBE32(cols) + Invert(Flatten(imgs))
  }

  function EncodeLabels(labels: seq<byte>): (file: seq<byte>)
    requires |labels| < Word
  {
    EncodeBE32(LabelMagic) + EncodeBE32(|labels|) + labels
  }

  lemma DecodeEncodeImages(imgs: seq<Raster<byte>>, rows: nat, cols: nat)
    requires Shaped(imgs, rows, cols) && |imgs| < Word && rows < Word && cols < Word
    ensures DecodeImages(EncodeImages(imgs, rows, cols)) == Ok(imgs)
  {
    var file := EncodeImages(imgs, rows, cols);
    var header := EncodeBE32(ImageMagic) + EncodeBE32(|imgs|) + EncodeBE32(rows) + EncodeBE32(cols);
    assert file == header + Invert(Flatten(imgs));
    assert file[0..4] == EncodeBE32(ImageMagic);
    assert file[4..8] == EncodeBE32(|imgs|);
    assert file[8..12] == EncodeBE32(rows);
    assert file[12..16] == EncodeBE32(cols);
    DecodeEncodeBE32(ImageMagic);
    DecodeEncodeBE32(|imgs|);
    DecodeEncodeBE32(rows);
    DecodeEncodeBE32(cols);
    BE32Slice(file, 0);
    BE32Slice(file, 4);
    BE32Slice(file, 8);
    BE32Slice(file, 12);
    assert file[16..] == Invert(Flatten(imgs));
    InvertInvolution(Flatten(imgs));
    ReshapeFlatten(imgs, rows, cols);
  }

  lemma BE32Slice(b: seq<byte>, at: nat)
    requires at + 4 <= |b|
    ensures BE32(b, at) == BE32(b[at..at + 4], 0)
  {
  }

  lemma DecodeEncodeLabels(labels: seq<byte>)
    requires |labels| < Word
    ensures DecodeLabels(EncodeLabels(labels)) == Ok(labels)
  {
    var file := EncodeLabels(labels);
    assert file[0..4] == EncodeBE32(LabelMagic);
    assert file[4..8] == EncodeBE32(|labels|);
    DecodeEncodeBE32(LabelMagic);
    DecodeEncodeBE32(|labels|);
    BE32Slice(file, 0);
    BE32Slice(file, 4);
    assert file[8..] == labels;
  }

  // ---------------------------------------------------------------------------
  // Grouping the images by label
  // ---------------------------------------------------------------------------

  /** `np.unique(labels)` restricted to the values from `v` on: the distinct
      labels in ascending order. */
  function UniqueFrom(labels: seq<byte>, v: nat): (u: seq<byte>)
    requires v <= 256
    ensures forall j :: 0 <= j < |u| ==> v <= u[j]
    ensures forall j, j' :: 0 <= j < j' < |u| ==> u[j] < u[j']
    ensures forall x: byte :: x in u <==> v <= x && x in labels
    decreases 256 - v
  {
    if v == 256 then []
    else if v in labels then [v] + UniqueFrom(labels, v + 1)
    else UniqueFrom(labels, v + 1)
  }

  /** `np.unique(labels)`: the distinct labels in ascending order. */
  function Unique(labels: seq<byte>): (u: seq<byte>)
    ensures forall j, j' :: 0 <= j < j' < |u| ==> u[j] < u[j']
    ensures forall x: byte :: x in u <==> x in labels
  {
    UniqueFrom(labels, 0)
  }

  /** `np.where(L == labels)[0]`: the positions holding `L`, ascending. */
  function Positions(labels: seq<byte>, L: byte): (p: seq<nat>)
    ensures forall j :: 0 <= j < |p| ==> p[j] < |labels| && labels[p[j]] == L
    ensures forall i :: 0 <= i < |labels| && labels[i] == L ==> i in p
    ensures forall j, j' :: 0 <= j < j' < |p| ==> p[j] < p[j']
  {
    if labels == [] then []
    else
      var n := |labels| - 1;
      Positions(labels[..n], L) + if labels[n] == L then [n] else []
  }

  /** Every position indexes one of `size` elements. */
  predicate InRange(p: seq<nat>, size: nat)
  {
    forall j :: 0 <= j < |p| ==> p[j] < size
  }

  /** The first position that indexes past the images, if any. */
  function FirstOutOfBounds(p: seq<nat>, size: nat): (o: Option<nat>)
    ensures o.None? <==> InRange(p, size)
    ensures o.Some? ==> o.value in p && o.value >= size
  {
    if p == [] then None
    else if p[0] >= size then Some(p[0])
    else
      var rest := FirstOutOfBounds(p[1..], size);
      assert forall j :: 1 <= j < |p| ==> p[j] == p[1..][j - 1];
      rest
  }

  /** `images[positions]`: the images at the given positions, in that order. */
  function Pick(images: seq<Raster<byte>>, p: seq<nat>): (g: seq<Raster<byte>>)
    requires InRange(p, |images|)
    ensures |g| == |p|
    ensures forall j :: 0 <= j < |p| ==> g[j] == images[p[j]]
  {
    seq(|p|, j requires 0 <= j < |p| => images[p[j]])
  }

  /** One step of the grouping loop: the images labelled `L` go under `str(L)`. */
  function AddGroup(images: seq<Raster<byte>>, labels: seq<byte>, m: ImageMap, L: byte): Result<ImageMap, ReadError>
  {
    var p := Positions(labels, L);
    match FirstOutOfBounds(p, |images|)
    case Some(i) => Err(LabelIndexOutOfBounds(i, |images|))
    case None => Ok(ImageMap(m.keys + [NatToString(L)], m.groups[NatToString(L) := Pick(images, p)]))
  }

  /** The dictionary after the loop has handled the labels `ls`, in order. */
  function Grouped(images: seq<Raster<byte>>, labels: seq<byte>, ls: seq<byte>): Result<ImageMap, ReadError>
  {
    if ls == [] then Ok(ImageMap([], map[]))
    else
      match Grouped(images, labels, ls[..|ls| - 1])
      case Err(e) => Err(e)
      case Ok(m) => AddGroup(images, labels, m, ls[|ls| - 1])
  }

  /** Every image labelled `L` exists. */
  predicate Fits(images: seq<Raster<byte>>, labels: seq<byte>, L: byte)
  {
    InRange(Positions(labels, L), |images|)
  }

  /** The grouping loop over labels `ls` fails exactly when some label in
      `ls` has a position with no image. */
  lemma {:induction false} GroupedFails(images: seq<Raster<byte>>, labels: seq<byte>, ls: seq<byte>)
    ensures Grouped(images, labels, ls).Ok? <==> forall j :: 0 <= j < |ls| ==> Fits(images, labels, ls[j])
    decreases |ls|
  {
    if ls != [] {
      var n := |ls| - 1;
      var front := ls[..n];
      GroupedFails(images, labels, front);
      GroupedOkStep(images, labels, ls);
      AllFitSplit(images, labels, ls, front);
    }
  }

  /** The loop over `ls` succeeds exactly when it succeeded before the last
      label and the last label's images all exist. */
  lemma GroupedOkStep(images: seq<Raster<byte>>, labels: seq<byte>, ls: seq<byte>)
    requires ls != []
    ensures Grouped(images, labels, ls).Ok? <==>
            Grouped(images, labels, ls[..|ls| - 1]).Ok? && Fits(images, labels, ls[|ls| - 1])
  {
    var front := Grouped(images, labels, ls[..|ls| - 1]);
    if front.Ok? {
      AddGroupOk(images, labels, front.value, ls[|ls| - 1]);
    }
  }

  /** A loop step fails exactly when the label has a position with no image. */
  lemma AddGroupOk(images: seq<Raster<byte>>, labels: seq<byte>, m: ImageMap, L: byte)
    ensures AddGroup(images, labels, m, L).Ok? <==> Fits(images, labels, L)
  {
  }

  /** All labels fit exactly when all but the last do and the last does. */
  lemma AllFitSplit(images: seq<Raster<byte>>, labels: seq<byte>, ls: seq<byte>, front: seq<byte>)
    requires ls != [] && front == ls[..|ls| - 1]
    ensures (forall j :: 0 <= j < |ls| ==> Fits(images, labels, ls[j])) <==>
            (forall j :: 0 <= j < |front| ==> Fits(images, labels, front[j])) && Fits(images, labels, ls[|ls| - 1])
  {
    assert forall j :: 0 <= j < |front| ==> front[j] == ls[j];
  }

  /** On success the keys are the decimal strings of `ls`, in order. */
  lemma {:induction false} GroupedKeys(images: seq<Raster<byte>>, labels: seq<byte>, ls: seq<byte>)
    requires Grouped(images, labels, ls).Ok?
    ensures |Grouped(images, labels, ls).value.keys| == |ls|
    ensures forall j :: 0 <= j < |ls| ==> Grouped(images, labels, ls).value.keys[j] == NatToString(ls[j])
    decreases |ls|
  {
    if ls != [] {
      var n := |ls| - 1;
      GroupedKeys(images, labels, ls[..n]);
    }
  }

  /** On success the entries are exactly the keys,
      and the entry of each label holds that label's images in file order. */
  lemma {:induction false} GroupedDomain(images: seq<Raster<byte>>, labels: seq<byte>, ls: seq<byte>)
    requires Grouped(images, labels, ls).Ok?
    ensures forall key :: key in Grouped(images, labels, ls).value.groups <==> key in Grouped(images, labels, ls).value.keys
    decreases |ls|
  {
    if ls != [] {
      var n := |ls| - 1;
      GroupedDomain(images, labels, ls[..n]);
      AddGroupEntries(images, labels, Grouped(images, labels, ls[..n]).value, ls[n]);
    }
  }

  lemma {:induction false} GroupedEntries(images: seq<Raster<byte>>, labels: seq<byte>, ls: seq<byte>)
    requires Grouped(images, labels, ls).Ok?
    ensures forall j :: 0 <= j < |ls| ==>
      && Fits(images, labels, ls[j])
      && NatToString(ls[j]) in Grouped(images, labels, ls).value.groups
      && Grouped(images, labels, ls).value.groups[NatToString(ls[j])] == Pick(images, Positions(labels, ls[j]))
    decreases |ls|
  {
    if ls != [] {
      var n := |ls| - 1;
      var front := ls[..n];
      assert forall j :: 0 <= j < n ==> front[j] == ls[j];
      GroupedEntries(images, labels, front);
      var m := Grouped(images, labels, front).value;
      assert Grouped(images, labels, ls) == AddGroup(images, labels, m, ls[n]);
      EntriesCarried(images, labels, ls, m, Grouped(images, labels, ls).value);
    }
  }

  /** The last step of the loop over the labels `ls`, which yields `m2`, keeps
      the entries of the earlier labels and adds the entry of the last one. */
  lemma EntriesCarried(images: seq<Raster<byte>>, labels: seq<byte>, ls: seq<byte>, m: ImageMap, m2: ImageMap)
    requires ls != [] && AddGroup(images, labels, m, ls[|ls| - 1]) == Ok(m2)
    requires forall j :: 0 <= j < |ls| - 1 ==>
      && Fits(images, labels, ls[j])
      && NatToString(ls[j]) in m.groups
      && m.groups[NatToString(ls[j])] == Pick(images, Positions(labels, ls[j]))
    ensures forall j :: 0 <= j < |ls| ==>
      && Fits(images, labels, ls[j])
      && NatToString(ls[j]) in m2.groups
      && m2.groups[NatToString(ls[j])] == Pick(images, Positions(labels, ls[j]))
  {
    forall j | 0 <= j < |ls|
      ensures Fits(images, labels, ls[j])
      ensures NatToString(ls[j]) in m2.groups && m2.groups[NatToString(ls[j])] == Pick(images, Positions(labels, ls[j]))
    {
      EntryAfterStep(images, labels, m, ls[|ls| - 1], ls[j], m2);
    }
  }

  /** After a loop step for `L`, which yields `m2`, the label `L` and every
      earlier label with a correct entry have their images under their keys. */
  lemma EntryAfterStep(images: seq<Raster<byte>>, labels: seq<byte>, m: ImageMap, L: byte, K: byte, m2: ImageMap)
    requires AddGroup(images, labels, m, L) == Ok(m2)
    requires K == L || (Fits(images, labels, K) && NatToString(K) in m.groups
                        && m.groups[NatToString(K)] == Pick(images, Positions(labels, K)))
    ensures Fits(images, labels, K)
    ensures NatToString(K) in m2.groups && m2.groups[NatToString(K)] == Pick(images, Positions(labels, K))
  {
    if K == L {
      NewEntry(images, labels, m, L);
    } else {
      EntryKept(images, labels, m, L, K);
    }
  }

  /** A loop step stores the new label's images under its key. */
  lemma NewEntry(images: seq<Raster<byte>>, labels: seq<byte>, m: ImageMap, L: byte)
    requires AddGroup(images, labels, m, L).Ok?
    ensures Fits(images, labels, L)
    ensures NatToString(L) in AddGroup(images, labels, m, L).value.groups
    ensures AddGroup(images, labels, m, L).value.groups[NatToString(L)] == Pick(images, Positions(labels, L))
  {
  }

  /** A loop step leaves the entry of another label as it was. */
  lemma EntryKept(images: seq<Raster<byte>>, labels: seq<byte>, m: ImageMap, L: byte, K: byte)
    requires AddGroup(images, labels, m, L).Ok? && K != L && NatToString(K) in m.groups
    ensures NatToString(K) in AddGroup(images, labels, m, L).value.groups
    ensures AddGroup(images, labels, m, L).value.groups[NatToString(K)] == m.groups[NatToString(K)]
  {
    KeysDiffer(K, L);
  }

  lemma KeysDiffer(a: byte, b: byte)
    requires a != b
    ensures NatToString(a) != NatToString(b)
  {
    if NatToString(a) == NatToString(b) {
      NatToStringInjective(a, b);
    }
  }

  /** One step of the loop adds the new label's entry and keeps the others. */
  lemma AddGroupEntries(images: seq<Raster<byte>>, labels: seq<byte>, m: ImageMap, L: byte)
    requires AddGroup(images, labels, m, L).Ok?
    ensures Fits(images, labels, L)
    ensures var m' := AddGroup(images, labels, m, L).value;
      && m'.keys == m.keys + [NatToString(L)]
      && (forall key :: key in m'.groups <==> key in m.groups || key == NatToString(L))
      && m'.groups[NatToString(L)] == Pick(images, Positions(labels, L))
      && (forall key :: key in m.groups && key != NatToString(L) ==> m'.groups[key] == m.groups[key])
  {
  }

  /** The dictionary `__read_image` builds from decoded images and labels. */
  function GroupByLabel(images: seq<Raster<byte>>, labels: seq<byte>): Result<ImageMap, ReadError>
  {
    Grouped(images, labels, Unique(labels))
  }

  /** The grouping over the whole label file: it fails exactly when there are
      more labels than images (surplus images are dropped silently); otherwise
      the keys are the decimal strings of the distinct labels in ascending
      order, and each label's entry holds, in file order, exactly the images
      at the positions carrying that label. */
  lemma GroupByLabelSpec(images: seq<Raster<byte>>, labels: seq<byte>)
    ensures GroupByLabel(images, labels).Ok? <==> |labels| <= |images|
    ensures GroupByLabel(images, labels).Ok? ==>
      var m := GroupByLabel(images, labels).value;
      && |m.keys| == |Unique(labels)|
      && (forall j :: 0 <= j < |m.keys| ==> m.keys[j] == NatToString(Unique(labels)[j]))
      && (forall key :: key in m.groups <==> key in m.keys)
      && (forall L: byte :: L in labels ==>
            NatToString(L) in m.groups && m.groups[NatToString(L)] == Pick(images, Positions(labels, L)))
  {
    var u := Unique(labels);
    GroupedFails(images, labels, u);
    if GroupByLabel(images, labels).Ok? {
      GroupedKeys(images, labels, u);
      GroupedDomain(images, labels, u);
      GroupedEntries(images, labels, u);
    }
    if |labels| <= |images| {
      forall j | 0 <= j < |u|
        ensures Fits(images, labels, u[j])
      {
      }
    } else {
      var L := labels[|images|];
      assert L in u;
      var j :| 0 <= j < |u| && u[j] == L;
      var p := Positions(labels, L);
      assert |images| in p;
      assert !Fits(images, labels, u[j]);
    }
    if GroupByLabel(images, labels).Ok? {
      forall L: byte | L in labels
        ensures exists j :: 0 <= j < |u| && u[j] == L
      {
        assert L in u;
      }
    }
  }

  /** Every entry of a decoded map holds at least one image, and every image
      has the shape the image header gives. */
  predicate UniformMap(m: ImageMap, rows: nat, cols: nat)
  {
    forall key :: key in m.groups ==> |m.groups[key]| >= 1 && Shaped(m.groups[key], rows, cols)
  }

  lemma GroupByLabelUniform(images: seq<Raster<byte>>, labels: seq<byte>, rows: nat, cols: nat)
    requires Shaped(images, rows, cols)
    requires GroupByLabel(images, labels).Ok?
    ensures UniformMap(GroupByLabel(images, labels).value, rows, cols)
  {
    var m := GroupByLabel(images, labels).value;
    GroupByLabelSpec(images, labels);
    forall key | key in m.groups
      ensures |m.groups[key]| >= 1 && Shaped(m.groups[key], rows, cols)
    {
      var j :| 0 <= j < |m.keys| && m.keys[j] == key;
      var L := Unique(labels)[j];
      assert L in labels;
      PickShaped(images, labels, L, rows, cols);
    }
  }

  /** The images picked for a label present in the file: at least one, all of the file's shape. */
  lemma PickShaped(images: seq<Raster<byte>>, labels: seq<byte>, L: byte, rows: nat, cols: nat)
    requires Shaped(images, rows, cols) && L in labels && Fits(images, labels, L)
    ensures |Pick(images, Positions(labels, L))| >= 1 && Shaped(Pick(images, Positions(labels, L)), rows, cols)
  {
    var i :| 0 <= i < |labels| && labels[i] == L;
    assert i in Positions(labels, L);
  }

  /** The images `__read_image` returns all share one shape, and no entry is empty. */
  lemma ReadUniform(imageFile: seq<byte>, labelFile: seq<byte>)
    requires Read(imageFile, labelFile).Ok?
    ensures |imageFile| >= 16
    ensures UniformMap(Read(imageFile, labelFile).value, BE32(imageFile, 8), BE32(imageFile, 12))
  {
    var images := DecodeImages(imageFile).value;
    GroupByLabelUniform(images, DecodeLabels(labelFile).value, BE32(imageFile, 8), BE32(imageFile, 12));
  }

  /** Every image with a label lands in exactly one group: the group of its own label. */
  lemma EachImageOnce(labels: seq<byte>, i: nat, L: byte)
    requires i < |labels|
    ensures i in Positions(labels, L) <==> labels[i] == L
  {
  }

  lemma GroupedStep(images: seq<Raster<byte>>, labels: seq<byte>, ls: seq<byte>, i: nat)
    requires i < |ls|
    ensures Grouped(images, labels, ls[..i + 1]) ==
      if Grouped(images, labels, ls[..i]).Err? then Grouped(images, labels, ls[..i])
      else AddGroup(images, labels, Grouped(images, labels, ls[..i]).value, ls[i])
  {
    assert ls[..i + 1][..i] == ls[..i];
  }

  /** Once the loop has failed, handling further labels does not change the outcome. */
  lemma {:induction false} GroupedFailureSticks(images: seq<Raster<byte>>, labels: seq<byte>, ls: seq<byte>, i: nat)
    requires i <= |ls| && Grouped(images, labels, ls[..i]).Err?
    ensures Grouped(images, labels, ls) == Grouped(images, labels, ls[..i])
    decreases |ls| - i
  {
    if i < |ls| {
      GroupedStep(images, labels, ls, i);
      GroupedFailureSticks(images, labels, ls, i + 1);
    } else {
      assert ls[..i] == ls;
    }
  }

  /** The grouping loop, filling the dictionary in place. */
  method GroupImages(images: seq<Raster<byte>>, labels: seq<byte>) returns (r: Result<ImageMap, ReadError>)
    ensures r == GroupByLabel(images, labels)
  {
    var ls := Unique(labels);
    var keys: seq<string> := [];
    var groups: map<string, seq<Raster<byte>>> := map[];
    for i := 0 to |ls|
      invariant Grouped(images, labels, ls[..i]) == Ok(ImageMap(keys, groups))
    {
      GroupedStep(images, labels, ls, i);
      var p := Positions(labels, ls[i]);
      var bad := FirstOutOfBounds(p, |images|);
      if bad.Some? {
        r := Err(LabelIndexOutOfBounds(bad.value, |images|));
        GroupedFailureSticks(images, labels, ls, i + 1);
        return;
      }
      var key := NatToString(ls[i]);
      groups := groups[key := Pick(images, p)];
      keys := keys + [key];
    }
    assert ls[..|ls|] == ls;
    return Ok(ImageMap(keys, groups));
  }

  /** The whole decoder: the image file first, then the label file, then the grouping. */
  function Read(imageFile: seq<byte>, labelFile: seq<byte>): Result<ImageMap, ReadError>
  {
    match DecodeImages(imageFile)
    case Err(e) => Err(e)
    case Ok(images) =>
      match DecodeLabels(labelFile)
      case Err(e) => Err(e)
      case Ok(labels) => GroupByLabel(images, labels)
  }

  /** `__read_image` over the contents of the two files. */
  method ReadImage(imageFile: seq<byte>, labelFile: seq<byte>) returns (r: Result<ImageMap, ReadError>)
    ensures r == Read(imageFile, labelFile)
  {
    var images := DecodeImages(imageFile);
    if images.Err? {
      return Err(images.error);
    }
    var labels := DecodeLabels(labelFile);
    if labels.Err? {
      return Err(labels.error);
    }
    r := GroupImages(images.value, labels.value);
  }

  /** Decoding files written from images and labels gives back, for every
      label present, exactly the images carrying it, in order. */
  lemma ReadRoundTrip(imgs: seq<Raster<byte>>, rows: nat, cols: nat, labels: seq<byte>)
    requires Shaped(imgs, rows, cols) && |imgs| < Word && rows < Word && cols < Word
    requires |labels| == |imgs|
    ensures Read(EncodeImages(imgs, rows, cols), EncodeLabels(labels)).Ok?
    ensures forall L: byte :: L in labels ==>
      var m := Read(EncodeImages(imgs, rows, cols), EncodeLabels(labels)).value;
      NatToString(L) in m.groups && m.groups[NatToString(L)] == Pick(imgs, Positions(labels, L))
  {
    DecodeEncodeImages(imgs, rows, cols);
    DecodeEncodeLabels(labels);
    GroupByLabelSpec(imgs, labels);
  }
}
