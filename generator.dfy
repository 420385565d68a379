/** The generator object (`DigitSequenceGenerator`): it reads the corpus,
    picks one image per requested digit, runs the layout engine on the
    augmented and/or the original glyphs as the run mode says, and names and
    saves the results. */
module Generator {
  import opened Common
  import opened Rasters
  import opened Layout
  import opened ImageDataReader
  import opened Augmentation
  import opened Operations
  import opened Text
  import LayoutProperties

  /** Everything the generator raises. */
  datatype GenError =
    | ReadFailed(readError: ReadError)
    | UnknownDigit(digit: string, keys: seq<string>)
      // a requested digit has no entry in the image map
    | EmptyPool(digit: string)
      // `np.random.choice` over an empty entry
    | AugmentorFailed(augError: AugError)
      // the `Augmentor` raises: an option missing from the configuration, or
      // an operator name missing from the operations module
    | NoAugmentedImages
      // `execute` returned `None`, which the engine cannot iterate
    | Unjoinable
      // glyphs `np.hstack` cannot join, or a negative spacing minimum
    | LayoutFailed(layoutError: LayoutError)
    | NoImageInfo
      // the downloader subscripts metadata that was never computed
    | UnboundExtension
      // the downloader's first pass of a mode above 3 chooses no output

  /** The settings the object keeps from the request and the configuration. */
  datatype Settings = Settings(
    digits: seq<int>,
    spacingRangeMax: int,
    spacingRangeMin: int,
    imageWidth: int,
    spacingMode: string,
    whitePixel: byte,
    mdsgMode: int,
    outputPath: string,
    augmentation: map<string, string>)

  /** The attributes `generate_numbers_sequence` updates; `None` until set. */
  datatype State = State(
    imgMap: Option<ImageMap>,
    randomImgArray: Option<seq<Raster<byte>>>,
    augRandomImgArray: Option<seq<Raster<byte>>>,
    outputImageArray: Option<Raster<byte>>,
    imageInfo: Option<LayoutInfo>,
    augOutputImageArray: Option<Raster<byte>>,
    augImageInfo: Option<LayoutInfo>)

  const Unset: State := State(None, None, None, None, None, None, None)

  // ---------------------------------------------------------------------------
  // Glyph selection (`_select_images`)
  // ---------------------------------------------------------------------------

  /** The map has a non-empty entry under `key`. */
  predicate HasPool(m: ImageMap, key: string)
  {
    key in m.groups && |m.groups[key]| >= 1
  }

  /** The map has a non-empty entry for the decimal string of `d`. */
  predicate Resolves(m: ImageMap, d: int)
  {
    HasPool(m, IntToString(d))
  }

  /** What selection raises for a key without a non-empty entry: an unknown
      key names the map's keys; an empty entry fails when drawing from it. */
  function KeyError(m: ImageMap, key: string): GenError
  {
    if key !in m.groups then UnknownDigit(key, m.keys) else EmptyPool(key)
  }

  /** What selection raises for a digit that does not resolve. */
  function SelectionError(m: ImageMap, d: int): GenError
  {
    KeyError(m, IntToString(d))
  }

  /** The image drawn from `pool` by the random draw `draw`; a draw below the
      pool size picks that index. */
  function Chosen(pool: seq<Raster<byte>>, draw: nat): (g: Raster<byte>)
    requires |pool| >= 1
    ensures g in pool
    ensures draw < |pool| ==> g == pool[draw]
  {
    pool[draw % |pool|]
  }

  /** The image drawn for `key` by the random draw `draw`. */
  function Drawn(m: ImageMap, key: string, draw: nat): (g: Raster<byte>)
    requires HasPool(m, key)
    ensures g in m.groups[key]
  {
    Chosen(m.groups[key], draw)
  }

  /** `str(user_digit)` for every requested digit, in order. */
  function Keys(digits: seq<int>): (keys: seq<string>)
    ensures |keys| == |digits|
    ensures forall i :: 0 <= i < |digits| ==> keys[i] == IntToString(digits[i])
  {
    seq(|digits|, i requires 0 <= i < |digits| => IntToString(digits[i]))
  }

  /** The selection loop over the first `k` keys. */
  function SelectPrefix(m: ImageMap, keys: seq<string>, draws: nat -> nat, k: nat): Result<seq<Raster<byte>>, GenError>
    requires k <= |keys|
  {
    if k == 0 then Ok([])
    else
      match SelectPrefix(m, keys, draws, k - 1)
      case Err(e) => Err(e)
      case Ok(s) =>
        if HasPool(m, keys[k - 1]) then Ok(s + [Drawn(m, keys[k - 1], draws(k - 1))])
        else Err(KeyError(m, keys[k - 1]))
  }

  /** The loop over a prefix of the keys succeeds exactly when every key in it
      has a non-empty entry. */
  lemma {:induction false} PrefixOkIff(m: ImageMap, keys: seq<string>, draws: nat -> nat, k: nat)
    requires k <= |keys|
    ensures SelectPrefix(m, keys, draws, k).Ok? <==> forall i :: 0 <= i < k ==> HasPool(m, keys[i])
    decreases k
  {
    if k > 0 {
      PrefixOkIff(m, keys, draws, k - 1);
      PrefixOkStep(m, keys, draws, k);
    }
  }

  lemma PrefixOkStep(m: ImageMap, keys: seq<string>, draws: nat -> nat, k: nat)
    requires 0 < k <= |keys|
    ensures SelectPrefix(m, keys, draws, k).Ok? <==> SelectPrefix(m, keys, draws, k - 1).Ok? && HasPool(m, keys[k - 1])
  {
  }

  /** When every key of a prefix has an entry, the loop holds the image drawn
      for each key, in order. */
  lemma {:induction false} PrefixValues(m: ImageMap, keys: seq<string>, draws: nat -> nat, k: nat)
    requires k <= |keys| && forall i :: 0 <= i < k ==> HasPool(m, keys[i])
    ensures SelectPrefix(m, keys, draws, k).Ok?
    ensures |SelectPrefix(m, keys, draws, k).value| == k
    ensures forall i :: 0 <= i < k ==> SelectPrefix(m, keys, draws, k).value[i] == Drawn(m, keys[i], draws(i))
    decreases k
  {
    if k > 0 {
      PrefixValues(m, keys, draws, k - 1);
      var s := SelectPrefix(m, keys, draws, k - 1).value;
      var v := s + [Drawn(m, keys[k - 1], draws(k - 1))];
      assert SelectPrefix(m, keys, draws, k) == Ok(v);
      forall i | 0 <= i < k
        ensures v[i] == Drawn(m, keys[i], draws(i))
      {
        if i < k - 1 {
          assert v[i] == s[i];
        }
      }
    }
  }

  /** `keys[i]` is the first key without a non-empty entry. */
  predicate FirstMissingKey(m: ImageMap, keys: seq<string>, i: nat)
    requires i < |keys|
  {
    !HasPool(m, keys[i]) && forall j :: 0 <= j < i ==> HasPool(m, keys[j])
  }

  /** A failed loop over a prefix raises the error of the first key in it
      without a non-empty entry. */
  lemma {:induction false} PrefixFailure(m: ImageMap, keys: seq<string>, draws: nat -> nat, k: nat)
    requires k <= |keys| && SelectPrefix(m, keys, draws, k).Err?
    ensures exists i :: 0 <= i < k && FirstMissingKey(m, keys, i) && SelectPrefix(m, keys, draws, k).error == KeyError(m, keys[i])
    decreases k
  {
    if SelectPrefix(m, keys, draws, k - 1).Err? {
      PrefixFailure(m, keys, draws, k - 1);
      FailureCarries(m, keys, draws, k);
    } else {
      PrefixOkIff(m, keys, draws, k - 1);
      PrefixOkStep(m, keys, draws, k);
      assert SelectPrefix(m, keys, draws, k).error == KeyError(m, keys[k - 1]);
      assert FirstMissingKey(m, keys, k - 1);
    }
  }

  /** `digits[i]` is the first digit that does not resolve. */
  predicate FirstUnresolved(m: ImageMap, digits: seq<int>, i: nat)
    requires i < |digits|
  {
    !Resolves(m, digits[i]) && forall j :: 0 <= j < i ==> Resolves(m, digits[j])
  }

  /** `_select_images`: one image per digit, in the digits' order, drawn from
      the entry for the digit's decimal string (`draws(i)` is the random draw
      for position `i`); the first digit without an entry raises, naming the
      digit and the map's keys. */
  function Selection(m: ImageMap, digits: seq<int>, draws: nat -> nat): (r: Result<seq<Raster<byte>>, GenError>)
    ensures r.Ok? <==> forall i :: 0 <= i < |digits| ==> Resolves(m, digits[i])
    ensures r.Ok? ==> |r.value| == |digits|
    ensures r.Ok? ==> forall i :: 0 <= i < |digits| ==> r.value[i] in m.groups[IntToString(digits[i])]
    ensures r.Err? ==> exists i :: 0 <= i < |digits| && FirstUnresolved(m, digits, i) && r.error == SelectionError(m, digits[i])
  {
    var keys := Keys(digits);
    var r := SelectPrefix(m, keys, draws, |digits|);
    PrefixOkIff(m, keys, draws, |digits|);
    if r.Ok? then PrefixValues(m, keys, draws, |digits|); r
    else
      PrefixFailure(m, keys, draws, |digits|);
      var i :| 0 <= i < |digits| && FirstMissingKey(m, keys, i) && r.error == KeyError(m, keys[i]);
      assert FirstUnresolved(m, digits, i);
      r
  }

  /** `Selection` is the loop over the digits' keys. */
  lemma SelectionIsPrefix(m: ImageMap, digits: seq<int>, draws: nat -> nat)
    ensures Selection(m, digits, draws) == SelectPrefix(m, Keys(digits), draws, |digits|)
  {
  }

  /** Once the loop fails, later keys do not change the error. */
  lemma {:induction false} SelectionFailureSticks(m: ImageMap, keys: seq<string>, draws: nat -> nat, i: nat, k: nat)
    requires i <= k <= |keys|
    requires SelectPrefix(m, keys, draws, i).Err?
    ensures SelectPrefix(m, keys, draws, k) == SelectPrefix(m, keys, draws, i)
    decreases k - i
  {
    if i < k {
      SelectionFailureSticks(m, keys, draws, i, k - 1);
      FailureCarries(m, keys, draws, k);
    }
  }

  /** A failed prefix's error is the error of the prefix one key longer. */
  lemma FailureCarries(m: ImageMap, keys: seq<string>, draws: nat -> nat, k: nat)
    requires 0 < k <= |keys|
    requires SelectPrefix(m, keys, draws, k - 1).Err?
    ensures SelectPrefix(m, keys, draws, k) == SelectPrefix(m, keys, draws, k - 1)
  {
  }

  /** One step of the selection loop: a key with an entry adds its drawn
      image; any other key raises its error, and that is the loop's outcome. */
  lemma SelectStep(m: ImageMap, keys: seq<string>, draws: nat -> nat, i: nat, raw: seq<Raster<byte>>)
    requires i < |keys| && SelectPrefix(m, keys, draws, i) == Ok(raw)
    ensures SelectPrefix(m, keys, draws, i + 1) ==
      if HasPool(m, keys[i]) then Ok(raw + [Drawn(m, keys[i], draws(i))]) else Err(KeyError(m, keys[i]))
    ensures !HasPool(m, keys[i]) ==> SelectPrefix(m, keys, draws, |keys|) == Err(KeyError(m, keys[i]))
  {
    if !HasPool(m, keys[i]) {
      SelectionFailureSticks(m, keys, draws, i + 1, |keys|);
    }
  }

  /** The selection loop of `_select_images`, over the keys `str(user_digit)`
      of the requested digits. */
  method SelectImages(m: ImageMap, digits: seq<int>, draws: nat -> nat) returns (r: Result<seq<Raster<byte>>, GenError>)
    ensures r == Selection(m, digits, draws)
  {
    r := SelectKeys(m, Keys(digits), draws);
    SelectionIsPrefix(m, digits, draws);
  }

  /** The loop itself: each key's entry is looked up, an unknown key raises
      naming the map's keys, and an image is drawn from the entry. */
  method SelectKeys(m: ImageMap, keys: seq<string>, draws: nat -> nat) returns (r: Result<seq<Raster<byte>>, GenError>)
    ensures r == SelectPrefix(m, keys, draws, |keys|)
  {
    var rawImageList := [];
    for i := 0 to |keys|
      invariant SelectPrefix(m, keys, draws, i) == Ok(rawImageList)
    {
      var key := keys[i];
      SelectStep(m, keys, draws, i, rawImageList);
      if key in m.groups {
        var pool := m.groups[key];
        if |pool| == 0 {
          return Err(EmptyPool(key));
        }
        rawImageList := rawImageList + [Chosen(pool, draws(i))];
      } else {
        return Err(UnknownDigit(key, m.keys));
      }
    }
    return Ok(rawImageList);
  }

  /** Glyphs selected from a decoded corpus can always be joined: they share
      the corpus's image shape. */
  lemma SelectionFromCorpusJoinable(imageFile: seq<byte>, labelFile: seq<byte>, digits: seq<int>, draws: nat -> nat)
    requires Read(imageFile, labelFile).Ok?
    requires Selection(Read(imageFile, labelFile).value, digits, draws).Ok?
    requires |digits| >= 1
    ensures Joinable(Selection(Read(imageFile, labelFile).value, digits, draws).value)
  {
    var m := Read(imageFile, labelFile).value;
    var glyphs := Selection(m, digits, draws).value;
    ReadUniform(imageFile, labelFile);
    forall i | 0 <= i < |glyphs|
      ensures glyphs[i].Wf() && glyphs[i].rows == BE32(imageFile, 8)
    {
      var pool := m.groups[IntToString(digits[i])];
      var k :| 0 <= k < |pool| && pool[k] == glyphs[i];
    }
  }

  // ---------------------------------------------------------------------------
  // One run of the engine (`_generate_sequence` on one glyph list)
  // ---------------------------------------------------------------------------

  /** The engine on `glyphs` with the object's settings. */
  function Sequence(glyphs: seq<Raster<byte>>, s: Settings): Result<(Raster<byte>, LayoutInfo), GenError>
  {
    if !(Joinable(glyphs) && s.spacingRangeMin >= 0) then Err(Unjoinable)
    else
      match Generate(glyphs, s.imageWidth, s.spacingRangeMin, s.spacingRangeMax, s.spacingMode, s.whitePixel)
      case Err(e) => Err(LayoutFailed(e))
      case Ok(out) => Ok(out)
  }

  /** `_generate_sequence` on the glyph list it is given. */
  method RunEngine(glyphs: seq<Raster<byte>>, s: Settings) returns (r: Result<(Raster<byte>, LayoutInfo), GenError>)
    ensures r == Sequence(glyphs, s)
  {
    if !(Joinable(glyphs) && s.spacingRangeMin >= 0) {
      return Err(Unjoinable);
    }
    var out := GenerateSequence(glyphs, s.imageWidth, s.spacingRangeMin, s.spacingRangeMax, s.spacingMode, s.whitePixel);
    if out.Err? {
      return Err(LayoutFailed(out.error));
    }
    return Ok(out.value);
  }

  /** A successful run fills exactly the requested width, at the glyphs'
      height, and reports that size. */
  lemma SequenceExactWidth(glyphs: seq<Raster<byte>>, s: Settings)
    requires Sequence(glyphs, s).Ok?
    ensures var (img, info) := Sequence(glyphs, s).value;
      && img.Wf() && img.rows == glyphs[0].rows && img.cols == s.imageWidth
      && info.fullImageSize == (glyphs[0].rows, s.imageWidth)
      && info.numberOfLabels == |glyphs|
      && 0 <= info.rightMargin - info.leftMargin <= 1
  {
    LayoutProperties.GenerateExactWidth(glyphs, s.imageWidth, s.spacingRangeMin, s.spacingRangeMax, s.spacingMode, s.whitePixel);
  }

  /** On the original branch, with glyphs from a decoded corpus, the only
      input the engine refuses before planning is a negative spacing minimum. */
  lemma OriginalRefusedOnlyForNegativeSpacing(s: Settings, imageFile: seq<byte>, labelFile: seq<byte>, draws: nat -> nat)
    requires Read(imageFile, labelFile).Ok?
    requires Selection(Read(imageFile, labelFile).value, s.digits, draws).Ok?
    requires |s.digits| >= 1
    ensures Sequence(Selection(Read(imageFile, labelFile).value, s.digits, draws).value, s) == Err(Unjoinable)
            <==> s.spacingRangeMin < 0
  {
    SelectionFromCorpusJoinable(imageFile, labelFile, s.digits, draws);
  }

  // ---------------------------------------------------------------------------
  // Mode sequencing (`generate_numbers_sequence`)
  // ---------------------------------------------------------------------------

  predicate AugmentsIn(mode: int)
  {
    mode == 2 || mode == 3
  }

  predicate OriginalIn(mode: int)
  {
    mode == 1 || mode == 3
  }

  /** The augmented branch as written: build an `Augmentor` on the selected
      glyphs, run its `execute` as written (a chosen flip raises before
      anything is stored), store its result, and run the engine on that result. */
  function AugmentedPath(s: Settings, st: State, glyphs: seq<Raster<byte>>, t: Transforms<byte>): (State, Option<GenError>)
  {
    match NewAugmentor(glyphs, s.augmentation)
    case Err(e) => (st, Some(AugmentorFailed(e)))
    case Ok(a) =>
      match ExecuteAsWritten(a, t)
      case Err(e) => (st, Some(AugmentorFailed(e)))
      case Ok(aug) => AugmentedResult(s, st, aug)
  }

  /** The rest of the augmented branch once `execute` has returned `aug`. */
  function AugmentedResult(s: Settings, st: State, aug: Option<seq<Raster<byte>>>): (State, Option<GenError>)
  {
    var st1 := st.(augRandomImgArray := aug);
    if aug.None? then (st1, Some(NoAugmentedImages))
    else
      match Sequence(aug.value, s)
      case Err(e) => (st1, Some(e))
      case Ok(out) => (st1.(augOutputImageArray := Some(out.0), augImageInfo := Some(out.1)), None)
  }

  /** The augmented branch as evidently intended: `execute` builds the
      operations module's flip classes (`Augmentation.Execute`). Nothing else
      in the generator uses it; it states what the branch would do. */
  function AugmentedPathIntended(s: Settings, st: State, glyphs: seq<Raster<byte>>, t: Transforms<byte>): (State, Option<GenError>)
  {
    match NewAugmentor(glyphs, s.augmentation)
    case Err(e) => (st, Some(AugmentorFailed(e)))
    case Ok(a) => AugmentedResult(s, st, Execute(a, t))
  }

  /** The branch as written agrees with the intended one unless a flip is
      chosen; then it raises the missing operator name and stores nothing. */
  lemma AugmentedPathAsWritten(s: Settings, st: State, glyphs: seq<Raster<byte>>, t: Transforms<byte>)
    ensures NewAugmentor(glyphs, s.augmentation).Err? ==> AugmentedPath(s, st, glyphs, t) == AugmentedPathIntended(s, st, glyphs, t)
    ensures NewAugmentor(glyphs, s.augmentation).Ok? ==>
      var a := NewAugmentor(glyphs, s.augmentation).value;
      && (Selected(a.flags) !in {Some(VerticalFlip), Some(HorizontalFlip)} ==>
            AugmentedPath(s, st, glyphs, t) == AugmentedPathIntended(s, st, glyphs, t))
      && (Selected(a.flags) == Some(VerticalFlip) ==>
            AugmentedPath(s, st, glyphs, t) == (st, Some(AugmentorFailed(MissingOperator("Verticalflip")))))
      && (Selected(a.flags) == Some(HorizontalFlip) ==>
            AugmentedPath(s, st, glyphs, t) == (st, Some(AugmentorFailed(MissingOperator("Horizontalflip")))))
  {
    if NewAugmentor(glyphs, s.augmentation).Ok? {
      AsWrittenDiffersOnlyOnFlips(NewAugmentor(glyphs, s.augmentation).value, t);
    }
  }

  /** The original branch: the engine on the selected glyphs. */
  function OriginalPath(s: Settings, st: State, glyphs: seq<Raster<byte>>): (State, Option<GenError>)
  {
    match Sequence(glyphs, s)
    case Err(e) => (st, Some(e))
    case Ok(out) => (st.(outputImageArray := Some(out.0), imageInfo := Some(out.1)), None)
  }

  /** `generate_numbers_sequence`: the attributes after the call, and the
      exception it raises, if any. The augmented branch (modes 2 and 3) runs
      before the original one (modes 1 and 3). */
  function Run(s: Settings, st: State, imageFile: seq<byte>, labelFile: seq<byte>, draws: nat -> nat, t: Transforms<byte>)
    : (State, Option<GenError>)
  {
    match Read(imageFile, labelFile)
    case Err(e) => (st, Some(ReadFailed(e)))
    case Ok(m) =>
      var st1 := st.(imgMap := Some(m));
      match Selection(m, s.digits, draws)
      case Err(e) => (st1, Some(e))
      case Ok(glyphs) =>
        var st2 := st1.(randomImgArray := Some(glyphs));
        var (st3, err) := if AugmentsIn(s.mdsgMode) then AugmentedPath(s, st2, glyphs, t) else (st2, None);
        if err.Some? then (st3, err)
        else if OriginalIn(s.mdsgMode) then OriginalPath(s, st3, glyphs)
        else (st3, None)
  }

  /** A successful call stores the map and the selection, recomputes the
      original outputs exactly in modes 1 and 3 and the augmented outputs
      exactly in modes 2 and 3, and leaves the other attributes as they were;
      in modes other than 1, 2 and 3 nothing is generated. */
  lemma RunSucceeds(s: Settings, st: State, imageFile: seq<byte>, labelFile: seq<byte>, draws: nat -> nat, t: Transforms<byte>)
    requires Run(s, st, imageFile, labelFile, draws, t).1 == None
    ensures var st' := Run(s, st, imageFile, labelFile, draws, t).0;
      && Read(imageFile, labelFile).Ok?
      && st'.imgMap == Some(Read(imageFile, labelFile).value)
      && Selection(st'.imgMap.value, s.digits, draws) == Ok(st'.randomImgArray.value)
      && (OriginalIn(s.mdsgMode) ==> Sequence(st'.randomImgArray.value, s) == Ok((st'.outputImageArray.value, st'.imageInfo.value)))
      && (!OriginalIn(s.mdsgMode) ==> st'.outputImageArray == st.outputImageArray && st'.imageInfo == st.imageInfo)
      && (AugmentsIn(s.mdsgMode) ==>
            st'.augRandomImgArray.Some? &&
            Sequence(st'.augRandomImgArray.value, s) == Ok((st'.augOutputImageArray.value, st'.augImageInfo.value)))
      && (!AugmentsIn(s.mdsgMode) ==>
            st'.augRandomImgArray == st.augRandomImgArray &&
            st'.augOutputImageArray == st.augOutputImageArray && st'.augImageInfo == st.augImageInfo)
  {
    var r := Read(imageFile, labelFile);
    assert r.Ok?;
    var m := r.value;
    var sel := Selection(m, s.digits, draws);
    assert sel.Ok?;
    var glyphs := sel.value;
    var st2 := st.(imgMap := Some(m), randomImgArray := Some(glyphs));
    var mid := if AugmentsIn(s.mdsgMode) then AugmentedPath(s, st2, glyphs, t) else (st2, None);
    assert mid.1 == None;
    if AugmentsIn(s.mdsgMode) {
      AugmentedPathStores(s, st2, glyphs, t);
    }
    if OriginalIn(s.mdsgMode) {
      assert Run(s, st, imageFile, labelFile, draws, t) == OriginalPath(s, mid.0, glyphs);
      OriginalPathStores(s, mid.0, glyphs);
    } else {
      assert Run(s, st, imageFile, labelFile, draws, t) == mid;
    }
  }

  /** In mode 3 a failing augmented branch raises before the original branch
      runs, so the original outputs keep their old values. */
  lemma AugmentedFailureSkipsOriginal(s: Settings, st: State, imageFile: seq<byte>, labelFile: seq<byte>,
                                      draws: nat -> nat, t: Transforms<byte>)
    requires s.mdsgMode == 3
    requires Read(imageFile, labelFile).Ok?
    requires Selection(Read(imageFile, labelFile).value, s.digits, draws).Ok?
    requires AugmentedPath(s, st, Selection(Read(imageFile, labelFile).value, s.digits, draws).value, t).1.Some?
    ensures var (st', err) := Run(s, st, imageFile, labelFile, draws, t);
      err.Some? && st'.outputImageArray == st.outputImageArray && st'.imageInfo == st.imageInfo
  {
    var m := Read(imageFile, labelFile).value;
    var glyphs := Selection(m, s.digits, draws).value;
    var st2 := st.(imgMap := Some(m), randomImgArray := Some(glyphs));
    AugmentedPathKeeps(s, st, st2, glyphs, t);
    assert Run(s, st, imageFile, labelFile, draws, t) == AugmentedPath(s, st2, glyphs, t);
  }

  /** Whether the augmented branch fails does not depend on the attributes it
      starts from, and it never touches the original outputs. */
  lemma AugmentedPathKeeps(s: Settings, st: State, st2: State, glyphs: seq<Raster<byte>>, t: Transforms<byte>)
    ensures AugmentedPath(s, st2, glyphs, t).1 == AugmentedPath(s, st, glyphs, t).1
    ensures AugmentedPath(s, st2, glyphs, t).0.outputImageArray == st2.outputImageArray
    ensures AugmentedPath(s, st2, glyphs, t).0.imageInfo == st2.imageInfo
  {
  }

  /** In mode 3 a failing original branch leaves the augmented outputs set. */
  lemma OriginalFailureKeepsAugmented(s: Settings, st: State, imageFile: seq<byte>, labelFile: seq<byte>,
                                      draws: nat -> nat, t: Transforms<byte>)
    requires s.mdsgMode == 3
    requires Read(imageFile, labelFile).Ok?
    requires Selection(Read(imageFile, labelFile).value, s.digits, draws).Ok?
    requires AugmentedPath(s, st, Selection(Read(imageFile, labelFile).value, s.digits, draws).value, t).1.None?
    requires Sequence(Selection(Read(imageFile, labelFile).value, s.digits, draws).value, s).Err?
    ensures var (st', err) := Run(s, st, imageFile, labelFile, draws, t);
      && err == Some(Sequence(Selection(Read(imageFile, labelFile).value, s.digits, draws).value, s).error)
      && st'.augOutputImageArray.Some? && st'.augImageInfo.Some?
  {
    var m := Read(imageFile, labelFile).value;
    var glyphs := Selection(m, s.digits, draws).value;
    var st2 := st.(imgMap := Some(m), randomImgArray := Some(glyphs));
    var aug := AugmentedPath(s, st2, glyphs, t);
    AugmentedPathStores(s, st2, glyphs, t);
    assert Run(s, st, imageFile, labelFile, draws, t) == OriginalPath(s, aug.0, glyphs);
  }

  /** An augmented branch that succeeds stores the augmented glyphs and the
      engine's result on them, and changes no other attribute. */
  lemma AugmentedPathStores(s: Settings, st: State, glyphs: seq<Raster<byte>>, t: Transforms<byte>)
    requires AugmentedPath(s, st, glyphs, t).1.None?
    ensures var st' := AugmentedPath(s, st, glyphs, t).0;
      && st'.augRandomImgArray.Some? && st'.augOutputImageArray.Some? && st'.augImageInfo.Some?
      && Sequence(st'.augRandomImgArray.value, s) == Ok((st'.augOutputImageArray.value, st'.augImageInfo.value))
      && st' == st.(augRandomImgArray := st'.augRandomImgArray, augOutputImageArray := st'.augOutputImageArray,
                    augImageInfo := st'.augImageInfo)
  {
  }

  /** An original branch that succeeds stores the engine's result on the
      selected glyphs and changes no other attribute. */
  lemma OriginalPathStores(s: Settings, st: State, glyphs: seq<Raster<byte>>)
    requires OriginalPath(s, st, glyphs).1.None?
    ensures var st' := OriginalPath(s, st, glyphs).0;
      && st'.outputImageArray.Some? && st'.imageInfo.Some?
      && Sequence(glyphs, s) == Ok((st'.outputImageArray.value, st'.imageInfo.value))
      && st' == st.(outputImageArray := st'.outputImageArray, imageInfo := st'.imageInfo)
  {
  }

  /** In the intended branch, with a flip selected, the augmented glyphs are
      the selected glyphs flipped one by one, in order. */
  lemma FlipModeAugments(s: Settings, st: State, glyphs: seq<Raster<byte>>, t: Transforms<byte>)
    requires NewAugmentor(glyphs, s.augmentation).Ok?
    requires Selected(NewAugmentor(glyphs, s.augmentation).value.flags) in {Some(VerticalFlip), Some(HorizontalFlip)}
    ensures Selected(NewAugmentor(glyphs, s.augmentation).value.flags) == Some(VerticalFlip) ==>
              AugmentedPathIntended(s, st, glyphs, t).0.augRandomImgArray == Some(VFlipAll(glyphs))
    ensures Selected(NewAugmentor(glyphs, s.augmentation).value.flags) == Some(HorizontalFlip) ==>
              AugmentedPathIntended(s, st, glyphs, t).0.augRandomImgArray == Some(HFlipAll(glyphs))
  {
    ExecuteFollowsSelection(NewAugmentor(glyphs, s.augmentation).value, t);
  }

  /** As written, in modes 2 and 3 a chosen flip makes the call raise the
      missing operator name: the augmented glyphs keep their old value, and
      no output of either branch changes. */
  lemma FlipRaisesInRun(s: Settings, st: State, imageFile: seq<byte>, labelFile: seq<byte>,
                        draws: nat -> nat, t: Transforms<byte>)
    requires AugmentsIn(s.mdsgMode)
    requires Read(imageFile, labelFile).Ok?
    requires Selection(Read(imageFile, labelFile).value, s.digits, draws).Ok?
    requires NewAugmentor(Selection(Read(imageFile, labelFile).value, s.digits, draws).value, s.augmentation).Ok?
    requires Selected(NewAugmentor(Selection(Read(imageFile, labelFile).value, s.digits, draws).value, s.augmentation).value.flags)
             in {Some(VerticalFlip), Some(HorizontalFlip)}
    ensures var (st', err) := Run(s, st, imageFile, labelFile, draws, t);
      && err.Some? && err.value.AugmentorFailed? && err.value.augError.MissingOperator?
      && st'.augRandomImgArray == st.augRandomImgArray
      && st'.augOutputImageArray == st.augOutputImageArray && st'.augImageInfo == st.augImageInfo
      && st'.outputImageArray == st.outputImageArray && st'.imageInfo == st.imageInfo
  {
    var m := Read(imageFile, labelFile).value;
    var glyphs := Selection(m, s.digits, draws).value;
    var st2 := st.(imgMap := Some(m), randomImgArray := Some(glyphs));
    AugmentedPathAsWritten(s, st2, glyphs, t);
    assert Run(s, st, imageFile, labelFile, draws, t) == AugmentedPath(s, st2, glyphs, t);
  }

  // ---------------------------------------------------------------------------
  // Saving (`image_downloader`)
  // ---------------------------------------------------------------------------

  /** `ceil(mode / 2)` passes; `range` of a value below one is empty. */
  function Iterations(mode: int): (k: nat)
    ensures mode >= 1 ==> 2 * k - 1 <= mode <= 2 * k
    ensures mode <= 0 ==> k == 0
  {
    if mode <= 0 then 0 else (mode + 1) / 2
  }

  /** The image, the metadata and the name part chosen for one pass. */
  datatype Target = Target(image: Option<Raster<byte>>, info: Option<LayoutInfo>, ext: string)

  /** The choice made at pass `itr`; the previous pass's choice stays when
      neither condition holds (the source's variables outlive the pass). */
  function TargetAt(mode: int, itr: nat, st: State, prev: Option<Target>): Option<Target>
  {
    var afterOrg := if mode == 1 || (mode == 3 && itr == 0) then Some(Target(st.outputImageArray, st.imageInfo, "org")) else prev;
    if mode == 2 || (mode == 3 && itr == 1) then Some(Target(st.augOutputImageArray, st.augImageInfo, "aug")) else afterOrg
  }

  /** The saved file's name, before `os.path.realpath`. */
  function FileName(outputPath: string, stamp: string, ext: string, size: (nat, int)): string
  {
    outputPath + "/mdsg_" + stamp + ext + "_" + SizeSuffix(size) + ".png"
  }

  /** What `image_downloader` returns or raises. */
  datatype Download = Files(names: seq<string>) | SaveFailed | Raised(error: GenError)

  /** The passes from `itr` on, with the choice and the names so far. `stamp`
      gives the formatted clock at each pass and `save` whether writing a file
      succeeds. */
  function DownloadFrom(s: Settings, st: State, stamp: nat -> string, save: (string, Option<Raster<byte>>) -> bool,
                        itr: nat, prev: Option<Target>, names: seq<string>): Download
    requires itr <= Iterations(s.mdsgMode)
    decreases Iterations(s.mdsgMode) - itr
  {
    if itr == Iterations(s.mdsgMode) then Files(names)
    else
      var cur := TargetAt(s.mdsgMode, itr, st, prev);
      if cur.None? then Raised(UnboundExtension)
      else if cur.value.info.None? then Raised(NoImageInfo)
      else
        var name := FileName(s.outputPath, stamp(itr), cur.value.ext, cur.value.info.value.fullImageSize);
        if !save(name, cur.value.image) then SaveFailed
        else DownloadFrom(s, st, stamp, save, itr + 1, cur, names + [name])
  }

  function Downloads(s: Settings, st: State, stamp: nat -> string, save: (string, Option<Raster<byte>>) -> bool): Download
  {
    DownloadFrom(s, st, stamp, save, 0, None, [])
  }

  /** The size part of each name reads "HxW". */
  lemma FileNameSize(outputPath: string, stamp: string, ext: string, size: (nat, int))
    ensures FileName(outputPath, stamp, ext, size)
            == outputPath + "/mdsg_" + stamp + ext + "_" + (IntToString(size.0) + "x" + IntToString(size.1)) + ".png"
  {
    SizeSuffixReadsHxW(size);
  }

  /** Modes below 1 write nothing; modes above 3 raise on the first pass. */
  lemma DownloadOutsideModes(s: Settings, st: State, stamp: nat -> string, save: (string, Option<Raster<byte>>) -> bool)
    ensures s.mdsgMode <= 0 ==> Downloads(s, st, stamp, save) == Files([])
    ensures s.mdsgMode >= 4 ==> Downloads(s, st, stamp, save) == Raised(UnboundExtension)
  {
  }

  /** Mode 1 writes one "org" file. */
  lemma DownloadOriginal(s: Settings, st: State, stamp: nat -> string, save: (string, Option<Raster<byte>>) -> bool)
    requires s.mdsgMode == 1
    ensures st.imageInfo.None? ==> Downloads(s, st, stamp, save) == Raised(NoImageInfo)
    ensures st.imageInfo.Some? ==>
      var name := FileName(s.outputPath, stamp(0), "org", st.imageInfo.value.fullImageSize);
      Downloads(s, st, stamp, save) == if save(name, st.outputImageArray) then Files([name]) else SaveFailed
  {
    assert Iterations(1) == 1;
    var t0 := TargetAt(1, 0, st, None);
    assert t0 == Some(Target(st.outputImageArray, st.imageInfo, "org"));
    if st.imageInfo.Some? {
      var name := FileName(s.outputPath, stamp(0), "org", st.imageInfo.value.fullImageSize);
      assert Downloads(s, st, stamp, save) == DownloadFrom(s, st, stamp, save, 0, None, []);
      assert DownloadFrom(s, st, stamp, save, 0, None, []) ==
        if save(name, st.outputImageArray) then DownloadFrom(s, st, stamp, save, 1, t0, [] + [name]) else SaveFailed;
      assert [] + [name] == [name];
    }
  }

  /** Mode 2 writes one "aug" file. */
  lemma DownloadAugmented(s: Settings, st: State, stamp: nat -> string, save: (string, Option<Raster<byte>>) -> bool)
    requires s.mdsgMode == 2
    ensures st.augImageInfo.None? ==> Downloads(s, st, stamp, save) == Raised(NoImageInfo)
    ensures st.augImageInfo.Some? ==>
      var name := FileName(s.outputPath, stamp(0), "aug", st.augImageInfo.value.fullImageSize);
      Downloads(s, st, stamp, save) == if save(name, st.augOutputImageArray) then Files([name]) else SaveFailed
  {
    assert Iterations(2) == 1;
    var t0 := TargetAt(2, 0, st, None);
    assert t0 == Some(Target(st.augOutputImageArray, st.augImageInfo, "aug"));
    if st.augImageInfo.Some? {
      var name := FileName(s.outputPath, stamp(0), "aug", st.augImageInfo.value.fullImageSize);
      assert Downloads(s, st, stamp, save) == DownloadFrom(s, st, stamp, save, 0, None, []);
      assert DownloadFrom(s, st, stamp, save, 0, None, []) ==
        if save(name, st.augOutputImageArray) then DownloadFrom(s, st, stamp, save, 1, t0, [] + [name]) else SaveFailed;
      assert [] + [name] == [name];
    }
  }

  /** Mode 3 writes the "org" file first and then the "aug" file. */
  lemma DownloadBoth(s: Settings, st: State, stamp: nat -> string, save: (string, Option<Raster<byte>>) -> bool)
    requires s.mdsgMode == 3 && st.imageInfo.Some? && st.augImageInfo.Some?
    ensures var org := FileName(s.outputPath, stamp(0), "org", st.imageInfo.value.fullImageSize);
      var aug := FileName(s.outputPath, stamp(1), "aug", st.augImageInfo.value.fullImageSize);
      Downloads(s, st, stamp, save) ==
        if !save(org, st.outputImageArray) || !save(aug, st.augOutputImageArray) then SaveFailed
        else Files([org, aug])
  {
    var org := FileName(s.outputPath, stamp(0), "org", st.imageInfo.value.fullImageSize);
    var aug := FileName(s.outputPath, stamp(1), "aug", st.augImageInfo.value.fullImageSize);
    var t0 := Target(st.outputImageArray, st.imageInfo, "org");
    var t1 := Target(st.augOutputImageArray, st.augImageInfo, "aug");
    DownloadPass(s, st, stamp, save, 0, None, [], t0);
    if save(org, st.outputImageArray) {
      DownloadPass(s, st, stamp, save, 1, Some(t0), [org], t1);
      assert [] + [org] == [org];
    }
  }

  /** One pass that finds its metadata: it saves under the pass's name and
      goes on, or stops when saving fails. */
  lemma DownloadPass(s: Settings, st: State, stamp: nat -> string, save: (string, Option<Raster<byte>>) -> bool,
                     itr: nat, prev: Option<Target>, names: seq<string>, cur: Target)
    requires itr < Iterations(s.mdsgMode)
    requires TargetAt(s.mdsgMode, itr, st, prev) == Some(cur) && cur.info.Some?
    ensures var name := FileName(s.outputPath, stamp(itr), cur.ext, cur.info.value.fullImageSize);
      DownloadFrom(s, st, stamp, save, itr, prev, names) ==
        if save(name, cur.image) then DownloadFrom(s, st, stamp, save, itr + 1, Some(cur), names + [name]) else SaveFailed
  {
  }

  // ---------------------------------------------------------------------------
  // The object
  // ---------------------------------------------------------------------------

  class DigitSequenceGenerator {
    const settings: Settings
    var imgMap: Option<ImageMap>
    var randomImgArray: Option<seq<Raster<byte>>>
    var augRandomImgArray: Option<seq<Raster<byte>>>
    var outputImageArray: Option<Raster<byte>>
    var imageInfo: Option<LayoutInfo>
    var augOutputImageArray: Option<Raster<byte>>
    var augImageInfo: Option<LayoutInfo>

    /** The attributes as one value. */
    function Attributes(): State
      reads this
    {
      State(imgMap, randomImgArray, augRandomImgArray, outputImageArray, imageInfo, augOutputImageArray, augImageInfo)
    }

    /** `__init__`: keeps the request and the configuration; every computed
        attribute starts as `None`. */
    constructor(settings: Settings)
      ensures this.settings == settings && Attributes() == Unset
    {
      this.settings := settings;
      imgMap, randomImgArray, augRandomImgArray := None, None, None;
      outputImageArray, imageInfo, augOutputImageArray, augImageInfo := None, None, None, None;
    }

    /** `generate_numbers_sequence`, with the two corpus files' contents, the
        random draws and the three library transforms as parameters. */
    method GenerateNumbersSequence(imageFile: seq<byte>, labelFile: seq<byte>, draws: nat -> nat, t: Transforms<byte>)
      returns (err: Option<GenError>)
      modifies this
      ensures (Attributes(), err) == Run(settings, old(Attributes()), imageFile, labelFile, draws, t)
    {
      var read := ReadImage(imageFile, labelFile);
      if read.Err? {
        return Some(ReadFailed(read.error));
      }
      imgMap := Some(read.value);
      var selected := SelectImages(read.value, settings.digits, draws);
      if selected.Err? {
        return Some(selected.error);
      }
      var glyphs := selected.value;
      randomImgArray := Some(glyphs);
      if settings.mdsgMode == 2 || settings.mdsgMode == 3 {
        err := AugmentedBranch(glyphs, t);
        if err.Some? {
          return;
        }
      }
      if settings.mdsgMode == 1 || settings.mdsgMode == 3 {
        err := OriginalBranch(glyphs);
        return;
      }
      return None;
    }

    /** The augmented half of `generate_numbers_sequence`. */
    method AugmentedBranch(glyphs: seq<Raster<byte>>, t: Transforms<byte>) returns (err: Option<GenError>)
      modifies this
      ensures (Attributes(), err) == AugmentedPath(settings, old(Attributes()), glyphs, t)
    {
      var augmentor := NewAugmentor(glyphs, settings.augmentation);
      if augmentor.Err? {
        return Some(AugmentorFailed(augmentor.error));
      }
      var executed := ExecuteAsWritten(augmentor.value, t);
      if executed.Err? {
        return Some(AugmentorFailed(executed.error));
      }
      augRandomImgArray := executed.value;
      if augRandomImgArray.None? {
        return Some(NoAugmentedImages);
      }
      var out := RunEngine(augRandomImgArray.value, settings);
      if out.Err? {
        return Some(out.error);
      }
      augOutputImageArray, augImageInfo := Some(out.value.0), Some(out.value.1);
      return None;
    }

    /** The original half of `generate_numbers_sequence`. */
    method OriginalBranch(glyphs: seq<Raster<byte>>) returns (err: Option<GenError>)
      modifies this
      ensures (Attributes(), err) == OriginalPath(settings, old(Attributes()), glyphs)
    {
      var out := RunEngine(glyphs, settings);
      if out.Err? {
        return Some(out.error);
      }
      outputImageArray, imageInfo := Some(out.value.0), Some(out.value.1);
      return None;
    }

    /** `image_downloader`, with the clock and the file writer as parameters. */
    method ImageDownloader(stamp: nat -> string, save: (string, Option<Raster<byte>>) -> bool) returns (r: Download)
      ensures r == Downloads(settings, Attributes(), stamp, save)
    {
      var iteration := Iterations(settings.mdsgMode);
      var fileName: seq<string> := [];
      var current: Option<Target> := None;
      for itr := 0 to iteration
        invariant DownloadFrom(settings, Attributes(), stamp, save, itr, current, fileName)
                  == Downloads(settings, Attributes(), stamp, save)
      {
        if settings.mdsgMode == 1 || (settings.mdsgMode == 3 && itr == 0) {
          current := Some(Target(outputImageArray, imageInfo, "org"));
        }
        if settings.mdsgMode == 2 || (settings.mdsgMode == 3 && itr == 1) {
          current := Some(Target(augOutputImageArray, augImageInfo, "aug"));
        }
        if current.None? {
          return Raised(UnboundExtension);
        }
        if current.value.info.None? {
          return Raised(NoImageInfo);
        }
        var name := FileName(settings.outputPath, stamp(itr), current.value.ext, current.value.info.value.fullImageSize);
        if !save(name, current.value.image) {
          return SaveFailed;
        }
        fileName := fileName + [name];
      }
      return Files(fileName);
    }
  }
}
