/** The augmentation front end (`Augmentor`): it reads six option strings from
    the `AUGMENTATION` section of the configuration and, on `execute`, hands the
    whole image list to the first operator whose option string is non-empty. */
module Augmentation {
  import opened Common
  import opened Rasters
  import opened Operations

  /** The six option strings, exactly as the configuration holds them. */
  datatype Flags = Flags(
    randAug: string,
    rotate: string,
    blur: string,
    warp: string,
    verticalFlip: string,
    horizontalFlip: string)

  /** Python truth of a string: any non-empty string, "False" and "0"
      included, is true. */
  predicate IsSet(s: string)
  {
    s != ""
  }

  datatype Operator = Rotate | Blur | Warp | VerticalFlip | HorizontalFlip

  /** The order in which `execute` tests the options. */
  const Priority: seq<Operator> := [Rotate, Blur, Warp, VerticalFlip, HorizontalFlip]

  function Rank(op: Operator): (i: nat)
    ensures i < |Priority| && Priority[i] == op
  {
    match op
    case Rotate => 0
    case Blur => 1
    case Warp => 2
    case VerticalFlip => 3
    case HorizontalFlip => 4
  }

  /** The option string that switches `op` on. */
  function FlagOf(f: Flags, op: Operator): string
  {
    match op
    case Rotate => f.rotate
    case Blur => f.blur
    case Warp => f.warp
    case VerticalFlip => f.verticalFlip
    case HorizontalFlip => f.horizontalFlip
  }

  datatype AugError =
    | MissingOption(option: string)    // the configuration lacks an option `__init__` reads
    | MissingOperator(name: string)    // `execute` names an attribute the operations module lacks

  /** The option names `__init__` reads, in the order it reads them. */
  const OptionNames: seq<string> := ["RandAug", "Rotate", "Blur", "Warp", "VerticalFlip", "HorizontalFlip"]

  /** The image list and the option strings an `Augmentor` holds. */
  datatype Augmentor<P> = Augmentor(imgArray: seq<Raster<P>>, flags: Flags)

  /** `Augmentor.__init__`: keeps the image list and reads the six options in
      order; the first one the section lacks raises. */
  function NewAugmentor<P>(imgArray: seq<Raster<P>>, section: map<string, string>): (r: Result<Augmentor<P>, AugError>)
    ensures r.Ok? <==> "RandAug" in section && "Rotate" in section && "Blur" in section
                       && "Warp" in section && "VerticalFlip" in section && "HorizontalFlip" in section
    ensures r.Ok? ==> r.value.imgArray == imgArray
    ensures r.Ok? ==> r.value.flags == Flags(section["RandAug"], section["Rotate"], section["Blur"],
                                             section["Warp"], section["VerticalFlip"], section["HorizontalFlip"])
    ensures r.Err? ==> exists i :: 0 <= i < |OptionNames| && r.error == MissingOption(OptionNames[i])
                                   && OptionNames[i] !in section
                                   && forall j :: 0 <= j < i ==> OptionNames[j] in section
  {
    var missing := FirstMissing(section, 0);
    if missing < |OptionNames| then Err(MissingOption(OptionNames[missing]))
    else Ok(Augmentor(imgArray, Flags(section["RandAug"], section["Rotate"], section["Blur"],
                                       section["Warp"], section["VerticalFlip"], section["HorizontalFlip"])))
  }

  /** The index of the first option name from `from` on that `section` lacks,
      or `|OptionNames|` when it has them all. */
  function FirstMissing(section: map<string, string>, from: nat): (i: nat)
    requires from <= |OptionNames|
    ensures from <= i <= |OptionNames|
    ensures forall j :: from <= j < i ==> OptionNames[j] in section
    ensures i < |OptionNames| ==> OptionNames[i] !in section
    decreases |OptionNames| - from
  {
    if from == |OptionNames| then from
    else if OptionNames[from] !in section then from
    else FirstMissing(section, from + 1)
  }

  /** Which operator `execute` runs: the first, in priority order, whose option is set. */
  function Selected(f: Flags): Option<Operator>
  {
    if IsSet(f.rotate) then Some(Rotate)
    else if IsSet(f.blur) then Some(Blur)
    else if IsSet(f.warp) then Some(Warp)
    else if IsSet(f.verticalFlip) then Some(VerticalFlip)
    else if IsSet(f.horizontalFlip) then Some(HorizontalFlip)
    else None
  }

  /** The operator chosen is the highest-priority one that is set; nothing is
      chosen exactly when no option is set. */
  lemma SelectedIsFirstSet(f: Flags, op: Operator)
    ensures Selected(f) == Some(op) <==>
              IsSet(FlagOf(f, op)) && forall i :: 0 <= i < Rank(op) ==> !IsSet(FlagOf(f, Priority[i]))
    ensures Selected(f) == None <==> forall i :: 0 <= i < |Priority| ==> !IsSet(FlagOf(f, Priority[i]))
  {
    assert Priority[0] == Rotate && Priority[1] == Blur && Priority[2] == Warp;
    assert Priority[3] == VerticalFlip && Priority[4] == HorizontalFlip;
    if forall i :: 0 <= i < |Priority| ==> !IsSet(FlagOf(f, Priority[i])) {
      assert !IsSet(FlagOf(f, Priority[0])) && !IsSet(FlagOf(f, Priority[1])) && !IsSet(FlagOf(f, Priority[2]));
      assert !IsSet(FlagOf(f, Priority[3])) && !IsSet(FlagOf(f, Priority[4]));
    }
  }

  /** The three transforms that draw random numbers or call image libraries,
      taken as given operators on the whole image list. */
  datatype Transforms<!P> = Transforms(
    rotate: seq<Raster<P>> -> seq<Raster<P>>,
    blur: seq<Raster<P>> -> seq<Raster<P>>,
    warp: seq<Raster<P>> -> seq<Raster<P>>)

  /** `Augmentor.execute` as written: `Ok(None)` when no option is set (the
      method falls off its end), the chosen operator's result otherwise. The
      two flip branches look up `Verticalflip` and `Horizontalflip`, which the
      operations module does not define (its classes are `VerticalFlip` and
      `HorizontalFlip`), so choosing either raises. */
  function ExecuteAsWritten<P>(a: Augmentor<P>, t: Transforms<P>): Result<Option<seq<Raster<P>>>, AugError>
  {
    if IsSet(a.flags.rotate) then Ok(Some(t.rotate(a.imgArray)))
    else if IsSet(a.flags.blur) then Ok(Some(t.blur(a.imgArray)))
    else if IsSet(a.flags.warp) then Ok(Some(t.warp(a.imgArray)))
    else if IsSet(a.flags.verticalFlip) then Err(MissingOperator("Verticalflip"))
    else if IsSet(a.flags.horizontalFlip) then Err(MissingOperator("Horizontalflip"))
    else Ok(None)
  }

  /** What operator `op` returns for the whole image list; a flip object
      built on the list returns, on its first `execute`, one flipped image per
      input (`Operations.HorizontalFlipTwice`, `Operations.VerticalFlipTwice`). */
  function Apply<P>(op: Operator, t: Transforms<P>, imgs: seq<Raster<P>>): seq<Raster<P>>
  {
    match op
    case Rotate => t.rotate(imgs)
    case Blur => t.blur(imgs)
    case Warp => t.warp(imgs)
    case VerticalFlip => VFlipAll(imgs)
    case HorizontalFlip => HFlipAll(imgs)
  }

  /** `Augmentor.execute` as evidently intended, with the flip branches
      building the operations module's `VerticalFlip` and `HorizontalFlip`:
      `None` when no option is set, the chosen operator's result otherwise. */
  function Execute<P>(a: Augmentor<P>, t: Transforms<P>): Option<seq<Raster<P>>>
  {
    if IsSet(a.flags.rotate) then Some(t.rotate(a.imgArray))
    else if IsSet(a.flags.blur) then Some(t.blur(a.imgArray))
    else if IsSet(a.flags.warp) then Some(t.warp(a.imgArray))
    else if IsSet(a.flags.verticalFlip) then Some(VFlipAll(a.imgArray))
    else if IsSet(a.flags.horizontalFlip) then Some(HFlipAll(a.imgArray))
    else None
  }

  /** The operator `execute` runs is the one `Selected` names; it receives the
      whole image list and its result is returned unchanged. */
  lemma ExecuteFollowsSelection<P>(a: Augmentor<P>, t: Transforms<P>)
    ensures Execute(a, t).None? <==> Selected(a.flags) == None
    ensures Selected(a.flags).Some? ==> Execute(a, t) == Some(Apply(Selected(a.flags).value, t, a.imgArray))
  {
  }

  /** A flip chosen by the dispatch returns one flipped image per input, in
      order, and the chosen flip undone by itself gives the inputs back. */
  lemma FlipDispatch<P>(a: Augmentor<P>, t: Transforms<P>)
    requires AllWf(a.imgArray)
    requires Selected(a.flags) in {Some(VerticalFlip), Some(HorizontalFlip)}
    ensures Execute(a, t).Some? && |Execute(a, t).value| == |a.imgArray|
    ensures Selected(a.flags) == Some(VerticalFlip) ==>
              forall i :: 0 <= i < |a.imgArray| ==> Execute(a, t).value[i] == VFlip(a.imgArray[i])
    ensures Selected(a.flags) == Some(HorizontalFlip) ==>
              forall i :: 0 <= i < |a.imgArray| ==> Execute(a, t).value[i] == HFlip(a.imgArray[i])
    ensures Apply(Selected(a.flags).value, t, Execute(a, t).value) == a.imgArray
  {
    FlipAllInvolution(a.imgArray);
  }

  /** The code as written agrees with the intended dispatch except on the two
      flips, where it raises instead of flipping. */
  lemma AsWrittenDiffersOnlyOnFlips<P>(a: Augmentor<P>, t: Transforms<P>)
    ensures Selected(a.flags) !in {Some(VerticalFlip), Some(HorizontalFlip)} ==>
              ExecuteAsWritten(a, t) == Ok(Execute(a, t))
    ensures Selected(a.flags) == Some(VerticalFlip) ==>
              ExecuteAsWritten(a, t) == Err(MissingOperator("Verticalflip")) && Execute(a, t).Some?
    ensures Selected(a.flags) == Some(HorizontalFlip) ==>
              ExecuteAsWritten(a, t) == Err(MissingOperator("Horizontalflip")) && Execute(a, t).Some?
  {
  }

  /** The input that shows it: only the vertical flip switched on. */
  lemma VerticalFlipRaises<P>(imgs: seq<Raster<P>>, t: Transforms<P>)
    ensures ExecuteAsWritten(Augmentor(imgs, Flags("", "", "", "", "True", "")), t) == Err(MissingOperator("Verticalflip"))
    ensures Execute(Augmentor(imgs, Flags("", "", "", "", "True", "")), t) == Some(VFlipAll(imgs))
  {
  }

  /** `RandAug` is read but never consulted. */
  lemma RandAugIgnored<P>(a: Augmentor<P>, t: Transforms<P>, randAug: string)
    ensures Execute(a.(flags := a.flags.(randAug := randAug)), t) == Execute(a, t)
    ensures ExecuteAsWritten(a.(flags := a.flags.(randAug := randAug)), t) == ExecuteAsWritten(a, t)
  {
  }

  /** Once an option is set, every option of lower priority is ignored. */
  lemma LowerPrioritiesIgnored<P>(a: Augmentor<P>, b: Augmentor<P>, t: Transforms<P>, op: Operator)
    requires a.imgArray == b.imgArray
    requires IsSet(FlagOf(a.flags, op)) && FlagOf(b.flags, op) == FlagOf(a.flags, op)
    requires forall i :: 0 <= i < Rank(op) ==> FlagOf(a.flags, Priority[i]) == FlagOf(b.flags, Priority[i])
    ensures Execute(a, t) == Execute(b, t)
    ensures ExecuteAsWritten(a, t) == ExecuteAsWritten(b, t)
  {
    assert Priority[0] == Rotate && Priority[1] == Blur && Priority[2] == Warp && Priority[3] == VerticalFlip;
  }

  /** A rotate option written as "False" still switches rotation on. */
  lemma FalseStringCountsAsSet<P>(imgs: seq<Raster<P>>, t: Transforms<P>)
    ensures Execute(Augmentor(imgs, Flags("", "False", "", "", "", "")), t) == Some(t.rotate(imgs))
  {
  }
}
