/** The dataset checks of `_initialize_dataset` and the caption choice of
    its `tokenize_captions`.

    The training images come either from a named dataset on the Hugging
    Face hub or from an image folder on disk. The dataset must have the
    configured image and caption columns, and every caption value must be a
    string or a list of strings: training takes one string of a list at
    random, evaluation its first. */
module Dataset {
  import opened Wrappers
  import opened Strings

  /** What `datasets.load_dataset` is called with. */
  datatype DatasetSource =
    | HubDataset(name: string, configName: Option<string>)
    | ImageFolder(trainFiles: string)

  datatype DatasetError =
    | NoDatasetSource                                              // neither source set: ValueError
    | MissingImageColumn(column: string, columns: seq<string>)     // ValueError
    | MissingCaptionColumn(column: string, columns: seq<string>)   // ValueError
    | InvalidCaption(column: string)                               // neither a string nor a list: ValueError
    | EmptyCaptionList                                             // `random.choice([])` or `[][0]`: IndexError

  /** `os.path.join(dir, name)` for a relative POSIX `name`. */
  function JoinPath(dir: string, name: string): (path: string)
    ensures EndsWith(path, name)
    ensures dir != [] ==> StartsWith(path, dir)
  {
    if dir == [] || dir[|dir| - 1] == '/' then dir + name
    else
      assert (dir + "/" + name)[..|dir|] == dir;
      dir + "/" + name
  }

  /** The source `_initialize_dataset` loads: a dataset name wins over a
      dataset directory, and one of the two must be set. */
  function SelectSource(datasetName: Option<string>, datasetConfigName: Option<string>, datasetDir: Option<string>)
    : (r: Result<DatasetSource, DatasetError>)
    ensures r.Err? <==> datasetName.None? && datasetDir.None?
    ensures r.Err? ==> r.error == NoDatasetSource
    ensures r.Ok? && r.value.HubDataset? <==> datasetName.Some?
    ensures r.Ok? && r.value.HubDataset? ==> r.value == HubDataset(datasetName.value, datasetConfigName)
    ensures r.Ok? && r.value.ImageFolder? ==> EndsWith(r.value.trainFiles, "**") && StartsWith(r.value.trainFiles, datasetDir.value)
  {
    if datasetName.Some? then Ok(HubDataset(datasetName.value, datasetConfigName))
    else if datasetDir.Some? then Ok(ImageFolder(JoinPath(datasetDir.value, "**")))
    else Err(NoDatasetSource)
  }

  /** A dataset directory is ignored whenever a dataset name is set. */
  lemma DatasetNameWins(name: string, configName: Option<string>, dir1: Option<string>, dir2: Option<string>)
    ensures SelectSource(Some(name), configName, dir1) == SelectSource(Some(name), configName, dir2)
    ensures SelectSource(Some(name), configName, dir1).Ok?
  {
  }

  /** The column checks, image column first. */
  function CheckColumns(columns: seq<string>, imageColumn: string, captionColumn: string): (r: Outcome<DatasetError>)
    ensures r.Pass? <==> imageColumn in columns && captionColumn in columns
    ensures r == Fail(MissingImageColumn(imageColumn, columns)) <==> imageColumn !in columns
    ensures r == Fail(MissingCaptionColumn(captionColumn, columns)) <==> imageColumn in columns && captionColumn !in columns
  {
    if imageColumn !in columns then Fail(MissingImageColumn(imageColumn, columns))
    else if captionColumn !in columns then Fail(MissingCaptionColumn(captionColumn, columns))
    else Pass
  }

  /** A value of the caption column: a string, a list (or array) of
      strings, or anything else. */
  datatype Caption = Text(text: string) | Variants(variants: seq<string>) | OtherValue

  /** The caption yields a string without raising. */
  predicate Usable(c: Caption) {
    c.Text? || (c.Variants? && |c.variants| > 0)
  }

  /** The exception an unusable caption raises. */
  function CaptionError(c: Caption, column: string): DatasetError
    requires !Usable(c)
  {
    if c.OtherValue? then InvalidCaption(column) else EmptyCaptionList
  }

  /** `s` is a string the code may take for `c`: the string itself, any
      variant in training mode, the first variant otherwise. */
  predicate ChosenFrom(c: Caption, isTrain: bool, s: string)
    requires Usable(c)
  {
    match c
    case Text(t) => s == t
    case Variants(vs) => if isTrain then s in vs else s == vs[0]
  }

  predicate AllUsable(captions: seq<Caption>) {
    forall i :: 0 <= i < |captions| ==> Usable(captions[i])
  }

  /** The caption loop of `tokenize_captions(examples, is_train)`: one
      string per example, or the exception of the first unusable caption.
      `random.choice` is any element of the list. */
  method ChooseCaptions(captions: seq<Caption>, isTrain: bool, column: string) returns (r: Result<seq<string>, DatasetError>)
    ensures r.Ok? <==> AllUsable(captions)
    ensures r.Ok? ==> |r.value| == |captions|
    ensures r.Ok? ==> forall i :: 0 <= i < |captions| ==> ChosenFrom(captions[i], isTrain, r.value[i])
    ensures r.Err? ==> exists i ::
      && 0 <= i < |captions|
      && !Usable(captions[i])
      && AllUsable(captions[..i])
      && r.error == CaptionError(captions[i], column)
  {
    var chosen: seq<string> := [];
    for i := 0 to |captions|
      invariant AllUsable(captions[..i])
      invariant |chosen| == i
      invariant forall k :: 0 <= k < i ==> ChosenFrom(captions[k], isTrain, chosen[k])
    {
      assert captions[..i + 1] == captions[..i] + [captions[i]];
      match captions[i]
      case Text(t) =>
        chosen := chosen + [t];
      case Variants(vs) =>
        if vs == [] {
          return Err(EmptyCaptionList);
        }
        var s: string;
        if isTrain {
          assert vs[0] in vs;
          s :| s in vs;
        } else {
          s := vs[0];
        }
        chosen := chosen + [s];
      case OtherValue =>
        return Err(InvalidCaption(column));
    }
    assert captions[..|captions|] == captions;
    return Ok(chosen);
  }

  /** Outside training the choice is determined: the first variant. */
  lemma EvaluationChoiceIsFirst(c: Caption, s: string, t: string)
    requires Usable(c) && ChosenFrom(c, false, s) && ChosenFrom(c, false, t)
    ensures s == t
    ensures c.Variants? ==> s == c.variants[0]
  {
  }

  /** In training every variant can be the one taken. */
  lemma TrainingChoiceCoversVariants(vs: seq<string>, s: string)
    requires s in vs
    ensures Usable(Variants(vs)) && ChosenFrom(Variants(vs), true, s)
  {
  }
}
