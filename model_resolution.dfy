/** Resolving the configured base model against the model registry
    (`_load_models`).

    The configured model may be given as a path or a hub id; only its last
    `/`-separated component is looked up. The registry lists its models as
    `(name, base_model, model_type)` triples in its own order, and the first
    one whose name ends with the lookup key is taken. That model must be in
    the diffusers format. */
module ModelResolution {
  import opened Wrappers
  import opened Strings

  /** A registry entry: the triple that `model_info(*entry)` is called with. */
  datatype KnownModel = KnownModel(name: string, baseModel: string, modelType: string)

  /** The two assertions that can fail. */
  datatype ResolveError =
    | UnknownModel(model: string)
    | UnsupportedFormat(model: string, format: string)

  /** `model.split("/")[-1]`. */
  function LookupKey(model: string): (key: string)
    ensures '/' !in key && EndsWith(model, key)
    ensures '/' !in model ==> key == model
  {
    AfterLast(model, '/')
  }

  /** `next((mm for mm in known if mm[0].endswith(key)), None)`, as the
      position of the entry found. */
  function FirstMatch(known: seq<KnownModel>, key: string): (r: Option<nat>)
    ensures r.None? <==> forall i :: 0 <= i < |known| ==> !EndsWith(known[i].name, key)
    ensures r.Some? ==> r.value < |known| && EndsWith(known[r.value].name, key)
    ensures r.Some? ==> forall i :: 0 <= i < r.value ==> !EndsWith(known[i].name, key)
  {
    if known == [] then None
    else if EndsWith(known[0].name, key) then Some(0)
    else match FirstMatch(known[1..], key)
      case None => None
      case Some(i) =>
        assert forall j :: 1 <= j <= i ==> known[j] == known[1..][j - 1];
        Some(i + 1)
  }

  /** The registry entry training uses for the configured `model`.
      `formatOf` is what `model_info(...)["model_format"]` returns. */
  function ResolveModel(model: string, known: seq<KnownModel>, formatOf: KnownModel -> string)
    : (r: Result<KnownModel, ResolveError>)
    ensures r.Ok? <==>
      && FirstMatch(known, LookupKey(model)).Some?
      && formatOf(known[FirstMatch(known, LookupKey(model)).value]) == "diffusers"
    ensures r.Ok? ==> r.value in known && EndsWith(r.value.name, LookupKey(model))
    ensures r == Err(UnknownModel(model)) <==> forall m :: m in known ==> !EndsWith(m.name, LookupKey(model))
    ensures r.Err? && r.error.UnsupportedFormat? ==> r.error.model == model && r.error.format != "diffusers"
  {
    match FirstMatch(known, LookupKey(model))
    case None => Err(UnknownModel(model))
    case Some(i) =>
      var format := formatOf(known[i]);
      if format == "diffusers" then Ok(known[i]) else Err(UnsupportedFormat(model, format))
  }

  /** The entry found precedes every other entry whose name ends with the
      key, so registry order decides between candidates. */
  lemma ResolvesToFirstCandidate(model: string, known: seq<KnownModel>, formatOf: KnownModel -> string, i: nat)
    requires i < |known| && EndsWith(known[i].name, LookupKey(model))
    ensures FirstMatch(known, LookupKey(model)).Some? && FirstMatch(known, LookupKey(model)).value <= i
    ensures ResolveModel(model, known, formatOf).Ok? ==> ResolveModel(model, known, formatOf) == Ok(known[FirstMatch(known, LookupKey(model)).value])
  {
  }

  /** A name that merely ends with the key shadows an entry named exactly
      the key: with "base-sd-1" listed before "sd-1", the model "sd-1"
      resolves to "base-sd-1". */
  lemma SuffixMatchShadowsExactName(prefix: string, key: string, exact: KnownModel, rest: seq<KnownModel>,
                                    baseModel: string, modelType: string, formatOf: KnownModel -> string)
    requires '/' !in key && prefix != [] && exact.name == key
    requires formatOf(KnownModel(prefix + key, baseModel, modelType)) == "diffusers"
    ensures var shadowing := KnownModel(prefix + key, baseModel, modelType);
      && shadowing != exact
      && ResolveModel(key, [shadowing] + [exact] + rest, formatOf) == Ok(shadowing)
  {
    var name := prefix + key;
    assert name[|name| - |key|..] == key;
  }

  /** Only the last path component matters: two configured models with the
      same last component resolve to the same entry. */
  lemma OnlyLastComponentMatters(dir1: string, dir2: string, name: string, known: seq<KnownModel>, formatOf: KnownModel -> string)
    requires '/' !in name
    ensures ResolveModel(dir1 + "/" + name, known, formatOf).Ok? <==> ResolveModel(dir2 + "/" + name, known, formatOf).Ok?
    ensures ResolveModel(dir1 + "/" + name, known, formatOf).Ok? ==>
      ResolveModel(dir1 + "/" + name, known, formatOf) == ResolveModel(dir2 + "/" + name, known, formatOf)
  {
    AfterLastOfJoin(dir1 + "/", name, '/');
    AfterLastOfJoin(dir2 + "/", name, '/');
    assert dir1 + "/" + name == (dir1 + "/") + name;
    assert dir2 + "/" + name == (dir2 + "/") + name;
  }
}
