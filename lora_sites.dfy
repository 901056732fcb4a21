/** LoRA attention processors (`add_lora_to_unet_attention_layers` and
    `unet_attn_processors_state_dict`).

    A UNet holds one attention processor per attention site, keyed by the
    site's module path (`down_blocks.0.attentions.0.transformer_blocks.0.attn1.processor`
    and so on). Adding LoRA replaces every processor by a LoRA processor whose
    hidden size is read off `block_out_channels` according to the block the
    site lives in, and whose cross-attention dimension is the UNet's own
    except at self-attention sites (`attn1`). */
module LoraSites {
  import opened Wrappers
  import opened Strings
  import opened Collections

  /** The processor classes the code distinguishes. */
  datatype BaseClass =
    | AttnProcessor
    | AttnProcessor2_0
    | AttnAddedKVProcessor
    | SlicedAttnAddedKVProcessor
    | AttnAddedKVProcessor2_0
    | OtherProcessor

  datatype LoraClass = LoRAAttnProcessor | LoRAAttnProcessor2_0 | LoRAAttnAddedKVProcessor

  /** An attention processor: one of the plain classes, or a LoRA processor
      with the sizes it was constructed with. */
  datatype Processor =
    | Plain(base: BaseClass)
    | Lora(cls: LoraClass, hiddenSize: int, crossAttentionDim: Option<int>, rank: int)

  /** The exceptions raised while sizing a site. */
  datatype SiteError =
    | UnexpectedName(name: string)   // the explicit `raise Exception(...)`
    | InvalidBlockId(name: string)   // `int(...)` of a non-digit: ValueError
    | IndexOutOfRange(name: string)  // a string or list index: IndexError

  /** `list(reversed(s))`. */
  function Reversed<T>(s: seq<T>): (r: seq<T>)
    ensures |r| == |s|
    ensures forall i :: 0 <= i < |s| ==> r[i] == s[|s| - 1 - i]
  {
    if s == [] then [] else [s[|s| - 1]] + Reversed(s[..|s| - 1])
  }

  /** `int(name[at])`: the digit at position `at` of the name. */
  function BlockId(name: string, at: nat): Result<nat, SiteError> {
    if at >= |name| then Err(IndexOutOfRange(name))
    else if !IsDigit(name[at]) then Err(InvalidBlockId(name))
    else Ok(DigitValue(name[at]))
  }

  /** The cross-attention dimension of the LoRA processor at a site. */
  function CrossAttentionDim(name: string, unetCrossAttentionDim: int): (r: Option<int>)
    ensures r.None? <==> EndsWith(name, "attn1.processor")
    ensures r.Some? ==> r.value == unetCrossAttentionDim
  {
    if EndsWith(name, "attn1.processor") then None else Some(unetCrossAttentionDim)
  }

  /** The hidden size of the LoRA processor at a site. */
  function HiddenSize(name: string, channels: seq<int>): Result<int, SiteError> {
    if StartsWith(name, "mid_block") then
      if |channels| == 0 then Err(IndexOutOfRange(name)) else Ok(channels[|channels| - 1])
    else if StartsWith(name, "up_blocks") then
      match BlockId(name, |"up_blocks."|)
      case Err(e) => Err(e)
      case Ok(id) =>
        var reversed := Reversed(channels);
        if id < |reversed| then Ok(reversed[id]) else Err(IndexOutOfRange(name))
    else if StartsWith(name, "down_blocks") then
      match BlockId(name, |"down_blocks."|)
      case Err(e) => Err(e)
      case Ok(id) => if id < |channels| then Ok(channels[id]) else Err(IndexOutOfRange(name))
    else Err(UnexpectedName(name))
  }

  /** Mid-block sites take the last channel count, an up-block site with
      block digit `i` the `i`-th channel count from the end, a down-block
      site the `i`-th from the start; any other site raises. */
  lemma HiddenSizeOfBlock(name: string, channels: seq<int>)
    ensures StartsWith(name, "mid_block") ==>
      HiddenSize(name, channels) == if |channels| == 0 then Err(IndexOutOfRange(name)) else Ok(channels[|channels| - 1])
    ensures !StartsWith(name, "mid_block") && StartsWith(name, "up_blocks") && |name| > 10 && IsDigit(name[10]) ==>
      var i := DigitValue(name[10]);
      HiddenSize(name, channels) == if i < |channels| then Ok(channels[|channels| - 1 - i]) else Err(IndexOutOfRange(name))
    ensures !StartsWith(name, "mid_block") && !StartsWith(name, "up_blocks") && StartsWith(name, "down_blocks") && |name| > 12 && IsDigit(name[12]) ==>
      var i := DigitValue(name[12]);
      HiddenSize(name, channels) == if i < |channels| then Ok(channels[i]) else Err(IndexOutOfRange(name))
    ensures HiddenSize(name, channels).Err? <==>
      || (StartsWith(name, "mid_block") && |channels| == 0)
      || (!StartsWith(name, "mid_block") && StartsWith(name, "up_blocks") &&
          !(|name| > 10 && IsDigit(name[10]) && DigitValue(name[10]) < |channels|))
      || (!StartsWith(name, "mid_block") && !StartsWith(name, "up_blocks") && StartsWith(name, "down_blocks") &&
          !(|name| > 12 && IsDigit(name[12]) && DigitValue(name[12]) < |channels|))
      || (!StartsWith(name, "mid_block") && !StartsWith(name, "up_blocks") && !StartsWith(name, "down_blocks"))
    ensures HiddenSize(name, channels) == Err(UnexpectedName(name)) <==>
      !StartsWith(name, "mid_block") && !StartsWith(name, "up_blocks") && !StartsWith(name, "down_blocks")
  {
  }

  /** The LoRA class replacing a processor: the added-key/value variant for
      the added-key/value processors, otherwise the PyTorch 2.0 variant when
      scaled dot-product attention is available. */
  function LoraClassFor(p: Processor, sdpaAvailable: bool): (c: LoraClass)
    ensures c == LoRAAttnAddedKVProcessor <==>
      p.Plain? && p.base in {AttnAddedKVProcessor, SlicedAttnAddedKVProcessor, AttnAddedKVProcessor2_0}
    ensures c == LoRAAttnProcessor2_0 <==> sdpaAvailable && c != LoRAAttnAddedKVProcessor
  {
    if p.Plain? && p.base in {AttnAddedKVProcessor, SlicedAttnAddedKVProcessor, AttnAddedKVProcessor2_0} then
      LoRAAttnAddedKVProcessor
    else if sdpaAvailable then LoRAAttnProcessor2_0
    else LoRAAttnProcessor
  }

  /** The LoRA processor built for one site, or the exception sizing it raises. */
  function LoraProcessorFor(name: string, p: Processor, channels: seq<int>, crossDim: int, rank: int, sdpaAvailable: bool)
    : (r: Result<Processor, SiteError>)
    ensures r.Err? <==> HiddenSize(name, channels).Err?
    ensures r.Err? ==> r.error == HiddenSize(name, channels).error
    ensures r.Ok? ==>
      && r.value.Lora?
      && r.value.hiddenSize == HiddenSize(name, channels).value
      && r.value.crossAttentionDim == CrossAttentionDim(name, crossDim)
      && r.value.cls == LoraClassFor(p, sdpaAvailable)
      && r.value.rank == rank
  {
    match HiddenSize(name, channels)
    case Err(e) => Err(e)
    case Ok(hidden) => Ok(Lora(LoraClassFor(p, sdpaAvailable), hidden, CrossAttentionDim(name, crossDim), rank))
  }

  /** The processors the loop builds for the sites in order, stopping at the
      first site that raises. */
  function LoraProcessors(sites: seq<(string, Processor)>, channels: seq<int>, crossDim: int, rank: int, sdpaAvailable: bool)
    : (r: Result<seq<(string, Processor)>, SiteError>)
    ensures r.Ok? ==> |r.value| == |sites|
  {
    if sites == [] then Ok([])
    else
      var init := sites[..|sites| - 1];
      var (name, p) := sites[|sites| - 1];
      match LoraProcessors(init, channels, crossDim, rank, sdpaAvailable)
      case Err(e) => Err(e)
      case Ok(procs) =>
        match LoraProcessorFor(name, p, channels, crossDim, rank, sdpaAvailable)
        case Err(e) => Err(e)
        case Ok(q) => Ok(procs + [(name, q)])
  }

  /** The loop succeeds exactly when every site can be sized, and then
      keeps the site names in order, each with its LoRA processor. */
  lemma {:induction false} LoraProcessorsPerSite(sites: seq<(string, Processor)>, channels: seq<int>, crossDim: int, rank: int, sdpaAvailable: bool)
    ensures var r := LoraProcessors(sites, channels, crossDim, rank, sdpaAvailable);
      && (r.Ok? <==> forall i :: 0 <= i < |sites| ==> HiddenSize(sites[i].0, channels).Ok?)
      && (r.Ok? ==> forall i :: 0 <= i < |sites| ==>
            && r.value[i].0 == sites[i].0
            && Ok(r.value[i].1) == LoraProcessorFor(sites[i].0, sites[i].1, channels, crossDim, rank, sdpaAvailable))
  {
    if sites != [] {
      var init := sites[..|sites| - 1];
      LoraProcessorsPerSite(init, channels, crossDim, rank, sdpaAvailable);
      assert forall i :: 0 <= i < |init| ==> init[i] == sites[i];
    }
  }

  /** Distinct site names stay distinct. */
  lemma LoraProcessorsKeepNames(sites: seq<(string, Processor)>, channels: seq<int>, crossDim: int, rank: int, sdpaAvailable: bool)
    requires DistinctKeys(sites)
    requires LoraProcessors(sites, channels, crossDim, rank, sdpaAvailable).Ok?
    ensures DistinctKeys(LoraProcessors(sites, channels, crossDim, rank, sdpaAvailable).value)
  {
    LoraProcessorsPerSite(sites, channels, crossDim, rank, sdpaAvailable);
  }

  /** When the loop raises, it raises what the first unsizable site raises. */
  lemma {:induction false} LoraProcessorsFirstError(sites: seq<(string, Processor)>, channels: seq<int>, crossDim: int, rank: int, sdpaAvailable: bool)
    requires LoraProcessors(sites, channels, crossDim, rank, sdpaAvailable).Err?
    ensures var e := LoraProcessors(sites, channels, crossDim, rank, sdpaAvailable).error;
      exists i ::
        && 0 <= i < |sites|
        && HiddenSize(sites[i].0, channels) == Err(e)
        && forall j :: 0 <= j < i ==> HiddenSize(sites[j].0, channels).Ok?
  {
    var init := sites[..|sites| - 1];
    var e := LoraProcessors(sites, channels, crossDim, rank, sdpaAvailable).error;
    assert forall i :: 0 <= i < |init| ==> init[i] == sites[i];
    if LoraProcessors(init, channels, crossDim, rank, sdpaAvailable).Err? {
      LoraProcessorsFirstError(init, channels, crossDim, rank, sdpaAvailable);
      var i :| 0 <= i < |init| && HiddenSize(init[i].0, channels) == Err(e)
        && forall j :: 0 <= j < i ==> HiddenSize(init[j].0, channels).Ok?;
      assert HiddenSize(sites[i].0, channels) == Err(e);
    } else {
      LoraProcessorsPerSite(init, channels, crossDim, rank, sdpaAvailable);
      assert HiddenSize(sites[|sites| - 1].0, channels) == Err(e);
    }
  }

  /** A site that raises makes every longer run of the loop raise the same. */
  lemma {:induction false} LoraProcessorsErrPersists(sites: seq<(string, Processor)>, n: nat,
                                                     channels: seq<int>, crossDim: int, rank: int, sdpaAvailable: bool)
    requires n <= |sites|
    requires LoraProcessors(sites[..n], channels, crossDim, rank, sdpaAvailable).Err?
    ensures LoraProcessors(sites, channels, crossDim, rank, sdpaAvailable) == LoraProcessors(sites[..n], channels, crossDim, rank, sdpaAvailable)
  {
    if n < |sites| {
      var init := sites[..|sites| - 1];
      assert init[..n] == sites[..n];
      LoraProcessorsErrPersists(init, n, channels, crossDim, rank, sdpaAvailable);
    } else {
      assert sites[..n] == sites;
    }
  }

  /** The second components of a sequence of pairs, in order. */
  function Values<K, V>(ps: seq<(K, V)>): (vs: seq<V>)
    ensures |vs| == |ps| && forall i :: 0 <= i < |ps| ==> vs[i] == ps[i].1
  {
    seq(|ps|, i requires 0 <= i < |ps| => ps[i].1)
  }

  class UNet {
    /** `unet.attn_processors`, in module order. */
    var attnProcessors: seq<(string, Processor)>
    /** `unet.config.block_out_channels` and `unet.config.cross_attention_dim`. */
    const blockOutChannels: seq<int>
    const crossAttentionDim: int

    /** `attn_processors` is a dict: no site name occurs twice. */
    ghost predicate Valid()
      reads this
    {
      DistinctKeys(attnProcessors)
    }

    constructor (processors: seq<(string, Processor)>, channels: seq<int>, crossDim: int)
      requires DistinctKeys(processors)
      ensures Valid()
      ensures attnProcessors == processors && blockOutChannels == channels && crossAttentionDim == crossDim
    {
      attnProcessors := processors;
      blockOutChannels := channels;
      crossAttentionDim := crossDim;
    }

    /** `add_lora_to_unet_attention_layers(unet, rank)`. `sdpaAvailable` is
        whether `F.scaled_dot_product_attention` exists. The result lists the
        new LoRA processors in site order: each contributes its parameters,
        in that order, to the returned parameter list. When a site raises,
        the processors are left as they were. */
    method AddLoraToUnetAttentionLayers(rank: int, sdpaAvailable: bool) returns (r: Result<seq<Processor>, SiteError>)
      requires Valid()
      modifies this
      ensures Valid()
      ensures match LoraProcessors(old(attnProcessors), blockOutChannels, crossAttentionDim, rank, sdpaAvailable)
        case Ok(procs) => r == Ok(Values(procs)) && attnProcessors == procs
        case Err(e) => r == Err(e) && attnProcessors == old(attnProcessors)
    {
      var procs: seq<(string, Processor)> := [];
      var parameters: seq<Processor> := [];
      for i := 0 to |attnProcessors|
        invariant LoraProcessors(attnProcessors[..i], blockOutChannels, crossAttentionDim, rank, sdpaAvailable) == Ok(procs)
        invariant parameters == Values(procs)
      {
        var (name, p) := attnProcessors[i];
        assert attnProcessors[..i + 1][..i] == attnProcessors[..i];
        var crossDim := CrossAttentionDim(name, crossAttentionDim);
        var hidden := HiddenSize(name, blockOutChannels);
        if hidden.Err? {
          LoraProcessorsErrPersists(attnProcessors, i + 1, blockOutChannels, crossAttentionDim, rank, sdpaAvailable);
          return Err(hidden.error);
        }
        var cls := LoraClassFor(p, sdpaAvailable);
        var loraProc := Lora(cls, hidden.value, crossDim, rank);
        procs := procs + [(name, loraProc)];
        parameters := parameters + [loraProc];
      }
      assert attnProcessors[..|attnProcessors|] == attnProcessors;
      LoraProcessorsKeepNames(attnProcessors, blockOutChannels, crossAttentionDim, rank, sdpaAvailable);
      attnProcessors := procs;
      return Ok(parameters);
    }
  }

  /** The key a parameter is stored under: `f"{processor_key}.{parameter_key}"`. */
  function StateKey(processorKey: string, parameterKey: string): string {
    processorKey + "." + parameterKey
  }

  /** The assignments the inner loop makes for one processor. */
  function ProcessorPairs<T>(key: string, params: seq<(string, T)>): (ps: seq<(string, T)>)
    ensures |ps| == |params|
    ensures forall j :: 0 <= j < |params| ==> ps[j] == (StateKey(key, params[j].0), params[j].1)
  {
    seq(|params|, j requires 0 <= j < |params| => (StateKey(key, params[j].0), params[j].1))
  }

  lemma ProcessorPairsSnoc<T>(key: string, params: seq<(string, T)>, j: nat)
    requires j < |params|
    ensures ProcessorPairs(key, params[..j + 1]) == ProcessorPairs(key, params[..j]) + [(StateKey(key, params[j].0), params[j].1)]
  {
  }

  /** The assignments the nested loop makes, in order. */
  function StatePairs<T>(processors: seq<(string, seq<(string, T)>)>): seq<(string, T)> {
    if processors == [] then []
    else
      var (key, params) := processors[|processors| - 1];
      StatePairs(processors[..|processors| - 1]) + ProcessorPairs(key, params)
  }

  /** `unet_attn_processors_state_dict(unet)`: each processor is given with
      the items of its own `state_dict()`. */
  method AttnProcessorsStateDict<T>(processors: seq<(string, seq<(string, T)>)>) returns (stateDict: map<string, T>)
    ensures stateDict == FromPairs(StatePairs(processors))
  {
    ghost var written: seq<(string, T)> := [];
    stateDict := map[];
    for i := 0 to |processors|
      invariant written == StatePairs(processors[..i])
      invariant stateDict == FromPairs(written)
    {
      var (key, params) := processors[i];
      assert processors[..i + 1][..i] == processors[..i];
      for j := 0 to |params|
        invariant written == StatePairs(processors[..i]) + ProcessorPairs(key, params[..j])
        invariant stateDict == FromPairs(written)
      {
        var x := (StateKey(key, params[j].0), params[j].1);
        ProcessorPairsSnoc(key, params, j);
        FromPairsSnoc(written, x);
        written := written + [x];
        stateDict := stateDict[x.0 := x.1];
      }
      assert params[..|params|] == params;
    }
    assert processors[..|processors|] == processors;
  }

  /** Two state keys agree only when their processor keys and their
      parameter keys do, or when one processor key followed by a dot
      starts the other. */
  lemma StateKeyInjective(p1: string, q1: string, p2: string, q2: string)
    ensures StateKey(p1, q1) == StateKey(p2, q2) ==>
      (p1 == p2 && q1 == q2) || StartsWith(p2, p1 + ".") || StartsWith(p1, p2 + ".")
  {
    if StateKey(p1, q1) == StateKey(p2, q2) {
      var k := StateKey(p1, q1);
      if |p1| < |p2| {
        assert p2[..|p1| + 1] == k[..|p1| + 1] == p1 + ".";
      } else if |p2| < |p1| {
        assert p1[..|p2| + 1] == k[..|p2| + 1] == p2 + ".";
      } else {
        assert p1 == k[..|p1|] == p2;
        assert q1 == k[|p1| + 1..] == q2;
      }
    }
  }

  /** The keys of the state dict are the processor keys joined to their
      parameter keys. */
  lemma {:induction false} StatePairKeys<T>(processors: seq<(string, seq<(string, T)>)>, k: string)
    ensures k in Keys(StatePairs(processors)) <==>
      exists i, j :: 0 <= i < |processors| && 0 <= j < |processors[i].1| && k == StateKey(processors[i].0, processors[i].1[j].0)
  {
    if processors != [] {
      var init := processors[..|processors| - 1];
      var (key, params) := processors[|processors| - 1];
      KeysConcat(StatePairs(init), ProcessorPairs(key, params));
      StatePairKeys(init, k);
      if k in Keys(ProcessorPairs(key, params)) {
        var j :| 0 <= j < |params| && ProcessorPairs(key, params)[j].0 == k;
        assert k == StateKey(processors[|processors| - 1].0, processors[|processors| - 1].1[j].0);
      }
      if k in Keys(StatePairs(init)) {
        var i, j :| 0 <= i < |init| && 0 <= j < |init[i].1| && k == StateKey(init[i].0, init[i].1[j].0);
        assert init[i] == processors[i];
      }
      if exists i, j :: 0 <= i < |processors| && 0 <= j < |processors[i].1| && k == StateKey(processors[i].0, processors[i].1[j].0) {
        var i, j :| 0 <= i < |processors| && 0 <= j < |processors[i].1| && k == StateKey(processors[i].0, processors[i].1[j].0);
        if i < |init| {
          assert init[i] == processors[i];
        } else {
          assert ProcessorPairs(key, params)[j].0 == k;
        }
      }
    }
  }

  /** Processor keys are distinct and none of them, followed by a dot,
      starts another: the condition under which `StateKey` keeps the
      parameters of different processors apart. */
  predicate Separated<T>(processors: seq<(string, seq<(string, T)>)>) {
    forall a, b :: 0 <= a < |processors| && 0 <= b < |processors| && a != b ==>
      processors[a].0 != processors[b].0 && !StartsWith(processors[b].0, processors[a].0 + ".")
  }

  /** For separated processors whose own parameter keys are distinct (they
      are the keys of a `state_dict()`), every parameter is stored under its
      joined key. */
  lemma {:induction false} StateDictValue<T>(processors: seq<(string, seq<(string, T)>)>, i: nat, j: nat)
    requires Separated(processors)
    requires forall a :: 0 <= a < |processors| ==> DistinctKeys(processors[a].1)
    requires i < |processors| && j < |processors[i].1|
    ensures StateKey(processors[i].0, processors[i].1[j].0) in FromPairs(StatePairs(processors))
    ensures FromPairs(StatePairs(processors))[StateKey(processors[i].0, processors[i].1[j].0)] == processors[i].1[j].1
  {
    var init := processors[..|processors| - 1];
    var (key, params) := processors[|processors| - 1];
    var tail := ProcessorPairs(key, params);
    FromPairsConcat(StatePairs(init), tail);
    if i == |processors| - 1 {
      assert DistinctKeys(tail) by {
        forall a, b | 0 <= a < b < |params| ensures tail[a].0 != tail[b].0 {
          StateKeyInjective(key, params[a].0, key, params[b].0);
        }
      }
      FromPairsDistinct(tail, j);
    } else {
      var k := StateKey(processors[i].0, processors[i].1[j].0);
      assert k !in Keys(tail) by {
        forall b | 0 <= b < |params| ensures tail[b].0 != k {
          StateKeyInjective(processors[i].0, processors[i].1[j].0, key, params[b].0);
        }
      }
      assert init[i] == processors[i];
      assert Separated(init) by {
        forall a, b | 0 <= a < |init| && 0 <= b < |init| && a != b
          ensures init[a].0 != init[b].0 && !StartsWith(init[b].0, init[a].0 + ".")
        {
          assert init[a] == processors[a] && init[b] == processors[b];
        }
      }
      assert forall a :: 0 <= a < |init| ==> init[a] == processors[a];
      StateDictValue(init, i, j);
    }
  }
}
