# LoRA training core and metadata assembly of InvokeAI, modelled in Dafny

InvokeAI's LoRA trainer fine-tunes a Stable Diffusion UNet by attaching small
low-rank adapters to its attention layers. This project models the control
logic of that trainer and the two metadata nodes of the invocation graph,
and proves what that logic promises. The numerics, the model libraries and
the file system are left out; their results become parameters.

What the model covers:

- **Checkpoint naming and retention** (`_save_checkpoint`). A checkpoint is
  named `checkpoint_{prefix}-{idx:0>8}`. Before a save, and only when a
  maximum is configured, the oldest checkpoints of that prefix are deleted.
  Age is the integer after the last `-`. Enough are deleted that the new
  checkpoint brings the count back to the maximum. The output directory is
  a class whose entry set the save method updates. The `os.listdir` order is
  a parameter. Only the set of names it returns is fixed, so every property
  holds for every listing order, and each save of a run may list in its
  own order.
- **The training loop** (`run_lora_training`).
  - The step and epoch bookkeeping is imperative code: an epoch loop, a
    micro-batch loop and the `break` at `max_train_steps`.
  - It is proved equal to a closed-form run: the sequence of step syncs,
    step checkpoints, epoch checkpoints and validations, plus the exception
    that ends the run early.
  - A zero `gradient_accumulation_steps`, an empty data loader and a zero
    cadence raise `ZeroDivisionError`; an unknown prediction type raises
    `ValueError`.
  - Lemmas then state which steps and epochs get each event.
  - The configuration checks that precede the loop are modelled as well:
    precision mode, text encoder with gradient accumulation, and the
    prediction target.
- **LoRA attention sites** (`add_lora_to_unet_attention_layers`,
  `unet_attn_processors_state_dict`). Each attention processor of the UNet
  is replaced by a LoRA processor.
  - The hidden size of a LoRA processor depends on its block: `mid_block`,
    `up_blocks.i` or `down_blocks.i`.
  - Self-attention sites (`attn1`) get no cross-attention dimension.
  - The state dict flattens `processor.parameter` keys.
- **Model resolution** (`_load_models`). The last `/` component of the
  configured model is looked up, and the first registry entry whose name
  ends with it is taken. That entry must be in the diffusers format.
- **Dataset checks** (`_initialize_dataset`). These cover the dataset
  source, the image and caption columns, and the caption taken from each
  example.
- **Metadata** (`MetadataInvocation`, `MergeMetadataInvocation`). Labelled
  items become a dictionary stamped with `app_version`. Several such
  dictionaries are merged, and a later dictionary overrides an earlier one.

Module layout, one file each:

- `wrappers.dfy`: `Option`, `Result`, `Outcome`.
- `strings.dfy`: the Python string operations used.
- `collections.dfy`: dictionaries built assignment by assignment.
- `retention.dfy`: the retention policy for any naming scheme.
- `checkpoints.dfy`: the concrete checkpoint names and the output directory.
- `precision.dfy`: the weight type.
- `training_checks.dfy`: the configuration checks.
- `schedule.dfy`: the training loop and its closed-form run.
- `schedule_facts.dfy`: which events happen.
- `lora_sites.dfy`: the LoRA attention sites.
- `model_resolution.dfy`: the registry lookup.
- `dataset.dfy`: the dataset checks.
- `metadata.dfy`: the metadata nodes.

Behaviour of the code that a reader might not expect:

- **Model lookup.** The registry lookup takes the first registry name that
  *ends with* the lookup key. So a longer name listed earlier shadows an
  entry named exactly the key (`ModelResolution.SuffixMatchShadowsExactName`).
- **Dataset sources.** Only a missing source raises. When both a dataset
  name and a dataset directory are set, the name is used and the directory
  is ignored (`Dataset.DatasetNameWins`).
- **Prediction type.** The prediction type is checked inside the micro-batch
  loop. An unknown type therefore raises at the first micro-batch, and a
  run with zero epochs never raises it (`Schedule.MicroBatch`,
  `ScheduleFacts.TraceStop`).
- **Equal sort keys.** Two checkpoint names can have the same key, such as
  `checkpoint_step-5` and `checkpoint_step-00000005`. `sorted` is stable,
  so the one listed first by `os.listdir` is deleted first
  (`Retention.SortByKeyStable`).

## Model

All paths are relative to the repository root.

| member | source | states |
|---|---|---|
| Precision.WeightType | invokeai/backend/training/lora/lora_training_diffusers.py:128-144 | The weight type exists exactly for no mode, `"no"`, `"fp16"` and `"bf16"`; any other mode raises an error that names the mode |
| Precision.WeightTypeOfModeName | invokeai/backend/training/lora/lora_training_diffusers.py:128-137 | No mode or `"no"` gives float32, `"fp16"` float16, `"bf16"` bfloat16 |
| Precision.WeightTypeNamesMode | invokeai/backend/training/lora/lora_training_diffusers.py:128-144 | Every accepted mode yields the type whose mode name it is, so the mapping is one-to-one |
| TrainingChecks.CheckAccumulation | invokeai/backend/training/lora/lora_training_diffusers.py:644-654 | Raises exactly when the text encoder is trained with more than one accumulation step on more than one process |
| TrainingChecks.PredictionTarget | invokeai/backend/training/lora/lora_training_diffusers.py:925-941 | The target is the noise exactly for `"epsilon"` and the velocity exactly for `"v_prediction"`; any other effective type raises `ValueError` naming that type |
| TrainingChecks.ConfiguredTypeOverridesScheduler | invokeai/backend/training/lora/lora_training_diffusers.py:925-930 | A configured prediction type replaces the scheduler's; without one, the scheduler's type is used |
| Strings.AfterLast | invokeai/backend/training/lora/lora_training_diffusers.py:522 | `split(c)[-1]` has no `c`, is a suffix, is the whole string when `c` is absent, and is preceded by `c` otherwise |
| Strings.SplitExtRoot | invokeai/backend/training/lora/lora_training_diffusers.py:522 | `os.path.splitext(x)[0]` is a prefix of `x`, the whole of a name without a dot. Anything cut off starts at the last dot, and some character other than a dot precedes that dot |
| Strings.ExtensionStripped | invokeai/backend/training/lora/lora_training_diffusers.py:522 | The part after the last dot is removed whenever some character other than a dot precedes that dot |
| Strings.ParseDecimal | invokeai/backend/training/lora/lora_training_diffusers.py:522 | `int()` succeeds exactly on a non-empty string of digits |
| Strings.ZeroPad | invokeai/backend/training/lora/lora_training_diffusers.py:547 | `{:0>8}` keeps the text as a suffix, left-pads it with `'0'`, and has length at least the width |
| Strings.PaddedDecimalRoundTrip | invokeai/backend/training/lora/lora_training_diffusers.py:547 | Parsing a zero-padded decimal gives back the number |
| Checkpoints.CheckpointName | invokeai/backend/training/lora/lora_training_diffusers.py:547 | The saved name starts with `checkpoint_{prefix}-` |
| Checkpoints.SortKeyOfCheckpointName | invokeai/backend/training/lora/lora_training_diffusers.py:520-523 | The sort key of the name saved with index `idx` is `idx` |
| Checkpoints.SortKeyIgnoresExtension | invokeai/backend/training/lora/lora_training_diffusers.py:520-523 | A checkpoint name with an extension keeps its index as key: `checkpoint_step-00000005.bak` has the key 5 |
| Checkpoints.OtherPrefixUntouched | invokeai/backend/training/lora/lora_training_diffusers.py:513-548 | A save under one prefix leaves the checkpoints of every separate prefix exactly as they were |
| Checkpoints.StepAndEpochSeparate | invokeai/backend/training/lora/lora_training_diffusers.py:995-1022 | The `"step"` and `"epoch"` saves of the training loop use separate prefixes, so neither evicts the other's checkpoints |
| Checkpoints.CheckpointNamesFollowIndex | invokeai/backend/training/lora/lora_training_diffusers.py:520-523 | Sorting checkpoint names by key orders them by save index, and distinct indices give distinct names |
| Checkpoints.CheckpointNaming | invokeai/backend/training/lora/lora_training_diffusers.py:513-547 | Every saved name passes the prefix filter and has its index as key |
| Checkpoints.ToRemove | invokeai/backend/training/lora/lora_training_diffusers.py:513-527 | Nothing is deleted without a maximum. The deletion raises exactly when some checkpoint of the prefix has a non-numeric key, and the error names it. Only checkpoints of the prefix are deleted |
| Checkpoints.RetainsMostRecentCheckpoints | invokeai/backend/training/lora/lora_training_diffusers.py:517-548 | Saves with increasing indices and a maximum `m >= 1` keep exactly the checkpoints of the last `m` saves, `min(K, m)` of them after `K` saves; other entries are untouched. This holds whatever order each save's listing comes in |
| Checkpoints.NonPositiveMaximumKeepsOnlyNewestCheckpoint | invokeai/backend/training/lora/lora_training_diffusers.py:525-547 | With a maximum `<= 0` every old checkpoint of the prefix is deleted, leaving only the new one |
| Checkpoints.OutputDir.SaveCheckpoint | invokeai/backend/training/lora/lora_training_diffusers.py:513-548 | The directory afterwards is the old one without the deleted checkpoints, plus the new checkpoint; on the `ValueError` it is unchanged |
| Checkpoints.OutputDir.RemoveAll | invokeai/backend/training/lora/lora_training_diffusers.py:536-545 | The deletion loop removes exactly the listed names |
| Retention.Filter | invokeai/backend/training/lora/lora_training_diffusers.py:519 | Keeps exactly the listed entries that pass the test, without duplicates when the listing has none |
| Retention.Keyed | invokeai/backend/training/lora/lora_training_diffusers.py:520-523 | Every name gets its key, or the first name whose key raises is reported |
| Retention.SortByKey | invokeai/backend/training/lora/lora_training_diffusers.py:520-523 | The result is sorted by key and is a permutation of the input |
| Retention.SortByKeyStable | invokeai/backend/training/lora/lora_training_diffusers.py:520-523 | The sort is stable: for every key, the entries with that key appear in their input order |
| Retention.EvictedReportsFirst | invokeai/backend/training/lora/lora_training_diffusers.py:519-523 | A failing save reports the first checkpoint, in listing order, whose key raises |
| Retention.Evicted | invokeai/backend/training/lora/lora_training_diffusers.py:517-527 | Nothing is deleted without a maximum; only checkpoints are deleted; the error is exactly a checkpoint with no key |
| Retention.EvictionCount | invokeai/backend/training/lora/lora_training_diffusers.py:525-527 | When there are `n >= m` checkpoints, `n - m + 1` of them are deleted (all `n` when that is more); otherwise none |
| Retention.EvictionOrder | invokeai/backend/training/lora/lora_training_diffusers.py:520-527 | Every deleted checkpoint has a key no larger than that of any checkpoint kept |
| Retention.EvictionNoDups | invokeai/backend/training/lora/lora_training_diffusers.py:520-527 | No entry is deleted twice |
| Retention.NonPositiveMaximumKeepsOnlyNewest | invokeai/backend/training/lora/lora_training_diffusers.py:525-547 | With a maximum `<= 0`, all old checkpoints go and only the new one remains |
| Retention.SaveAdvancesWindow | invokeai/backend/training/lora/lora_training_diffusers.py:517-548 | One save with at most `m` retained checkpoints appends the new index to the window of kept indices and drops the oldest when the window was full |
| Retention.RetainsMostRecent | invokeai/backend/training/lora/lora_training_diffusers.py:517-548 | After saves with increasing indices, the checkpoints kept are those of the last `m` indices, and nothing else changes. This holds whatever order each save's listing comes in |
| Retention.RetainedCount | invokeai/backend/training/lora/lora_training_diffusers.py:517-548 | After `K` saves, `min(K, m)` checkpoints remain |
| Collections.FromPairs | invokeai/app/invocations/metadata.py:59 | A dictionary built by assignments has exactly the assigned keys |
| Collections.FromPairsLastWins | invokeai/app/invocations/metadata.py:59 | Each key holds the value of its last assignment |
| Collections.FromPairsConcat | invokeai/backend/training/lora/lora_training_diffusers.py:240-244 | Assigning two runs of pairs in turn is updating the first dictionary with the second |
| Schedule.CeilDivBounds | invokeai/backend/training/lora/lora_training_diffusers.py:835-840 | `math.ceil(a / b)` is the least multiplier of `b` that reaches `a` |
| Schedule.EpochBounds | invokeai/backend/training/lora/lora_training_diffusers.py:835-840 | Each epoch starts below `max_train_steps`. Every epoch but the last ends after a full `num_steps_per_epoch` steps, and the last ends at `max_train_steps` |
| Schedule.SyncsTotal | invokeai/backend/training/lora/lora_training_diffusers.py:835-837 | Under the sync rule, an epoch of `len(data_loader)` micro-batches makes `ceil(len / acc)` syncs |
| Schedule.SyncBound | invokeai/backend/training/lora/lora_training_diffusers.py:835-837 | Before the last micro-batch fewer than `ceil(len / acc)` syncs have happened |
| Schedule.StepsSplit | invokeai/backend/training/lora/lora_training_diffusers.py:886-1011 | The syncs of a step range are those of its two halves, in order, stopping at an exception |
| Schedule.MicroBatch | invokeai/backend/training/lora/lora_training_diffusers.py:925-1002 | An unknown prediction type raises before any step. Otherwise a syncing micro-batch raises `global_step` by exactly one and then runs the step-checkpoint test; a non-syncing one changes nothing |
| Schedule.AfterSync | invokeai/backend/training/lora/lora_training_diffusers.py:983-1002 | A sync to step `g` logs the step and saves a step checkpoint iff `g % save_every_n_steps == 0`, raising on a zero cadence |
| Schedule.CadenceCheck | invokeai/backend/training/lora/lora_training_diffusers.py:989-992 | The `% cadence == 0` test, including the `ZeroDivisionError` of a zero cadence |
| Schedule.RunEpoch | invokeai/backend/training/lora/lora_training_diffusers.py:886-1011 | The micro-batch loop ends with `global_step` at the epoch's last step, never above `max_train_steps`, and makes exactly the syncs from the starting step to it; with an unknown prediction type it raises at the first micro-batch |
| Schedule.FinishEpoch | invokeai/backend/training/lora/lora_training_diffusers.py:1014-1046 | At epoch end, an epoch checkpoint is saved iff `(epoch + 1) % save_every_n_epochs == 0`, then validation runs iff prompts exist and `(epoch + 1) % validate_every_n_epochs == 0` |
| Schedule.Epoch | invokeai/backend/training/lora/lora_training_diffusers.py:880-1046 | One epoch is its syncs then its end-of-epoch events, ending at the epoch's end step |
| Schedule.EpochLoop | invokeai/backend/training/lora/lora_training_diffusers.py:880-1046 | The epoch loop produces the closed-form run, ends with `global_step == max_train_steps` unless it raised, and never exceeds it |
| Schedule.RunLoraTraining | invokeai/backend/training/lora/lora_training_diffusers.py:835-1046 | The whole loop, from the epoch count on, produces `Trace(c)`. `global_step` never exceeds `max_train_steps` and ends equal to it when nothing raised |
| ScheduleFacts.TraceEvents | invokeai/backend/training/lora/lora_training_diffusers.py:880-1046 | Without an exception, the run's events of each kind are exactly those due over steps `1..max_train_steps` and epochs `1..num_train_epochs` |
| ScheduleFacts.TraceSchedule | invokeai/backend/training/lora/lora_training_diffusers.py:983-1046 | Without an exception, `global_step` takes every value `1..max_train_steps` once and in order. Step checkpoints are saved exactly at the positive multiples of `save_every_n_steps` up to `max_train_steps`. Epoch checkpoints and validations come exactly at the epochs `1..num_train_epochs` that their cadences divide |
| ScheduleFacts.TraceStop | invokeai/backend/training/lora/lora_training_diffusers.py:835-1046 | The run raises exactly as follows. An empty loader or a zero accumulation count raises `ZeroDivisionError`. With at least one epoch, an unknown prediction type raises `ValueError`. A zero step or epoch cadence, or a zero validation cadence with prompts, raises `ZeroDivisionError`. Nothing else raises |
| LoraSites.Reversed | invokeai/backend/training/lora/lora_training_diffusers.py:191 | `list(reversed(s))[i]` is `s[len - 1 - i]` |
| LoraSites.CrossAttentionDim | invokeai/backend/training/lora/lora_training_diffusers.py:182-186 | Sites ending `attn1.processor` get no cross-attention dimension; all others get the UNet's |
| LoraSites.HiddenSizeOfBlock | invokeai/backend/training/lora/lora_training_diffusers.py:187-200 | `mid_block*` gets `channels[-1]`. `up_blocks.i*` gets `channels[len-1-i]`, `down_blocks.i*` gets `channels[i]`. A missing or non-digit block id, or an index out of range, raises. Any other name raises the unexpected-name exception |
| LoraSites.LoraClassFor | invokeai/backend/training/lora/lora_training_diffusers.py:202-216 | The three added-key/value processors become `LoRAAttnAddedKVProcessor`; any other processor becomes `LoRAAttnProcessor2_0` when scaled dot-product attention exists, else `LoRAAttnProcessor` |
| LoraSites.LoraProcessorFor | invokeai/backend/training/lora/lora_training_diffusers.py:182-222 | A site raises exactly when its hidden size does. Otherwise its LoRA processor has that hidden size, the site's cross-attention dimension, the chosen class and the rank |
| LoraSites.LoraProcessorsPerSite | invokeai/backend/training/lora/lora_training_diffusers.py:179-225 | The loop succeeds exactly when every site can be sized. It then produces one processor per existing site, with the same names in the same order |
| LoraSites.LoraProcessorsFirstError | invokeai/backend/training/lora/lora_training_diffusers.py:181-200 | A failing loop raises what the first unsizable site raises |
| LoraSites.UNet.AddLoraToUnetAttentionLayers | invokeai/backend/training/lora/lora_training_diffusers.py:179-228 | The UNet's processors become the LoRA processors and the method returns them in site order; if a site raises, the UNet is unchanged. Site names stay distinct, as the keys of a dict |
| LoraSites.LoraProcessorsKeepNames | invokeai/backend/training/lora/lora_training_diffusers.py:179-225 | Replacing the processors keeps distinct site names distinct |
| LoraSites.AttnProcessorsStateDict | invokeai/backend/training/lora/lora_training_diffusers.py:236-246 | The state dict is the dictionary of the nested loop's `processor.parameter` assignments |
| LoraSites.StateKeyInjective | invokeai/backend/training/lora/lora_training_diffusers.py:242-244 | Two joined keys collide only for equal parts, or when one processor key followed by `.` starts the other |
| LoraSites.StatePairKeys | invokeai/backend/training/lora/lora_training_diffusers.py:240-244 | The state dict's keys are exactly the processor keys joined to their parameter keys |
| LoraSites.StateDictValue | invokeai/backend/training/lora/lora_training_diffusers.py:240-244 | For processor keys that do not prefix one another, every parameter is stored under its own joined key |
| ModelResolution.LookupKey | invokeai/backend/training/lora/lora_training_diffusers.py:282 | The key is the last `/` component of the configured model |
| ModelResolution.FirstMatch | invokeai/backend/training/lora/lora_training_diffusers.py:286-288 | Finds the first registry entry whose name ends with the key, or reports that none does |
| ModelResolution.ResolveModel | invokeai/backend/training/lora/lora_training_diffusers.py:282-297 | Succeeds exactly when some entry ends with the key and the first such entry is in the diffusers format. The unknown-model failure means no entry matches, and the format failure names the non-diffusers format |
| ModelResolution.ResolvesToFirstCandidate | invokeai/backend/training/lora/lora_training_diffusers.py:286-289 | Any matching entry bounds the position of the one chosen, so registry order decides between candidates |
| ModelResolution.SuffixMatchShadowsExactName | invokeai/backend/training/lora/lora_training_diffusers.py:286-288 | An earlier entry named `prefix + key` is chosen over a later entry named exactly `key` |
| ModelResolution.OnlyLastComponentMatters | invokeai/backend/training/lora/lora_training_diffusers.py:282 | Models with the same last component resolve alike |
| Dataset.SelectSource | invokeai/backend/training/lora/lora_training_diffusers.py:372-392 | A hub dataset is loaded whenever `dataset_name` is set. Otherwise the `**` files of `dataset_dir` are loaded, and with neither set a `ValueError` is raised |
| Dataset.JoinPath | invokeai/backend/training/lora/lora_training_diffusers.py:381 | `os.path.join(dir, "**")` starts with the directory and ends with `**` |
| Dataset.DatasetNameWins | invokeai/backend/training/lora/lora_training_diffusers.py:372-379 | The dataset directory is ignored whenever a name is set |
| Dataset.CheckColumns | invokeai/backend/training/lora/lora_training_diffusers.py:396-408 | Passes exactly when both columns exist. The missing image column is reported first, and the caption column only when the image column exists |
| Dataset.ChooseCaptions | invokeai/backend/training/lora/lora_training_diffusers.py:412-426 | One string per example: a string is kept, a list gives some element in training and its first element otherwise. Any other value raises `ValueError` and an empty list `IndexError`, for the first offending example |
| Dataset.EvaluationChoiceIsFirst | invokeai/backend/training/lora/lora_training_diffusers.py:417-421 | Outside training the caption is determined: the first variant |
| Dataset.TrainingChoiceCoversVariants | invokeai/backend/training/lora/lora_training_diffusers.py:417-421 | In training any variant may be the one taken |
| Metadata.MetadataOf | invokeai/app/invocations/metadata.py:53-63 | The keys are the labels plus `app_version`, and `app_version` holds the version |
| Metadata.SingleItemMetadata | invokeai/app/invocations/metadata.py:54-62 | A single item gives exactly `{label: value, "app_version": version}`, the same as a one-item list |
| Metadata.MetadataLastLabelWins | invokeai/app/invocations/metadata.py:57-62 | A repeated label holds the value of its last item; a label `app_version` never survives the version stamp |
| Metadata.MergeMetadata | invokeai/app/invocations/metadata.py:72-77 | The merge loop computes the left-to-right fold of dictionary updates |
| Metadata.MergedKeys | invokeai/app/invocations/metadata.py:73-75 | The merged keys are the union of the input keys, so the merge adds no `app_version` of its own |
| Metadata.MergedLastWins | invokeai/app/invocations/metadata.py:73-75 | Each key holds its value in the last dictionary containing it |
| Metadata.MergedEdgeCases | invokeai/app/invocations/metadata.py:72-77 | Merging nothing gives the empty dictionary, and merging one dictionary gives it back |

## Left out

- Floating-point work is not modelled: VAE encoding, noise, the UNet
  forward pass, the loss, backpropagation, gradient clipping, the optimizer
  and the learning-rate scheduler. This is numerical work done by foreign
  libraries. `train_loss` and `scale_lr` are float bookkeeping and are left
  out as well.
- Accelerate's distributed coordination is not modelled (`prepare`,
  `accumulate`, `gather`, `wait_for_everyone`). A single process is
  modelled, with `is_main_process` true. `accelerator.sync_gradients` is
  taken to hold at every `gradient_accumulation_steps`-th micro-batch and
  at the last micro-batch of an epoch. This is accelerate's documented rule,
  and its code is not part of this model.
- The checkpoint contents written by `accelerator.save_state`, the
  validation images, the tracker logs and the progress bar are left out.
  The model records only that a checkpoint or a validation happens, and
  when.
- Schedule.RunLoraTraining: the data loader and the settings are `nat`.
  The model does not cover negative `gradient_accumulation_steps` or
  `max_train_steps`. It also treats
  `math.ceil` of a float quotient as exact integer ceiling division.
- Retention.Keyed and Strings.ParseDecimal: `int()` accepts only plain ASCII
  digits. Python also accepts a sign, surrounding whitespace, underscores
  and other Unicode digits.
- Checkpoints.OutputDir.SaveCheckpoint: file and directory deletion
  (`os.remove`, `shutil.rmtree`) are one set removal. Directory-tree
  contents and I/O errors are not modelled.
- LoraSites.UNet.AddLoraToUnetAttentionLayers:
  - the parameter tensors are not modelled; the result lists the LoRA
    processors whose parameters are collected, in order;
  - `set_attn_processor` is taken to replace each named processor in place;
  - `unet.config.cross_attention_dim` is an integer.
- LoraSites.HiddenSize follows `int()` on a single character, so only ASCII
  digits are accepted; other Unicode digits are not modelled.
- LoraSites.AttnProcessorsStateDict: each processor's `state_dict()` items
  are given as input, because the tensors belong to an unseen library.
- ModelResolution.ResolveModel: the registry listing and `model_info`'s
  format are parameters, and loading the sub-models that follows is left
  out.
- Dataset.ChooseCaptions: `random.choice` is any element of the list.
  Tokenization, image transforms and downloading are left out.
- Dataset.SelectSource: the download and the `cache_dir` argument are left
  out.
- Metadata.MergeMetadata: `item.dict()` is taken to be the item's own
  dictionary. The `MetadataField` class is not part of this model.
- The logging setup, xformers handling, the config dump, the save and load
  hooks and the text-encoder LoRA patch are left out: they are I/O or thin
  calls into an unseen library. `CoreMetadataInvocation` is left out
  because it only dumps fields.
