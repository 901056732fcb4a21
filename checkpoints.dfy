/** Checkpoint naming and retention (`_save_checkpoint`).

    The run's output directory is a set of entry names. Before a checkpoint
    `checkpoint_{prefix}-{idx:0>8}` is written, and only when a maximum count
    is configured, the entries whose names start with `checkpoint_{prefix}-`
    are sorted by the integer after the last '-' of their extension-less name
    and the oldest ones are deleted so that the new checkpoint brings the
    count back to the maximum. */
module Checkpoints {
  import opened Wrappers
  import opened Strings
  import opened Collections
  import opened Retention

  function FullPrefix(prefix: string): string {
    "checkpoint_" + prefix + "-"
  }

  /** The name of the checkpoint saved with index `idx`. */
  function CheckpointName(prefix: string, idx: nat): (name: string)
    ensures StartsWith(name, FullPrefix(prefix))
  {
    assert (FullPrefix(prefix) + ZeroPad(NatToDecimal(idx), 8))[..|FullPrefix(prefix)|] == FullPrefix(prefix);
    FullPrefix(prefix) + ZeroPad(NatToDecimal(idx), 8)
  }

  /** `int(os.path.splitext(name)[0].split("-")[-1])`; `None` is the
      `ValueError` raised when that text is not a decimal number. */
  function SortKey(name: string): Option<nat> {
    ParseDecimal(AfterLast(SplitExtRoot(name), '-'))
  }

  /** The index part of a checkpoint name holds digits only. */
  lemma PaddedDigits(idx: nat)
    ensures '.' !in ZeroPad(NatToDecimal(idx), 8) && '-' !in ZeroPad(NatToDecimal(idx), 8)
  {
    var digits := ZeroPad(NatToDecimal(idx), 8);
    forall i | 0 <= i < |digits| ensures IsDigit(digits[i]) {
      if i >= |digits| - |NatToDecimal(idx)| {
        assert digits[i] == NatToDecimal(idx)[i - (|digits| - |NatToDecimal(idx)|)];
      }
    }
  }

  /** The sort key of a checkpoint name is the index it was saved with. */
  lemma SortKeyOfCheckpointName(prefix: string, idx: nat)
    requires '.' !in prefix
    ensures SortKey(CheckpointName(prefix, idx)) == Some(idx)
  {
    var digits := ZeroPad(NatToDecimal(idx), 8);
    var name := CheckpointName(prefix, idx);
    PaddedDigits(idx);
    assert SplitExtRoot(name) == name;
    AfterLastOfJoin(FullPrefix(prefix), digits, '-');
    PaddedDecimalRoundTrip(idx, 8);
  }

  /** The extension of a checkpoint name does not change its key:
      `checkpoint_step-00000005.bak` has the key 5. */
  lemma SortKeyIgnoresExtension(prefix: string, idx: nat, ext: string)
    requires '.' !in prefix && '.' !in ext
    ensures SortKey(CheckpointName(prefix, idx) + "." + ext) == Some(idx)
  {
    var name := CheckpointName(prefix, idx);
    PaddedDigits(idx);
    assert '.' !in name && name[0] != '.';
    ExtensionStripped(name, ext);
    SortKeyOfCheckpointName(prefix, idx);
  }

  /** Sorting checkpoints by key is sorting them by save index, and distinct
      indices give distinct names. */
  lemma CheckpointNamesFollowIndex(prefix: string, i: nat, j: nat)
    requires '.' !in prefix
    ensures SortKey(CheckpointName(prefix, i)).Some? && SortKey(CheckpointName(prefix, j)).Some?
    ensures SortKey(CheckpointName(prefix, i)).value < SortKey(CheckpointName(prefix, j)).value <==> i < j
    ensures CheckpointName(prefix, i) == CheckpointName(prefix, j) <==> i == j
  {
    SortKeyOfCheckpointName(prefix, i);
    SortKeyOfCheckpointName(prefix, j);
  }

  /** The `startswith(full_prefix)` test of the list comprehension. */
  function IsCheckpointOf(prefix: string): string -> bool {
    x => StartsWith(x, FullPrefix(prefix))
  }

  /** The entry a save with index `idx` writes. */
  function NameOf(prefix: string): nat -> string {
    (idx: nat) => CheckpointName(prefix, idx)
  }

  /** Checkpoint names are checkpoints of their prefix whose sort key is the
      save index, so the retention policy keeps the most recent saves. */
  lemma CheckpointNaming(prefix: string)
    requires '.' !in prefix
    ensures Naming(IsCheckpointOf(prefix), SortKey, NameOf(prefix))
  {
    forall i: nat ensures IsCheckpointOf(prefix)(NameOf(prefix)(i)) && SortKey(NameOf(prefix)(i)) == Some(i) {
      SortKeyOfCheckpointName(prefix, i);
    }
  }

  /** The `ValueError` raised when a checkpoint's suffix is not a number. */
  datatype SaveError = InvalidCheckpointSuffix(name: string)

  /** The entry names `_save_checkpoint(idx, prefix, ...)` deletes, in
      deletion order, given the directory listing in `os.listdir` order. */
  function ToRemove(listing: seq<string>, prefix: string, maxCheckpoints: Option<int>): (r: Result<seq<string>, SaveError>)
    ensures maxCheckpoints.None? ==> r == Ok([])
    ensures r.Err? <==> maxCheckpoints.Some? && exists x :: x in listing && StartsWith(x, FullPrefix(prefix)) && SortKey(x).None?
    ensures r.Err? ==> r.error.name in listing && StartsWith(r.error.name, FullPrefix(prefix)) && SortKey(r.error.name).None?
    ensures r.Ok? ==> forall x :: x in r.value ==> x in listing && StartsWith(x, FullPrefix(prefix))
  {
    match Evicted(listing, IsCheckpointOf(prefix), SortKey, maxCheckpoints)
    case Err(x) => Err(InvalidCheckpointSuffix(x))
    case Ok(r) => Ok(r)
  }

  /** The directory after `_save_checkpoint(idx, prefix, ...)`. */
  function AfterCheckpoint(dir: set<string>, listing: seq<string>, prefix: string, idx: nat, maxCheckpoints: Option<int>): Result<set<string>, SaveError>
  {
    match AfterSave(dir, listing, IsCheckpointOf(prefix), SortKey, CheckpointName(prefix, idx), maxCheckpoints)
    case Err(x) => Err(InvalidCheckpointSuffix(x))
    case Ok(d) => Ok(d)
  }

  /** The checkpoints of one prefix in a directory. */
  ghost function CheckpointsIn(dir: set<string>, prefix: string): set<string> {
    Kept(dir, IsCheckpointOf(prefix))
  }

  /** A run that saves with increasing indices under one prefix and a
      maximum `m >= 1`, starting without checkpoints of that prefix, keeps
      exactly the checkpoints of its `m` most recent saves, and no more than
      that many; entries of other prefixes are untouched. */
  lemma RetainsMostRecentCheckpoints(dir: set<string>, lister: (nat, set<string>) -> seq<string>, prefix: string, idxs: seq<nat>, m: int)
    requires m >= 1 && '.' !in prefix && ListsAll(lister)
    requires Increasing(idxs)
    requires CheckpointsIn(dir, prefix) == {}
    ensures var run := SaveAll(dir, lister, IsCheckpointOf(prefix), SortKey, NameOf(prefix), idxs, Some(m));
      && run.Ok?
      && CheckpointsIn(run.value, prefix) == ElemsOf(NameSeq(NameOf(prefix), LastN(idxs, m)))
      && |CheckpointsIn(run.value, prefix)| == Min(|idxs|, m)
      && run.value - CheckpointsIn(run.value, prefix) == dir - CheckpointsIn(dir, prefix)
  {
    CheckpointNaming(prefix);
    RetainsMostRecent(dir, lister, IsCheckpointOf(prefix), SortKey, NameOf(prefix), idxs, m);
    RetainedCount(dir, lister, IsCheckpointOf(prefix), SortKey, NameOf(prefix), idxs, m);
  }

  /** Two prefixes whose full prefixes do not extend one another name
      disjoint sets of checkpoints. */
  predicate SeparatePrefixes(p: string, q: string) {
    !StartsWith(FullPrefix(p), FullPrefix(q)) && !StartsWith(FullPrefix(q), FullPrefix(p))
  }

  /** Two prefixes of one string: the shorter is a prefix of the longer. */
  lemma PrefixesNest(x: string, a: string, b: string)
    ensures StartsWith(x, a) && StartsWith(x, b) ==> StartsWith(a, b) || StartsWith(b, a)
  {
    if StartsWith(x, a) && StartsWith(x, b) {
      if |a| <= |b| {
        assert b[..|a|] == x[..|a|] == a;
      } else {
        assert a[..|b|] == x[..|b|] == b;
      }
    }
  }

  /** A save under prefix `p` leaves the checkpoints of a separate prefix
      `q` as they were: the step and epoch checkpoints of a run, saved into
      the same directory, do not evict one another. */
  lemma OtherPrefixUntouched(dir: set<string>, listing: seq<string>, p: string, q: string, idx: nat, maxCheckpoints: Option<int>)
    requires SeparatePrefixes(p, q)
    requires AfterCheckpoint(dir, listing, p, idx, maxCheckpoints).Ok?
    ensures CheckpointsIn(AfterCheckpoint(dir, listing, p, idx, maxCheckpoints).value, q) == CheckpointsIn(dir, q)
  {
    var removed := Evicted(listing, IsCheckpointOf(p), SortKey, maxCheckpoints).value;
    var d := AfterCheckpoint(dir, listing, p, idx, maxCheckpoints).value;
    assert d == dir - ElemsOf(removed) + {CheckpointName(p, idx)};
    forall x ensures x in CheckpointsIn(d, q) <==> x in CheckpointsIn(dir, q) {
      PrefixesNest(x, FullPrefix(p), FullPrefix(q));
      if x in removed {
        assert IsCheckpointOf(p)(x);
      }
    }
  }

  /** `"step"` and `"epoch"`, the two prefixes the training loop saves
      under, are separate. */
  lemma StepAndEpochSeparate()
    ensures SeparatePrefixes("step", "epoch")
  {
    assert FullPrefix("step")[11] == 's' && FullPrefix("epoch")[11] == 'e';
  }

  /** `max_checkpoints <= 0` leaves the new checkpoint as the only one of
      its prefix. */
  lemma NonPositiveMaximumKeepsOnlyNewestCheckpoint(dir: set<string>, listing: seq<string>, prefix: string, idx: nat, m: int)
    requires m <= 0
    requires Enumerates(listing, dir)
    requires forall x :: x in listing && StartsWith(x, FullPrefix(prefix)) ==> SortKey(x).Some?
    ensures AfterCheckpoint(dir, listing, prefix, idx, Some(m)).Ok?
    ensures CheckpointsIn(AfterCheckpoint(dir, listing, prefix, idx, Some(m)).value, prefix) == {CheckpointName(prefix, idx)}
  {
    NonPositiveMaximumKeepsOnlyNewest(dir, listing, IsCheckpointOf(prefix), SortKey, CheckpointName(prefix, idx), m);
  }

  /** The output directory of a training run. */
  class OutputDir {
    var entries: set<string>

    constructor (initial: set<string>)
      ensures entries == initial
    {
      entries := initial;
    }

    /** `_save_checkpoint(idx, prefix, ...)`. `listing` is what
        `os.listdir(out_dir)` returned. A file entry and a directory entry
        are deleted alike; writing the checkpoint's contents is left out. */
    method SaveCheckpoint(idx: nat, prefix: string, maxCheckpoints: Option<int>, listing: seq<string>)
      returns (outcome: Outcome<SaveError>)
      requires Enumerates(listing, entries)
      modifies this
      ensures match AfterCheckpoint(old(entries), listing, prefix, idx, maxCheckpoints)
        case Ok(d) => outcome == Pass && entries == d
        case Err(e) => outcome == Fail(e) && entries == old(entries)
    {
      var toRemove := ToRemove(listing, prefix, maxCheckpoints);
      if toRemove.Err? {
        return Fail(toRemove.error);
      }
      RemoveAll(toRemove.value);
      entries := entries + {CheckpointName(prefix, idx)};
      return Pass;
    }

    /** The deletion loop of `_save_checkpoint`. */
    method RemoveAll(names: seq<string>)
      modifies this
      ensures entries == old(entries) - ElemsOf(names)
    {
      for i := 0 to |names|
        invariant entries == old(entries) - ElemsOf(names[..i])
      {
        assert ElemsOf(names[..i + 1]) == ElemsOf(names[..i]) + {names[i]};
        entries := entries - {names[i]};
      }
      assert names[..|names|] == names;
    }
  }
}
