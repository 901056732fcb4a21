/** The retention policy of `_save_checkpoint`, stated independently of how
    checkpoint names are spelled, as Python's `sorted(..., key=...)` is:
    `keep` says which directory entries are checkpoints of the run, `key` is
    the sort key of an entry (`None` where `int()` raises), and `name(i)` is
    the entry a save with index `i` writes. */
module Retention {
  import opened Wrappers
  import opened Collections

  /** The entries of `listing` that `keep` accepts, in listing order. */
  function Filter(listing: seq<string>, keep: string -> bool): (r: seq<string>)
    ensures forall x :: x in r <==> x in listing && keep(x)
    ensures NoDups(listing) ==> NoDups(r)
  {
    if listing == [] then []
    else
      var rest := Filter(listing[1..], keep);
      assert forall x :: x in listing <==> x == listing[0] || x in listing[1..];
      if keep(listing[0]) then [listing[0]] + rest else rest
  }

  /** A directory entry together with its sort key. */
  datatype Entry = Entry(name: string, key: nat)

  /** `names[i]` is the first name whose key raises. */
  predicate FirstKeyless(names: seq<string>, key: string -> Option<nat>, i: int) {
    && 0 <= i < |names|
    && key(names[i]).None?
    && forall j :: 0 <= j < i ==> key(names[j]).Some?
  }

  /** The key of every name, as `sorted` computes them before comparing,
      or the first name whose key raises. */
  function Keyed(names: seq<string>, key: string -> Option<nat>): (r: Result<seq<Entry>, string>)
    ensures r.Ok? <==> forall i :: 0 <= i < |names| ==> key(names[i]).Some?
    ensures r.Ok? ==> |r.value| == |names|
    ensures r.Ok? ==> forall i :: 0 <= i < |names| ==> r.value[i] == Entry(names[i], key(names[i]).value)
    ensures r.Err? ==> exists i :: FirstKeyless(names, key, i) && r.error == names[i]
  {
    if names == [] then Ok([])
    else
      var k := key(names[0]);
      var rest := Keyed(names[1..], key);
      assert forall i :: 1 <= i < |names| ==> names[1..][i - 1] == names[i];
      if k.None? then
        assert FirstKeyless(names, key, 0);
        Err(names[0])
      else if rest.Err? then
        var i :| FirstKeyless(names[1..], key, i) && rest.error == names[1..][i];
        assert FirstKeyless(names, key, i + 1);
        Err(rest.error)
      else
        var es := [Entry(names[0], k.value)] + rest.value;
        assert forall i :: 1 <= i < |names| ==> es[i] == rest.value[i - 1];
        Ok(es)
  }

  ghost predicate SortedByKey(es: seq<Entry>) {
    forall i, j :: 0 <= i < j < |es| ==> es[i].key <= es[j].key
  }

  /** Inserts `e` before the first entry whose key is not smaller. */
  function InsertByKey(e: Entry, es: seq<Entry>): (r: seq<Entry>)
    requires SortedByKey(es)
    ensures SortedByKey(r)
    ensures multiset(r) == multiset(es) + multiset{e}
  {
    if es == [] || e.key <= es[0].key then
      SortedCons(e, es);
      [e] + es
    else
      var rest := InsertByKey(e, es[1..]);
      assert es == [es[0]] + es[1..];
      KeysBoundedBelow(es[0].key, e, es[1..], rest);
      assert multiset([es[0]] + rest) == multiset{es[0]} + multiset(rest);
      SortedCons(es[0], rest);
      [es[0]] + rest
  }

  lemma SortedCons(e: Entry, es: seq<Entry>)
    requires SortedByKey(es) && (es != [] ==> e.key <= es[0].key)
    ensures SortedByKey([e] + es)
  {
  }

  lemma KeysBoundedBelow(k: nat, e: Entry, es: seq<Entry>, rest: seq<Entry>)
    requires k <= e.key && forall i :: 0 <= i < |es| ==> k <= es[i].key
    requires multiset(rest) == multiset(es) + multiset{e}
    ensures forall i :: 0 <= i < |rest| ==> k <= rest[i].key
  {
    forall i | 0 <= i < |rest| ensures k <= rest[i].key {
      assert rest[i] in multiset(rest);
    }
  }

  /** Python's stable `sorted(..., key=...)`, as an insertion sort. */
  function SortByKey(es: seq<Entry>): (r: seq<Entry>)
    ensures SortedByKey(r)
    ensures multiset(r) == multiset(es)
  {
    if es == [] then []
    else
      assert es == [es[0]] + es[1..];
      InsertByKey(es[0], SortByKey(es[1..]))
  }

  /** The entries of `es` whose key is `k`, in order. */
  function WithKey(es: seq<Entry>, k: nat): seq<Entry> {
    if es == [] then []
    else (if es[0].key == k then [es[0]] else []) + WithKey(es[1..], k)
  }

  /** `e` goes before every entry with its key. */
  lemma {:induction false} InsertWithKey(e: Entry, es: seq<Entry>, k: nat)
    requires SortedByKey(es)
    ensures WithKey(InsertByKey(e, es), k) == (if e.key == k then [e] else []) + WithKey(es, k)
  {
    if es == [] || e.key <= es[0].key {
      assert ([e] + es)[1..] == es;
    } else {
      var rest := InsertByKey(e, es[1..]);
      assert ([es[0]] + rest)[1..] == rest;
      InsertWithKey(e, es[1..], k);
    }
  }

  /** `sorted` is stable: entries with equal keys, such as
      `checkpoint_step-5` and `checkpoint_step-00000005`, keep their
      listing order. */
  lemma {:induction false} SortByKeyStable(es: seq<Entry>, k: nat)
    ensures WithKey(SortByKey(es), k) == WithKey(es, k)
  {
    if es != [] {
      SortByKeyStable(es[1..], k);
      InsertWithKey(es[0], SortByKey(es[1..]), k);
    }
  }

  lemma {:induction false} NoDupsAfterInsert(e: Entry, es: seq<Entry>)
    requires SortedByKey(es) && NoDups(es) && e !in es
    ensures NoDups(InsertByKey(e, es))
  {
    if es != [] && e.key > es[0].key {
      assert es == [es[0]] + es[1..];
      NoDupsAfterInsert(e, es[1..]);
      var rest := InsertByKey(e, es[1..]);
      forall j | 0 <= j < |rest| ensures rest[j] != es[0] {
        assert rest[j] in multiset(rest);
      }
    }
  }

  lemma {:induction false} NoDupsAfterSort(es: seq<Entry>)
    requires NoDups(es)
    ensures NoDups(SortByKey(es))
  {
    if es != [] {
      assert es == [es[0]] + es[1..];
      NoDupsAfterSort(es[1..]);
      assert es[0] !in multiset(SortByKey(es[1..]));
      NoDupsAfterInsert(es[0], SortByKey(es[1..]));
    }
  }


  function NamesOf(es: seq<Entry>): (r: seq<string>)
    ensures |r| == |es| && forall i :: 0 <= i < |es| ==> r[i] == es[i].name
  {
    seq(|es|, i requires 0 <= i < |es| => es[i].name)
  }

  /** The first entries of `sorted`: `len - m + 1` of them (all of them when
      that is more), so that one more checkpoint brings the count back to
      `m`; none when there are fewer than `m`. */
  function Oldest(sorted: seq<Entry>, m: int): seq<Entry> {
    if |sorted| >= m then sorted[..Min(|sorted| - m + 1, |sorted|)] else []
  }

  /** The names `_save_checkpoint` deletes before a save, in deletion order,
      given the directory listing in the order `os.listdir` returned it;
      `Err(x)` is the `ValueError` raised for the first checkpoint `x` whose
      key cannot be computed. Nothing is deleted without a maximum. */
  function Evicted(listing: seq<string>, keep: string -> bool, key: string -> Option<nat>, maxCheckpoints: Option<int>): (r: Result<seq<string>, string>)
    ensures maxCheckpoints.None? ==> r == Ok([])
    ensures r.Err? <==> maxCheckpoints.Some? && exists x :: x in listing && keep(x) && key(x).None?
    ensures r.Err? ==> r.error in listing && keep(r.error) && key(r.error).None?
    ensures r.Ok? ==> forall x :: x in r.value ==> x in listing && keep(x)
  {
    match maxCheckpoints
    case None => Ok([])
    case Some(m) =>
      var checkpoints := Filter(listing, keep);
      match Keyed(checkpoints, key)
      case Err(x) => Err(x)
      case Ok(es) =>
        var r := NamesOf(Oldest(SortByKey(es), m));
        EvictedAreCheckpoints(checkpoints, key, es, m);
        Ok(r)
  }

  /** The checkpoint a failing save reports is the first one, in listing
      order, whose key raises. */
  lemma EvictedReportsFirst(listing: seq<string>, keep: string -> bool, key: string -> Option<nat>, m: int)
    requires Evicted(listing, keep, key, Some(m)).Err?
    ensures exists i :: FirstKeyless(Filter(listing, keep), key, i) && Evicted(listing, keep, key, Some(m)).error == Filter(listing, keep)[i]
  {
    assert Keyed(Filter(listing, keep), key).Err?;
  }

  lemma EvictedAreCheckpoints(names: seq<string>, key: string -> Option<nat>, es: seq<Entry>, m: int)
    requires Keyed(names, key) == Ok(es)
    ensures forall x :: x in NamesOf(Oldest(SortByKey(es), m)) ==> x in names
  {
    var sorted := SortByKey(es);
    var r := Oldest(sorted, m);
    forall x | x in NamesOf(r) ensures x in names {
      var i :| 0 <= i < |r| && NamesOf(r)[i] == x;
      assert r[i] == sorted[i];
      assert r[i] in multiset(es);
      var k :| 0 <= k < |es| && es[k] == r[i];
    }
  }

  /** Retention count: with a maximum `m` and every checkpoint keyed,
      `len - m + 1` checkpoints are deleted (all of them when that is more),
      and none when there are fewer than `m`. */
  lemma EvictionCount(listing: seq<string>, keep: string -> bool, key: string -> Option<nat>, m: int)
    requires forall x :: x in listing && keep(x) ==> key(x).Some?
    ensures var n := |Filter(listing, keep)|;
      var r := Evicted(listing, keep, key, Some(m));
      r.Ok? && |r.value| == (if n >= m then Min(n - m + 1, n) else 0)
  {
    EvictedOfKeyed(listing, keep, key, m);
    var checkpoints := Filter(listing, keep);
    var es := Keyed(checkpoints, key).value;
    var sorted := SortByKey(es);
    assert |multiset(sorted)| == |es|;
    assert |sorted| == |checkpoints|;
  }

  /** With every checkpoint keyed, the deleted names are the oldest ones. */
  lemma EvictedOfKeyed(listing: seq<string>, keep: string -> bool, key: string -> Option<nat>, m: int)
    requires forall x :: x in listing && keep(x) ==> key(x).Some?
    ensures Keyed(Filter(listing, keep), key).Ok?
    ensures Evicted(listing, keep, key, Some(m)) == Ok(NamesOf(Oldest(SortByKey(Keyed(Filter(listing, keep), key).value), m)))
  {
  }

  /** Sorting puts the oldest entries first: every entry taken by `Oldest`
      has a key no larger than that of any entry left behind. */
  lemma OldestFirst(es: seq<Entry>, m: int)
    ensures forall e, f :: e in Oldest(SortByKey(es), m) && f in es && f !in Oldest(SortByKey(es), m) ==> e.key <= f.key
  {
    var sorted := SortByKey(es);
    var r := Oldest(sorted, m);
    forall e, f | e in r && f in es && f !in r ensures e.key <= f.key {
      assert f in multiset(sorted);
      var j :| 0 <= j < |sorted| && sorted[j] == f;
      var i :| 0 <= i < |r| && r[i] == e;
      assert sorted[i] == e;
    }
  }

  /** Each entry names one of the keyed names, with that name's key;
      each keyed name has its entry. */
  lemma KeyedEntries(names: seq<string>, key: string -> Option<nat>, es: seq<Entry>)
    requires Keyed(names, key) == Ok(es)
    ensures forall e :: e in es ==> e.name in names && key(e.name) == Some(e.key)
    ensures forall y :: y in names ==> key(y).Some? && Entry(y, key(y).value) in es
  {
    forall y | y in names ensures key(y).Some? && Entry(y, key(y).value) in es {
      var l :| 0 <= l < |names| && names[l] == y;
      assert es[l] == Entry(y, key(y).value);
    }
  }

  /** `Oldest` takes entries of its input, and a sorted input of distinct
      entries gives distinct ones. */
  lemma OldestFromEntries(es: seq<Entry>, m: int)
    ensures forall e :: e in Oldest(SortByKey(es), m) ==> e in es
  {
    var sorted := SortByKey(es);
    forall e | e in Oldest(sorted, m) ensures e in es {
      assert e in multiset(sorted);
    }
  }

  lemma OrderOfEntries(names: seq<string>, key: string -> Option<nat>, es: seq<Entry>, m: int)
    requires Keyed(names, key) == Ok(es)
    ensures var r := NamesOf(Oldest(SortByKey(es), m));
      forall x, y :: x in r && y in names && y !in r ==> key(x).Some? && key(y).Some? && key(x).value <= key(y).value
  {
    var o := Oldest(SortByKey(es), m);
    var r := NamesOf(o);
    KeyedEntries(names, key, es);
    OldestFromEntries(es, m);
    OldestFirst(es, m);
    forall x, y | x in r && y in names && y !in r ensures key(x).Some? && key(y).Some? && key(x).value <= key(y).value {
      var i :| 0 <= i < |o| && r[i] == x;
      var f := Entry(y, key(y).value);
      assert o[i].key <= f.key;
    }
  }

  /** Retention order: every deleted checkpoint has a key no larger than
      that of any checkpoint kept. */
  lemma EvictionOrder(listing: seq<string>, keep: string -> bool, key: string -> Option<nat>, m: int)
    requires forall x :: x in listing && keep(x) ==> key(x).Some?
    ensures var r := Evicted(listing, keep, key, Some(m));
      r.Ok? && forall x, y :: x in r.value && y in Filter(listing, keep) && y !in r.value ==> key(x).value <= key(y).value
  {
    var checkpoints := Filter(listing, keep);
    OrderOfEntries(checkpoints, key, Keyed(checkpoints, key).value, m);
  }

  lemma NoDupsOfEntries(names: seq<string>, key: string -> Option<nat>, es: seq<Entry>, m: int)
    requires Keyed(names, key) == Ok(es) && NoDups(names)
    ensures NoDups(NamesOf(Oldest(SortByKey(es), m)))
  {
    assert NoDups(es) by {
      forall i, j | 0 <= i < j < |es| ensures es[i] != es[j] {
        assert es[i].name == names[i] && es[j].name == names[j];
      }
    }
    NoDupsAfterSort(es);
    KeyedEntries(names, key, es);
    OldestFromEntries(es, m);
    var sorted := SortByKey(es);
    var o := Oldest(sorted, m);
    var r := NamesOf(o);
    forall i, j | 0 <= i < j < |r| ensures r[i] != r[j] {
      assert o[i] == sorted[i] && o[j] == sorted[j];
      assert o[i] in es && o[j] in es;
    }
  }

  /** A listing without repeats gives a deletion list without repeats, so
      each deletion removes a different entry. */
  lemma EvictionNoDups(listing: seq<string>, keep: string -> bool, key: string -> Option<nat>, m: int)
    requires forall x :: x in listing && keep(x) ==> key(x).Some?
    requires NoDups(listing)
    ensures var r := Evicted(listing, keep, key, Some(m));
      r.Ok? && NoDups(r.value)
  {
    var checkpoints := Filter(listing, keep);
    NoDupsOfEntries(checkpoints, key, Keyed(checkpoints, key).value, m);
  }

  /** The directory after one save that writes `newName`: the evicted
      entries gone, the new one present. */
  function AfterSave(dir: set<string>, listing: seq<string>, keep: string -> bool, key: string -> Option<nat>, newName: string, maxCheckpoints: Option<int>): Result<set<string>, string>
  {
    match Evicted(listing, keep, key, maxCheckpoints)
    case Err(x) => Err(x)
    case Ok(r) => Ok(dir - ElemsOf(r) + {newName})
  }

  /** What `os.listdir` promises: every entry exactly once, in some order. */
  ghost predicate Enumerates(listing: seq<string>, dir: set<string>) {
    NoDups(listing) && forall x :: x in listing <==> x in dir
  }

  /** The checkpoints in a directory. */
  ghost function Kept(dir: set<string>, keep: string -> bool): set<string> {
    set x | x in dir && keep(x)
  }

  /** `name` writes, for every index, a checkpoint whose key is that index. */
  ghost predicate Naming(keep: string -> bool, key: string -> Option<nat>, name: nat -> string) {
    forall i: nat :: keep(name(i)) && key(name(i)) == Some(i)
  }

  ghost predicate Increasing(s: seq<nat>) {
    forall i, j :: 0 <= i < j < |s| ==> s[i] < s[j]
  }

  function NameSeq(name: nat -> string, idxs: seq<nat>): (r: seq<string>)
    ensures |r| == |idxs| && forall i :: 0 <= i < |idxs| ==> r[i] == name(idxs[i])
  {
    seq(|idxs|, i requires 0 <= i < |idxs| => name(idxs[i]))
  }

  /** The last `m` elements of `s` (all of them when there are fewer). */
  function LastN(s: seq<nat>, m: nat): (r: seq<nat>)
    ensures |r| == Min(|s|, m)
    ensures r == s[|s| - |r|..]
  {
    s[|s| - Min(|s|, m)..]
  }

  lemma NameSeqNoDups(keep: string -> bool, key: string -> Option<nat>, name: nat -> string, idxs: seq<nat>)
    requires Naming(keep, key, name) && Increasing(idxs)
    ensures NoDups(NameSeq(name, idxs))
  {
    forall i, j | 0 <= i < j < |idxs| ensures NameSeq(name, idxs)[i] != NameSeq(name, idxs)[j] {
      assert key(name(idxs[i])) == Some(idxs[i]) && key(name(idxs[j])) == Some(idxs[j]);
    }
  }

  lemma FilterEnumerates(listing: seq<string>, dir: set<string>, keep: string -> bool)
    requires Enumerates(listing, dir)
    ensures ElemsOf(Filter(listing, keep)) == Kept(dir, keep)
  {
  }

  /** A save below the maximum adds the new checkpoint and deletes nothing. */
  lemma WindowGrows(dir: set<string>, keep: string -> bool, name: nat -> string, window: seq<nat>, idx: nat)
    requires keep(name(idx))
    requires Kept(dir, keep) == ElemsOf(NameSeq(name, window))
    ensures Kept(dir + {name(idx)}, keep) == ElemsOf(NameSeq(name, window + [idx]))
    ensures dir + {name(idx)} - Kept(dir + {name(idx)}, keep) == dir - Kept(dir, keep)
  {
    assert NameSeq(name, window + [idx]) == NameSeq(name, window) + [name(idx)];
    ElemsOfConcat(NameSeq(name, window), [name(idx)]);
    assert Kept(dir + {name(idx)}, keep) == Kept(dir, keep) + {name(idx)};
  }

  /** A save at the maximum replaces the oldest checkpoint by the new one. */
  lemma WindowSlides(dir: set<string>, keep: string -> bool, key: string -> Option<nat>, name: nat -> string, window: seq<nat>, idx: nat)
    requires Naming(keep, key, name) && Increasing(window) && window != []
    requires Kept(dir, keep) == ElemsOf(NameSeq(name, window))
    ensures var d := dir - {name(window[0])} + {name(idx)};
      && Kept(d, keep) == ElemsOf(NameSeq(name, window[1..] + [idx]))
      && d - Kept(d, keep) == dir - Kept(dir, keep)
  {
    var names := NameSeq(name, window);
    NameSeqNoDups(keep, key, name, window);
    assert names == [names[0]] + NameSeq(name, window[1..]);
    assert NameSeq(name, window[1..] + [idx]) == NameSeq(name, window[1..]) + [name(idx)];
    assert names[0] !in NameSeq(name, window[1..]);
    ElemsOfConcat([names[0]], NameSeq(name, window[1..]));
    ElemsOfConcat(NameSeq(name, window[1..]), [name(idx)]);
    assert keep(name(window[0])) && keep(name(idx));
    var d := dir - {name(window[0])} + {name(idx)};
    assert Kept(d, keep) == Kept(dir, keep) - {name(window[0])} + {name(idx)};
  }

  /** The checkpoints of a directory holding those of `window` are the
      window's, one per index, each with its key. */
  lemma WindowKeyed(listing: seq<string>, dir: set<string>, keep: string -> bool, key: string -> Option<nat>, name: nat -> string, window: seq<nat>)
    requires Naming(keep, key, name) && Increasing(window)
    requires Enumerates(listing, dir)
    requires Kept(dir, keep) == ElemsOf(NameSeq(name, window))
    ensures forall x :: x in listing && keep(x) ==> key(x).Some?
    ensures |Filter(listing, keep)| == |window|
    ensures forall x :: x in Filter(listing, keep) <==> x in NameSeq(name, window)
  {
    var checkpoints := Filter(listing, keep);
    var names := NameSeq(name, window);
    FilterEnumerates(listing, dir, keep);
    NameSeqNoDups(keep, key, name, window);
    DistinctCard(checkpoints);
    DistinctCard(names);
    forall x | x in listing && keep(x) ensures key(x).Some? {
      assert x in ElemsOf(names);
      var k :| 0 <= k < |window| && names[k] == x;
    }
    forall x ensures x in checkpoints <==> x in names {
      assert x in checkpoints <==> x in ElemsOf(checkpoints);
      assert x in names <==> x in ElemsOf(names);
    }
  }

  lemma EvictionOrderAt(listing: seq<string>, keep: string -> bool, key: string -> Option<nat>, m: int, x: string, y: string)
    requires forall x :: x in listing && keep(x) ==> key(x).Some?
    requires Evicted(listing, keep, key, Some(m)).Ok?
    requires x in Evicted(listing, keep, key, Some(m)).value && y in Filter(listing, keep)
    ensures key(x).Some? && key(y).Some?
    ensures y !in Evicted(listing, keep, key, Some(m)).value ==> key(x).value <= key(y).value
  {
    EvictionOrder(listing, keep, key, m);
  }

  /** At the maximum, the one checkpoint deleted is the window's oldest. */
  lemma EvictsWindowHead(listing: seq<string>, keep: string -> bool, key: string -> Option<nat>, name: nat -> string, window: seq<nat>, m: int)
    requires m >= 1 && |window| == m
    requires Naming(keep, key, name) && Increasing(window)
    requires forall x :: x in listing && keep(x) ==> key(x).Some?
    requires |Filter(listing, keep)| == |window|
    requires forall x :: x in Filter(listing, keep) <==> x in NameSeq(name, window)
    ensures Evicted(listing, keep, key, Some(m)).Ok?
    ensures ElemsOf(Evicted(listing, keep, key, Some(m)).value) == {name(window[0])}
  {
    EvictionCount(listing, keep, key, m);
    var r := Evicted(listing, keep, key, Some(m)).value;
    var y := NameSeq(name, window)[0];
    assert r[0] in Filter(listing, keep) && y in Filter(listing, keep);
    EvictionOrderAt(listing, keep, key, m, r[0], y);
    SingleEvictionIsHead(r, keep, key, name, window);
  }

  /** A single deleted checkpoint of the window, no newer than the window's
      oldest unless it is that one, is the window's oldest. */
  lemma SingleEvictionIsHead(r: seq<string>, keep: string -> bool, key: string -> Option<nat>, name: nat -> string, window: seq<nat>)
    requires Naming(keep, key, name) && Increasing(window) && window != []
    requires |r| == 1 && r[0] in NameSeq(name, window)
    requires key(r[0]).Some?
    requires name(window[0]) !in r ==> key(r[0]).value <= window[0]
    ensures ElemsOf(r) == {name(window[0])}
  {
    var names := NameSeq(name, window);
    var k :| 0 <= k < |window| && names[k] == r[0];
    assert key(r[0]) == Some(window[k]) && key(name(window[0])) == Some(window[0]);
    assert r[0] == name(window[0]);
    assert r == [name(window[0])];
  }

  /** One save in a run with increasing indices and maximum `m >= 1`: if the
      directory holds exactly the checkpoints of an increasing window of at
      most `m` earlier indices, afterwards it holds those of the window
      advanced by the new index, the oldest dropped when the window was full;
      other entries are untouched. */
  lemma SaveAdvancesWindow(dir: set<string>, listing: seq<string>, keep: string -> bool, key: string -> Option<nat>, name: nat -> string, window: seq<nat>, idx: nat, m: int)
    requires m >= 1 && Naming(keep, key, name)
    requires Enumerates(listing, dir)
    requires Increasing(window) && |window| <= m
    requires Kept(dir, keep) == ElemsOf(NameSeq(name, window))
    ensures AfterSave(dir, listing, keep, key, name(idx), Some(m)).Ok?
    ensures var d := AfterSave(dir, listing, keep, key, name(idx), Some(m)).value;
      var next := if |window| < m then window + [idx] else window[1..] + [idx];
      && Kept(d, keep) == ElemsOf(NameSeq(name, next))
      && d - Kept(d, keep) == dir - Kept(dir, keep)
  {
    WindowKeyed(listing, dir, keep, key, name, window);
    EvictionCount(listing, keep, key, m);
    if |window| < m {
      WindowGrows(dir, keep, name, window, idx);
    } else {
      EvictsWindowHead(listing, keep, key, name, window, m);
      WindowSlides(dir, keep, key, name, window, idx);
    }
  }

  /** `lister(k, d)` is what `os.listdir` returns at the `k`-th save, when
      the directory holds `d`: each save may see its own order. */
  ghost predicate ListsAll(lister: (nat, set<string>) -> seq<string>) {
    forall k: nat, d: set<string> :: Enumerates(lister(k, d), d)
  }

  /** The directory after saving with each index of `idxs` in turn, the
      `k`-th save listing the directory as `lister(k, _)` says. */
  function SaveAll(dir: set<string>, lister: (nat, set<string>) -> seq<string>, keep: string -> bool, key: string -> Option<nat>, name: nat -> string, idxs: seq<nat>, maxCheckpoints: Option<int>): Result<set<string>, string>
  {
    if idxs == [] then Ok(dir)
    else match SaveAll(dir, lister, keep, key, name, idxs[..|idxs| - 1], maxCheckpoints)
      case Err(x) => Err(x)
      case Ok(d) => AfterSave(d, lister(|idxs| - 1, d), keep, key, name(idxs[|idxs| - 1]), maxCheckpoints)
  }

  /** Appending an index advances the window of the last `m`. */
  lemma LastNStep(idxs: seq<nat>, m: int)
    requires m >= 1 && idxs != []
    ensures var w := LastN(idxs[..|idxs| - 1], m);
      (if |w| < m then w + [idxs[|idxs| - 1]] else w[1..] + [idxs[|idxs| - 1]]) == LastN(idxs, m)
  {
  }

  lemma WindowCount(keep: string -> bool, key: string -> Option<nat>, name: nat -> string, window: seq<nat>)
    requires Naming(keep, key, name) && Increasing(window)
    ensures |ElemsOf(NameSeq(name, window))| == |window|
  {
    NameSeqNoDups(keep, key, name, window);
    DistinctCard(NameSeq(name, window));
  }

  lemma IncreasingParts(idxs: seq<nat>, m: int)
    requires m >= 1 && Increasing(idxs) && idxs != []
    ensures Increasing(idxs[..|idxs| - 1])
    ensures Increasing(LastN(idxs[..|idxs| - 1], m))
    ensures Increasing(LastN(idxs, m))
  {
  }

  /** After saves with strictly increasing indices and maximum `m >= 1`,
      starting from no checkpoints, the directory holds exactly min(K, m)
      checkpoints after K saves: those of the m most recent indices, whatever
      order each listing came in. Other entries are untouched. */
  lemma {:induction false} RetainsMostRecent(dir: set<string>, lister: (nat, set<string>) -> seq<string>, keep: string -> bool, key: string -> Option<nat>, name: nat -> string, idxs: seq<nat>, m: int)
    requires m >= 1 && Naming(keep, key, name) && ListsAll(lister)
    requires Increasing(idxs)
    requires Kept(dir, keep) == {}
    ensures SaveAll(dir, lister, keep, key, name, idxs, Some(m)).Ok?
    ensures var d := SaveAll(dir, lister, keep, key, name, idxs, Some(m)).value;
      && Kept(d, keep) == ElemsOf(NameSeq(name, LastN(idxs, m)))
      && d - Kept(d, keep) == dir - Kept(dir, keep)
  {
    if idxs == [] {
      assert NameSeq(name, LastN(idxs, m)) == [];
    } else {
      var pre := idxs[..|idxs| - 1];
      IncreasingParts(idxs, m);
      RetainsMostRecent(dir, lister, keep, key, name, pre, m);
      var d := SaveAll(dir, lister, keep, key, name, pre, Some(m)).value;
      SaveAdvancesWindow(d, lister(|idxs| - 1, d), keep, key, name, LastN(pre, m), idxs[|idxs| - 1], m);
      LastNStep(idxs, m);
    }
  }

  /** The number of checkpoints left after K such saves is min(K, m). */
  lemma RetainedCount(dir: set<string>, lister: (nat, set<string>) -> seq<string>, keep: string -> bool, key: string -> Option<nat>, name: nat -> string, idxs: seq<nat>, m: int)
    requires m >= 1 && Naming(keep, key, name) && ListsAll(lister)
    requires Increasing(idxs)
    requires Kept(dir, keep) == {}
    ensures SaveAll(dir, lister, keep, key, name, idxs, Some(m)).Ok?
    ensures |Kept(SaveAll(dir, lister, keep, key, name, idxs, Some(m)).value, keep)| == Min(|idxs|, m)
  {
    RetainsMostRecent(dir, lister, keep, key, name, idxs, m);
    assert Increasing(LastN(idxs, m));
    WindowCount(keep, key, name, LastN(idxs, m));
  }

  lemma AllAreOldest(names: seq<string>, key: string -> Option<nat>, es: seq<Entry>, m: int)
    requires Keyed(names, key) == Ok(es) && m <= 0
    ensures forall y :: y in names ==> y in NamesOf(Oldest(SortByKey(es), m))
  {
    var sorted := SortByKey(es);
    KeyedEntries(names, key, es);
    forall y | y in names ensures y in NamesOf(Oldest(sorted, m)) {
      var f := Entry(y, key(y).value);
      assert f in multiset(sorted);
      var j :| 0 <= j < |sorted| && sorted[j] == f;
      assert NamesOf(Oldest(sorted, m))[j] == y;
    }
  }

  /** With a maximum of zero or less every checkpoint is deleted, and the one
      just saved is the only one left. */
  lemma NonPositiveMaximumKeepsOnlyNewest(dir: set<string>, listing: seq<string>, keep: string -> bool, key: string -> Option<nat>, newName: string, m: int)
    requires m <= 0 && keep(newName)
    requires Enumerates(listing, dir)
    requires forall x :: x in listing && keep(x) ==> key(x).Some?
    ensures AfterSave(dir, listing, keep, key, newName, Some(m)).Ok?
    ensures Kept(AfterSave(dir, listing, keep, key, newName, Some(m)).value, keep) == {newName}
  {
    var checkpoints := Filter(listing, keep);
    AllAreOldest(checkpoints, key, Keyed(checkpoints, key).value, m);
    var r := Evicted(listing, keep, key, Some(m)).value;
    assert forall x :: x in dir && keep(x) ==> x in r;
  }
}
