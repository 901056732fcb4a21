/** Metadata dictionaries of the invocation graph (`MetadataInvocation`
    and `MergeMetadataInvocation`).

    A metadata invocation turns one labelled item, or a list of them, into a
    dictionary from label to value and stamps it with the application
    version. A merge invocation folds a list of such dictionaries into one,
    later dictionaries overriding earlier ones. Values are of any type `V`;
    `version` is `__version__`. */
module Metadata {
  import opened Collections

  datatype MetadataItem<V> = MetadataItem(itemLabel: string, value: V)  // `itemLabel` is the `label` field

  /** The `items` input: one item or a list of items. */
  datatype Items<V> = Single(item: MetadataItem<V>) | Collection(items: seq<MetadataItem<V>>)

  const AppVersionKey: string := "app_version"

  /** The `(label, value)` pairs of the items, in order. */
  function LabelPairs<V>(items: seq<MetadataItem<V>>): (ps: seq<(string, V)>)
    ensures |ps| == |items| && forall i :: 0 <= i < |items| ==> ps[i] == (items[i].itemLabel, items[i].value)
  {
    seq(|items|, i requires 0 <= i < |items| => (items[i].itemLabel, items[i].value))
  }

  function ItemList<V>(items: Items<V>): seq<MetadataItem<V>> {
    match items
    case Single(it) => [it]
    case Collection(its) => its
  }

  /** `MetadataInvocation.invoke`: the dictionary of the items, then
      `data.update({"app_version": version})`. */
  function MetadataOf<V>(items: Items<V>, version: V): (data: map<string, V>)
    ensures data.Keys == Keys(LabelPairs(ItemList(items))) + {AppVersionKey}
    ensures data[AppVersionKey] == version
  {
    var labelled := match items
      case Single(it) =>
        assert LabelPairs([it])[0].0 == it.itemLabel;
        map[it.itemLabel := it.value]
      case Collection(its) => FromPairs(LabelPairs(its));
    labelled + map[AppVersionKey := version]
  }

  /** A single item gives exactly its own entry and the version. */
  lemma SingleItemMetadata<V>(it: MetadataItem<V>, version: V)
    ensures MetadataOf(Single(it), version) == map[it.itemLabel := it.value, AppVersionKey := version]
    ensures MetadataOf(Single(it), version) == MetadataOf(Collection([it]), version)
  {
    var ps := LabelPairs([it]);
    assert ps[..0] == [];
    assert FromPairs(ps) == map[it.itemLabel := it.value];
  }

  /** Every label other than "app_version" holds the value of the last item
      with that label; "app_version" always holds the version, whatever an
      item labelled so carried. */
  lemma {:induction false} MetadataLastLabelWins<V>(items: seq<MetadataItem<V>>, version: V, k: string)
    requires k != AppVersionKey
    requires exists i :: 0 <= i < |items| && items[i].itemLabel == k
    ensures k in MetadataOf(Collection(items), version)
    ensures var i := LastIndexOfKey(LabelPairs(items), k);
      MetadataOf(Collection(items), version)[k] == items[i].value
      && items[i].itemLabel == k
      && forall j :: i < j < |items| ==> items[j].itemLabel != k
  {
    var i :| 0 <= i < |items| && items[i].itemLabel == k;
    assert LabelPairs(items)[i].0 == k;
    FromPairsLastWins(LabelPairs(items), k);
  }

  /** The left-to-right fold of `data.update(item)` over the collection. */
  function Merged<V>(collection: seq<map<string, V>>): map<string, V> {
    if collection == [] then map[] else Merged(collection[..|collection| - 1]) + collection[|collection| - 1]
  }

  /** `MergeMetadataInvocation.invoke`. */
  method MergeMetadata<V>(collection: seq<map<string, V>>) returns (data: map<string, V>)
    ensures data == Merged(collection)
  {
    data := map[];
    for i := 0 to |collection|
      invariant data == Merged(collection[..i])
    {
      assert collection[..i + 1][..i] == collection[..i];
      data := data + collection[i];
    }
    assert collection[..|collection|] == collection;
  }

  /** The merged keys are the keys of all the dictionaries, so the merge
      adds no "app_version" of its own. */
  lemma {:induction false} MergedKeys<V>(collection: seq<map<string, V>>, k: string)
    ensures k in Merged(collection) <==> exists i :: 0 <= i < |collection| && k in collection[i]
  {
    if collection != [] {
      var init := collection[..|collection| - 1];
      MergedKeys(init, k);
      if exists i :: 0 <= i < |init| && k in init[i] {
        var i :| 0 <= i < |init| && k in init[i];
        assert collection[i] == init[i];
      }
      if exists i :: 0 <= i < |collection| && k in collection[i] {
        var i :| 0 <= i < |collection| && k in collection[i];
        if i < |init| { assert init[i] == collection[i]; }
      }
    }
  }

  /** A key holds its value in the last dictionary that has it. */
  lemma {:induction false} MergedLastWins<V>(collection: seq<map<string, V>>, k: string, i: nat)
    requires i < |collection| && k in collection[i]
    requires forall j :: i < j < |collection| ==> k !in collection[j]
    ensures k in Merged(collection) && Merged(collection)[k] == collection[i][k]
  {
    var init := collection[..|collection| - 1];
    if i < |collection| - 1 {
      assert init[i] == collection[i];
      MergedLastWins(init, k, i);
    }
  }

  /** Merging nothing gives the empty dictionary, merging one dictionary
      gives it back. */
  lemma MergedEdgeCases<V>(m: map<string, V>)
    ensures Merged<V>([]) == map[]
    ensures Merged([m]) == m
  {
    assert [m][..0] == [];
  }
}
