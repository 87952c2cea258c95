/** The two list operations of a form's field array: `append` of a new entry
    at the end and `remove(index)` of one existing entry. */
module FieldArray {

  /** The list with `item` added at the end. */
  function Append<T>(items: seq<T>, item: T): (r: seq<T>)
    ensures |r| == |items| + 1
    ensures r[..|items|] == items && r[|items|] == item
  {
    items + [item]
  }

  /** The list without its entry at `index`; earlier entries keep their
      positions, later ones move up by one. */
  function RemoveAt<T>(items: seq<T>, index: nat): (r: seq<T>)
    requires index < |items|
    ensures |r| == |items| - 1
    ensures forall j :: 0 <= j < index ==> r[j] == items[j]
    ensures forall j :: index <= j < |r| ==> r[j] == items[j + 1]
  {
    items[..index] + items[index + 1..]
  }

  /** Removing the entry just appended gives back the list. */
  lemma RemoveAppended<T>(items: seq<T>, item: T)
    ensures RemoveAt(Append(items, item), |items|) == items
  {
    var r := RemoveAt(Append(items, item), |items|);
    assert forall j :: 0 <= j < |items| ==> r[j] == items[j];
  }
}
