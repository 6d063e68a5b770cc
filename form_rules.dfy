/** Rules the edit forms share: which item of the list view a form shows after its entity was
  * deleted. */
module FormRules {

  /** What the replacing edit form shows: the view item at an index, or a new, empty entity. */
  datatype Selection = ViewItem(index: nat) | NewEntity

  /** The tag and attribute forms: the item before the deleted one; for the first item, and for an
    * entity the view does not hold (whose index stays 0), the second item; and a new entity when
    * the view has no second item. */
  function NeighbourOf(index: nat, size: nat): Selection {
    if index > 0 then ViewItem(index - 1)
    else if size > 1 then ViewItem(1)
    else NewEntity
  }

  /** A deleted item that the view holds is never the one selected after it, the selected item is
    * one of the view's, and a new entity is shown only when the deleted item was the only one. */
  lemma NeighbourIsAnotherItem(index: nat, size: nat)
    requires index < size
    ensures NeighbourOf(index, size).ViewItem? ==>
              NeighbourOf(index, size).index < size && NeighbourOf(index, size).index != index
    ensures NeighbourOf(index, size).NewEntity? <==> size == 1
  {
  }

  /** The user form's loop: stepping through the view with the previous item at hand, an equal item
    * after the first selects its predecessor and the loop goes on; an equal first item selects the
    * second one and ends the loop, or nothing when it is the only item. */
  function PredecessorOrSuccessor(equal: seq<bool>): (r: Selection)
    ensures r.ViewItem? ==> r.index < |equal|
    ensures |equal| > 1 && equal[0] ==> r == ViewItem(1)
    ensures !(|equal| > 1 && equal[0]) ==>
              (r.ViewItem? <==> exists k :: 0 < k < |equal| && equal[k])
    ensures !(|equal| > 1 && equal[0]) && r.ViewItem? ==>
              r.index + 1 < |equal| && equal[r.index + 1] && forall k :: r.index + 1 < k < |equal| ==> !equal[k]
    decreases |equal|
  {
    if |equal| > 1 && equal[0] then ViewItem(1)
    else if |equal| <= 1 then NewEntity
    else if equal[|equal| - 1] then ViewItem(|equal| - 2)
    else PredecessorOrSuccessor(equal[..|equal| - 1])
  }

  /** When the view holds the deleted entity exactly once, the user form's loop selects what the
    * tag and attribute forms select: the predecessor, else the successor, else a new entity. */
  lemma {:induction false} UniqueItemSelectsItsNeighbour(equal: seq<bool>, k: nat)
    requires k < |equal| && equal[k]
    requires forall j :: 0 <= j < |equal| && j != k ==> !equal[j]
    ensures PredecessorOrSuccessor(equal) == NeighbourOf(k, |equal|)
    decreases |equal|
  {
    if |equal| > 1 && equal[0] {
    } else if |equal| <= 1 {
    } else if equal[|equal| - 1] {
    } else {
      var prefix := equal[..|equal| - 1];
      UniqueItemSelectsItsNeighbour(prefix, k);
      assert k > 0;
    }
  }

  /** When the view does not hold the deleted entity, the user form shows a new entity, while the
    * tag and attribute forms fall back to the view's second item. */
  lemma {:induction false} MissingItemSelectsNewEntity(equal: seq<bool>)
    requires forall j :: 0 <= j < |equal| ==> !equal[j]
    ensures PredecessorOrSuccessor(equal) == NewEntity
    ensures |equal| > 1 ==> NeighbourOf(0, |equal|) == ViewItem(1)
    decreases |equal|
  {
    if |equal| > 1 {
      MissingItemSelectsNewEntity(equal[..|equal| - 1]);
    }
  }
}
