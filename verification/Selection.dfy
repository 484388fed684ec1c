/** Checkbox selections in both renderers: a set of profile ids that a
    checkbox change adds to or removes from. */
module Selection {

  /** One checkbox change: add the id when checked, remove it otherwise. */
  function Mark(selected: set<string>, id: string, checked: bool): (r: set<string>)
    ensures id in r <==> checked
    ensures forall k :: k != id ==> (k in r <==> k in selected)
  {
    if checked then selected + {id} else selected - {id}
  }

  /** The same change applied to every id of `ids`, one after another. */
  function MarkAll(selected: set<string>, ids: seq<string>, checked: bool): (r: set<string>)
    ensures forall k :: k in ids ==> (k in r <==> checked)
    ensures forall k :: k !in ids ==> (k in r <==> k in selected)
    decreases |ids|
  {
    if |ids| == 0 then selected
    else
      var r := MarkAll(Mark(selected, ids[0], checked), ids[1..], checked);
      assert forall k :: k in ids <==> k == ids[0] || k in ids[1..];
      r
  }

  /** Checking a box and unchecking it again leaves the selection as it was
      before, unless the id was already selected. */
  lemma MarkUndo(selected: set<string>, id: string)
    requires id !in selected
    ensures Mark(Mark(selected, id, true), id, false) == selected
  {
  }
}
