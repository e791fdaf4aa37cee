/** The classification checkboxes of the plant form (components/PlantForm.tsx). */
module PlantForm {
  import opened Seqs
  import opened Types

  /** Clicking the checkbox of tag `c`: a selected tag is filtered out of the list,
      an unselected one is appended at its end. */
  function Toggle(cs: seq<Classification>, c: Classification): (r: seq<Classification>)
    ensures c in r <==> c !in cs
    ensures forall x :: x != c ==> (x in r <==> x in cs)
    ensures c !in cs ==> r == cs + [c]
    ensures RemoveAll(r, c) == RemoveAll(cs, c)
    ensures NoDups(cs) ==> NoDups(r)
  {
    if c in cs then
      RemoveAllNoDups(cs, c);
      RemoveAllAbsent(RemoveAll(cs, c), c);
      RemoveAll(cs, c)
    else
      RemoveAllAppend(cs, [c], c);
      assert RemoveAll([c], c) == [];
      cs + [c]
  }

  /** Toggling an unselected tag twice gives back the original selection. */
  lemma ToggleTwice(cs: seq<Classification>, c: Classification)
    requires c !in cs
    ensures Toggle(Toggle(cs, c), c) == cs
  {
    RemoveAllAppend(cs, [c], c);
    assert RemoveAll([c], c) == [];
    RemoveAllAbsent(cs, c);
  }

  /** Toggling a selected tag twice drops its other occurrences and moves it to the end. */
  lemma ToggleTwiceSelected(cs: seq<Classification>, c: Classification)
    requires c in cs
    ensures Toggle(Toggle(cs, c), c) == RemoveAll(cs, c) + [c]
  {
  }
}
