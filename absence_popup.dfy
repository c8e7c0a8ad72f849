/**
 * The dialog that sets the absence of one employee on one day (`components/ui/absence-popup.tsx`):
 * it starts from the existing type, lets the user pick another type or "no absence", and hands the
 * choice back; Save is enabled only when the choice differs from what is stored.
 */
module AbsencePopup {
  import opened Wrappers
  import opened Seqs

  datatype AbsenceType = AbsenceType(id: string, name: string, color: string)

  /** A JavaScript `string | null | undefined` read for truthiness: the empty string counts as absent. */
  function Truthy(s: Option<string>): Option<string>
  {
    if s.Some? && s.value != "" then s else None
  }

  /** `hasChanges`: against a stored type, any other choice; with nothing stored, picking a type. */
  predicate HasChanges(existing: Option<string>, selected: Option<string>)
  {
    if Truthy(existing).Some? then selected != existing else selected != None
  }

  /** The two readings of `hasChanges`: with a stored type it is "the choice differs", without one "a type was picked". */
  lemma HasChangesCases(existing: Option<string>, selected: Option<string>)
    ensures Truthy(existing).Some? ==> (HasChanges(existing, selected) <==> selected != existing)
    ensures Truthy(existing).None? ==> (HasChanges(existing, selected) <==> selected.Some?)
    ensures HasChanges(existing, selected) ==> selected != Truthy(existing)
  {
  }

  /** `currentAbsence`: the stored type's entry in the list of types, when there is a stored type. */
  function CurrentAbsence(types: seq<AbsenceType>, existing: Option<string>): (r: Option<AbsenceType>)
    ensures r.Some? ==> Truthy(existing).Some? && r.value in types && r.value.id == existing.value
    ensures Truthy(existing).Some? && (exists i :: 0 <= i < |types| && types[i].id == existing.value) ==> r.Some?
  {
    if Truthy(existing).Some? then Find(types, (t: AbsenceType) => t.id == existing.value) else None
  }

  /** The dialog's state. */
  class Popup {
    var isOpen: bool
    var existing: Option<string>
    var selected: Option<string>

    /** The Save button is disabled. */
    predicate SaveDisabled()
      reads this
    {
      !HasChanges(existing, selected)
    }

    /** The "Bez odsustva" option and the Delete button are shown. */
    predicate ShowsRemoval()
      reads this
    {
      Truthy(existing).Some?
    }

    constructor()
      ensures !isOpen && existing.None? && selected.None?
    {
      isOpen := false;
      existing := None;
      selected := None;
    }

    /**
     * The effect on `isOpen` and `existingAbsenceType`: the choice starts again from the stored type,
     * so a freshly opened dialog has nothing to save.
     */
    method Open(existingType: Option<string>)
      modifies this
      ensures isOpen && existing == existingType && selected == Truthy(existingType)
      ensures SaveDisabled()
    {
      isOpen := true;
      existing := existingType;
      selected := Truthy(existingType);
    }

    /** Clicking one of the listed types selects it. */
    method ChooseType(types: seq<AbsenceType>, i: nat)
      requires i < |types|
      modifies this
      ensures selected == Some(types[i].id) && existing == old(existing) && isOpen == old(isOpen)
      ensures SaveDisabled() <==> Truthy(existing) == Some(types[i].id)
    {
      selected := Some(types[i].id);
    }

    /** Clicking "Bez odsustva", which is only offered when a type is stored: the choice becomes "no absence". */
    method ChooseNone()
      requires ShowsRemoval()
      modifies this
      ensures selected.None? && existing == old(existing) && isOpen == old(isOpen)
      ensures !SaveDisabled()
    {
      selected := None;
    }

    /**
     * `handleSave`, reachable only while Save is enabled: hands back the current choice, which differs
     * from what is stored, and is a type whenever nothing was stored.
     */
    method Save() returns (choice: Option<string>)
      requires !SaveDisabled()
      ensures choice == selected && choice != Truthy(existing)
      ensures Truthy(existing).None? ==> choice.Some?
    {
      choice := selected;
    }

    /** `handleDelete`, reachable only when a type is stored: hands back "no absence". */
    method Delete() returns (choice: Option<string>)
      requires ShowsRemoval()
      ensures choice.None? && choice != Truthy(existing)
    {
      choice := None;
    }
  }
}
