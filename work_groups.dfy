/**
 * The work-groups page (`app/dashboard/work-groups/page.tsx`): the table of work groups, the add/edit
 * form with its validation, allocation of a new group's id, deletion, and the counts on the page.
 * Times are minutes since midnight; an empty time input is `None`.
 */
module WorkGroups {
  import opened Wrappers
  import opened Seqs
  import opened Text
  import opened Utils

  datatype WorkGroup = WorkGroup(id: int, name: string, startTime: Minutes, endTime: Minutes, hasRestDay: bool)

  /** The `formErrors` record: a message per field that has one. */
  datatype FormErrors = FormErrors(name: Option<string>, startTime: Option<string>, endTime: Option<string>,
                                   submit: Option<string>)

  const NoErrors := FormErrors(None, None, None, None)

  /** The form's fields: the name, the two `HH:MM` inputs (`None` when empty) and the rest-day box. */
  datatype FormData = FormData(name: string, startTime: Option<Minutes>, endTime: Option<Minutes>, hasRestDay: bool)

  /** The form `handleAddGroup` opens: no name, 07:00 to 15:00, no rest day. */
  const EmptyForm := FormData("", Some(7 * 60), Some(15 * 60), false)

  const NameRequired := "Naziv je obavezan"
  const StartRequired := "Početno vrijeme je obavezno"
  const EndRequired := "Završno vrijeme je obavezno"
  const EndAfterStart := "Završno vrijeme mora biti nakon početnog vremena"
  const DeleteFailed := "Greška pri brisanju radne grupe"

  /** A form that can be saved: a name that is not blank (so `trim()` leaves something), both times, and the end strictly after the start. */
  predicate FormValid(form: FormData)
  {
    !IsBlank(form.name) && form.startTime.Some? && form.endTime.Some? && form.endTime.value > form.startTime.value
  }

  /**
   * `validateForm`: fills the error record field by field; the end-time error is the ordering one when
   * both times are present and the end is not after the start. The form passes exactly when no error
   * was recorded, which is exactly when it is valid.
   */
  method ValidateForm(form: FormData) returns (errors: FormErrors, ok: bool)
    ensures ok <==> errors == NoErrors
    ensures ok <==> FormValid(form)
    ensures errors.submit.None?
    ensures errors.name == (if IsBlank(form.name) then Some(NameRequired) else None)
    ensures errors.startTime == (if form.startTime.None? then Some(StartRequired) else None)
    ensures errors.endTime ==
              if form.endTime.None? then Some(EndRequired)
              else if form.startTime.Some? && form.endTime.value <= form.startTime.value then Some(EndAfterStart)
              else None
  {
    errors := NoErrors;
    TrimSpec(form.name);
    if Trim(form.name) == "" {
      errors := errors.(name := Some(NameRequired));
    }
    if form.startTime.None? {
      errors := errors.(startTime := Some(StartRequired));
    }
    if form.endTime.None? {
      errors := errors.(endTime := Some(EndRequired));
    }
    if form.startTime.Some? && form.endTime.Some? {
      if form.endTime.value <= form.startTime.value {
        errors := errors.(endTime := Some(EndAfterStart));
      }
    }
    ok := errors == NoErrors;
  }

  /** `workGroups.reduce((max, group) => Math.max(max, group.id), 0)`. */
  function MaxId(groups: seq<WorkGroup>): int
  {
    if groups == [] then 0
    else
      var m := MaxId(groups[..|groups| - 1]);
      var id := groups[|groups| - 1].id;
      if id > m then id else m
  }

  /** The maximum is at least 0 and every id; it is 0 or the id of some group. */
  lemma {:induction false} MaxIdBounds(groups: seq<WorkGroup>)
    ensures MaxId(groups) >= 0
    ensures forall i :: 0 <= i < |groups| ==> groups[i].id <= MaxId(groups)
    ensures MaxId(groups) == 0 || exists i :: 0 <= i < |groups| && groups[i].id == MaxId(groups)
  {
    if groups != [] {
      var n := |groups| - 1;
      MaxIdBounds(groups[..n]);
      assert forall i :: 0 <= i < n ==> groups[i] == groups[..n][i];
    }
  }

  /** The id a new group gets, `max + 1`, is positive and differs from, indeed exceeds, every existing id. */
  lemma NewIdIsFresh(groups: seq<WorkGroup>)
    ensures MaxId(groups) + 1 >= 1
    ensures forall i :: 0 <= i < |groups| ==> groups[i].id < MaxId(groups) + 1
  {
    MaxIdBounds(groups);
  }

  /** The group a valid form describes. */
  function GroupOf(id: int, form: FormData): WorkGroup
    requires form.startTime.Some? && form.endTime.Some?
  {
    WorkGroup(id, form.name, form.startTime.value, form.endTime.value, form.hasRestDay)
  }

  /** `update(...).eq('id', id)`: every row with that id takes the form's values; the id and all other rows stay. */
  function UpdateGroup(groups: seq<WorkGroup>, id: int, form: FormData): (r: seq<WorkGroup>)
    requires form.startTime.Some? && form.endTime.Some?
    ensures |r| == |groups|
    ensures forall i :: 0 <= i < |r| ==> r[i].id == groups[i].id
    ensures forall i :: 0 <= i < |r| && groups[i].id != id ==> r[i] == groups[i]
    ensures forall i :: 0 <= i < |r| && groups[i].id == id ==> r[i] == GroupOf(id, form)
  {
    seq(|groups|, i requires 0 <= i < |groups| => if groups[i].id == id then GroupOf(id, form) else groups[i])
  }

  /** The rows as `order('id')` returns them from a table keyed by id: strictly increasing ids. */
  predicate IdsIncreasing(groups: seq<WorkGroup>)
  {
    forall i, j :: 0 <= i < j < |groups| ==> groups[i].id < groups[j].id
  }

  function GroupId(g: WorkGroup): int { g.id }

  /** Deleting rows keeps the remaining ids increasing. */
  lemma {:induction false} SubsequenceIncreasing(a: seq<WorkGroup>, b: seq<WorkGroup>)
    requires IsSubsequence(a, b) && IdsIncreasing(b)
    ensures IdsIncreasing(a)
    ensures forall i :: 0 <= i < |a| ==> a[i] in b
    decreases |b|
  {
    if a != [] && b != [] {
      assert IdsIncreasing(b[1..]);
      if a[0] == b[0] {
        SubsequenceIncreasing(a[1..], b[1..]);
        assert forall i :: 1 <= i < |a| ==> a[i] == a[1..][i - 1] && a[i] in b[1..];
        assert forall i :: 1 <= i < |a| ==> a[0].id < a[i].id;
      } else {
        SubsequenceIncreasing(a, b[1..]);
      }
    }
  }

  /** `delete().eq('id', id)` followed by the reload. */
  function DeleteGroup(groups: seq<WorkGroup>, id: int): seq<WorkGroup>
  {
    Filter(groups, (g: WorkGroup) => g.id != id)
  }

  /** Deleting by id removes exactly the rows with that id, keeps the others in order and the ids increasing. */
  lemma DeleteGroupSpec(groups: seq<WorkGroup>, id: int)
    requires IdsIncreasing(groups)
    ensures IdsIncreasing(DeleteGroup(groups, id))
    ensures forall g :: g in DeleteGroup(groups, id) <==> g in groups && g.id != id
  {
    FilterIsSubsequence(groups, (g: WorkGroup) => g.id != id);
    SubsequenceIncreasing(DeleteGroup(groups, id), groups);
  }

  /** `calculateWorkHours` of this page: end minus start in hours, with no clamp. */
  function ShiftHours(start: Minutes, end: Minutes): (hours: real)
    ensures hours * 60.0 == (end as int - start as int) as real
    ensures end > start ==> hours > 0.0
    ensures end <= start ==> hours <= 0.0
  {
    (end as int - start as int) as real / 60.0
  }

  /** Any pair of times a valid form allows gives a positive shift length. */
  lemma ValidShiftPositive(form: FormData)
    requires FormValid(form)
    ensures ShiftHours(form.startTime.value, form.endTime.value) > 0.0
  {
  }

  function IsRestDayGroup(g: WorkGroup): bool { g.hasRestDay }
  function IsStandardGroup(g: WorkGroup): bool { !g.hasRestDay }

  /** The standard groups and the groups with a rest day make up all groups. */
  lemma {:induction false} GroupCounts(groups: seq<WorkGroup>)
    ensures Count(groups, IsStandardGroup) + Count(groups, IsRestDayGroup) == |groups|
  {
    if groups != [] {
      GroupCounts(groups[..|groups| - 1]);
    }
  }

  /** The page's state: the loaded groups, the form, the delete dialog and the messages. */
  class WorkGroupsPage {
    var groups: seq<WorkGroup>
    var isFormOpen: bool
    var editingGroup: Option<WorkGroup>
    var form: FormData
    var formErrors: FormErrors
    var selectedGroup: Option<WorkGroup>
    var isDeleteOpen: bool
    var error: Option<string>

    /** The loaded rows come ordered by their unique id. */
    predicate Valid()
      reads this
    {
      IdsIncreasing(groups)
    }

    /** The page after `fetchData` loaded `rows` (ordered by id): everything closed and empty. */
    constructor(rows: seq<WorkGroup>)
      requires IdsIncreasing(rows)
      ensures Valid() && groups == rows
      ensures !isFormOpen && editingGroup.None? && form == EmptyForm && formErrors == NoErrors
      ensures selectedGroup.None? && !isDeleteOpen && error.None?
    {
      groups := rows;
      isFormOpen := false;
      editingGroup := None;
      form := EmptyForm;
      formErrors := NoErrors;
      selectedGroup := None;
      isDeleteOpen := false;
      error := None;
    }

    /** `handleAddGroup`: a fresh form for a new group. */
    method AddGroup()
      modifies this
      ensures editingGroup.None? && form == EmptyForm && formErrors == NoErrors && isFormOpen
      ensures groups == old(groups) && selectedGroup == old(selectedGroup) && isDeleteOpen == old(isDeleteOpen)
      ensures error == old(error)
    {
      editingGroup := None;
      form := EmptyForm;
      formErrors := NoErrors;
      isFormOpen := true;
    }

    /** `handleEditGroup`: the form filled with the group's values. */
    method EditGroup(g: WorkGroup)
      modifies this
      ensures editingGroup == Some(g) && form == FormData(g.name, Some(g.startTime), Some(g.endTime), g.hasRestDay)
      ensures formErrors == NoErrors && isFormOpen
      ensures groups == old(groups) && selectedGroup == old(selectedGroup) && isDeleteOpen == old(isDeleteOpen)
      ensures error == old(error)
    {
      editingGroup := Some(g);
      form := FormData(g.name, Some(g.startTime), Some(g.endTime), g.hasRestDay);
      formErrors := NoErrors;
      isFormOpen := true;
    }

    /**
     * `handleFormSubmit`: an invalid form only shows its errors; a valid one updates the edited group
     * or inserts a new group with id `max + 1`, unless the write fails (then its message is shown and
     * nothing changes); after a successful write the reloaded table is shown, the page error is
     * cleared by the reload and the form closes.
     */
    method Submit(writeFails: bool, failMessage: string)
      requires Valid()
      modifies this
      ensures Valid()
      ensures !FormValid(old(form)) ==>
                groups == old(groups) && formErrors != NoErrors && isFormOpen == old(isFormOpen)
                && editingGroup == old(editingGroup)
      ensures FormValid(old(form)) && writeFails ==>
                groups == old(groups) && formErrors == NoErrors.(submit := Some(failMessage)) && isFormOpen == old(isFormOpen)
                && editingGroup == old(editingGroup)
      ensures FormValid(old(form)) && !writeFails ==>
                formErrors == NoErrors && !isFormOpen && editingGroup.None?
                && groups == (if old(editingGroup).Some? then UpdateGroup(old(groups), old(editingGroup).value.id, old(form))
                              else old(groups) + [GroupOf(MaxId(old(groups)) + 1, old(form))])
      ensures form == old(form) && selectedGroup == old(selectedGroup) && isDeleteOpen == old(isDeleteOpen)
      ensures error == (if FormValid(old(form)) && !writeFails then None else old(error))
    {
      var errors, ok := ValidateForm(form);
      formErrors := errors;
      if !ok {
        return;
      }
      if writeFails {
        formErrors := NoErrors.(submit := Some(failMessage));
        return;
      }
      if editingGroup.Some? {
        groups := UpdateGroup(groups, editingGroup.value.id, form);
      } else {
        var maxId := MaxId(groups);
        NewIdIsFresh(groups);
        groups := groups + [GroupOf(maxId + 1, form)];
      }
      error := None;
      isFormOpen := false;
      editingGroup := None;
    }

    /** `handleDeleteGroup`: remembers the group and opens the confirmation. */
    method AskDelete(g: WorkGroup)
      modifies this
      ensures selectedGroup == Some(g) && isDeleteOpen
      ensures groups == old(groups) && form == old(form) && formErrors == old(formErrors)
      ensures isFormOpen == old(isFormOpen) && editingGroup == old(editingGroup) && error == old(error)
    {
      selectedGroup := Some(g);
      isDeleteOpen := true;
    }

    /**
     * `confirmDelete`: without a selected group nothing happens; otherwise the rows with its id are
     * deleted and the dialog closes, or, if the delete fails, the error is shown and nothing else changes.
     */
    method ConfirmDelete(deleteFails: bool)
      requires Valid()
      modifies this
      ensures Valid()
      ensures old(selectedGroup).None? ==> groups == old(groups) && isDeleteOpen == old(isDeleteOpen) && error == old(error)
      ensures old(selectedGroup).Some? && deleteFails ==>
                groups == old(groups) && error == Some(DeleteFailed) && selectedGroup == old(selectedGroup)
                && isDeleteOpen == old(isDeleteOpen)
      ensures old(selectedGroup).Some? && !deleteFails ==>
                groups == DeleteGroup(old(groups), old(selectedGroup).value.id) && selectedGroup.None? && !isDeleteOpen
                && error.None?
      ensures old(selectedGroup).None? ==> selectedGroup == old(selectedGroup)
      ensures form == old(form) && formErrors == old(formErrors) && isFormOpen == old(isFormOpen)
      ensures editingGroup == old(editingGroup)
    {
      if selectedGroup.None? {
        return;
      }
      if deleteFails {
        error := Some(DeleteFailed);
        return;
      }
      DeleteGroupSpec(groups, selectedGroup.value.id);
      groups := DeleteGroup(groups, selectedGroup.value.id);
      error := None;
      isDeleteOpen := false;
      selectedGroup := None;
    }
  }
}
