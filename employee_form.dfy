/**
 * The employee add/edit dialog (`components/employee-form.tsx`): the form is reset when it opens,
 * validated field by field (the e-mail against `^[^\s@]+@[^\s@]+\.[^\s@]+$`), and saved by an update
 * or by an insert that is retried once with a placeholder `user_id`; a failure is mapped to the
 * message shown under the form.
 */
module EmployeeForm {
  import opened Wrappers
  import opened Seqs
  import opened Text

  /** The employee the dialog edits. */
  datatype Employee = Employee(id: string, firstName: string, lastName: string, email: string, workGroup: int)

  /** An `employees` row as the dialog writes it; `userId` is `None` for SQL null. */
  datatype Row = Row(
    id: string, firstName: string, lastName: string, email: string, workGroup: int, userId: Option<string>)

  datatype FormData = FormData(firstName: string, lastName: string, email: string, workGroup: int)

  /** The `errors` record: one optional message per field, plus the save failure. */
  datatype FormErrors = FormErrors(
    firstName: Option<string>, lastName: Option<string>, email: Option<string>, workGroup: Option<string>,
    submit: Option<string>)

  const NoErrors := FormErrors(None, None, None, None, None)
  const FirstNameRequired := "Ime je obavezno"
  const LastNameRequired := "Prezime je obavezno"
  const EmailRequired := "Email je obavezan"
  const EmailInvalid := "Email nije validan"
  const WorkGroupRequired := "Radna grupa je obavezna"
  const SchemaMessage := "Greška: user_id je obavezan. Molimo kontaktirajte administratora da popravi shemu baze."
  /** The placeholder `user_id` of the retried insert. */
  const ZeroUuid := "00000000-0000-0000-0000-000000000000"

  /** A non-empty run of characters that are neither white space nor `@` (`[^\s@]+`). */
  predicate Plain(s: string)
  {
    |s| > 0 && forall k :: 0 <= k < |s| ==> !IsSpace(s[k]) && s[k] != '@'
  }

  /** The regular expression read as written: a plain part, `@`, a plain part, `.`, a plain part. */
  predicate EmailPattern(s: string)
  {
    exists i, j :: 0 <= i < j < |s| && s[i] == '@' && s[j] == '.' && Plain(s[..i]) && Plain(s[i + 1..j]) && Plain(s[j + 1..])
  }

  /**
   * The e-mail test as a direct check: no white space, the first `@` is not the first character and is
   * the only one, and a `.` stands after it with at least one character on each side.
   */
  predicate IsValidEmail(s: string)
  {
    var at := FindIndex(s, (c: char) => c == '@');
    at > 0
    && (forall k :: 0 <= k < |s| ==> !IsSpace(s[k]) && (s[k] == '@' ==> k == at))
    && (exists j :: at + 1 < j < |s| - 1 && s[j] == '.')
  }

  /** The direct check accepts exactly the strings the regular expression matches. */
  lemma EmailPatternIff(s: string)
    ensures IsValidEmail(s) <==> EmailPattern(s)
  {
    var at := FindIndex(s, (c: char) => c == '@');
    if IsValidEmail(s) {
      var j :| at + 1 < j < |s| - 1 && s[j] == '.';
      assert forall k :: 0 <= k < at ==> s[..at][k] == s[k];
      var mid, tail := s[at + 1..j], s[j + 1..];
      assert forall k :: 0 <= k < |mid| ==> mid[k] == s[at + 1 + k];
      assert forall k :: 0 <= k < |tail| ==> tail[k] == s[j + 1 + k];
      assert Plain(s[..at]) && Plain(s[at + 1..j]) && Plain(s[j + 1..]);
    }
    if EmailPattern(s) {
      var i, j :| 0 <= i < j < |s| && s[i] == '@' && s[j] == '.' && Plain(s[..i]) && Plain(s[i + 1..j]) && Plain(s[j + 1..]);
      PlainParts(s, i, j);
      assert at == i by {
        assert forall k :: 0 <= k < i ==> s[..i][k] == s[k];
      }
    }
  }

  /** Every character of a string matching the pattern at `i` and `j` is plain, except the `@` at `i`. */
  lemma PlainParts(s: string, i: int, j: int)
    requires 0 <= i < j < |s| && s[i] == '@' && s[j] == '.'
    requires Plain(s[..i]) && Plain(s[i + 1..j]) && Plain(s[j + 1..])
    ensures forall k :: 0 <= k < |s| ==> !IsSpace(s[k]) && (s[k] == '@' ==> k == i)
    ensures i > 0 && i + 1 < j < |s| - 1
  {
    forall k | 0 <= k < |s|
      ensures !IsSpace(s[k]) && (s[k] == '@' ==> k == i)
    {
      if k < i {
        assert s[..i][k] == s[k];
      } else if i < k < j {
        assert s[i + 1..j][k - i - 1] == s[k];
      } else if j < k {
        assert s[j + 1..][k - j - 1] == s[k];
      }
    }
  }

  /** An address that passes has exactly one `@`, so in particular it is not blank. */
  lemma ValidEmailNotBlank(s: string)
    requires IsValidEmail(s)
    ensures !IsBlank(s)
    ensures Count(s, (c: char) => c == '@') == 1
  {
    var at := FindIndex(s, (c: char) => c == '@');
    assert !IsSpace(s[at]);
    OneAtCount(s, at);
  }

  /** A string whose only `@` is at `at` counts one `@`. */
  lemma {:induction false} OneAtCount(s: string, at: int)
    requires 0 <= at < |s| && s[at] == '@'
    requires forall k :: 0 <= k < |s| && s[k] == '@' ==> k == at
    ensures Count(s, (c: char) => c == '@') == 1
  {
    var n := |s| - 1;
    if at == n {
      NoAtCount(s[..n]);
    } else {
      OneAtCount(s[..n], at);
    }
  }

  lemma {:induction false} NoAtCount(s: string)
    requires forall k :: 0 <= k < |s| ==> s[k] != '@'
    ensures Count(s, (c: char) => c == '@') == 0
  {
    if s != [] {
      NoAtCount(s[..|s| - 1]);
    }
  }

  /** The exact messages `validateForm` records for a form. */
  predicate ReportsErrors(form: FormData, errors: FormErrors)
  {
    errors.firstName == (if IsBlank(form.firstName) then Some(FirstNameRequired) else None)
    && errors.lastName == (if IsBlank(form.lastName) then Some(LastNameRequired) else None)
    && errors.email == (if IsBlank(form.email) then Some(EmailRequired)
                        else if !IsValidEmail(form.email) then Some(EmailInvalid) else None)
    && errors.workGroup == (if form.workGroup == 0 then Some(WorkGroupRequired) else None)
    && errors.submit.None?
  }

  /** The form passes validation: both names and the e-mail are filled in, the e-mail is well formed, a group is chosen. */
  predicate FormValid(form: FormData)
  {
    !IsBlank(form.firstName) && !IsBlank(form.lastName) && IsValidEmail(form.email) && form.workGroup != 0
  }

  /** `!value.trim()`: the field holds nothing but white space. */
  method CheckBlank(value: string) returns (blank: bool)
    ensures blank == IsBlank(value)
  {
    TrimSpec(value);
    blank := Trim(value) == "";
  }

  /**
   * `validateForm`: fills in one message per failing field; the form passes exactly when no message was
   * recorded. A blank e-mail is reported as missing, never as malformed.
   */
  method ValidateForm(form: FormData) returns (errors: FormErrors, ok: bool)
    ensures ReportsErrors(form, errors)
    ensures ok <==> errors == NoErrors
    ensures ok <==> FormValid(form)
    ensures IsBlank(form.email) ==> errors.email == Some(EmailRequired)
  {
    errors := NoErrors;
    var firstBlank := CheckBlank(form.firstName);
    if firstBlank {
      errors := errors.(firstName := Some(FirstNameRequired));
    }
    var lastBlank := CheckBlank(form.lastName);
    if lastBlank {
      errors := errors.(lastName := Some(LastNameRequired));
    }
    var emailBlank := CheckBlank(form.email);
    var emailValid := IsValidEmail(form.email);
    if emailBlank {
      errors := errors.(email := Some(EmailRequired));
    } else if !emailValid {
      errors := errors.(email := Some(EmailInvalid));
    }
    if form.workGroup == 0 {
      errors := errors.(workGroup := Some(WorkGroupRequired));
    }
    if emailValid {
      ValidEmailNotBlank(form.email);
    }
    ok := errors == NoErrors;
  }

  /** The message shown for a failed save: the schema message when the error names a null `user_id`, else the error itself. */
  function SubmitMessage(message: string): string
  {
    if Contains(message, "user_id") && Contains(message, "null") then SchemaMessage else message
  }

  /**
   * The schema message is shown exactly when `user_id` and `null` both occur somewhere in the error;
   * every other error is shown as it is.
   */
  lemma SubmitMessageCases(message: string)
    ensures (exists i: nat :: OccursAt(message, "user_id", i)) && (exists j: nat :: OccursAt(message, "null", j)) ==>
              SubmitMessage(message) == SchemaMessage
    ensures !(exists i: nat :: OccursAt(message, "user_id", i)) || !(exists j: nat :: OccursAt(message, "null", j)) ==>
              SubmitMessage(message) == message
  {
    ContainsIff(message, "user_id");
    ContainsIff(message, "null");
  }

  /** The rows after `update(...).eq('id', id)`: every row with that id takes the four form fields. */
  function UpdateRows(table: seq<Row>, id: string, form: FormData): (r: seq<Row>)
    ensures |r| == |table|
    ensures forall i :: 0 <= i < |table| && table[i].id != id ==> r[i] == table[i]
    ensures forall i :: 0 <= i < |table| && table[i].id == id ==>
              r[i] == Row(id, form.firstName, form.lastName, form.email, form.workGroup, table[i].userId)
  {
    if table == [] then []
    else
      var n := |table| - 1;
      UpdateRows(table[..n], id, form)
      + [if table[n].id == id then table[n].(firstName := form.firstName, lastName := form.lastName,
                                              email := form.email, workGroup := form.workGroup)
         else table[n]]
  }

  /** Rows of other ids are untouched and the set of ids stays the same. */
  lemma UpdateRowsKeepsIds(table: seq<Row>, id: string, form: FormData)
    ensures forall i :: 0 <= i < |table| ==> UpdateRows(table, id, form)[i].id == table[i].id
    ensures Filter(UpdateRows(table, id, form), (r: Row) => r.id != id) == Filter(table, (r: Row) => r.id != id)
  {
    FilterSameOutside(table, UpdateRows(table, id, form), id);
  }

  lemma {:induction false} FilterSameOutside(a: seq<Row>, b: seq<Row>, id: string)
    requires |a| == |b|
    requires forall i :: 0 <= i < |a| ==> b[i].id == a[i].id && (a[i].id != id ==> b[i] == a[i])
    ensures Filter(b, (r: Row) => r.id != id) == Filter(a, (r: Row) => r.id != id)
  {
    if a != [] {
      FilterSameOutside(a[1..], b[1..], id);
    }
  }

  /** The dialog's state and the `employees` table it writes. */
  class EmployeeDialog {
    var table: seq<Row>
    var editing: Option<Employee>
    var form: FormData
    var errors: FormErrors
    var loading: bool

    constructor(rows: seq<Row>)
      ensures table == rows && editing.None? && form == FormData("", "", "", 1) && errors == NoErrors && !loading
    {
      table := rows;
      editing := None;
      form := FormData("", "", "", 1);
      errors := NoErrors;
      loading := false;
    }

    /**
     * The reset effect when the dialog opens (or its employee changes): editing copies the employee's
     * four fields, adding starts from empty fields and group 1; the errors are cleared.
     */
    method Open(employee: Option<Employee>)
      modifies this
      ensures editing == employee && errors == NoErrors
      ensures employee.Some? ==> form == FormData(employee.value.firstName, employee.value.lastName,
                                                  employee.value.email, employee.value.workGroup)
      ensures employee.None? ==> form == FormData("", "", "", 1)
      ensures table == old(table) && loading == old(loading)
    {
      editing := employee;
      if employee.Some? {
        form := FormData(employee.value.firstName, employee.value.lastName, employee.value.email, employee.value.workGroup);
      } else {
        form := FormData("", "", "", 1);
      }
      errors := NoErrors;
    }

    /**
     * What `handleSubmit` does to the dialog and the table. An invalid form records its messages and
     * writes nothing. Editing updates the employee's row; `firstError` is the update's failure. Adding
     * inserts a row with a null `user_id`; if that fails (`firstError`), the same row is inserted once
     * more with the placeholder id, and `retryError` is that insert's failure. `saved` says whether
     * `onSubmit` was called; a failure shows only the mapped submit message.
     */
    twostate predicate SubmitEffect(newId: string, firstError: Option<string>, retryError: Option<string>, saved: bool)
      reads this
    {
      editing == old(editing) && form == old(form)
      && (!FormValid(form) ==>
            !saved && table == old(table) && ReportsErrors(form, errors) && errors != NoErrors && loading == old(loading))
      && (FormValid(form) && editing.Some? ==>
            !loading
            && (firstError.None? ==> saved && errors == NoErrors && table == UpdateRows(old(table), editing.value.id, form))
            && (firstError.Some? ==>
                  !saved && table == old(table) && errors == NoErrors.(submit := Some(SubmitMessage(firstError.value)))))
      && (FormValid(form) && editing.None? ==>
            !loading
            && (firstError.None? ==>
                  saved && errors == NoErrors
                  && table == old(table) + [Row(newId, form.firstName, form.lastName, form.email, form.workGroup, None)])
            && (firstError.Some? && retryError.None? ==>
                  saved && errors == NoErrors
                  && table == old(table) + [Row(newId, form.firstName, form.lastName, form.email, form.workGroup, Some(ZeroUuid))])
            && (firstError.Some? && retryError.Some? ==>
                  !saved && table == old(table) && errors == NoErrors.(submit := Some(SubmitMessage(retryError.value)))))
    }

    /** `handleSubmit`, with the remote writes' outcomes as parameters. */
    method Submit(newId: string, firstError: Option<string>, retryError: Option<string>) returns (saved: bool)
      modifies this
      ensures SubmitEffect(newId, firstError, retryError, saved)
    {
      var found, ok := ValidateForm(form);
      errors := found;
      if !ok {
        saved := false;
        return;
      }
      loading := true;
      var failure: Option<string> := None;
      if editing.Some? {
        if firstError.None? {
          table := UpdateRows(table, editing.value.id, form);
        } else {
          failure := firstError;
        }
      } else {
        if firstError.None? {
          table := table + [Row(newId, form.firstName, form.lastName, form.email, form.workGroup, None)];
        } else if retryError.None? {
          table := table + [Row(newId, form.firstName, form.lastName, form.email, form.workGroup, Some(ZeroUuid))];
        } else {
          failure := retryError;
        }
      }
      if failure.Some? {
        errors := NoErrors.(submit := Some(SubmitMessage(failure.value)));
        saved := false;
      } else {
        saved := true;
      }
      loading := false;
    }

    /** `handleKeyPress`: Enter without Shift submits the form; any other key does nothing. */
    method KeyPress(key: string, shift: bool, newId: string, firstError: Option<string>, retryError: Option<string>)
      returns (saved: bool)
      modifies this
      ensures !(key == "Enter" && !shift) ==>
                !saved && table == old(table) && form == old(form) && errors == old(errors) && loading == old(loading)
                && editing == old(editing)
      ensures key == "Enter" && !shift ==> SubmitEffect(newId, firstError, retryError, saved)
    {
      if key == "Enter" && !shift {
        saved := Submit(newId, firstError, retryError);
      } else {
        saved := false;
      }
    }
  }
}
