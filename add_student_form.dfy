/** frontend/client/src/components/admin/add-student-form.jsx: `validateForm` and the submit gate
    of `handleSubmit`. Every input starts as "" and holds a string, so a falsy field is an
    empty one. */
module AddStudentForm {
  import opened JsText
  import opened FormRules

  datatype StudentForm = StudentForm(
    sinNumber: string, email: string, name: string, phone: string, dob: string,
    address: string, department: string, year: string, studentType: string, password: string,
    confirmPassword: string)

  /** The list `validateForm` builds, message by message in the order of the checks. */
  function StudentFormErrors(f: StudentForm): seq<string> {
    Required(Field("SIN Number", f.sinNumber)) + EmailErrors(f.email)
    + Required(Field("Name", f.name))
    + Required(Field("Phone Number", f.phone))
    + Required(Field("Date of Birth", f.dob))
    + Required(Field("Address", f.address))
    + Required(Field("Department", f.department))
    + Required(Field("Year", f.year))
    + Required(Field("Student Type", f.studentType))
    + PasswordErrors(f.password) + MismatchErrors(f.password, f.confirmPassword)
  }

  /** The "required" messages among them. */
  function RequiredErrors(f: StudentForm): seq<string> {
    Required(Field("SIN Number", f.sinNumber))
    + Required(Field("Name", f.name))
    + Required(Field("Phone Number", f.phone))
    + Required(Field("Date of Birth", f.dob))
    + Required(Field("Address", f.address))
    + Required(Field("Department", f.department))
    + Required(Field("Year", f.year))
    + Required(Field("Student Type", f.studentType))
  }

  /** Every field other than the e-mail and the passwords is non-empty. */
  predicate Filled(f: StudentForm) {
    f.sinNumber != "" && f.name != "" && f.phone != "" && f.dob != "" && f.address != ""
    && f.department != "" && f.year != "" && f.studentType != ""
  }

  /** What the list means: the e-mail, length and mismatch messages under exactly their
      conditions, and no message at all iff the whole form is valid. */
  lemma StudentFormErrorsMeaning(f: StudentForm)
    ensures var errors := StudentFormErrors(f);
      && (errors == [] <==>
          Filled(f) && MatchesEmailPattern(f.email) && Utf16Length(f.password) >= 6 && f.password == f.confirmPassword)
      && ("Email is invalid" in errors <==> f.email != "" && !MatchesEmailPattern(f.email))
      && ("Passwords do not match" in errors <==> f.password != f.confirmPassword)
      && ("Password must be at least 6 characters" in errors <==> f.password != "" && Utf16Length(f.password) < 6)
  {
    AdminFormErrorsMeaning(StudentFormErrors(f), RequiredErrors(f), f.email, f.password, f.confirmPassword);
  }

  method ValidateForm(f: StudentForm) returns (errors: seq<string>)
    ensures errors == StudentFormErrors(f)
    ensures errors == [] <==>
      Filled(f) && MatchesEmailPattern(f.email) && Utf16Length(f.password) >= 6 && f.password == f.confirmPassword
    ensures "Email is invalid" in errors <==> f.email != "" && !MatchesEmailPattern(f.email)
    ensures "Passwords do not match" in errors <==> f.password != f.confirmPassword
    ensures "Password must be at least 6 characters" in errors <==> f.password != "" && Utf16Length(f.password) < 6
  {
    // each `if (!field) errors.push("<Field> is required")` is one Required step
    errors := Required(Field("SIN Number", f.sinNumber));
    ghost var before := errors;
    if f.email == "" { errors := errors + ["Email is required"]; }
    else if !EmailTest(f.email) { errors := errors + ["Email is invalid"]; }
    assert errors == before + EmailErrors(f.email);
    errors := errors + Required(Field("Name", f.name));
    errors := errors + Required(Field("Phone Number", f.phone));
    errors := errors + Required(Field("Date of Birth", f.dob));
    errors := errors + Required(Field("Address", f.address));
    errors := errors + Required(Field("Department", f.department));
    errors := errors + Required(Field("Year", f.year));
    errors := errors + Required(Field("Student Type", f.studentType));
    before := errors;
    if f.password == "" { errors := errors + ["Password is required"]; }
    else if Utf16Length(f.password) < 6 { errors := errors + ["Password must be at least 6 characters"]; }
    assert errors == before + PasswordErrors(f.password);
    before := errors;
    if f.password != f.confirmPassword { errors := errors + ["Passwords do not match"]; }
    assert errors == before + MismatchErrors(f.password, f.confirmPassword);
    StudentFormErrorsMeaning(f);
  }

  method HandleSubmit(dialog: Dialog, f: StudentForm)
    modifies dialog
    ensures Submitted(dialog, StudentFormErrors(f), Toast("Student added", "Student account has been created successfully.", false))
  {
    var errors := ValidateForm(f);
    dialog.Submit(errors, Toast("Student added", "Student account has been created successfully.", false));
  }
}
