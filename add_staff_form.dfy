/** frontend/client/src/components/admin/add-staff-form.jsx: `validateForm` and the submit gate
    of `handleSubmit`. Every input starts as "" and holds a string, so a falsy field is an
    empty one. */
module AddStaffForm {
  import opened JsText
  import opened FormRules

  datatype StaffForm = StaffForm(
    staffId: string, email: string, name: string, phone: string, dob: string,
    address: string, department: string, designation: string, role: string, qualification: string,
    experience: string, password: string, confirmPassword: string)

  /** The list `validateForm` builds, message by message in the order of the checks. */
  function StaffFormErrors(f: StaffForm): seq<string> {
    Required(Field("Staff ID", f.staffId)) + EmailErrors(f.email)
    + Required(Field("Name", f.name))
    + Required(Field("Phone Number", f.phone))
    + Required(Field("Date of Birth", f.dob))
    + Required(Field("Address", f.address))
    + Required(Field("Department", f.department))
    + Required(Field("Designation", f.designation))
    + Required(Field("Role", f.role))
    + Required(Field("Qualification", f.qualification))
    + Required(Field("Experience", f.experience))
    + PasswordErrors(f.password) + MismatchErrors(f.password, f.confirmPassword)
  }

  /** The "required" messages among them. */
  function RequiredErrors(f: StaffForm): seq<string> {
    Required(Field("Staff ID", f.staffId))
    + Required(Field("Name", f.name))
    + Required(Field("Phone Number", f.phone))
    + Required(Field("Date of Birth", f.dob))
    + Required(Field("Address", f.address))
    + Required(Field("Department", f.department))
    + Required(Field("Designation", f.designation))
    + Required(Field("Role", f.role))
    + Required(Field("Qualification", f.qualification))
    + Required(Field("Experience", f.experience))
  }

  /** Every field other than the e-mail and the passwords is non-empty. */
  predicate Filled(f: StaffForm) {
    f.staffId != "" && f.name != "" && f.phone != "" && f.dob != "" && f.address != ""
    && f.department != "" && f.designation != "" && f.role != "" && f.qualification != "" && f.experience != ""
  }

  /** What the list means: the e-mail, length and mismatch messages under exactly their
      conditions, and no message at all iff the whole form is valid. */
  lemma StaffFormErrorsMeaning(f: StaffForm)
    ensures var errors := StaffFormErrors(f);
      && (errors == [] <==>
          Filled(f) && MatchesEmailPattern(f.email) && Utf16Length(f.password) >= 6 && f.password == f.confirmPassword)
      && ("Email is invalid" in errors <==> f.email != "" && !MatchesEmailPattern(f.email))
      && ("Passwords do not match" in errors <==> f.password != f.confirmPassword)
      && ("Password must be at least 6 characters" in errors <==> f.password != "" && Utf16Length(f.password) < 6)
  {
    AdminFormErrorsMeaning(StaffFormErrors(f), RequiredErrors(f), f.email, f.password, f.confirmPassword);
  }

  method ValidateForm(f: StaffForm) returns (errors: seq<string>)
    ensures errors == StaffFormErrors(f)
    ensures errors == [] <==>
      Filled(f) && MatchesEmailPattern(f.email) && Utf16Length(f.password) >= 6 && f.password == f.confirmPassword
    ensures "Email is invalid" in errors <==> f.email != "" && !MatchesEmailPattern(f.email)
    ensures "Passwords do not match" in errors <==> f.password != f.confirmPassword
    ensures "Password must be at least 6 characters" in errors <==> f.password != "" && Utf16Length(f.password) < 6
  {
    // each `if (!field) errors.push("<Field> is required")` is one Required step
    errors := Required(Field("Staff ID", f.staffId));
    ghost var before := errors;
    if f.email == "" { errors := errors + ["Email is required"]; }
    else if !EmailTest(f.email) { errors := errors + ["Email is invalid"]; }
    assert errors == before + EmailErrors(f.email);
    errors := errors + Required(Field("Name", f.name));
    errors := errors + Required(Field("Phone Number", f.phone));
    errors := errors + Required(Field("Date of Birth", f.dob));
    errors := errors + Required(Field("Address", f.address));
    errors := errors + Required(Field("Department", f.department));
    errors := errors + Required(Field("Designation", f.designation));
    errors := errors + Required(Field("Role", f.role));
    errors := errors + Required(Field("Qualification", f.qualification));
    errors := errors + Required(Field("Experience", f.experience));
    before := errors;
    if f.password == "" { errors := errors + ["Password is required"]; }
    else if Utf16Length(f.password) < 6 { errors := errors + ["Password must be at least 6 characters"]; }
    assert errors == before + PasswordErrors(f.password);
    before := errors;
    if f.password != f.confirmPassword { errors := errors + ["Passwords do not match"]; }
    assert errors == before + MismatchErrors(f.password, f.confirmPassword);
    StaffFormErrorsMeaning(f);
  }

  method HandleSubmit(dialog: Dialog, f: StaffForm)
    modifies dialog
    ensures Submitted(dialog, StaffFormErrors(f), Toast("Staff added", "Staff account has been created successfully.", false))
  {
    var errors := ValidateForm(f);
    dialog.Submit(errors, Toast("Staff added", "Staff account has been created successfully.", false));
  }
}
