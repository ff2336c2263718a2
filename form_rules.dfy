/** What the three admin dialogs (add-staff-form.jsx, add-student-form.jsx,
    add-security-form.jsx) share: the "required" messages, the e-mail pattern
    /^[^\s@]+@[^\s@]+\.[^\s@]+$/, the password rules, the error list they build, and the
    submit gate of `handleSubmit`. Each form module states its own field order and labels. */
module FormRules {
  import opened Wrappers
  import opened JsText
  import opened Collections

  /** A toast: its title, its description and whether it is the destructive variant. */
  datatype Toast = Toast(title: string, description: string, destructive: bool)

  /** A form field and the name its "required" message uses. */
  datatype Field = Field(name: string, value: string)

  function RequiredMessage(name: string): string {
    name + " is required"
  }

  /** `if (!value) errors.push("<name> is required")` for one field. */
  function Required(f: Field): (errs: seq<string>)
    ensures errs == [] <==> f.value != ""
    ensures forall m :: m in errs ==> m == RequiredMessage(f.name)
    ensures "Email is invalid" !in errs && "Passwords do not match" !in errs
    ensures "Password must be at least 6 characters" !in errs
  {
    if f.value == "" then
      var m := RequiredMessage(f.name);
      assert m[|m| - 1] == 'd' && m[|m| - 2] == 'e' && m[|m| - 3] == 'r';
      [m]
    else []
  }

  /** No error is one of the messages the form states its own condition for. */
  predicate OnlyRequiredMessages(errs: seq<string>) {
    "Email is invalid" !in errs && "Passwords do not match" !in errs
    && "Password must be at least 6 characters" !in errs
  }

  // ---------------------------------------------------------------------------------------
  // The e-mail pattern.

  /** `[^\s@]`. */
  predicate PatternChar(c: char) {
    !IsSpace(c) && c != '@'
  }

  /** `[^\s@]+`. */
  predicate PatternRun(s: string) {
    |s| > 0 && forall k :: 0 <= k < |s| ==> PatternChar(s[k])
  }

  /** The anchored pattern: a run, "@", a run, ".", a run. */
  ghost predicate MatchesEmailPattern(s: string) {
    exists i, j :: 0 < i < j < |s| - 1 && s[i] == '@' && s[j] == '.'
                   && PatternRun(s[..i]) && PatternRun(s[i + 1..j]) && PatternRun(s[j + 1..])
  }

  predicate IsAt(c: char) {
    c == '@'
  }

  /** The test the validators run, read left to right: no white space, a non-empty part before
      the first "@", no second "@", and a "." after it with at least one character on each
      side. */
  predicate EmailTest(s: string) {
    && (forall k :: 0 <= k < |s| ==> !IsSpace(s[k]))
    && match FirstIndex(s, IsAt)
       case None => false
       case Some(at) =>
         && 0 < at
         && (forall k :: at < k < |s| ==> s[k] != '@')
         && (exists j :: at + 1 < j < |s| - 1 && s[j] == '.')
  }

  lemma EmailTestSound(s: string)
    requires EmailTest(s)
    ensures MatchesEmailPattern(s)
  {
    var at := FirstIndex(s, IsAt).value;
    var j :| at + 1 < j < |s| - 1 && s[j] == '.';
    assert PatternRun(s[..at]);
    assert PatternRun(s[at + 1..j]);
    assert PatternRun(s[j + 1..]);
  }

  /** The characters of a run, read in place. */
  lemma RunChars(s: string, lo: nat, hi: nat)
    requires lo <= hi <= |s| && PatternRun(s[lo..hi])
    ensures forall k :: lo <= k < hi ==> PatternChar(s[k])
  {
    forall k | lo <= k < hi ensures PatternChar(s[k]) {
      assert s[k] == s[lo..hi][k - lo];
    }
  }

  /** The test accepts a string split at `i` and `j` the way the pattern splits it. */
  lemma EmailTestAt(s: string, i: nat, j: nat)
    requires 0 < i < j < |s| - 1 && s[i] == '@' && s[j] == '.'
    requires PatternRun(s[..i]) && PatternRun(s[i + 1..j]) && PatternRun(s[j + 1..])
    ensures EmailTest(s)
  {
    assert s[..i] == s[0..i] && s[j + 1..] == s[j + 1..|s|];
    RunChars(s, 0, i);
    RunChars(s, i + 1, j);
    RunChars(s, j + 1, |s|);
    FirstIndexAt(s, IsAt, i);
  }

  lemma EmailTestComplete(s: string)
    requires MatchesEmailPattern(s)
    ensures EmailTest(s)
  {
    var i, j :| 0 < i < j < |s| - 1 && s[i] == '@' && s[j] == '.'
                && PatternRun(s[..i]) && PatternRun(s[i + 1..j]) && PatternRun(s[j + 1..]);
    EmailTestAt(s, i, j);
  }

  /** The test the validators run accepts exactly the strings the pattern matches. */
  lemma EmailTestMatchesPattern(s: string)
    ensures EmailTest(s) <==> MatchesEmailPattern(s)
  {
    if EmailTest(s) {
      EmailTestSound(s);
    }
    if MatchesEmailPattern(s) {
      EmailTestComplete(s);
    }
  }

  // ---------------------------------------------------------------------------------------
  // The error list.

  function EmailErrors(email: string): seq<string> {
    if email == "" then ["Email is required"]
    else if !EmailTest(email) then ["Email is invalid"]
    else []
  }

  /** The length is JavaScript's, in UTF-16 code units. */
  function PasswordErrors(password: string): seq<string> {
    if password == "" then ["Password is required"]
    else if Utf16Length(password) < 6 then ["Password must be at least 6 characters"]
    else []
  }

  function MismatchErrors(password: string, confirm: string): seq<string> {
    if password != confirm then ["Passwords do not match"] else []
  }

  /** What an admin dialog's list means, given that it is made of the "required" messages
      `required` and the e-mail's, the password's and the confirmation's messages: the format
      message iff a non-empty e-mail fails the pattern, the mismatch message iff the two
      passwords differ, the length message iff a non-empty password is shorter than six, and
      no message at all iff every required field is filled, the e-mail matches, and the
      password is long enough and confirmed. */
  lemma AdminFormErrorsMeaning(errs: seq<string>, required: seq<string>, email: string, password: string, confirm: string)
    requires OnlyRequiredMessages(required)
    requires forall m :: m in errs <==>
      m in required || m in EmailErrors(email) || m in PasswordErrors(password) || m in MismatchErrors(password, confirm)
    requires |errs| == |required| + |EmailErrors(email)| + |PasswordErrors(password)| + |MismatchErrors(password, confirm)|
    ensures "Email is invalid" in errs <==> email != "" && !MatchesEmailPattern(email)
    ensures "Passwords do not match" in errs <==> password != confirm
    ensures "Password must be at least 6 characters" in errs <==> password != "" && Utf16Length(password) < 6
    ensures errs == [] <==>
      required == [] && MatchesEmailPattern(email) && Utf16Length(password) >= 6 && password == confirm
  {
    EmailTestMatchesPattern(email);
  }

  // ---------------------------------------------------------------------------------------
  // The submit gate.

  /** The dialog's observable effects: the toasts shown, every `setLoading` call in order, and
      how often `onClose` was called. */
  class Dialog {
    var toasts: seq<Toast>
    var loadingWrites: seq<bool>
    var closeCalls: nat

    constructor ()
      ensures toasts == [] && loadingWrites == [] && closeCalls == 0
    {
      toasts, loadingWrites, closeCalls := [], [], 0;
    }

    /** `handleSubmit` after `validateForm`. */
    method Submit(errors: seq<string>, success: Toast)
      modifies this
      ensures Submitted(this, errors, success)
    {
      if |errors| > 0 {
        toasts := toasts + [Toast("Validation Error", Join(errors, ". "), true)];
        return;
      }
      loadingWrites := loadingWrites + [true];
      toasts := toasts + [success];
      closeCalls := closeCalls + 1;
      loadingWrites := loadingWrites + [false];
    }
  }

  /** The effect of the submit gate: any error shows them joined by ". " and returns before
      the loading flag is touched; otherwise the simulated request (which cannot fail) runs
      between `setLoading(true)` and `setLoading(false)`, the success toast is shown and the
      dialog closes. */
  twostate predicate Submitted(d: Dialog, new errors: seq<string>, new success: Toast)
    reads d
  {
    && (|errors| > 0 ==>
         && d.toasts == old(d.toasts) + [Toast("Validation Error", Join(errors, ". "), true)]
         && d.loadingWrites == old(d.loadingWrites) && d.closeCalls == old(d.closeCalls))
    && (|errors| == 0 ==>
         && d.toasts == old(d.toasts) + [success]
         && d.loadingWrites == old(d.loadingWrites) + [true, false] && d.closeCalls == old(d.closeCalls) + 1)
  }
}
