/** frontend/client/src/pages/register.jsx: the registration page's `validateForm` guard chain
    and `handleRegister`. The page only simulates the request, so a valid form always ends
    in the success toast and a redirect to /login. */
module RegisterPage {
  import opened Wrappers
  import opened FormRules

  const MissingFields := Toast("Missing fields", "Please fill in all fields", true)
  const PasswordMismatch := Toast("Password mismatch", "Passwords do not match", true)
  const Registered := Toast("Registration successful", "Your account has been created.", false)

  /** The toast `validateForm` shows, or None when it returns true: the missing-field check
      comes first, so at most one of the two messages is ever shown, and there is no length
      or format check. */
  function Rejection(name: string, email: string, phone: string, password: string, confirmPassword: string): (r: Option<Toast>)
    ensures r == None <==>
      name != "" && email != "" && phone != "" && password != "" && confirmPassword != ""
      && password == confirmPassword
    ensures r == Some(MissingFields) <==>
      name == "" || email == "" || phone == "" || password == "" || confirmPassword == ""
    ensures r == Some(PasswordMismatch) <==>
      name != "" && email != "" && phone != "" && password != "" && confirmPassword != ""
      && password != confirmPassword
  {
    if name == "" || email == "" || phone == "" || password == "" || confirmPassword == "" then
      Some(MissingFields)
    else if password != confirmPassword then
      Some(PasswordMismatch)
    else
      None
  }

  class Register {
    var name: string
    var email: string
    var phone: string
    var password: string
    var confirmPassword: string
    var toasts: seq<Toast>
    var loadingWrites: seq<bool>
    var navigations: seq<string>

    constructor ()
      ensures name == "" && email == "" && phone == "" && password == "" && confirmPassword == ""
      ensures toasts == [] && loadingWrites == [] && navigations == []
    {
      name, email, phone, password, confirmPassword := "", "", "", "", "";
      toasts, loadingWrites, navigations := [], [], [];
    }

    function Verdict(): Option<Toast>
      reads this
    {
      Rejection(name, email, phone, password, confirmPassword)
    }

    method ValidateForm() returns (ok: bool)
      modifies this`toasts
      ensures ok <==> old(Verdict()).None?
      ensures toasts == old(toasts) + (if ok then [] else [old(Verdict()).value])
    {
      if name == "" || email == "" || phone == "" || password == "" || confirmPassword == "" {
        toasts := toasts + [MissingFields];
        return false;
      }
      if password != confirmPassword {
        toasts := toasts + [PasswordMismatch];
        return false;
      }
      return true;
    }

    /** `handleRegister`: a rejected form returns before the loading flag is set; an
        accepted one shows the success toast and navigates to /login while loading. */
    method HandleRegister()
      modifies this`toasts, this`loadingWrites, this`navigations
      ensures old(Verdict()).Some? ==>
        toasts == old(toasts) + [old(Verdict()).value]
        && loadingWrites == old(loadingWrites) && navigations == old(navigations)
      ensures old(Verdict()).None? ==>
        toasts == old(toasts) + [Registered]
        && loadingWrites == old(loadingWrites) + [true, false] && navigations == old(navigations) + ["/login"]
    {
      var ok := ValidateForm();
      if !ok {
        return;
      }
      loadingWrites := loadingWrites + [true];
      toasts := toasts + [Registered];
      navigations := navigations + ["/login"];
      loadingWrites := loadingWrites + [false];
    }
  }
}
