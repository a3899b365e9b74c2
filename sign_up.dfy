/** frontend/Task-manager/src/pages/Auth/SignUp.jsx: the registration form.
    The form fields, the error messages and whether the invite-token field
    is shown are the fields of a `SignUpPage`. validateForm collects one
    message per failing field; handleSubmit builds the request body from the
    form. The image upload is a network call and enters as its result. */
module SignUp {
  import opened Common
  import Helper
  import AuthController

  const NameRequired := "Name is required"
  const NameTooShort := "Name must be at least 2 characters"
  const EmailRequired := "Email is required"
  const EmailInvalid := "Please enter a valid email address"
  const PasswordRequired := "Password is required"
  const ConfirmRequired := "Please confirm your password"
  const PasswordsDiffer := "Passwords do not match"

  /** The input names of the form, the keys of `formData` and `errors`. */
  datatype Field = Name | Email | Password | ConfirmPassword | AdminInviteToken

  datatype Form = Form(name: string, email: string, password: string, confirmPassword: string, adminInviteToken: string)

  const EmptyForm := Form("", "", "", "", "")

  function GetField(form: Form, f: Field): string {
    match f
    case Name => form.name
    case Email => form.email
    case Password => form.password
    case ConfirmPassword => form.confirmPassword
    case AdminInviteToken => form.adminInviteToken
  }

  /** `{ ...prev, [name]: value }` */
  function SetField(form: Form, f: Field, value: string): (r: Form)
    ensures GetField(r, f) == value
    ensures forall g :: g != f ==> GetField(r, g) == GetField(form, g)
  {
    match f
    case Name => form.(name := value)
    case Email => form.(email := value)
    case Password => form.(password := value)
    case ConfirmPassword => form.(confirmPassword := value)
    case AdminInviteToken => form.(adminInviteToken := value)
  }

  /** The checks of validateForm, field by field, each in its source order.
      `!s.trim()` holds exactly for a string of white space only
      (Common.TrimEmptyIffAllSpace), which is how the blank checks are
      written here. */
  function NameError(name: string): (r: Option<string>)
    ensures r.None? <==> |Trim(name)| >= 2
    ensures r.Some? ==> r.value == NameRequired || r.value == NameTooShort
  {
    TrimEmptyIffAllSpace(name);
    if AllSpace(name) then Some(NameRequired)
    else if |Trim(name)| < 2 then Some(NameTooShort)
    else None
  }

  function EmailError(email: string): (r: Option<string>)
    ensures r.None? <==> Helper.ValidateEmail(email)
    ensures r.Some? ==> r.value == EmailRequired || r.value == EmailInvalid
  {
    if AllSpace(email) then Some(EmailRequired)
    else if !Helper.ValidateEmail(email) then Some(EmailInvalid)
    else None
  }

  function PasswordError(password: string): (r: Option<string>)
    ensures r.None? <==> Helper.StrongPassword(password)
    ensures r.Some? ==> r.value == PasswordRequired || r.value == Helper.ValidatePassword(password).message
  {
    if password == "" then Some(PasswordRequired)
    else if !Helper.ValidatePassword(password).isValid then Some(Helper.ValidatePassword(password).message)
    else None
  }

  function ConfirmError(password: string, confirmPassword: string): (r: Option<string>)
    ensures r.None? ==> confirmPassword == password
    ensures r.Some? ==> r.value == ConfirmRequired || r.value == PasswordsDiffer
  {
    if confirmPassword == "" then Some(ConfirmRequired)
    else if password != confirmPassword then Some(PasswordsDiffer)
    else None
  }

  /** The `newErrors` object built from the outcomes of the four checks. */
  function ErrorMap(name: Option<string>, email: Option<string>, password: Option<string>, confirm: Option<string>): map<Field, string> {
    WithError(WithError(WithError(WithError(map[], Name, name), Email, email), Password, password), ConfirmPassword, confirm)
  }

  /** The outcome that belongs to a field; the invite token is not checked. */
  function PickError(name: Option<string>, email: Option<string>, password: Option<string>, confirm: Option<string>, f: Field): Option<string> {
    match f
    case Name => name
    case Email => email
    case Password => password
    case ConfirmPassword => confirm
    case AdminInviteToken => None
  }

  /** Each key of the object is a failing field with its own message: at
      most one message per field, and none for the invite token. */
  lemma ErrorMapAt(name: Option<string>, email: Option<string>, password: Option<string>, confirm: Option<string>, f: Field)
    ensures f in ErrorMap(name, email, password, confirm) <==> PickError(name, email, password, confirm, f).Some?
    ensures f in ErrorMap(name, email, password, confirm) ==>
      ErrorMap(name, email, password, confirm)[f] == PickError(name, email, password, confirm, f).value
  {
  }

  /** The body of validateForm: starting from an empty object, each failing
      check in turn adds its message under its field. */
  method CollectErrors(name: Option<string>, email: Option<string>, password: Option<string>, confirm: Option<string>)
    returns (newErrors: map<Field, string>)
    ensures newErrors == ErrorMap(name, email, password, confirm)
  {
    newErrors := map[];
    if name.Some? {
      newErrors := newErrors[Name := name.value];
    }
    if email.Some? {
      newErrors := newErrors[Email := email.value];
    }
    if password.Some? {
      newErrors := newErrors[Password := password.value];
    }
    if confirm.Some? {
      newErrors := newErrors[ConfirmPassword := confirm.value];
    }
  }

  function FieldError(form: Form, f: Field): Option<string> {
    PickError(NameError(form.name), EmailError(form.email), PasswordError(form.password),
              ConfirmError(form.password, form.confirmPassword), f)
  }

  function FormErrors(form: Form): map<Field, string> {
    ErrorMap(NameError(form.name), EmailError(form.email), PasswordError(form.password),
             ConfirmError(form.password, form.confirmPassword))
  }

  lemma FormErrorsAt(form: Form, f: Field)
    ensures f in FormErrors(form) <==> FieldError(form, f).Some?
    ensures f in FormErrors(form) ==> FormErrors(form)[f] == FieldError(form, f).value
  {
    ErrorMapAt(NameError(form.name), EmailError(form.email), PasswordError(form.password),
               ConfirmError(form.password, form.confirmPassword), f);
  }

  /** What each check accepts, and the first message of each. */
  lemma NameErrorMeaning(name: string)
    ensures NameError(name).None? <==> |Trim(name)| >= 2
    ensures Trim(name) == "" ==> NameError(name) == Some(NameRequired)
  {
    TrimEmptyIffAllSpace(name);
  }

  lemma EmailErrorMeaning(email: string)
    ensures EmailError(email).None? <==> Helper.ValidateEmail(email)
    ensures Trim(email) == "" ==> EmailError(email) == Some(EmailRequired)
  {
    TrimEmptyIffAllSpace(email);
    if Helper.ValidateEmail(email) {
      ValidEmailIsTrimmed(email);
    }
  }

  lemma PasswordErrorMeaning(password: string)
    ensures PasswordError(password).None? <==> Helper.StrongPassword(password)
    ensures password != "" && !Helper.StrongPassword(password) ==>
      PasswordError(password) == Some(Helper.ValidatePassword(password).message)
  {
  }

  lemma ConfirmErrorMeaning(password: string, confirmPassword: string)
    ensures ConfirmError(password, confirmPassword).None? <==> confirmPassword != "" && confirmPassword == password
  {
  }

  /** A valid email has no white space at either end. */
  lemma ValidEmailIsTrimmed(email: string)
    requires Helper.ValidateEmail(email)
    ensures Trim(email) == email && email != ""
  {
    Helper.ValidEmailHasShape(email);
    var i, j :| 0 < i && i + 1 < j && j + 1 < |email| && email[i] == '@' && email[j] == '.'
      && Helper.AllPlain(email[..i]) && Helper.AllPlain(email[i + 1..j]) && Helper.AllPlain(email[j + 1..]);
    assert email[..i][0] == email[0];
    assert email[j + 1..][|email| - j - 2] == email[|email| - 1];
    assert TrimStart(email) == email;
    assert TrimEnd(email) == email;
  }

  /** The form passes exactly when the trimmed name has two characters or
      more, the email is valid, the password strong and repeated exactly. */
  lemma FormAcceptedIff(form: Form)
    ensures FormErrors(form) == map[] <==>
      |Trim(form.name)| >= 2 && Helper.ValidateEmail(form.email)
      && Helper.StrongPassword(form.password) && form.confirmPassword == form.password
  {
    NameErrorMeaning(form.name);
    EmailErrorMeaning(form.email);
    PasswordErrorMeaning(form.password);
    ConfirmErrorMeaning(form.password, form.confirmPassword);
    FormErrorsAt(form, Name);
    FormErrorsAt(form, Email);
    FormErrorsAt(form, Password);
    FormErrorsAt(form, ConfirmPassword);
    FormErrorsAt(form, AdminInviteToken);
    if FormErrors(form) != map[] {
      var f :| f in FormErrors(form);
    }
  }

  /** The request body of handleSubmit. */
  datatype Payload = Payload(name: string, email: string, password: string,
                             profileImageUrl: Option<string>, adminInviteToken: Option<string>)

  /** The body starts with the trimmed name and email and the password as
      typed; the image URL is added when the upload returned a truthy one,
      the trimmed token when its field is shown and it is not blank. */
  method BuildPayload(form: Form, profileImageUrl: Option<string>, showAdminField: bool) returns (p: Payload)
    ensures p.name == Trim(form.name) && p.email == Trim(form.email) && p.password == form.password
    ensures p.profileImageUrl.Some? <==> Truthy(profileImageUrl)
    ensures p.profileImageUrl.Some? ==> p.profileImageUrl == profileImageUrl
    ensures p.adminInviteToken.Some? <==> showAdminField && Trim(form.adminInviteToken) != ""
    ensures p.adminInviteToken.Some? ==> p.adminInviteToken.value == Trim(form.adminInviteToken)
  {
    p := Payload(Trim(form.name), Trim(form.email), form.password, None, None);
    if Truthy(profileImageUrl) {
      p := p.(profileImageUrl := profileImageUrl);
    }
    if showAdminField && Trim(form.adminInviteToken) != "" {
      p := p.(adminInviteToken := Some(Trim(form.adminInviteToken)));
    }
  }

  /** The body as the registration handler destructures it: the token is
      sent as `adminInviteToken` and read as `adminviteToken`, so it
      arrives as absent. */
  function AsRegisterBody(p: Payload): (b: AuthController.RegisterBody)
    ensures b.adminviteToken.None?
    ensures b.name == Some(p.name) && b.email == Some(p.email) && b.password == Some(p.password)
  {
    AuthController.RegisterBody(Some(p.name), Some(p.email), Some(p.password), p.profileImageUrl, None)
  }

  /** A form that passes validation passes the server's required-fields
      check, and its email is sent exactly as typed. */
  lemma AcceptedFormPassesServerCheck(form: Form, p: Payload)
    requires FormErrors(form) == map[]
    requires p.name == Trim(form.name) && p.email == Trim(form.email) && p.password == form.password
    ensures Truthy(AsRegisterBody(p).name) && Truthy(AsRegisterBody(p).email) && Truthy(AsRegisterBody(p).password)
    ensures p.email == form.email
  {
    FormAcceptedIff(form);
    ValidEmailIsTrimmed(form.email);
  }

  class SignUpPage {
    var form: Form
    var errors: map<Field, string>
    var showAdminField: bool

    constructor ()
      ensures form == EmptyForm && errors == map[] && !showAdminField
    {
      form := EmptyForm;
      errors := map[];
      showAdminField := false;
    }

    /** handleChange: one field takes the typed value; its error, if set,
        is cleared to '' and every other error stays. */
    method HandleChange(f: Field, value: string)
      modifies this
      ensures form == SetField(old(form), f, value)
      ensures errors == ClearError(old(errors), f)
      ensures showAdminField == old(showAdminField)
    {
      form := SetField(form, f, value);
      errors := ClearError(errors, f);
    }

    /** validateForm: each failing check adds its message under its field,
        in the order name, email, password, confirmation; the collected
        messages replace the error state and the result says whether there
        were none. */
    method ValidateForm() returns (ok: bool)
      modifies this
      ensures errors == FormErrors(form)
      ensures form == old(form) && showAdminField == old(showAdminField)
      ensures ok <==> errors == map[]
    {
      var newErrors := CollectErrors(NameError(form.name), EmailError(form.email), PasswordError(form.password),
                                     ConfirmError(form.password, form.confirmPassword));
      errors := newErrors;
      ok := newErrors == map[];
    }
  }
}
