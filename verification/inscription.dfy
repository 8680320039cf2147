/**
 * The sign-up page: a form whose inputs each update one field, a submit
 * handler that checks the passwords match and the username is long enough
 * before sending anything, a payload without the confirmation, and the
 * redirect by role once the account exists.
 */
module Inscription {
  import opened Common

  /** A chosen photo: its file name and the data URL `FileReader` yields. */
  datatype Photo = Photo(fileName: string, dataUrl: string)

  /** The `name` attributes of the page's text inputs. */
  datatype Field = Username | Email | Password | ConfirmPassword | Phone | City | TransportMode

  datatype SignUpForm = SignUpForm(
    username: string,
    email: string,
    password: string,
    confirmPassword: string,
    phone: string,
    city: string,
    transportmode: string,
    profilePhoto: Option<Photo>)

  const EmptyForm: SignUpForm := SignUpForm("", "", "", "", "", "", "", None)

  const MismatchError: string := "Les mots de passe ne correspondent pas !"
  const ShortUsernameError: string := "Le nom d'utilisateur doit contenir au moins 3 caractères"
  const GenericError: string := "Une erreur est survenue"
  const DefaultRegisterError: string := "Erreur lors de l'inscription"
  const AdminDashboard: string := "/Admin/Dashboard"
  const UserDashboard: string := "/User/Dashboard"

  /** `form[name]` */
  function Value(form: SignUpForm, f: Field): string {
    match f
    case Username => form.username
    case Email => form.email
    case Password => form.password
    case ConfirmPassword => form.confirmPassword
    case Phone => form.phone
    case City => form.city
    case TransportMode => form.transportmode
  }

  /** `{ ...form, [name]: value }` */
  function WithValue(form: SignUpForm, f: Field, v: string): (r: SignUpForm)
    ensures forall g :: Value(r, g) == if g == f then v else Value(form, g)
    ensures r.profilePhoto == form.profilePhoto
  {
    match f
    case Username => form.(username := v)
    case Email => form.(email := v)
    case Password => form.(password := v)
    case ConfirmPassword => form.(confirmPassword := v)
    case Phone => form.(phone := v)
    case City => form.(city := v)
    case TransportMode => form.(transportmode := v)
  }

  /** The fields and the photo determine the form. */
  lemma FormExtensionality(a: SignUpForm, b: SignUpForm)
    requires forall f :: Value(a, f) == Value(b, f)
    requires a.profilePhoto == b.profilePhoto
    ensures a == b
  {
    assert Value(a, Username) == Value(b, Username);
    assert Value(a, Email) == Value(b, Email);
    assert Value(a, Password) == Value(b, Password);
    assert Value(a, ConfirmPassword) == Value(b, ConfirmPassword);
    assert Value(a, Phone) == Value(b, Phone);
    assert Value(a, City) == Value(b, City);
    assert Value(a, TransportMode) == Value(b, TransportMode);
  }

  /** Typing the value a field already holds changes nothing, and of two
      edits of one field the later wins. */
  lemma WithValueLaws(form: SignUpForm, f: Field, v: string, w: string)
    ensures WithValue(form, f, Value(form, f)) == form
    ensures WithValue(WithValue(form, f, v), f, w) == WithValue(form, f, w)
  {
    FormExtensionality(WithValue(form, f, Value(form, f)), form);
    FormExtensionality(WithValue(WithValue(form, f, v), f, w), WithValue(form, f, w));
  }

  /** The checks `handleSubmit` makes before anything is sent, in order: the
      passwords first, then the username's length. */
  function ValidationError(form: SignUpForm): (r: Option<string>)
    ensures r == Some(MismatchError) <==> form.password != form.confirmPassword
    ensures r == Some(ShortUsernameError) <==> form.password == form.confirmPassword && |form.username| < 3
    ensures r.None? <==> form.password == form.confirmPassword && |form.username| >= 3
  {
    if form.password != form.confirmPassword then Some(MismatchError)
    else if |form.username| < 3 then Some(ShortUsernameError)
    else None
  }

  /** The object `authService.register` receives. */
  datatype Payload = Payload(
    username: string,
    email: string,
    password: string,
    phone: string,
    city: string,
    transportmode: string,
    profilePhotoUrl: Option<string>)

  /** The payload as the page evidently means to build it, the photo given
      as its data URL. */
  function PayloadOf(form: SignUpForm): Payload {
    Payload(form.username, form.email, form.password, form.phone, form.city, form.transportmode,
            if form.profilePhoto.Some? then Some(form.profilePhoto.value.dataUrl) else None)
  }

  /** The payload's value for a field, `None` for the confirmation it has
      no property for. */
  function PayloadValue(p: Payload, f: Field): Option<string> {
    match f
    case Username => Some(p.username)
    case Email => Some(p.email)
    case Password => Some(p.password)
    case ConfirmPassword => None
    case Phone => Some(p.phone)
    case City => Some(p.city)
    case TransportMode => Some(p.transportmode)
  }

  /** The payload carries every field but the confirmation, unchanged, and
      the confirmation never reaches the server. */
  lemma PayloadCarriesFields(form: SignUpForm, v: string)
    ensures forall f :: f != ConfirmPassword ==> PayloadValue(PayloadOf(form), f) == Some(Value(form, f))
    ensures PayloadValue(PayloadOf(form), ConfirmPassword).None?
    ensures PayloadOf(WithValue(form, ConfirmPassword, v)) == PayloadOf(form)
    ensures PayloadOf(form).profilePhotoUrl.Some? <==> form.profilePhoto.Some?
  {
    var edited := WithValue(form, ConfirmPassword, v);
    assert Value(edited, Username) == form.username;
    assert Value(edited, Email) == form.email;
    assert Value(edited, Password) == form.password;
    assert Value(edited, Phone) == form.phone;
    assert Value(edited, City) == form.city;
    assert Value(edited, TransportMode) == form.transportmode;
  }

  /** What one press of the submit button leads to before the server
      answers: an error shown, the handler throwing, or a payload sent. */
  datatype Step = Invalid(message: string) | Throws | Send(payload: Payload)

  /** The message the page shows after the step: a check's message, or the
      generic one when the handler throws. */
  function ShownError(step: Step): Option<string> {
    match step
    case Invalid(m) => Some(m)
    case Throws => Some(GenericError)
    case Send(_) => None
  }

  /** The handler as written: it calls `convertToBase64`, which nothing
      defines, whenever a photo was chosen, so it throws before sending. */
  function SubmitStepAsWritten(form: SignUpForm): (r: Step)
    ensures r.Invalid? <==> ValidationError(form).Some?
    ensures r == Throws <==> ValidationError(form).None? && form.profilePhoto.Some?
    ensures r.Send? ==> r.payload == PayloadOf(form) && form.profilePhoto.None?
  {
    match ValidationError(form)
    case Some(m) => Invalid(m)
    case None => if form.profilePhoto.Some? then Throws else Send(PayloadOf(form))
  }

  /** The handler as evidently intended: a valid form is always sent. */
  function SubmitStep(form: SignUpForm): Step {
    match ValidationError(form)
    case Some(m) => Invalid(m)
    case None => Send(PayloadOf(form))
  }

  /** As written, no valid form with a photo is ever sent: the user sees
      the generic error instead. */
  lemma PhotoNeverSentAsWritten(form: SignUpForm)
    requires ValidationError(form).None? && form.profilePhoto.Some?
    ensures SubmitStepAsWritten(form) == Throws && ShownError(SubmitStepAsWritten(form)) == Some(GenericError)
    ensures SubmitStep(form) == Send(PayloadOf(form))
  {
  }

  /** A concrete such form. */
  lemma PhotoCounterexample()
    ensures var form := SignUpForm("alice", "a@b.fr", "pw", "pw", "", "", "", Some(Photo("me.png", "data:image/png;base64,")));
      SubmitStepAsWritten(form) == Throws && SubmitStep(form).Send?
  {
    var form := SignUpForm("alice", "a@b.fr", "pw", "pw", "", "", "", Some(Photo("me.png", "data:image/png;base64,")));
    assert |form.username| == 5;
    PhotoNeverSentAsWritten(form);
  }

  /** The two handlers agree on every form without a photo. */
  lemma SubmitStepsAgreeWithoutPhoto(form: SignUpForm)
    requires form.profilePhoto.None?
    ensures SubmitStepAsWritten(form) == SubmitStep(form)
  {
  }

  /** The intended handler sends exactly the valid forms, with the payload
      above; an invalid form shows the first failing check's message. */
  lemma SubmitStepSpec(form: SignUpForm)
    ensures SubmitStep(form).Send? <==> ValidationError(form).None?
    ensures SubmitStep(form).Send? ==> SubmitStep(form).payload == PayloadOf(form)
    ensures form.password != form.confirmPassword ==> SubmitStep(form) == Invalid(MismatchError)
    ensures form.password == form.confirmPassword && |form.username| < 3 ==> SubmitStep(form) == Invalid(ShortUsernameError)
    ensures SubmitStep(form) != Throws
  {
    match ValidationError(form)
    case Some(m) =>
      assert SubmitStep(form) == Invalid(m);
    case None =>
      assert SubmitStep(form) == Send(PayloadOf(form));
  }

  /** What `authService.register` resolved to: success, with the role of
      the user it stored, or failure with the server's message. */
  datatype RegisterResult = Registered(role: Option<string>) | Rejected(error: Option<string>)

  /** The dashboard a new account goes to. */
  function RedirectFor(role: Option<string>): (r: string)
    ensures r == AdminDashboard <==> role == Some("ADMIN")
    ensures r == UserDashboard <==> role != Some("ADMIN")
  {
    if role == Some("ADMIN") then AdminDashboard else UserDashboard
  }

  class SignUpPage {
    var form: SignUpForm
    var error: string
    var loading: bool
    var photoPreview: Option<string>

    constructor()
      ensures form == EmptyForm && error == "" && !loading && photoPreview == None
    {
      form, error, loading, photoPreview := EmptyForm, "", false, None;
    }

    /** `handleChange`: the named field takes the input's value. */
    method HandleChange(f: Field, v: string)
      modifies this
      ensures form == WithValue(old(form), f, v)
      ensures error == old(error) && loading == old(loading) && photoPreview == old(photoPreview)
    {
      form := WithValue(form, f, v);
    }

    /** `handlePhotoChange`: a chosen file becomes the photo and its data URL
        the preview; no file changes nothing. */
    method HandlePhotoChange(file: Option<Photo>)
      modifies this
      ensures file.Some? ==> form == old(form).(profilePhoto := file) && photoPreview == Some(file.value.dataUrl)
      ensures file.None? ==> form == old(form) && photoPreview == old(photoPreview)
      ensures error == old(error) && loading == old(loading)
    {
      if file.Some? {
        form := form.(profilePhoto := file);
        photoPreview := Some(file.value.dataUrl);
      }
    }

    /** `handleSubmit`, with the photo sent as its data URL; `result` is
        what the server's answer makes `register` resolve to. Returns the
        payload sent, if any, and the page navigated to, if any. */
    method HandleSubmit(result: RegisterResult) returns (sent: Option<Payload>, redirect: Option<string>)
      modifies this
      ensures form == old(form) && photoPreview == old(photoPreview)
      ensures SubmitStep(form).Invalid? ==>
        sent.None? && redirect.None? && error == SubmitStep(form).message && loading == old(loading)
      ensures SubmitStep(form).Send? ==> sent == Some(SubmitStep(form).payload) && !loading
      ensures SubmitStep(form).Send? && result.Registered? ==>
        redirect == Some(RedirectFor(result.role)) && error == ""
      ensures SubmitStep(form).Send? && result.Rejected? ==>
        redirect.None? && error == OrElse(result.error, DefaultRegisterError)
    {
      error := "";
      sent, redirect := None, None;
      if form.password != form.confirmPassword {
        error := MismatchError;
        return;
      }
      if |form.username| < 3 {
        error := ShortUsernameError;
        return;
      }
      loading := true;
      var payload := Payload(form.username, form.email, form.password, form.phone, form.city, form.transportmode,
                             if form.profilePhoto.Some? then Some(form.profilePhoto.value.dataUrl) else None);
      sent := Some(payload);
      match result {
        case Registered(role) =>
          if role == Some("ADMIN") {
            redirect := Some(AdminDashboard);
          } else {
            redirect := Some(UserDashboard);
          }
        case Rejected(message) =>
          error := OrElse(message, DefaultRegisterError);
      }
      loading := false;
    }
  }
}
