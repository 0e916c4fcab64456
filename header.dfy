/**
 * The sign-in/registration part of the page header (src/components/Header.tsx):
 * the HTML `pattern` constraints on the registration fields, the guards of the
 * registration handler, how a response is turned into a signed-in user or an
 * error, and the `isLoading` flag around each request.
 */
module HeaderComponent {
  import opened Wrappers
  import opened Fetch

  // ---------------------------------------------------------------------------
  // Field patterns

  /** The class `[A-Za-z]`. */
  predicate IsLatinLetter(c: char)
  {
    ('A' <= c <= 'Z') || ('a' <= c <= 'z')
  }

  /** The ranges `А-Я`, `а-я` (U+0410 to U+044F) and the letters `Ё`, `ё`. */
  predicate IsCyrillicLetter(c: char)
  {
    ('\U{0410}' <= c <= '\U{042F}') || ('\U{0430}' <= c <= '\U{044F}') || c == '\U{0401}' || c == '\U{0451}'
  }

  /** The ECMAScript class `\s`: the white space and line terminator characters. */
  predicate IsRegExpSpace(c: char)
  {
    || ('\t' <= c <= '\r') || c == ' ' || c == '\U{00A0}' || c == '\U{1680}'
    || ('\U{2000}' <= c <= '\U{200A}') || c == '\U{2028}' || c == '\U{2029}'
    || c == '\U{202F}' || c == '\U{205F}' || c == '\U{3000}' || c == '\U{FEFF}'
  }

  /** The class `[А-Яа-яЁё\s\-]`. */
  predicate IsFullNameChar(c: char)
  {
    IsCyrillicLetter(c) || IsRegExpSpace(c) || c == '-'
  }

  /**
   * An HTML `pattern` of the form `[class]+`, which the browser anchors to the
   * whole value: one class character, then the rest matched the same way.
   */
  predicate MatchesWhole(s: string, inClass: char -> bool)
  {
    |s| > 0 && inClass(s[0]) && (|s| == 1 || MatchesWhole(s[1..], inClass))
  }

  /** `[class]+` matches exactly the non-empty strings made only of class characters. */
  lemma {:induction false} MatchesWholeIff(s: string, inClass: char -> bool)
    ensures MatchesWhole(s, inClass) <==> |s| > 0 && forall i :: 0 <= i < |s| ==> inClass(s[i])
  {
    if |s| > 1 {
      MatchesWholeIff(s[1..], inClass);
      assert forall i :: 1 <= i < |s| ==> s[i] == s[1..][i - 1];
    }
  }

  /** The login field's constraint `[A-Za-z]+`: a non-empty string of ASCII Latin letters. */
  function LoginAccepted(login: string): (accepted: bool)
    ensures accepted <==> |login| > 0 && forall i :: 0 <= i < |login| ==> IsLatinLetter(login[i])
  {
    MatchesWholeIff(login, IsLatinLetter);
    MatchesWhole(login, IsLatinLetter)
  }

  /**
   * The full-name field's constraint `[А-Яа-яЁё\s\-]+`: a non-empty string of Cyrillic
   * letters, white space and hyphens.
   */
  function FullNameAccepted(fullName: string): (accepted: bool)
    ensures accepted <==> |fullName| > 0 && forall i :: 0 <= i < |fullName| ==> IsFullNameChar(fullName[i])
  {
    MatchesWholeIff(fullName, IsFullNameChar);
    MatchesWhole(fullName, IsFullNameChar)
  }

  /** No value satisfies both constraints: the two character classes share no character. */
  lemma PatternsDisjoint(s: string)
    ensures !(LoginAccepted(s) && FullNameAccepted(s))
  {
  }

  // ---------------------------------------------------------------------------
  // The registration guards

  /** A submitted form as `FormData`: field name to the value of the first field with that name. */
  type FormData = map<string, string>

  /** `formData.get(name)`: the value, or `null` when no field has that name. */
  function Get(form: FormData, name: string): (v: Option<string>)
    ensures v.Some? <==> name in form
    ensures v.Some? ==> v.value == form[name]
  {
    if name in form then Some(form[name]) else None
  }

  /** JavaScript truthiness of a form value: present and not the empty string. */
  predicate Truthy(v: Option<string>)
  {
    v.Some? && v.value != ""
  }

  const ConsentField: string := "privacy-consent"
  const PasswordField: string := "password"
  const RepeatField: string := "password-repeat"

  const ConsentRequired: string := "Необходимо согласие на обработку персональных данных"
  const PasswordsMismatch: string := "Пароли не совпадают"
  const LoginFailed: string := "Ошибка при входе"
  const RegisterFailed: string := "Ошибка при регистрации"

  /** The body of the registration request, as read from the form. */
  datatype Registration = Registration(
    fullName: Option<string>,
    login: Option<string>,
    email: Option<string>,
    password: Option<string>)

  /** Where the synchronous part of the registration handler ends. */
  datatype RegisterCheck = ConsentMissing | PasswordsDiffer | Send(body: Registration)

  /**
   * The checks made before the registration request is sent: the consent box
   * first, then the equality of the two password values (both possibly `null`).
   */
  function CheckRegister(form: FormData): (r: RegisterCheck)
    ensures r.ConsentMissing? <==> !Truthy(Get(form, ConsentField))
    ensures r.PasswordsDiffer? <==> Truthy(Get(form, ConsentField)) && Get(form, PasswordField) != Get(form, RepeatField)
    ensures r.Send? ==> r.body.password == Get(form, RepeatField)
    ensures r.Send? ==> r.body == Registration(Get(form, "fullName"), Get(form, "login"), Get(form, "email"), Get(form, PasswordField))
  {
    if !Truthy(Get(form, ConsentField)) then ConsentMissing
    else if Get(form, PasswordField) != Get(form, RepeatField) then PasswordsDiffer
    else Send(Registration(Get(form, "fullName"), Get(form, "login"), Get(form, "email"), Get(form, PasswordField)))
  }

  /** What the resident types into the registration form. */
  datatype RegisterInput = RegisterInput(fullName: string, login: string, email: string, password: string, consent: bool)

  /**
   * The `FormData` the registration form as written submits: its four inputs,
   * and the consent checkbox's value `on` only when ticked. It has no field
   * named `password-repeat`.
   */
  function RegisterFormData(input: RegisterInput): (form: FormData)
    ensures RepeatField !in form
  {
    var fields := map["fullName" := input.fullName, "login" := input.login, "email" := input.email, PasswordField := input.password];
    if input.consent then fields[ConsentField := "on"] else fields
  }

  /** As written, no registration request is ever sent: the repeat value is always `null`. */
  lemma RegisterFormNeverSends(input: RegisterInput)
    ensures !CheckRegister(RegisterFormData(input)).Send?
    ensures input.consent ==> CheckRegister(RegisterFormData(input)) == PasswordsDiffer
  {
    var form := RegisterFormData(input);
    assert PasswordField in form;
    assert input.consent ==> form[ConsentField] == "on";
  }

  /** The evidently intended form: the same fields plus a `password-repeat` input. */
  function RegisterFormDataWithRepeat(input: RegisterInput, repeat: string): (form: FormData)
    ensures form.Keys == RegisterFormData(input).Keys + {RepeatField}
    ensures form[RepeatField] == repeat
  {
    RegisterFormData(input)[RepeatField := repeat]
  }

  /**
   * With the repeat field, a ticked box and equal passwords send exactly what was
   * typed; a different repeat is refused; an unticked box is refused first.
   */
  lemma RegisterFormWithRepeatChecks(input: RegisterInput, repeat: string)
    ensures input.consent && repeat == input.password ==>
      CheckRegister(RegisterFormDataWithRepeat(input, repeat))
        == Send(Registration(Some(input.fullName), Some(input.login), Some(input.email), Some(input.password)))
    ensures input.consent && repeat != input.password ==>
      CheckRegister(RegisterFormDataWithRepeat(input, repeat)) == PasswordsDiffer
    ensures !input.consent ==> CheckRegister(RegisterFormDataWithRepeat(input, repeat)) == ConsentMissing
  {
    var form := RegisterFormDataWithRepeat(input, repeat);
    assert form[PasswordField] == input.password;
    assert form["fullName"] == input.fullName && form["login"] == input.login && form["email"] == input.email;
    assert input.consent ==> form[ConsentField] == "on";
    assert !input.consent ==> ConsentField !in form;
  }

  // ---------------------------------------------------------------------------
  // Responses

  /** The signed-in user as the user context stores it. */
  datatype User = User(id: int, fullName: string, email: string, login: string)

  /** A parsed response body: the user record, and the `error` text an error response carries. */
  datatype Body = Body(error: Option<string>, user: User)

  /**
   * The end of a login or registration handler: after `response.json()`, an ok
   * response yields its user; otherwise the error shown is the body's `error`
   * text when truthy, else `fallback`. A rejected fetch or an unparsable body
   * yields that rejection's message.
   */
  function Outcome(reply: Reply<Body>, fallback: string): (r: Result<User, string>)
    ensures r.Ok? <==> Delivered(reply)
    ensures r.Ok? ==> r.value == reply.body.value.user
    ensures reply.Received? && !reply.ok && reply.body.Json? ==>
      r == Err(if Truthy(reply.body.value.error) then reply.body.value.error.value else fallback)
    ensures reply.Unreachable? ==> r == Err(reply.message)
    ensures reply.Received? && reply.body.NotJson? ==> r == Err(reply.body.message)
  {
    match reply
    case Unreachable(message) => Err(message)
    case Received(ok, body) =>
      match body
      case NotJson(message) => Err(message)
      case Json(data) =>
        if !ok then Err(if Truthy(data.error) then data.error.value else fallback)
        else Ok(data.user)
  }

  /** A failed request never yields a user, and its error message is never blank. */
  lemma FailureIsNeverSilent(reply: Reply<Body>, fallback: string)
    requires fallback != ""
    requires reply.Unreachable? ==> reply.message != ""
    requires reply.Received? && reply.body.NotJson? ==> reply.body.message != ""
    ensures !Delivered(reply) ==> Outcome(reply, fallback).Err? && Outcome(reply, fallback).error != ""
  {
  }

  // ---------------------------------------------------------------------------
  // The component state

  /** Which handler, if any, is suspended on its request. */
  datatype Awaiting = Nothing | LoginReply | RegisterReply

  /** What a press of the registration button leads to. */
  datatype RegisterStep = Blocked | Refused(message: string) | Sent(body: Registration)

  class HeaderState {
    var isLoading: bool
    var user: Option<User>
    var awaiting: Awaiting

    /** `isLoading` is up exactly while a handler waits for its response. */
    predicate Valid()
      reads this
    {
      isLoading <==> awaiting != Nothing
    }

    constructor (user: Option<User>)
      ensures Valid() && !isLoading && this.user == user && awaiting == Nothing
    {
      isLoading := false;
      this.user := user;
      awaiting := Nothing;
    }

    /**
     * The sign-in button. While a request is pending it is disabled; otherwise
     * loading starts and the handler waits for the login response.
     */
    method SubmitLogin() returns (started: bool)
      requires Valid()
      modifies this
      ensures Valid() && user == old(user)
      ensures started <==> !old(isLoading)
      ensures started ==> isLoading && awaiting == LoginReply
      ensures !started ==> isLoading == old(isLoading) && awaiting == old(awaiting)
    {
      started := !isLoading;
      if started {
        isLoading := true;
        awaiting := LoginReply;
      }
    }

    /** The login response arrives: the user is signed in only on success; loading ends either way. */
    method ResumeLogin(reply: Reply<Body>) returns (outcome: Result<User, string>)
      requires Valid() && awaiting == LoginReply
      modifies this
      ensures Valid() && !isLoading && awaiting == Nothing
      ensures outcome == Outcome(reply, LoginFailed)
      ensures outcome.Ok? <==> Delivered(reply)
      ensures user == if outcome.Ok? then Some(outcome.value) else old(user)
    {
      outcome := Outcome(reply, LoginFailed);
      if outcome.Ok? {
        user := Some(outcome.value);
      }
      isLoading := false;
      awaiting := Nothing;
    }

    /**
     * The registration button. Missing consent is refused before loading starts;
     * a password mismatch raises and lowers the flag again before anything is sent;
     * otherwise the request is sent and the handler waits.
     */
    method SubmitRegister(form: FormData) returns (step: RegisterStep)
      requires Valid()
      modifies this
      ensures Valid() && user == old(user)
      ensures old(isLoading) ==> step == Blocked && isLoading && awaiting == old(awaiting)
      ensures !old(isLoading) ==> match CheckRegister(form)
        case ConsentMissing => step == Refused(ConsentRequired) && !isLoading && awaiting == Nothing
        case PasswordsDiffer => step == Refused(PasswordsMismatch) && !isLoading && awaiting == Nothing
        case Send(body) => step == Sent(body) && isLoading && awaiting == RegisterReply
    {
      if isLoading {
        return Blocked;
      }
      var check := CheckRegister(form);
      if check.ConsentMissing? {
        return Refused(ConsentRequired);
      }
      isLoading := true;
      if check.PasswordsDiffer? {
        isLoading := false;
        return Refused(PasswordsMismatch);
      }
      awaiting := RegisterReply;
      step := Sent(check.body);
    }

    /** The registration response arrives: as for login, with the registration fallback message. */
    method ResumeRegister(reply: Reply<Body>) returns (outcome: Result<User, string>)
      requires Valid() && awaiting == RegisterReply
      modifies this
      ensures Valid() && !isLoading && awaiting == Nothing
      ensures outcome == Outcome(reply, RegisterFailed)
      ensures outcome.Ok? <==> Delivered(reply)
      ensures user == if outcome.Ok? then Some(outcome.value) else old(user)
    {
      outcome := Outcome(reply, RegisterFailed);
      if outcome.Ok? {
        user := Some(outcome.value);
      }
      isLoading := false;
      awaiting := Nothing;
    }
  }

  /** With the form as written, pressing the registration button never sends a request or signs anyone in. */
  method RegisterAsWrittenScenario(input: RegisterInput)
  {
    var header := new HeaderState(None);
    RegisterFormNeverSends(input);
    var step := header.SubmitRegister(RegisterFormData(input));
    assert !step.Sent? && !header.isLoading && header.user == None;
  }
}
