/** The sign-in / sign-up page (Auth.jsx): the e-mail pattern, the validation that runs before
    each request, the single-field form update, and when the user is handed to the app. */
module Auth {
  import opened Outcomes
  import Strings
  import Session

  // ---------------------------------------------------------------- e-mail pattern

  /** The character class `[^\s@]`. */
  predicate Plain(c: char)
  {
    !Strings.IsSpace(c) && c != '@'
  }

  predicate AllPlain(x: string)
  {
    forall i :: 0 <= i < |x| ==> Plain(x[i])
  }

  /** `s` splits as the pattern `^[^\s@]+@[^\s@]+\.[^\s@]+$` reads, with the `@` at `at`
      and the matched `.` at `dot`. */
  ghost predicate EmailShape(s: string, at: int, dot: int)
  {
    && 0 < at && at + 1 < dot && dot + 1 < |s|
    && s[at] == '@' && s[dot] == '.'
    && AllPlain(s[..at]) && AllPlain(s[at + 1..dot]) && AllPlain(s[dot + 1..])
  }

  ghost predicate MatchesEmailPattern(s: string)
  {
    exists at, dot :: EmailShape(s, at, dot)
  }

  /** Position of the first `c` in `s`, or `|s|` when there is none. */
  function IndexOf(s: string, c: char): (r: nat)
    ensures r <= |s|
    ensures r < |s| ==> s[r] == c
    ensures forall i :: 0 <= i < r ==> s[i] != c
  {
    if |s| == 0 then 0
    else if s[0] == c then 0
    else 1 + IndexOf(s[1..], c)
  }

  /** A `.` with at least one character on each side. */
  predicate HasInnerDot(d: string)
  {
    exists k :: 0 < k < |d| - 1 && d[k] == '.'
  }

  /** `isValidEmail`: a non-empty local part without whitespace or `@`, one `@`, and a
      domain without whitespace or `@` holding a `.` that is neither first nor last. */
  function IsValidEmail(s: string): (r: bool)
  {
    var at := IndexOf(s, '@');
    0 < at < |s| && AllPlain(s[..at]) && AllPlain(s[at + 1..]) && HasInnerDot(s[at + 1..])
  }

  lemma ValidEmailMatchesPattern(s: string)
    requires IsValidEmail(s)
    ensures MatchesEmailPattern(s)
  {
    var at := IndexOf(s, '@');
    var d := s[at + 1..];
    var k :| 0 < k < |d| - 1 && d[k] == '.';
    var dot := at + 1 + k;
    assert s[at + 1..dot] == d[..k];
    assert s[dot + 1..] == d[k + 1..];
    assert EmailShape(s, at, dot);
  }

  lemma PatternMatchIsValidEmail(s: string, a: int, dot: int)
    requires EmailShape(s, a, dot)
    ensures IsValidEmail(s)
  {
    var at := IndexOf(s, '@');
    assert at == a;
    var d := s[at + 1..];
    forall i | 0 <= i < |d|
      ensures Plain(d[i])
    {
      if i < dot - at - 1 {
        assert d[i] == s[at + 1..dot][i];
      } else if i > dot - at - 1 {
        assert d[i] == s[dot + 1..][i - (dot - at)];
      }
    }
    assert d[dot - at - 1] == '.';
  }

  /** The check accepts exactly the strings the regular expression matches. */
  lemma IsValidEmailMatchesPattern(s: string)
    ensures IsValidEmail(s) <==> MatchesEmailPattern(s)
  {
    if IsValidEmail(s) {
      ValidEmailMatchesPattern(s);
    }
    if MatchesEmailPattern(s) {
      var a, dot :| EmailShape(s, a, dot);
      PatternMatchIsValidEmail(s, a, dot);
    }
  }

  /** The same check read as local part, `@`, domain: the local part is non-empty, neither
      part holds whitespace or `@`, and the domain has a `.` with a character on each side. */
  lemma IsValidEmailSplitsAtSign(s: string, local: string, domain: string)
    requires s == local + "@" + domain
    ensures IsValidEmail(s) <==>
      |local| > 0 && AllPlain(local) && AllPlain(domain) && HasInnerDot(domain)
  {
    var at := IndexOf(s, '@');
    assert s[|local|] == '@';
    assert s[..|local|] == local;
    assert s[|local| + 1..] == domain;
    if AllPlain(local) {
      assert at == |local|;
    } else {
      var i :| 0 <= i < |local| && !Plain(local[i]);
      assert s[i] == local[i];
      if at == |local| {
        assert !AllPlain(s[..at]);
      }
    }
  }

  // ---------------------------------------------------------------- forms

  /** A form's state object: field name to text. A field never set reads as undefined,
      which is falsy like the empty string, so `Field` answers "" for it. */
  type Form = map<string, string>

  function Field(f: Form, name: string): (v: string)
    ensures name in f ==> v == f[name]
  {
    if name in f then f[name] else ""
  }

  datatype Forms = Forms(signIn: Form, signUp: Form)

  const InitialForms: Forms :=
    Forms(map["email" := "", "password" := ""], map["name" := "", "email" := "", "password" := ""])

  /** `handleChange(e, formType)`: `formType` "signin" updates the sign-in form, any other
      value the sign-up form; only the key named by the input changes. */
  function HandleChange(forms: Forms, formType: string, name: string, value: string): (r: Forms)
    ensures formType == "signin" ==> r.signUp == forms.signUp && r.signIn.Keys == forms.signIn.Keys + {name}
    ensures formType != "signin" ==> r.signIn == forms.signIn && r.signUp.Keys == forms.signUp.Keys + {name}
    ensures Field(if formType == "signin" then r.signIn else r.signUp, name) == value
    ensures forall k :: k != name ==>
      Field(r.signIn, k) == Field(forms.signIn, k) && Field(r.signUp, k) == Field(forms.signUp, k)
  {
    if formType == "signin" then forms.(signIn := forms.signIn[name := value])
    else forms.(signUp := forms.signUp[name := value])
  }

  /** A change event as the page's inputs produce it: the form the handler is bound to and
      the input's `name` attribute. The sign-up name input is named "Name". */
  datatype ChangeEvent = ChangeEvent(formType: string, name: string, value: string)

  predicate FromPageInput(e: ChangeEvent)
  {
    || (e.formType == "signin" && (e.name == "email" || e.name == "password"))
    || (e.formType == "signup" && (e.name == "Name" || e.name == "email" || e.name == "password"))
  }

  function ApplyChanges(forms: Forms, events: seq<ChangeEvent>): Forms
    decreases |events|
  {
    if |events| == 0 then forms
    else
      var e := events[0];
      ApplyChanges(HandleChange(forms, e.formType, e.name, e.value), events[1..])
  }

  // ---------------------------------------------------------------- validation

  datatype AuthAlert = FillBoth | FillAll | InvalidEmail | PasswordTooShort

  /** The validation prefix of `handleSignIn`: emptiness first, then the e-mail format. */
  function SignInCheck(f: Form): (r: Option<AuthAlert>)
    ensures r == Some(FillBoth) <==> Field(f, "email") == "" || Field(f, "password") == ""
    ensures r == Some(InvalidEmail) <==>
      Field(f, "email") != "" && Field(f, "password") != "" && !IsValidEmail(Field(f, "email"))
    ensures r.None? <==>
      Field(f, "email") != "" && Field(f, "password") != "" && IsValidEmail(Field(f, "email"))
  {
    if Field(f, "email") == "" || Field(f, "password") == "" then Some(FillBoth)
    else if !IsValidEmail(Field(f, "email")) then Some(InvalidEmail)
    else None
  }

  /** The validation prefix of `handleSignUp`: emptiness, then the e-mail format, then a
      password of at least 6 characters. */
  function SignUpCheck(f: Form): (r: Option<AuthAlert>)
    ensures r == Some(FillAll) <==>
      Field(f, "name") == "" || Field(f, "email") == "" || Field(f, "password") == ""
    ensures r == Some(InvalidEmail) <==>
      && Field(f, "name") != "" && Field(f, "email") != "" && Field(f, "password") != ""
      && !IsValidEmail(Field(f, "email"))
    ensures r == Some(PasswordTooShort) <==>
      && Field(f, "name") != "" && Field(f, "email") != "" && Field(f, "password") != ""
      && IsValidEmail(Field(f, "email")) && |Field(f, "password")| < 6
    ensures r.None? <==>
      && Field(f, "name") != "" && IsValidEmail(Field(f, "email")) && |Field(f, "password")| >= 6
  {
    if Field(f, "name") == "" || Field(f, "email") == "" || Field(f, "password") == "" then Some(FillAll)
    else if !IsValidEmail(Field(f, "email")) then Some(InvalidEmail)
    else if |Field(f, "password")| < 6 then Some(PasswordTooShort)
    else None
  }

  // ---------------------------------------------------------------- submission

  datatype AuthRequest =
    | Login(email: string, password: string)
    | Signup(name: string, email: string, password: string)

  /** The server's answer: `res.ok` and the `user` field of the body (possibly absent). */
  datatype Reply = Reply(ok: bool, user: Option<Session.User>)

  /** What a submission does: the alert, the request sent, and the value passed to `setUser`
      if it was called. */
  datatype AuthStep = AuthStep(alert: Option<AuthAlert>, request: Option<AuthRequest>,
                               setUser: Option<Option<Session.User>>)

  /** The reply handling shared by both forms: `setUser(data.user)` on an ok response,
      a log line otherwise or when the call throws. */
  function Handle(reply: Oracle<Reply>): (r: Option<Option<Session.User>>)
    ensures r.Some? <==> reply.Ok? && reply.value.ok
    ensures r.Some? ==> r.value == reply.value.user
  {
    if reply.Ok? && reply.value.ok then Some(reply.value.user) else None
  }

  function SignIn(f: Form, reply: Oracle<Reply>): (r: AuthStep)
    ensures r.alert == SignInCheck(f)
    ensures r.alert.Some? ==> r.request.None? && r.setUser.None?
    ensures r.alert.None? ==>
      r.request == Some(Login(Strings.Trim(Field(f, "email")), Field(f, "password")))
    ensures r.setUser.Some? <==> r.alert.None? && reply.Ok? && reply.value.ok
  {
    var alert := SignInCheck(f);
    if alert.Some? then AuthStep(alert, None, None)
    else AuthStep(None, Some(Login(Strings.Trim(Field(f, "email")), Field(f, "password"))), Handle(reply))
  }

  function SignUp(f: Form, reply: Oracle<Reply>): (r: AuthStep)
    ensures r.alert == SignUpCheck(f)
    ensures r.alert.Some? ==> r.request.None? && r.setUser.None?
    ensures r.alert.None? ==>
      r.request == Some(Signup(Strings.Trim(Field(f, "name")), Strings.Trim(Field(f, "email")),
                               Field(f, "password")))
    ensures r.setUser.Some? <==> r.alert.None? && reply.Ok? && reply.value.ok
  {
    var alert := SignUpCheck(f);
    if alert.Some? then AuthStep(alert, None, None)
    else
      var request := Signup(Strings.Trim(Field(f, "name")), Strings.Trim(Field(f, "email")),
                            Field(f, "password"));
      AuthStep(None, Some(request), Handle(reply))
  }

  // ---------------------------------------------------------------- the "Name" input

  /** No input of the page writes the sign-up key "name", so it keeps its value. */
  lemma {:induction false} SignUpNameUnchanged(forms: Forms, events: seq<ChangeEvent>)
    requires forall i :: 0 <= i < |events| ==> FromPageInput(events[i])
    ensures Field(ApplyChanges(forms, events).signUp, "name") == Field(forms.signUp, "name")
    decreases |events|
  {
    if |events| > 0 {
      var e := events[0];
      SignUpNameUnchanged(HandleChange(forms, e.formType, e.name, e.value), events[1..]);
    }
  }

  /** Whatever the user types, sign-up stops at "Please fill in all fields." and sends
      nothing. */
  lemma SignUpAlwaysAsksToFillAll(events: seq<ChangeEvent>, reply: Oracle<Reply>)
    requires forall i :: 0 <= i < |events| ==> FromPageInput(events[i])
    ensures var r := SignUp(ApplyChanges(InitialForms, events).signUp, reply);
      r.alert == Some(FillAll) && r.request.None? && r.setUser.None?
  {
    SignUpNameUnchanged(InitialForms, events);
  }
}
