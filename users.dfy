/**
 * The user entity and the two authentication requests, with the constraints
 * their `validate` struct tags declare and their `Validate` methods.
 */
module Users {
  import opened Wrappers
  import Text
  import opened Validation

  /** A row of the `users` table; `password` holds the bcrypt hash. */
  datatype User = User(
    id: int,
    username: string,
    password: string,
    email: string,
    role: string,
    createdAt: string,
    updatedAt: string)

  datatype RegisterRequest = RegisterRequest(username: string, password: string, email: string)

  datatype LoginRequest = LoginRequest(email: string, password: string)

  /** `RegisterRequest` as the validator walks it: username `required,min=3,max=50`, password `required,min=6`, email `required,email`. */
  function RegisterFields(r: RegisterRequest): seq<FieldSpec>
  {
    [ FieldSpec("Username", r.username, [Required, Min(3), Max(50)]),
      FieldSpec("Password", r.password, [Required, Min(6)]),
      FieldSpec("Email", r.email, [Required, Email]) ]
  }

  /** `LoginRequest` as the validator walks it: email `required,email`, password `required`. */
  function LoginFields(l: LoginRequest): seq<FieldSpec>
  {
    [ FieldSpec("Email", l.email, [Required, Email]),
      FieldSpec("Password", l.password, [Required]) ]
  }

  predicate AcceptableRegistration(r: RegisterRequest, isEmail: string -> bool)
  {
    3 <= |r.username| <= 50 && |r.password| >= 6 && r.email != "" && isEmail(r.email)
  }

  predicate AcceptableLogin(l: LoginRequest, isEmail: string -> bool)
  {
    l.email != "" && isEmail(l.email) && l.password != ""
  }

  /** A registration passes validation exactly when the username has 3 to 50 characters, the password at least 6, and the email is present and email-shaped. */
  lemma RegisterConstraints(r: RegisterRequest, isEmail: string -> bool)
    ensures Failures(RegisterFields(r), isEmail) == [] <==> AcceptableRegistration(r, isEmail)
  {
    var fields := RegisterFields(r);
    NoFailuresIff(fields, isEmail);
    if AcceptableRegistration(r, isEmail) {
      assert AllSatisfied(fields, isEmail);
    } else {
      if |r.username| < 3 {
        assert !Satisfies(fields[0].value, fields[0].rules[1], isEmail);
      } else if |r.username| > 50 {
        assert !Satisfies(fields[0].value, fields[0].rules[2], isEmail);
      } else if |r.password| < 6 {
        assert !Satisfies(fields[1].value, fields[1].rules[1], isEmail);
      } else if r.email == "" {
        assert !Satisfies(fields[2].value, fields[2].rules[0], isEmail);
      } else {
        assert !Satisfies(fields[2].value, fields[2].rules[1], isEmail);
      }
    }
  }

  /**
   * An empty username is reported as missing, not as too short: `required` comes before
   * `min=3` in its tag, and only the first failing tag of a field is reported.
   */
  lemma EmptyUsernameIsRequired(r: RegisterRequest, isEmail: string -> bool)
    requires r.username == ""
    ensures |Failures(RegisterFields(r), isEmail)| >= 1
    ensures Failures(RegisterFields(r), isEmail)[0] == FieldError("Username", "required", "")
    ensures Line(Detailed, Failures(RegisterFields(r), isEmail)[0]) == "Field Username is required"
  {
    var fields := RegisterFields(r);
    assert !Satisfies(fields[0].value, fields[0].rules[0], isEmail);
    assert FirstViolation(fields[0].value, fields[0].rules, isEmail) == Some(Required);
  }

  /** A login passes validation exactly when the email is present and email-shaped and the password is non-empty; there are no length bounds. */
  lemma LoginConstraints(l: LoginRequest, isEmail: string -> bool)
    ensures Failures(LoginFields(l), isEmail) == [] <==> AcceptableLogin(l, isEmail)
  {
    var fields := LoginFields(l);
    NoFailuresIff(fields, isEmail);
    if AcceptableLogin(l, isEmail) {
      assert AllSatisfied(fields, isEmail);
    } else if l.email == "" {
      assert !Satisfies(fields[0].value, fields[0].rules[0], isEmail);
    } else if !isEmail(l.email) {
      assert !Satisfies(fields[0].value, fields[0].rules[1], isEmail);
    } else {
      assert !Satisfies(fields[1].value, fields[1].rules[0], isEmail);
    }
  }

  /** The `strings.Builder` loop of `RegisterRequest.Validate`: one line per failure, worded by its tag. */
  method WriteRegisterMessage(errs: seq<FieldError>) returns (sb: string)
    ensures sb == Render(Detailed, errs)
  {
    sb := "";
    for i := 0 to |errs|
      invariant sb == Render(Detailed, errs[..i])
    {
      var e := errs[i];
      if e.tag == "required" {
        sb := sb + ("Field " + e.field + " is required\n");
      } else if e.tag == "email" {
        sb := sb + ("Field " + e.field + " must be a valid email address\n");
      } else if e.tag == "min" {
        sb := sb + ("Field " + e.field + " must be at least " + e.param + " characters long\n");
      } else if e.tag == "max" {
        sb := sb + ("Field " + e.field + " must not exceed " + e.param + " characters\n");
      } else {
        sb := sb + ("Field " + e.field + " failed validation: " + e.tag + "\n");
      }
      RenderStep(Detailed, errs, i);
    }
    assert errs[..|errs|] == errs;
  }

  /** The `strings.Builder` loop of `LoginRequest.Validate`: only `required` and `email` have their own wording. */
  method WriteLoginMessage(errs: seq<FieldError>) returns (sb: string)
    ensures sb == Render(Brief, errs)
  {
    sb := "";
    for i := 0 to |errs|
      invariant sb == Render(Brief, errs[..i])
    {
      var e := errs[i];
      if e.tag == "required" {
        sb := sb + ("Field " + e.field + " is required\n");
      } else if e.tag == "email" {
        sb := sb + ("Field " + e.field + " must be a valid email address\n");
      } else {
        sb := sb + ("Field " + e.field + " failed validation: " + e.tag + "\n");
      }
      RenderStep(Brief, errs, i);
    }
    assert errs[..|errs|] == errs;
  }

  /**
   * `RegisterRequest.Validate`: no error when the request is acceptable; otherwise one
   * newline-terminated line per reported failure, worded by its tag, in reported order.
   */
  method ValidateRegisterRequest(r: RegisterRequest, isEmail: string -> bool) returns (err: Option<string>)
    ensures err.None? <==> AcceptableRegistration(r, isEmail)
    ensures err.Some? ==> err.value == Render(Detailed, Failures(RegisterFields(r), isEmail))
    ensures err.Some? ==> Text.Split(err.value, '\n') == Lines(Detailed, Failures(RegisterFields(r), isEmail)) + [""]
  {
    var errs := Failures(RegisterFields(r), isEmail);
    RegisterConstraints(r, isEmail);
    if errs == [] {
      return None;
    }
    var msg := WriteRegisterMessage(errs);
    FailuresHaveNoNewline(RegisterFields(r), isEmail);
    RenderSplitsIntoLines(Detailed, errs);
    return Some(msg);
  }

  /** `LoginRequest.Validate`: no error when the request is acceptable; otherwise one line per reported failure. */
  method ValidateLoginRequest(l: LoginRequest, isEmail: string -> bool) returns (err: Option<string>)
    ensures err.None? <==> AcceptableLogin(l, isEmail)
    ensures err.Some? ==> err.value == Render(Brief, Failures(LoginFields(l), isEmail))
    ensures err.Some? ==> Text.Split(err.value, '\n') == Lines(Brief, Failures(LoginFields(l), isEmail)) + [""]
  {
    var errs := Failures(LoginFields(l), isEmail);
    LoginConstraints(l, isEmail);
    if errs == [] {
      return None;
    }
    var msg := WriteLoginMessage(errs);
    FailuresHaveNoNewline(LoginFields(l), isEmail);
    RenderSplitsIntoLines(Brief, errs);
    return Some(msg);
  }
}
