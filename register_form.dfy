/** The sign-up page (src/app/auth/register/page.tsx): the ordered checks of
    `handleSubmit` and the error shown for each kind of refused request. */
module RegisterForm {
  import opened Wrappers
  import Text
  import opened Validation
  import RegisterRoute

  datatype Form = Form(username: string, email: string, password: string, confirmPassword: string)

  /** The checks of `handleSubmit`, in the order it runs them. */
  function Checks(f: Form): (cs: seq<Check<string>>)
    ensures |cs| == 5
  {
    [ Check(f.username != [] && f.email != [] && f.password != [] && f.confirmPassword != [], "All fields are required"),
      Check(3 <= |f.username| <= 20, "Username must be between 3 and 20 characters"),
      Check(RegisterRoute.UsernamePattern(f.username), "Username can only contain letters, numbers and underscores"),
      Check(|f.password| >= 4, "Password must be at least 4 characters long"),
      Check(f.password == f.confirmPassword, "Passwords do not match") ]
  }

  /** Set an error and send nothing, or send the request body. */
  datatype Outcome = Rejected(message: string) | Submitted(body: RegisterRoute.Body)

  /** `handleSubmit` up to the request: returns at the first failing check. */
  method HandleSubmit(f: Form) returns (outcome: Outcome)
    ensures FirstFailure(Checks(f)).Some? ==> outcome == Rejected(FirstFailure(Checks(f)).value)
    ensures FirstFailure(Checks(f)).None? ==> outcome == Submitted(RegisterRoute.Body(f.username, f.email, f.password))
  {
    var cs := Checks(f);
    if f.username == [] || f.email == [] || f.password == [] || f.confirmPassword == [] {
      FirstFailureAt(cs, 0);
      return Rejected("All fields are required");
    }
    if |f.username| < 3 || |f.username| > 20 {
      FirstFailureAt(cs, 1);
      return Rejected("Username must be between 3 and 20 characters");
    }
    if !RegisterRoute.UsernamePattern(f.username) {
      FirstFailureAt(cs, 2);
      return Rejected("Username can only contain letters, numbers and underscores");
    }
    if |f.password| < 4 {
      FirstFailureAt(cs, 3);
      return Rejected("Password must be at least 4 characters long");
    }
    if f.password != f.confirmPassword {
      FirstFailureAt(cs, 4);
      return Rejected("Passwords do not match");
    }
    outcome := Submitted(RegisterRoute.Body(f.username, f.email, f.password));
  }

  /** The client's username rule is the server's. */
  lemma UsernameRulesAgree(f: Form)
    ensures Checks(f)[1].ok && Checks(f)[2].ok <==> RegisterRoute.ValidUsername(f.username)
  {
  }

  /** A password of 4 to 11 characters gets past the page but not the server. */
  lemma ShortPasswordPassesClientOnly(f: Form, isEmail: string -> bool)
    requires FirstFailure(Checks(f)).None?
    requires |f.password| < 12
    ensures 4 <= |f.password|
    ensures var issues := RegisterRoute.Issues(RegisterRoute.Body(f.username, f.email, f.password), isEmail);
      issues != [] && issues[|issues| - 1] == "Password must be at least 12 characters"
  {
    assert Checks(f)[3].ok;
  }

  /** The parts of a JSON reply the page reads: the status and the
      `message`, `errors` (their messages) and `error` fields, `None` where
      the body has no such field. */
  datatype Response = Response(status: int, message: Option<string>, errors: Option<seq<string>>, error: Option<string>)

  /** A JavaScript value that is neither missing nor the empty string. */
  predicate Truthy(s: Option<string>)
  {
    s.Some? && s.value != []
  }

  /** `a || b` over optional strings. */
  function Or(a: Option<string>, b: string): (r: string)
    ensures Truthy(a) ==> r == a.value
    ensures !Truthy(a) ==> r == b
  {
    if Truthy(a) then a.value else b
  }

  /** `data.errors?.map(err => err.message).join(', ')`. */
  function Joined(errors: Option<seq<string>>): Option<string>
  {
    match errors
    case None => None
    case Some(es) => Some(Text.Join(es, ", "))
  }

  /** The error the page shows; `None` when the request succeeded. */
  function ErrorMessage(r: Response): (e: Option<string>)
    ensures e.None? <==> 200 <= r.status < 300
    ensures e.Some? ==> e.value != []
    ensures r.status == 409 ==> e == Some(Or(r.message, "Username or email already exists"))
    ensures r.status == 400 ==> e == Some(if Truthy(Joined(r.errors)) then Joined(r.errors).value
                                          else Or(r.message, "Invalid registration data"))
    ensures !(200 <= r.status < 300) && r.status != 409 && r.status != 400 ==>
      e == Some(Or(r.error, Or(r.message, "Registration failed")))
  {
    if 200 <= r.status < 300 then None
    else if r.status == 409 then Some(Or(r.message, "Username or email already exists"))
    else if r.status == 400 then
      var joined := Joined(r.errors);
      Some(if Truthy(joined) then joined.value else Or(r.message, "Invalid registration data"))
    else Some(Or(r.error, Or(r.message, "Registration failed")))
  }

  /** The reply the route sends for each outcome. */
  function ToResponse(r: RegisterRoute.Reply): Response
  {
    match r
    case ValidationFailed(es) => Response(400, Some("Validation failed"), Some(es), None)
    case Conflict(m) => Response(409, Some(m), None, None)
    case Created(_) => Response(201, None, None, None)
  }

  lemma JoinNonEmpty(parts: seq<string>, sep: string)
    requires parts != [] && parts[0] != []
    ensures Text.Join(parts, sep) != []
  {
    if |parts| > 1 {
      assert Text.Join(parts, sep)[0] == parts[0][0];
    }
  }

  /** What the page shows for each reply of the route: a conflict shows the
      server's message, a refused schema shows the issues joined by ", ",
      and a new account shows nothing. */
  lemma ShownForReply(b: RegisterRoute.Body, isEmail: string -> bool, r: RegisterRoute.Reply)
    requires r.ValidationFailed? ==> r.errors == RegisterRoute.Issues(b, isEmail)
    requires r.Conflict? ==> r.message in {"Username already taken", "Email already registered"}
    ensures r.Conflict? ==> ErrorMessage(ToResponse(r)) == Some(r.message)
    ensures r.ValidationFailed? && r.errors != [] ==> ErrorMessage(ToResponse(r)) == Some(Text.Join(r.errors, ", "))
    ensures r.Created? ==> ErrorMessage(ToResponse(r)) == None
  {
    if r.ValidationFailed? && r.errors != [] {
      assert r.errors[0] != [];
      JoinNonEmpty(r.errors, ", ");
    }
  }
}
