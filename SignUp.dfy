/** The sign-up form: its four checks, the error messages they record, and the
    submit handler that signs the user in only when every check passes. */
module SignUp {
  import opened Optional
  import opened JsText

  const PasswordError := "Password must be at least 8 characters long"
  const ConfirmError := "Passwords do not match"
  const NameError := "Name is required"
  const EmailError := "Please enter a valid email address"

  /** The keys `validateForm` may record. */
  const ErrorKeys: set<string> := {"password", "confirmPassword", "name", "email"}

  /** `[^\s@]`: neither white space nor "@". */
  predicate Plain(c: char) {
    !IsSpace(c) && c != '@'
  }

  /** `[^\s@]+`: a non-empty run of plain characters. */
  predicate PlainRun(s: string) {
    |s| > 0 && forall i :: 0 <= i < |s| ==> Plain(s[i])
  }

  /** `/^[^\s@]+@[^\s@]+\.[^\s@]+$/` read as a pattern: `e` is a plain run, "@",
      a plain run, ".", a plain run, and nothing else. */
  ghost predicate EmailShape(e: string) {
    exists a, d :: 0 < a && a + 1 < d && d + 1 < |e| && e[a] == '@' && e[d] == '.' &&
      PlainRun(e[..a]) && PlainRun(e[a + 1..d]) && PlainRun(e[d + 1..])
  }

  /** The part after the "@" passes: plain throughout, with a "." that is neither
      its first nor its last character. */
  predicate DomainPasses(dom: string) {
    |dom| >= 3 && (forall i :: 0 <= i < |dom| ==> Plain(dom[i])) && '.' in dom[1..|dom| - 1]
  }

  /** `emailRegex.test(email)` as a scan: the text before the first "@" must be a
      plain run and the rest must pass as a domain. */
  function EmailTest(e: string): (r: bool)
    ensures r ==> '@' in e && forall i :: 0 <= i < |e| ==> !IsSpace(e[i])
  {
    match IndexOfChar(e, '@')
    case None => false
    case Some(a) => PlainRun(e[..a]) && DomainPasses(e[a + 1..])
  }

  /** Whatever the scan accepts has the pattern's shape. */
  lemma EmailTestSound(e: string)
    requires EmailTest(e)
    ensures EmailShape(e)
  {
    var a := IndexOfChar(e, '@').value;
    var dom := e[a + 1..];
    var j :| 0 <= j < |dom[1..|dom| - 1]| && dom[1..|dom| - 1][j] == '.';
    var d := a + 2 + j;
    assert e[d] == '.';
    assert e[a + 1..d] == dom[..j + 1];
    assert e[d + 1..] == dom[j + 2..];
    assert PlainRun(e[a + 1..d]) && PlainRun(e[d + 1..]);
  }

  /** Every address of the pattern's shape passes the scan. */
  lemma EmailTestComplete(e: string, a: nat, d: nat)
    requires 0 < a && a + 1 < d && d + 1 < |e| && e[a] == '@' && e[d] == '.'
    requires PlainRun(e[..a]) && PlainRun(e[a + 1..d]) && PlainRun(e[d + 1..])
    ensures EmailTest(e)
  {
    assert forall i :: 0 <= i < a ==> e[..a][i] == e[i];
    assert IndexOfChar(e, '@') == Some(a);
    var dom := e[a + 1..];
    forall i | 0 <= i < |dom|
      ensures Plain(dom[i])
    {
      if i < d - a - 1 {
        assert dom[i] == e[a + 1..d][i];
      } else if i > d - a - 1 {
        assert dom[i] == e[d + 1..][i - (d - a)];
      }
    }
    assert dom[1..|dom| - 1][d - a - 2] == '.';
  }

  /** The scan accepts exactly the addresses the pattern describes. */
  lemma EmailTestMeansShape(e: string)
    ensures EmailTest(e) <==> EmailShape(e)
  {
    if EmailTest(e) {
      EmailTestSound(e);
    }
    if EmailShape(e) {
      var a, d :| 0 < a && a + 1 < d && d + 1 < |e| && e[a] == '@' && e[d] == '.' &&
        PlainRun(e[..a]) && PlainRun(e[a + 1..d]) && PlainRun(e[d + 1..]);
      EmailTestComplete(e, a, d);
    }
  }

  /** An address with white space, or without "@", never passes. */
  lemma EmailNeedsAt(e: string)
    requires '@' !in e || exists i :: 0 <= i < |e| && IsSpace(e[i])
    ensures !EmailTest(e)
  {
  }

  /** The errors `validateForm` records for the four fields: each check adds its own
      key with its message, and no other key appears. */
  function ErrorsFor(name: string, email: string, password: string, confirmPassword: string): (r: map<string, string>)
    ensures r.Keys <= ErrorKeys
    ensures "password" in r <==> |password| < 8
    ensures "confirmPassword" in r <==> password != confirmPassword
    ensures "name" in r <==> Trim(name) == ""
    ensures "email" in r <==> !EmailTest(email)
    ensures "password" in r ==> r["password"] == PasswordError
    ensures "confirmPassword" in r ==> r["confirmPassword"] == ConfirmError
    ensures "name" in r ==> r["name"] == NameError
    ensures "email" in r ==> r["email"] == EmailError
    ensures |r| == 0 <==> |password| >= 8 && password == confirmPassword && Trim(name) != "" && EmailTest(email)
  {
    var m0: map<string, string> := map[];
    var m1 := if |password| < 8 then m0["password" := PasswordError] else m0;
    var m2 := if password != confirmPassword then m1["confirmPassword" := ConfirmError] else m1;
    var m3 := if Trim(name) == "" then m2["name" := NameError] else m2;
    var m4 := if !EmailTest(email) then m3["email" := EmailError] else m3;
    assert |m4| == 0 <==> m4 == map[];
    m4
  }

  /** The page's state. */
  class SignUpForm {
    var name: string
    var email: string
    var password: string
    var confirmPassword: string
    var errors: map<string, string>

    constructor ()
      ensures name == "" && email == "" && password == "" && confirmPassword == "" && errors == map[]
    {
      name, email, password, confirmPassword := "", "", "", "";
      errors := map[];
    }

    /** `validateForm`: each check records its own key and nothing else, the
        recorded errors replace the old ones, and the form is valid exactly when
        none was recorded. */
    method ValidateForm() returns (valid: bool)
      modifies this
      ensures errors.Keys <= ErrorKeys
      ensures "password" in errors <==> |password| < 8
      ensures "confirmPassword" in errors <==> password != confirmPassword
      ensures "name" in errors <==> Trim(name) == ""
      ensures "email" in errors <==> !EmailTest(email)
      ensures "password" in errors ==> errors["password"] == PasswordError
      ensures "confirmPassword" in errors ==> errors["confirmPassword"] == ConfirmError
      ensures "name" in errors ==> errors["name"] == NameError
      ensures "email" in errors ==> errors["email"] == EmailError
      ensures valid <==> |password| >= 8 && password == confirmPassword && Trim(name) != "" && EmailTest(email)
      ensures valid <==> |errors| == 0
      ensures errors == ErrorsFor(name, email, password, confirmPassword)
      ensures name == old(name) && email == old(email)
      ensures password == old(password) && confirmPassword == old(confirmPassword)
    {
      var newErrors: map<string, string> := map[];
      if |password| < 8 {
        newErrors := newErrors["password" := PasswordError];
      }
      if password != confirmPassword {
        newErrors := newErrors["confirmPassword" := ConfirmError];
      }
      if Trim(name) == "" {
        newErrors := newErrors["name" := NameError];
      }
      if !EmailTest(email) {
        newErrors := newErrors["email" := EmailError];
      }
      assert newErrors == ErrorsFor(name, email, password, confirmPassword);
      errors := newErrors;
      valid := |newErrors| == 0;
    }

    /** `handleSubmit`: `login({name})` and `navigate("/home")` happen only when the
        form is valid; the two results are what they receive, None when they are
        not called. */
    method HandleSubmit() returns (login: Option<string>, navigate: Option<string>)
      modifies this
      ensures login.Some? <==> |errors| == 0
      ensures navigate.Some? <==> |errors| == 0
      ensures login.Some? ==> login.value == name && navigate == Some("/home")
      ensures login.Some? <==> |password| >= 8 && password == confirmPassword && Trim(name) != "" && EmailTest(email)
      ensures errors == ErrorsFor(name, email, password, confirmPassword)
      ensures name == old(name) && email == old(email)
      ensures password == old(password) && confirmPassword == old(confirmPassword)
    {
      var valid := ValidateForm();
      if valid {
        login := Some(name);
        navigate := Some("/home");
      } else {
        login := None;
        navigate := None;
      }
    }
  }
}
