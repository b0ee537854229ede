/** The guard chain of `validateUserData`: the promise it returns is
    rejected with a message or resolved with a greeting. A missing argument
    is None; an argument counts as falsy when it is missing or empty. A
    string's `.length` counts UTF-16 code units (`Utf16Length`). */
module UserValidation {
  import opened Common

  const EmptyMessage := "username or password not empty"
  const ShortMessage := "Invalid username or password. Password must be at least 3 characters long"

  predicate Falsy(s: Option<string>) {
    s.None? || s.value == ""
  }

  /** The settled promise, with the second guard as written: it rejects when
      the username is empty or the password has at most two characters. */
  function ValidateUserData(username: Option<string>, password: Option<string>): (r: Result<string, string>)
    ensures r == Err(EmptyMessage) <==> Falsy(username) || Falsy(password)
    ensures r == Err(ShortMessage) <==> !Falsy(username) && !Falsy(password) && Utf16Length(password.value) <= 2
    ensures r.Ok? <==> !Falsy(username) && !Falsy(password) && Utf16Length(password.value) >= 3
    ensures r.Ok? ==> r.value == "welcome " + username.value
  {
    if Falsy(username) || Falsy(password) then Err(EmptyMessage)
    else if Utf16Length(username.value) == 0 || Utf16Length(password.value) <= 2 then Err(ShortMessage)
    else Ok("welcome " + username.value)
  }

  /** The same chain without the `username.length === 0` test. */
  function ValidateWithoutUsernameLength(username: Option<string>, password: Option<string>): Result<string, string> {
    if Falsy(username) || Falsy(password) then Err(EmptyMessage)
    else if Utf16Length(password.value) <= 2 then Err(ShortMessage)
    else Ok("welcome " + username.value)
  }

  /** The first guard already rejects an empty username, so the
      `username.length === 0` test in the second guard never decides the
      outcome: dropping it changes no answer. */
  lemma UsernameLengthTestUnreachable(username: Option<string>, password: Option<string>)
    ensures ValidateUserData(username, password) == ValidateWithoutUsernameLength(username, password)
  {
    if !Falsy(username) {
      assert Utf16Length(username.value) != 0;
    }
  }

  /** The call the source makes: ('suresh', 'orio') resolves. */
  lemma SureshIsWelcome()
    ensures ValidateUserData(Some("suresh"), Some("orio")) == Ok("welcome suresh")
  {
    assert Utf16Length("orio") == 4;
    assert "welcome " + "suresh" == "welcome suresh";
  }

  /** Two emoji make a password of four UTF-16 code units, which passes the
      length test although it has only two characters. */
  lemma AstralPasswordAccepted()
    ensures ValidateUserData(Some("u"), Some("\U{1F600}\U{1F600}")) == Ok("welcome u")
  {
    assert Utf16Length("\U{1F600}\U{1F600}") == 4;
    assert "welcome " + "u" == "welcome u";
  }

  /** A greeting always carries the username that was validated, so the
      username can be read back from a resolved promise. */
  lemma GreetingRecoversUsername(username: Option<string>, password: Option<string>)
    requires ValidateUserData(username, password).Ok?
    ensures var greeting := ValidateUserData(username, password).value;
            |greeting| > 8 && greeting[..8] == "welcome " && greeting[8..] == username.value
  {
  }
}
