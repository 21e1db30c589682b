/** The mock login of src/auth/auth.js: one hard-coded credential pair and
    a flag kept under the barber_auth key of localStorage. */
module Auth {
  import opened Base

  const ValidEmail := "admin@admin.com"
  const ValidPassword := "admin"
  /** The value login stores and isAuthenticated looks for. */
  const AuthFlag := "1"
  const LoginError := "Email ou senha inválidos"

  datatype LoginResult = Success | Failure(error: string)

  /** The answer login gives: success exactly for the hard-coded pair,
      otherwise the fixed error message. */
  function CheckLogin(email: string, password: string): (r: LoginResult)
    ensures r.Success? <==> email == ValidEmail && password == ValidPassword
    ensures r.Failure? ==> r.error == LoginError
  {
    if email == ValidEmail && password == ValidPassword then Success else Failure(LoginError)
  }

  /** The barber_auth entry of localStorage: absent, or some text. */
  class AuthStore {
    var entry: Option<string>

    constructor(entry: Option<string>)
      ensures this.entry == entry
    {
      this.entry := entry;
    }

    /** isAuthenticated: the stored value is exactly "1". */
    predicate IsAuthenticated()
      reads this
    {
      entry == Some(AuthFlag)
    }

    /** login: a correct pair stores the flag; a wrong one changes nothing. */
    method Login(email: string, password: string) returns (r: LoginResult)
      modifies this
      ensures r == CheckLogin(email, password)
      ensures r.Success? ==> entry == Some(AuthFlag) && IsAuthenticated()
      ensures r.Failure? ==> entry == old(entry) && IsAuthenticated() == old(IsAuthenticated())
    {
      if email == ValidEmail && password == ValidPassword {
        entry := Some(AuthFlag);
        return Success;
      }
      return Failure(LoginError);
    }

    /** logout: removes the entry. */
    method Logout()
      modifies this
      ensures entry == None && !IsAuthenticated()
    {
      entry := None;
    }
  }
}
