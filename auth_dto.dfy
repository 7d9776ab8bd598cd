/** The request bodies of POST /auth/signup and POST /auth/login and their validation rules. */
module AuthDto {
  import opened Validators

  /** SignupDto: all four fields are declared without `?`, so each one is required. */
  datatype SignupDto = SignupDto(email: string, password: string, firstName: string, lastName: string)

  /** LoginDto: email and password, both required. */
  datatype LoginDto = LoginDto(email: string, password: string)

  /** The decorators of SignupDto, one conjunct per field. */
  predicate ValidSignup(isEmail: string -> bool, d: SignupDto) {
    && isEmail(d.email)
    && MinLength(d.password, PasswordMinLength)
    && IsNotEmpty(d.firstName)
    && IsNotEmpty(d.lastName)
  }

  /** The decorators of LoginDto. */
  predicate ValidLogin(isEmail: string -> bool, d: LoginDto) {
    isEmail(d.email) && MinLength(d.password, PasswordMinLength)
  }

  /** A signup body is valid exactly when no field breaks its rule; each broken rule alone rejects it. */
  lemma SignupRules(isEmail: string -> bool, d: SignupDto)
    ensures !isEmail(d.email) ==> !ValidSignup(isEmail, d)
    ensures Length(d.password) < 8 ==> !ValidSignup(isEmail, d)
    ensures d.firstName == "" ==> !ValidSignup(isEmail, d)
    ensures d.lastName == "" ==> !ValidSignup(isEmail, d)
    ensures isEmail(d.email) && Length(d.password) >= 8 && d.firstName != "" && d.lastName != "" ==> ValidSignup(isEmail, d)
  {
  }

  /**
   * For a well-formed email, the login password rule is a length rule only: a password of
   * 8 or more characters passes whatever they are, provided none is a variation selector;
   * a shorter one never passes.
   */
  lemma LoginPasswordRule(isEmail: string -> bool, email: string, password: string)
    requires isEmail(email)
    ensures ValidLogin(isEmail, LoginDto(email, password)) <==> Length(password) >= 8
    ensures |password| < 8 ==> !ValidLogin(isEmail, LoginDto(email, password))
    ensures (|password| >= 8 && forall i :: 0 <= i < |password| ==> !IsPresentationSelector(password[i]))
            ==> ValidLogin(isEmail, LoginDto(email, password))
  {
  }

  /** A login body with a malformed email is invalid whatever the password. */
  lemma LoginNeedsEmail(isEmail: string -> bool, d: LoginDto)
    requires !isEmail(d.email)
    ensures !ValidLogin(isEmail, d)
  {
  }

  /** The credentials of every valid signup body form a valid login body. */
  lemma SignupCredentialsLogIn(isEmail: string -> bool, d: SignupDto)
    requires ValidSignup(isEmail, d)
    ensures ValidLogin(isEmail, LoginDto(d.email, d.password))
  {
  }
}
