/** The request body of PUT /users/:id: every field optional, checked only when present. */
module UsersDto {
  import opened Wrappers
  import opened Validators

  /**
   * UpdateUserDto carries email, firstName and lastName and nothing else, so an
   * update built from it has no way to name id, password or refreshToken.
   */
  datatype UpdateUserDto = UpdateUserDto(email: Option<string>, firstName: Option<string>, lastName: Option<string>)

  /** `@IsOptional()` followed by the field's own rule. */
  predicate ValidUpdate(isEmail: string -> bool, d: UpdateUserDto) {
    && (d.email.Some? ==> isEmail(d.email.value))
    && (d.firstName.Some? ==> IsNotEmpty(d.firstName.value))
    && (d.lastName.Some? ==> IsNotEmpty(d.lastName.value))
  }

  /** The body with no fields at all. */
  const EmptyUpdate := UpdateUserDto(None, None, None)

  /** The empty body is valid whatever the email rule is. */
  lemma EmptyUpdateValid(isEmail: string -> bool)
    ensures ValidUpdate(isEmail, EmptyUpdate)
  {
  }

  /** Each present field must pass its rule, and an absent field is never what rejects a body. */
  lemma UpdateRules(isEmail: string -> bool, d: UpdateUserDto)
    ensures d.email.Some? && !isEmail(d.email.value) ==> !ValidUpdate(isEmail, d)
    ensures d.firstName == Some("") ==> !ValidUpdate(isEmail, d)
    ensures d.lastName == Some("") ==> !ValidUpdate(isEmail, d)
    ensures ValidUpdate(isEmail, d) ==> ValidUpdate(isEmail, d.(email := None))
    ensures ValidUpdate(isEmail, d) ==> ValidUpdate(isEmail, d.(firstName := None))
    ensures ValidUpdate(isEmail, d) ==> ValidUpdate(isEmail, d.(lastName := None))
  {
  }
}
