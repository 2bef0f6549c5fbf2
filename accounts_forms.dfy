/** `PasswordChangeCustomForm.clean`: the new password and its confirmation must
    agree when both are given. */
module AccountsForms {

  import opened Wrappers

  /** The cleaned data of the form; a field that failed its own validation is
      missing (None), an empty one is "". */
  datatype PasswordChange = PasswordChange(
    oldPassword: Option<string>,
    newPassword: Option<string>,
    confirmPassword: Option<string>)

  datatype CleanError = PasswordsDoNotMatch

  /** Python truthiness of an optional string: present and non-empty. */
  predicate Truthy(s: Option<string>)
  {
    s.Some? && s.value != ""
  }

  /** `clean`: raises the mismatch error when both passwords are truthy and differ,
      otherwise returns the cleaned data unchanged. */
  function Clean(data: PasswordChange): (r: Result<PasswordChange, CleanError>)
    ensures r.Err? <==> Truthy(data.newPassword) && Truthy(data.confirmPassword) &&
                        data.newPassword.value != data.confirmPassword.value
    ensures r.Ok? ==> r.value == data
  {
    var n, c := data.newPassword, data.confirmPassword;
    if Truthy(n) && Truthy(c) && n != c then Err(PasswordsDoNotMatch) else Ok(data)
  }

  /** An empty or missing password never triggers the mismatch error. */
  lemma EmptyNeverMismatch(data: PasswordChange)
    requires !Truthy(data.newPassword) || !Truthy(data.confirmPassword)
    ensures Clean(data) == Ok(data)
  {
  }

  /** The old password plays no part in the outcome of `clean`. */
  lemma OldPasswordIgnored(data: PasswordChange, other: Option<string>)
    ensures Clean(data.(oldPassword := other)).Err? == Clean(data).Err?
  {
  }
}
