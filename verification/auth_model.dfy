/** The auth service's records and request bodies. */
module AuthModel {

  /** One document of the AUTH.user collection; also the login request body. */
  datatype Auth = Auth(
    password: string,
    username: string,
    email: string,
    salt: string,
    role: string,
    status: string,
    code: string)

  /** The Go zero value model.Auth{}: what a failed FindOne leaves behind. */
  const ZeroAuth := Auth("", "", "", "", "", "", "")

  /** A regular user's sign-up request. */
  datatype User = User(
    id: string,
    firstName: string,
    lastName: string,
    password: string,
    username: string,
    email: string,
    gender: string,
    age: string,
    city: string,
    role: string)

  /** A business user's sign-up request. */
  datatype UserBusiness = UserBusiness(
    id: string,
    password: string,
    username: string,
    website: string,
    email: string,
    company: string,
    role: string)

  datatype ChangePassword = ChangePassword(currentPassword: string, newPassword: string)

  datatype RecoveryPassword = RecoveryPassword(email: string, code: string, newPassword: string)

  datatype CodeRecovery = CodeRecovery(email: string)

  /** One document of the AUTH.passwordRecovery collection. */
  datatype EmailCodeRecovery = EmailCodeRecovery(email: string, code: string)
}
