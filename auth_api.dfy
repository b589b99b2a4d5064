/**
 * The authentication store as the screens see it: each request a screen makes
 * is recorded, with its arguments, in the order it was made. What the store
 * does with a request, and what it answers, is not part of this model.
 */
module AuthApi {

  datatype AuthCall =
    | SignIn(email: string, password: string)
    | SignUp(email: string, password: string, nombreCompleto: string)
    | UpdatePassword(newPassword: string)
    | ResetPassword(email: string)
}
