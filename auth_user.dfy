/** The signed-in user as the components see it. */
module AuthUser {

  /** The account id and whether `user_metadata.is_admin` is truthy. */
  datatype User = User(id: string, isAdmin: bool)
}
