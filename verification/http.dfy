/** The user records and the responses of the `/about/:id` routes. */
module Http {

  datatype User = User(id: int, name: string)

  /** A JSON response body: an `{ error }` object or a user record. */
  datatype Body = Error(error: string) | UserRecord(user: User)

  datatype Response = Response(status: int, body: Body)

  const InvalidIdFormat: Response := Response(400, Error("Invalid id format"))
  const UserNotFound: Response := Response(404, Error("User not found"))

  /** `res.send(user)`: status 200 with the record as the body. */
  function Ok(user: User): Response {
    Response(200, UserRecord(user))
  }
}
