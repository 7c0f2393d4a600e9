/**
 * The `/about/:id` route of api/index.js. Its `isValidId` and `findUserById`
 * come from a module that is not part of this model, so the route is a
 * function of both: `findUserById(users, key)` is called with the route's
 * user table and `parseInt(id)`, which is NaN for some strings.
 */
module ApiApp {
  import opened Wrappers
  import opened JsNumber
  import opened NumericLiteral
  import opened Http
  import RootApp

  const Users: seq<User> := [User(1, "Alice"), User(2, "Bob"), User(3, "Charlie")]

  /** The response together with the keys `findUserById` was called with, in call order. */
  datatype Exchange = Exchange(response: Response, lookups: seq<Number>)

  /** The handler of `GET /about/:id`. */
  function About(isValidId: string -> bool, findUserById: (seq<User>, Number) -> Option<User>, id: string): (x: Exchange)
    ensures !isValidId(id) ==> x.response == InvalidIdFormat && x.lookups == []
    ensures isValidId(id) ==> x.lookups == [ParseInt(id)]
    ensures isValidId(id) ==> match findUserById(Users, ParseInt(id))
                               case None => x.response == UserNotFound
                               case Some(user) => x.response == Ok(user)
  {
    if !isValidId(id) then Exchange(InvalidIdFormat, [])
    else
      var key := ParseInt(id);
      match findUserById(Users, key)
      case None => Exchange(UserNotFound, [key])
      case Some(user) => Exchange(Ok(user), [key])
  }

  /** Whatever the helpers, the lookup runs at most once, and only for an id that passed validation. */
  lemma LookupOnlyAfterValidation(isValidId: string -> bool, findUserById: (seq<User>, Number) -> Option<User>, id: string)
    ensures |About(isValidId, findUserById, id).lookups| <= 1
    ensures |About(isValidId, findUserById, id).lookups| == 1 <==> isValidId(id)
    ensures About(isValidId, findUserById, id).response.status == 400 <==> !isValidId(id)
  {
  }

  /**
   * With index.js's `isValidId` and `findUserById` plugged in, this route
   * answers exactly as the route of index.js does.
   */
  lemma AgreesWithRootApp(id: string)
    ensures About(RootApp.IsValidId, RootApp.FindUserById, id).response == RootApp.About(id)
  {
  }

  /** A lookup standing in for the test double: it knows Bob only. */
  function BobOnly(users: seq<User>, key: Number): Option<User> {
    if key == FromInt(2) then Some(User(2, "Bob")) else None
  }

  /** The route's answers for the ids the api tests request, with index.js's validation. */
  lemma AboutExamples()
    ensures About(RootApp.IsValidId, BobOnly, "2.0") == Exchange(Ok(User(2, "Bob")), [FromInt(2)])
    ensures About(RootApp.IsValidId, BobOnly, "-1") == Exchange(UserNotFound, [FromInt(-1)])
    ensures About(RootApp.IsValidId, BobOnly, "abc") == Exchange(InvalidIdFormat, [])
    ensures About(RootApp.IsValidId, BobOnly, "1.5") == Exchange(InvalidIdFormat, [])
  {
    RootApp.TwoPointZeroIsValid();
    RootApp.MinusOneIsValid();
    RootApp.InvalidIdExamples();
  }
}
