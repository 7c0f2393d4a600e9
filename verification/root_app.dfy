/**
 * The `/about/:id` route of index.js with its own helpers: `isValidId`, the
 * `users` table and `findUserById`.
 */
module RootApp {
  import opened Wrappers
  import opened JsNumber
  import opened NumericLiteral
  import opened Http

  const Users: seq<User> := [User(1, "Alice"), User(2, "Bob"), User(3, "Charlie")]

  /** `!isNaN(id) && Number.isInteger(Number(id))`. */
  predicate IsValidId(id: string) {
    !ToNumber(id).NaN? && IsInteger(ToNumber(id))
  }

  /** `u.id === key`: strict equality, which NaN never satisfies. */
  predicate HasId(u: User, key: Number) {
    key == FromInt(u.id)
  }

  /**
   * The ids that pass validation are exactly the texts of decimal literals
   * whose fraction digits are all zeros: "7", "-1", "+3", "2.0", "2.", ".0".
   */
  lemma ValidIdIff(id: string)
    ensures IsValidId(id) <==> exists d: DecimalLiteral :: d.Valid() && d.Text() == id && AllZeros(d.fraction)
  {
    IntegerNumberIff(id);
    if IsValidId(id) {
      var d := Parse(id).value;
      assert d.Valid() && d.Text() == id && AllZeros(d.fraction);
    } else if exists d: DecimalLiteral :: d.Valid() && d.Text() == id && AllZeros(d.fraction) {
      var d: DecimalLiteral :| d.Valid() && d.Text() == id && AllZeros(d.fraction);
      ParseText(d);
    }
  }

  predicate DistinctIds(users: seq<User>) {
    forall i, j :: 0 <= i < |users| && 0 <= j < |users| && users[i].id == users[j].id ==> i == j
  }

  /** `users.find(u => u.id === key)`: the first user with that id, if any. */
  function FindUserById(users: seq<User>, key: Number): (r: Option<User>)
    ensures r.None? <==> forall i :: 0 <= i < |users| ==> !HasId(users[i], key)
    ensures r.Some? ==> exists i :: 0 <= i < |users| && users[i] == r.value && HasId(users[i], key)
                                  && forall j :: 0 <= j < i ==> !HasId(users[j], key)
  {
    if users == [] then None
    else if HasId(users[0], key) then Some(users[0])
    else
      var r := FindUserById(users[1..], key);
      assert forall i :: 1 <= i < |users| ==> users[i] == users[1..][i - 1];
      r
  }

  /** The handler of `GET /about/:id`. */
  function About(id: string): (response: Response) {
    if !IsValidId(id) then InvalidIdFormat
    else
      match FindUserById(Users, ParseInt(id))
      case None => UserNotFound
      case Some(user) => Ok(user)
  }

  /** No two users in the table share an id. */
  lemma UsersHaveDistinctIds()
    ensures DistinctIds(Users)
  {
  }

  /** In a table without repeated ids, the user found for a key is the one user holding it. */
  lemma FindUniqueMatch(users: seq<User>, key: Number, u: User)
    requires DistinctIds(users)
    requires u in users && HasId(u, key)
    ensures FindUserById(users, key) == Some(u)
  {
  }

  /**
   * The route's decision, stated on the number the id denotes: 400 for an
   * invalid id, otherwise 200 with the user whose id is that number, or 404
   * when there is none. The lookup key `parseInt(id)` can differ from that
   * number (it is NaN for ".0"), but never in a way the table can observe.
   */
  lemma AboutResponse(id: string)
    ensures !IsValidId(id) ==> About(id) == InvalidIdFormat
    ensures IsValidId(id) && (forall u :: u in Users ==> !HasId(u, ToNumber(id))) ==> About(id) == UserNotFound
    ensures IsValidId(id) ==> forall u :: u in Users && HasId(u, ToNumber(id)) ==> About(id) == Ok(u)
  {
    if IsValidId(id) {
      ParseIntAgreesWithNumber(id);
      UsersHaveDistinctIds();
      forall u | u in Users && HasId(u, ToNumber(id))
        ensures About(id) == Ok(u)
      {
        FindUniqueMatch(Users, ParseInt(id), u);
      }
    }
  }

  /** The number and `parseInt` of the text of a literal whose fraction is all zeros. */
  lemma IntegerLiteral(d: DecimalLiteral)
    requires d.Valid() && AllZeros(d.fraction)
    ensures IsValidId(d.Text())
    ensures ToNumber(d.Text()) == FromInt(Signed(d.sign, DigitsValue(d.whole)))
    ensures ParseInt(d.Text()) == if d.whole == [] then NaN else ToNumber(d.Text())
  {
    ParseText(d);
    ValueOfZeroFraction(d);
    FromIntIsInteger(Signed(d.sign, DigitsValue(d.whole)));
    ParseIntOfLiteral(d);
  }

  /** Ids the route rejects: one that is not a number, one that is not an integer. */
  lemma InvalidIdExamples()
    ensures !IsValidId("abc")
    ensures !IsValidId("1.5")
  {
    assert DigitRun("abc") == 0;
    var oneAndHalf := DecimalLiteral(Unsigned, "1", true, "5");
    assert oneAndHalf.Text() == "1.5";
    ParseText(oneAndHalf);
    IntegerIffZeroFraction(oneAndHalf);
    assert oneAndHalf.fraction[0] == '5';
  }

  lemma OneIsValid()
    ensures IsValidId("1") && ParseInt("1") == ToNumber("1") == FromInt(1)
  {
    var d := DecimalLiteral(Unsigned, "1", false, "");
    assert d.Text() == "1";
    IntegerLiteral(d);
  }

  lemma TwoIsValid()
    ensures IsValidId("2") && ParseInt("2") == ToNumber("2") == FromInt(2)
  {
    var d := DecimalLiteral(Unsigned, "2", false, "");
    assert d.Text() == "2";
    IntegerLiteral(d);
  }

  lemma MinusOneIsValid()
    ensures IsValidId("-1") && ParseInt("-1") == ToNumber("-1") == FromInt(-1)
  {
    var d := DecimalLiteral(Minus, "1", false, "");
    assert d.Text() == "-1";
    IntegerLiteral(d);
  }

  /** "2.0" passes validation and is looked up as 2. */
  lemma TwoPointZeroIsValid()
    ensures IsValidId("2.0") && ParseInt("2.0") == ToNumber("2.0") == FromInt(2)
  {
    var twoPointZero := DecimalLiteral(Unsigned, "2", true, "0");
    assert twoPointZero.Text() == "2.0";
    assert DigitsValue("2") == 2;
    IntegerLiteral(twoPointZero);
  }

  lemma NineNineNineIsValid()
    ensures IsValidId("999") && ParseInt("999") == ToNumber("999") == FromInt(999)
  {
    var nines := DecimalLiteral(Unsigned, "999", false, "");
    assert nines.Text() == "999";
    IntegerLiteral(nines);
  }

  /** ".0" passes validation as the number 0, yet `parseInt` reads no digits from it. */
  lemma PointZeroIsValidWithoutKey()
    ensures IsValidId(".0") && ToNumber(".0") == FromInt(0) && ParseInt(".0") == NaN
  {
    var pointZero := DecimalLiteral(Unsigned, "", true, "0");
    assert pointZero.Text() == ".0";
    IntegerLiteral(pointZero);
  }

  /** The route's answers for the ids its tests request that name a user. */
  lemma AboutFoundExamples()
    ensures About("1") == Ok(User(1, "Alice"))
    ensures About("2") == Ok(User(2, "Bob"))
    ensures About("2.0") == Ok(User(2, "Bob"))
  {
    OneIsValid();
    TwoIsValid();
    TwoPointZeroIsValid();
    AboutResponse("1");
    AboutResponse("2");
    AboutResponse("2.0");
    assert User(1, "Alice") in Users && User(2, "Bob") in Users;
  }

  /** A valid id naming no user in the table gives 404. */
  lemma AboutNineNineNine()
    ensures About("999") == UserNotFound
  {
  }

  /** A negative id is valid but names no user, so it gives 404. */
  lemma AboutMinusOne()
    ensures About("-1") == UserNotFound
  {
  }

  /** The route's answers for the malformed ids its tests request. */
  lemma AboutInvalidExamples()
    ensures About("abc") == InvalidIdFormat
    ensures About("1.5") == InvalidIdFormat
  {
    InvalidIdExamples();
  }
}
