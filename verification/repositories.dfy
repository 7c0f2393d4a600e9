/**
 * The selection rule of `RepositoryFactory.create` in
 * api/src/repositories/index.js, returning which repository it builds.
 */
module Repositories {
  import opened JsNumber
  import opened JsValue

  datatype RepositoryKind = SequelizeUsers | SequelizeNotes

  const DefaultType: string := "sequelize"
  const NotesType: string := "sequelize-notes"

  /** `toLowerCase` on one character, for ASCII letters. */
  function LowerChar(c: char): char {
    if 'A' <= c <= 'Z' then (c as int + 32) as char else c
  }

  function ToLowerCase(s: string): (r: string)
    ensures |r| == |s|
    ensures forall i :: 0 <= i < |s| ==> r[i] == LowerChar(s[i])
  {
    if s == [] then [] else [LowerChar(s[0])] + ToLowerCase(s[1..])
  }

  /** Two strings that differ at most in the case of their letters. */
  predicate SameIgnoringCase(a: string, b: string) {
    |a| == |b| && forall i :: 0 <= i < |a| ==> LowerChar(a[i]) == LowerChar(b[i])
  }

  /**
   * `create(type = 'sequelize')`. A call without an argument, or with
   * `undefined`, takes the default. Only strings have a `toLowerCase` here;
   * on any other argument, `null` included, the call throws a TypeError.
   */
  function Create(requested: Value): (r: Completion<RepositoryKind>) {
    var requested := if requested.Undefined? then Str(DefaultType) else requested;
    if !requested.Str? then TypeError
    else
      var lowered := ToLowerCase(requested.s);
      if lowered == DefaultType then Normal(SequelizeUsers)
      else if lowered == NotesType then Normal(SequelizeNotes)
      else Normal(SequelizeUsers)
  }

  /** Lower-casing is idempotent. */
  lemma ToLowerCaseIdempotent(s: string)
    ensures ToLowerCase(ToLowerCase(s)) == ToLowerCase(s)
  {
  }

  /** Two strings lower-case alike exactly when they differ only in case. */
  lemma ToLowerCaseEqualIff(a: string, b: string)
    ensures ToLowerCase(a) == ToLowerCase(b) <==> SameIgnoringCase(a, b)
  {
  }

  /** Without an argument the factory builds what `create('sequelize')` builds: the Sequelize user repository. */
  lemma CreateDefault()
    ensures Create(Undefined) == Create(Str(DefaultType)) == Normal(SequelizeUsers)
  {
  }

  /** The factory throws exactly for an argument that is neither a string nor `undefined`. */
  lemma CreateThrowsIff(requested: Value)
    ensures Create(requested) == TypeError <==> !requested.Undefined? && !requested.Str?
  {
  }

  /**
   * The notes repository is chosen exactly for the strings that spell
   * "sequelize-notes" in any mix of cases; every other string, "sequelize"
   * included, gives the user repository.
   */
  lemma CreateNotesIff(requested: string)
    ensures Create(Str(requested)) == Normal(SequelizeNotes) <==> SameIgnoringCase(requested, NotesType)
    ensures !SameIgnoringCase(requested, NotesType) ==> Create(Str(requested)) == Normal(SequelizeUsers)
  {
  }

  /** The choice depends only on the argument up to case. */
  lemma CreateIgnoresCase(a: string, b: string)
    requires SameIgnoringCase(a, b)
    ensures Create(Str(a)) == Create(Str(b))
  {
  }

  lemma CreateExamples()
    ensures Create(Str("SEQUELIZE")) == Normal(SequelizeUsers)
    ensures Create(Str("postgres")) == Normal(SequelizeUsers)
    ensures Create(Null) == TypeError
    ensures Create(Num(FromInt(5))) == TypeError
  {
  }

  /** An upper-case spelling of the notes type selects the notes repository. */
  lemma CreateUpperCaseNotes()
    ensures Create(Str("SEQUELIZE-NOTES")) == Normal(SequelizeNotes)
  {
    assert SameIgnoringCase("SEQUELIZE-NOTES", NotesType);
    CreateNotesIff("SEQUELIZE-NOTES");
  }
}
