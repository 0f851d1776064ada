/** `validateAnimal` and how the POST route reads its result. */
module Validator {
  import opened Records

  /** The fields of a POST body the server looks at. */
  datatype Body = Body(id: Value, name: Value, species: Value, diet: Value, personalityTraits: Value)

  /** The three values `validateAnimal` can return: `false`, `true`, or `undefined` when it falls off the end. */
  datatype Verdict = Reject | Accept | FallThrough

  /** A value that passes `!v || typeof v !== 'string'` unrejected. */
  predicate NonEmptyString(v: Value)
  {
    v.Str? && v.s != ""
  }

  predicate GoodStrings(b: Body)
  {
    NonEmptyString(b.name) && NonEmptyString(b.species) && NonEmptyString(b.diet)
  }

  function ValidateAnimal(b: Body): (v: Verdict)
    ensures v == Reject <==> !GoodStrings(b)
    ensures v == Accept <==> GoodStrings(b) && !b.personalityTraits.Arr?
    ensures v == FallThrough <==> GoodStrings(b) && b.personalityTraits.Arr?
  {
    if !Truthy(b.name) || !b.name.Str? then Reject
    else if !Truthy(b.species) || !b.species.Str? then Reject
    else if !Truthy(b.diet) || !b.diet.Str? then Reject
    else if !Truthy(b.personalityTraits) || !b.personalityTraits.Arr? then Accept
    else FallThrough
  }

  /**
   * The route's decision `!validateAnimal(req.body)`: `false` and `undefined`
   * are both falsy, so a body is stored exactly when its three string fields
   * are non-empty strings and its traits are NOT an array.
   */
  function RouteAccepts(b: Body): (ok: bool)
    ensures ok <==> GoodStrings(b) && !b.personalityTraits.Arr?
  {
    ValidateAnimal(b) == Accept
  }
}
