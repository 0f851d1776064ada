/**
 * The data the server works on: JavaScript values as far as the server
 * inspects them, parsed query-string values, and stored animal records,
 * together with the two `indexOf` methods the trait filter relies on.
 */
module Records {
  import opened Wrappers

  /**
   * A JavaScript value as the server sees it in a record or a request body:
   * `undefined`/`null` (Missing), a string, an array, or any other value
   * (number, boolean, object) together with its truthiness.
   */
  datatype Value = Missing | Str(s: string) | Arr(items: seq<Value>) | Other(truthy: bool)

  /** JavaScript truthiness: the empty string, `undefined` and `null` are falsy, arrays are not. */
  predicate Truthy(v: Value)
  {
    match v
    case Missing => false
    case Str(s) => s != ""
    case Arr(_) => true
    case Other(t) => t
  }

  /** A parsed query-string value: one string, or an array when the key is repeated. */
  datatype Param = One(s: string) | Many(items: seq<string>)

  /** A record of the collection. Its traits field is whatever value the record carries. */
  datatype Animal = Animal(id: string, name: string, species: string, diet: string, personalityTraits: Value)

  /** `t` occurs in `s` starting at index `i`. */
  predicate OccursAt(t: string, s: string, i: nat)
  {
    i + |t| <= |s| && s[i..i + |t|] == t
  }

  /** `String.prototype.indexOf(t, i)`: the first occurrence of `t` in `s` at or after `i`, or -1. */
  function SubstringIndexFrom(s: string, t: string, i: nat): (r: int)
    requires i <= |s|
    ensures r == -1 || (i <= r && OccursAt(t, s, r))
    ensures r == -1 ==> forall j: nat :: i <= j ==> !OccursAt(t, s, j)
    ensures r != -1 ==> forall j: nat :: i <= j < r ==> !OccursAt(t, s, j)
    decreases |s| - i
  {
    if i + |t| > |s| then -1
    else if s[i..i + |t|] == t then i
    else SubstringIndexFrom(s, t, i + 1)
  }

  /** `Array.prototype.indexOf(t)`: the first index holding a value strictly equal to `t`, or -1. */
  function ElementIndex(items: seq<Value>, t: string): (r: int)
    ensures -1 <= r < |items|
    ensures r == -1 <==> Str(t) !in items
    ensures 0 <= r ==> items[r] == Str(t) && Str(t) !in items[..r]
  {
    if items == [] then -1
    else if items[0] == Str(t) then 0
    else
      var k := ElementIndex(items[1..], t);
      assert items[1..][..k + 1] == items[1..k + 2];
      if k == -1 then -1 else k + 1
  }

  /** The values that have an `indexOf` method. */
  predicate Indexable(v: Value)
  {
    v.Str? || v.Arr?
  }

  /**
   * `v.indexOf(t)` for a string `t`: None stands for the TypeError thrown
   * when `v` has no `indexOf` method.
   */
  function IndexOf(v: Value, t: string): (r: Option<int>)
    ensures r.Some? <==> Indexable(v)
    ensures v.Arr? ==> r.Some? && (r.value == -1 <==> Str(t) !in v.items)
    ensures v.Str? ==> r.Some? && (r.value == -1 <==> forall j: nat :: !OccursAt(t, v.s, j))
  {
    match v
    case Str(s) => Some(SubstringIndexFrom(s, t, 0))
    case Arr(items) => Some(ElementIndex(items, t))
    case _ => None
  }

  /** `v.indexOf(t) !== -1`, for a value that has `indexOf`. */
  predicate Contains(v: Value, t: string)
  {
    match IndexOf(v, t)
    case Some(k) => k != -1
    case None => false
  }
}
