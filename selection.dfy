/**
 * `Array.prototype.filter` over the collection, for the predicates the server
 * filters by, and the facts about successive filters that the query filter
 * and the identifier lookup rely on.
 */
module Selection {
  import opened Records

  datatype Field = Diet | Species | Name

  function FieldOf(a: Animal, f: Field): (x: string)
  {
    match f
    case Diet => a.diet
    case Species => a.species
    case Name => a.name
  }

  /** One predicate passed to `.filter` by the server. */
  datatype Criterion =
    | HasTrait(wanted: string)             // animal.personalityTraits.indexOf(wanted) !== -1
    | FieldIs(field: Field, value: Param)  // animal.<field> === query.<field>
    | IdIs(id: string)                     // animal.id === id

  predicate Holds(c: Criterion, a: Animal)
  {
    match c
    case HasTrait(t) => Contains(a.personalityTraits, t)
    case FieldIs(f, v) => v == One(FieldOf(a, f))  // a string is never === an array
    case IdIs(id) => a.id == id
  }

  /** All criteria hold of `a`. */
  predicate Keep(cs: seq<Criterion>, a: Animal)
  {
    forall c :: c in cs ==> Holds(c, a)
  }

  /** The records of `s` that every criterion keeps, in their original order. */
  function Select(cs: seq<Criterion>, s: seq<Animal>): (r: seq<Animal>)
    ensures |r| <= |s|
    ensures forall a :: a in r <==> a in s && Keep(cs, a)
  {
    if s == [] then []
    else
      var rest := Select(cs, s[1..]);
      assert forall a :: a in s <==> a == s[0] || a in s[1..];
      if Keep(cs, s[0]) then [s[0]] + rest else rest
  }

  /** Criteria lists are conjunctions: joining two lists joins their conditions. */
  lemma KeepAppend(cs: seq<Criterion>, ds: seq<Criterion>, a: Animal)
    ensures Keep(cs + ds, a) <==> Keep(cs, a) && Keep(ds, a)
    ensures Keep([], a)
  {
  }

  /** A selection holds each kept record exactly as often as the input does, and no other record. */
  lemma {:induction false} SelectCount(cs: seq<Criterion>, s: seq<Animal>, a: Animal)
    ensures multiset(Select(cs, s))[a] == if Keep(cs, a) then multiset(s)[a] else 0
  {
    if s != [] {
      SelectCount(cs, s[1..], a);
      assert s == [s[0]] + s[1..];
      assert multiset(s) == multiset([s[0]]) + multiset(s[1..]);
    }
  }

  /** `r` is obtained from `s` by deleting elements, keeping the order of the rest. */
  predicate IsSubsequence<T(==)>(r: seq<T>, s: seq<T>)
    decreases |s|
  {
    r == [] || (s != [] && ((r[0] == s[0] && IsSubsequence(r[1..], s[1..])) || IsSubsequence(r, s[1..])))
  }

  /** Filtering by no criterion returns the collection itself. */
  lemma {:induction false} SelectNothing(s: seq<Animal>)
    ensures Select([], s) == s
  {
    if s != [] {
      SelectNothing(s[1..]);
    }
  }

  /** Filtering the result of one filter again is filtering once by both sets of criteria. */
  lemma {:induction false} SelectCompose(cs: seq<Criterion>, ds: seq<Criterion>, s: seq<Animal>)
    ensures Select(ds, Select(cs, s)) == Select(cs + ds, s)
  {
    if s != [] {
      SelectCompose(cs, ds, s[1..]);
      var rest := Select(cs, s[1..]);
      assert Keep(cs + ds, s[0]) <==> Keep(cs, s[0]) && Keep(ds, s[0]);
      if Keep(cs, s[0]) {
        assert ([s[0]] + rest)[1..] == rest;
      }
    }
  }

  /** Criteria that agree on every record select the same records; the order of the criteria does not matter. */
  lemma {:induction false} SelectAgree(cs: seq<Criterion>, ds: seq<Criterion>, s: seq<Animal>)
    requires forall a :: a in s ==> (Keep(cs, a) <==> Keep(ds, a))
    ensures Select(cs, s) == Select(ds, s)
  {
    if s != [] {
      SelectAgree(cs, ds, s[1..]);
    }
  }

  /** A selection is a subsequence of the collection: order is preserved. */
  lemma {:induction false} SelectSubsequence(cs: seq<Criterion>, s: seq<Animal>)
    ensures IsSubsequence(Select(cs, s), s)
  {
    if s != [] {
      SelectSubsequence(cs, s[1..]);
      var rest := Select(cs, s[1..]);
      if Keep(cs, s[0]) {
        assert ([s[0]] + rest)[1..] == rest;
      }
    }
  }

  /** The first record selected is the first record of `s` that the criteria keep. */
  lemma {:induction false} SelectFirst(cs: seq<Criterion>, s: seq<Animal>)
    requires Select(cs, s) != []
    ensures exists k :: 0 <= k < |s| && s[k] == Select(cs, s)[0] && Keep(cs, s[k])
                        && forall j :: 0 <= j < k ==> !Keep(cs, s[j])
  {
    if !Keep(cs, s[0]) {
      SelectFirst(cs, s[1..]);
      var k :| 0 <= k < |s[1..]| && s[1..][k] == Select(cs, s[1..])[0] && Keep(cs, s[1..][k])
               && forall j :: 0 <= j < k ==> !Keep(cs, s[1..][j]);
      assert forall j :: 1 <= j < k + 1 ==> s[j] == s[1..][j - 1];
      assert s[k + 1] == Select(cs, s)[0];
    } else {
      assert s[0] == Select(cs, s)[0];
    }
  }
}
