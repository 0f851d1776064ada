/**
 * `filterByQuery`: narrows the collection by the personality traits, diet,
 * species and name given in an already parsed query string.
 */
module QueryFilter {
  import opened Wrappers
  import opened Records
  import opened Selection

  /** The recognised keys of a parsed query string; any other key is ignored. */
  datatype Query = Query(personalityTraits: Option<Param>, diet: Option<Param>, species: Option<Param>, name: Option<Param>)

  /** What `filterByQuery` yields: the filtered records, or the TypeError it throws. */
  datatype Outcome = Listed(animals: seq<Animal>) | TypeError

  /** Truthiness of a query key: absent and the empty string are falsy, an array never is. */
  predicate Active(p: Option<Param>)
  {
    match p
    case None => false
    case Some(One(s)) => s != ""
    case Some(Many(_)) => true
  }

  /** The requested traits: a single string becomes a one-element list. */
  function TraitList(p: Option<Param>): (ts: seq<string>)
  {
    if !Active(p) then []
    else match p.value
      case One(t) => [t]
      case Many(ts) => ts
  }

  function TraitCriteria(ts: seq<string>): (cs: seq<Criterion>)
  {
    seq(|ts|, i requires 0 <= i < |ts| => HasTrait(ts[i]))
  }

  function FieldCriteria(f: Field, p: Option<Param>): (cs: seq<Criterion>)
  {
    if Active(p) then [FieldIs(f, p.value)] else []
  }

  /** The filters `filterByQuery` applies, in the order it applies them. */
  function Criteria(q: Query): (cs: seq<Criterion>)
  {
    TraitCriteria(TraitList(q.personalityTraits))
    + FieldCriteria(Diet, q.diet) + FieldCriteria(Species, q.species) + FieldCriteria(Name, q.name)
  }

  /**
   * The result of `filterByQuery(q, s)`. The first trait filter visits every
   * record, so it throws exactly when some record has no `indexOf`.
   */
  function Filtered(q: Query, s: seq<Animal>): (r: Outcome)
  {
    if TraitList(q.personalityTraits) != [] && SomeUnindexable(s) then TypeError
    else Listed(Select(Criteria(q), s))
  }

  /** A key that is present and truthy admits only records whose field is strictly equal to it. */
  predicate FieldPasses(x: string, p: Option<Param>)
  {
    Active(p) ==> p.value == One(x)
  }

  /** Reference definition of a record surviving the query: every requested trait and every active field. */
  predicate Passes(q: Query, a: Animal)
  {
    && (forall t :: t in TraitList(q.personalityTraits) ==> Contains(a.personalityTraits, t))
    && FieldPasses(a.diet, q.diet)
    && FieldPasses(a.species, q.species)
    && FieldPasses(a.name, q.name)
  }

  /** Some record has no `indexOf` method, so a trait filter over it throws. */
  predicate SomeUnindexable(s: seq<Animal>)
  {
    exists a :: a in s && !Indexable(a.personalityTraits)
  }

  /**
   * One trait's `.filter(animal => animal.personalityTraits.indexOf(trait) !== -1)`,
   * walked record by record as `Array.prototype.filter` does: None is the
   * TypeError raised at the first record whose traits have no `indexOf`.
   */
  function FilterByTrait(s: seq<Animal>, t: string): (r: Option<seq<Animal>>)
    ensures r.None? <==> SomeUnindexable(s)
    ensures r.Some? ==> r.value == Select([HasTrait(t)], s)
  {
    if s == [] then Some([])
    else
      assert forall a :: a in s <==> a == s[0] || a in s[1..];
      assert Keep([HasTrait(t)], s[0]) <==> Contains(s[0].personalityTraits, t) by {
        assert HasTrait(t) in [HasTrait(t)];
      }
      match IndexOf(s[0].personalityTraits, t)
      case None => None
      case Some(k) =>
        match FilterByTrait(s[1..], t)
        case None => None
        case Some(rest) => Some(if k != -1 then [s[0]] + rest else rest)
  }

  /**
   * The `forEach` over the requested traits: each trait re-filters the
   * previous result; None stands for the TypeError of a record without `indexOf`.
   */
  method ApplyTraits(traits: seq<string>, animals: seq<Animal>) returns (r: Option<seq<Animal>>)
    ensures r.None? <==> traits != [] && SomeUnindexable(animals)
    ensures r.Some? ==> r.value == Select(TraitCriteria(traits), animals)
  {
    var filtered := animals;
    SelectNothing(animals);
    var i := 0;
    while i < |traits|
      invariant 0 <= i <= |traits|
      invariant filtered == Select(TraitCriteria(traits[..i]), animals)
      invariant i > 0 ==> !SomeUnindexable(animals)
    {
      var next := FilterByTrait(filtered, traits[i]);
      if next.None? {
        return None;
      }
      SelectCompose(TraitCriteria(traits[..i]), [HasTrait(traits[i])], animals);
      assert TraitCriteria(traits[..i + 1]) == TraitCriteria(traits[..i]) + [HasTrait(traits[i])];
      filtered := next.value;
      i := i + 1;
    }
    assert traits[..i] == traits;
    return Some(filtered);
  }

  /** One `if (query.<field>)` stage: re-filter by strict equality when the key is truthy. */
  method ApplyField(f: Field, p: Option<Param>, filtered: seq<Animal>, ghost cs: seq<Criterion>, ghost animals: seq<Animal>)
    returns (r: seq<Animal>)
    requires filtered == Select(cs, animals)
    ensures r == Select(cs + FieldCriteria(f, p), animals)
  {
    SelectCompose(cs, FieldCriteria(f, p), animals);
    if Active(p) {
      r := Select([FieldIs(f, p.value)], filtered);
    } else {
      assert cs + [] == cs;
      SelectNothing(filtered);
      r := filtered;
    }
  }

  /** The query as the server runs it: the trait filters, then one filter per truthy field key. */
  method FilterByQuery(q: Query, animals: seq<Animal>) returns (r: Outcome)
    ensures r == Filtered(q, animals)
    ensures r == TypeError <==>
              TraitList(q.personalityTraits) != [] && exists k :: 0 <= k < |animals| && !Indexable(animals[k].personalityTraits)
  {
    if exists k :: 0 <= k < |animals| && !Indexable(animals[k].personalityTraits) {
      var k :| 0 <= k < |animals| && !Indexable(animals[k].personalityTraits);
      assert animals[k] in animals;
    }
    var traits := TraitList(q.personalityTraits);
    var afterTraits := ApplyTraits(traits, animals);
    if afterTraits.None? {
      return TypeError;
    }
    var cs := TraitCriteria(traits);
    var filtered := ApplyField(Diet, q.diet, afterTraits.value, cs, animals);
    cs := cs + FieldCriteria(Diet, q.diet);
    filtered := ApplyField(Species, q.species, filtered, cs, animals);
    cs := cs + FieldCriteria(Species, q.species);
    filtered := ApplyField(Name, q.name, filtered, cs, animals);
    return Listed(filtered);
  }

  lemma KeepTraits(ts: seq<string>, a: Animal)
    ensures Keep(TraitCriteria(ts), a) <==> forall t :: t in ts ==> Contains(a.personalityTraits, t)
  {
    var cs := TraitCriteria(ts);
    if forall t :: t in ts ==> Contains(a.personalityTraits, t) {
      forall c | c in cs ensures Holds(c, a) {
        var i :| 0 <= i < |cs| && cs[i] == c;
        assert ts[i] in ts;
      }
    }
    if Keep(cs, a) {
      forall t | t in ts ensures Contains(a.personalityTraits, t) {
        var i :| 0 <= i < |ts| && ts[i] == t;
        assert cs[i] in cs;
      }
    }
  }

  lemma KeepField(f: Field, p: Option<Param>, a: Animal)
    ensures Keep(FieldCriteria(f, p), a) <==> FieldPasses(FieldOf(a, f), p)
  {
    if Active(p) {
      assert FieldCriteria(f, p)[0] in FieldCriteria(f, p);
    }
  }

  /** The staged filters keep a record exactly when it passes the reference conjunction. */
  lemma KeepCriteria(q: Query, a: Animal)
    ensures Keep(Criteria(q), a) <==> Passes(q, a)
  {
    var ts := TraitCriteria(TraitList(q.personalityTraits));
    var d, sp, n := FieldCriteria(Diet, q.diet), FieldCriteria(Species, q.species), FieldCriteria(Name, q.name);
    KeepTraits(TraitList(q.personalityTraits), a);
    KeepAppend(ts, d, a);
    KeepAppend(ts + d, sp, a);
    KeepAppend(ts + d + sp, n, a);
    KeepField(Diet, q.diet, a);
    KeepField(Species, q.species, a);
    KeepField(Name, q.name, a);
  }

  /** With no truthy recognised key the collection comes back unchanged, in the same order. */
  lemma EmptyQueryIsIdentity(q: Query, s: seq<Animal>)
    requires !Active(q.personalityTraits) && !Active(q.diet) && !Active(q.species) && !Active(q.name)
    ensures Filtered(q, s) == Listed(s)
  {
    assert Criteria(q) == [];
    SelectNothing(s);
  }

  /** A result is always a subsequence of the input: nothing is added, reordered or duplicated. */
  lemma FilterSubsequence(q: Query, s: seq<Animal>)
    ensures Filtered(q, s).Listed? ==> IsSubsequence(Filtered(q, s).animals, s)
  {
    SelectSubsequence(Criteria(q), s);
  }

  /** A record is listed iff it is in the input and has every requested trait and every active field, as often as it occurs there. */
  lemma FilterMembership(q: Query, s: seq<Animal>, a: Animal)
    requires Filtered(q, s).Listed?
    ensures a in Filtered(q, s).animals <==> a in s && Passes(q, a)
    ensures multiset(Filtered(q, s).animals)[a] == if Passes(q, a) then multiset(s)[a] else 0
  {
    SelectCount(Criteria(q), s, a);
    KeepCriteria(q, a);
  }

  /** Two queries asking for the same set of traits, in any order or multiplicity, give the same result. */
  lemma TraitOrderIrrelevant(q1: Query, q2: Query, s: seq<Animal>)
    requires q1.diet == q2.diet && q1.species == q2.species && q1.name == q2.name
    requires forall t :: t in TraitList(q1.personalityTraits) <==> t in TraitList(q2.personalityTraits)
    ensures Filtered(q1, s) == Filtered(q2, s)
  {
    var ts1, ts2 := TraitList(q1.personalityTraits), TraitList(q2.personalityTraits);
    if ts1 != [] { assert ts1[0] in ts2; }
    if ts2 != [] { assert ts2[0] in ts1; }
    forall a | a in s ensures Keep(Criteria(q1), a) <==> Keep(Criteria(q2), a) {
      KeepCriteria(q1, a);
      KeepCriteria(q2, a);
    }
    SelectAgree(Criteria(q1), Criteria(q2), s);
  }

  /** A non-empty string trait acts as the one-element list holding it; an empty one as no trait key. */
  lemma StringTraitIsSingleton(q: Query, s: seq<Animal>, t: string)
    ensures t != "" ==> Filtered(q.(personalityTraits := Some(One(t))), s) == Filtered(q.(personalityTraits := Some(Many([t]))), s)
    ensures t == "" ==> Filtered(q.(personalityTraits := Some(One(t))), s) == Filtered(q.(personalityTraits := None), s)
  {
  }

  /** A field key whose value is the empty string applies no filter. */
  lemma EmptyStringKeysIgnored(q: Query, s: seq<Animal>)
    ensures Filtered(q.(diet := Some(One(""))), s) == Filtered(q.(diet := None), s)
    ensures Filtered(q.(species := Some(One(""))), s) == Filtered(q.(species := None), s)
    ensures Filtered(q.(name := Some(One(""))), s) == Filtered(q.(name := None), s)
  {
  }
}
