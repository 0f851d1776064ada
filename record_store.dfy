/**
 * The in-memory collection: lookup by identifier, and the create step of
 * the POST route (identifier assignment, validation, append).
 */
module RecordStore {
  import opened Wrappers
  import opened Records
  import opened Decimal
  import opened Selection
  import opened Validator

  /** `animalsArray.filter(animal => animal.id === id)[0]`. */
  function FindById(id: string, s: seq<Animal>): (r: Option<Animal>)
    ensures r.None? <==> forall k :: 0 <= k < |s| ==> s[k].id != id
    ensures r.Some? ==> exists k :: 0 <= k < |s| && s[k] == r.value && r.value.id == id
                                    && forall j :: 0 <= j < k ==> s[j].id != id
  {
    var matches := Select([IdIs(id)], s);
    assert forall a :: Keep([IdIs(id)], a) <==> a.id == id by {
      forall a ensures Keep([IdIs(id)], a) <==> a.id == id {
        assert IdIs(id) in [IdIs(id)];
      }
    }
    assert forall k :: 0 <= k < |s| && s[k].id == id ==> s[k] in matches;
    if matches == [] then None
    else
      SelectFirst([IdIs(id)], s);
      Some(matches[0])
  }

  /** Every record's identifier is the decimal string of its position, as the create step assigns them. */
  predicate IdsMatchPositions(s: seq<Animal>)
  {
    forall k :: 0 <= k < |s| ==> s[k].id == DecimalString(k)
  }

  /** In a collection built by the create step, looking up an assigned identifier finds that very record. */
  lemma FindAssignedId(s: seq<Animal>, k: nat)
    requires IdsMatchPositions(s) && k < |s|
    ensures FindById(DecimalString(k), s) == Some(s[k])
  {
    var r := FindById(DecimalString(k), s);
    var j :| 0 <= j < |s| && s[j] == r.value && r.value.id == DecimalString(k)
             && forall i :: 0 <= i < j ==> s[i].id != DecimalString(k);
    DecimalStringInjective(j, k);
  }

  /** The route's reply to a POST. */
  datatype PostResponse = Created(animal: Animal) | BadRequest(message: string)

  const NotFormatted := "The animal is not properly formatted."

  /** The record a validated body becomes once stored. */
  function ToAnimal(b: Body): (a: Animal)
    requires b.id.Str? && GoodStrings(b)
  {
    Animal(b.id.s, b.name.s, b.species.s, b.diet.s, b.personalityTraits)
  }

  class Store {
    var animals: seq<Animal>

    /** The collection as loaded at start-up. */
    constructor (loaded: seq<Animal>)
      ensures animals == loaded
    {
      animals := loaded;
    }

    /** `createNewAnimal`: push the record onto the collection and return it. */
    method CreateNewAnimal(animal: Animal) returns (stored: Animal)
      modifies this
      ensures animals == old(animals) + [animal]
      ensures stored == animal
    {
      animals := animals + [animal];
      stored := animal;
    }

    /** The POST handler: overwrite the identifier, validate, and store on acceptance. */
    method PostAnimal(body: Body) returns (response: PostResponse)
      modifies this
      ensures response.Created? <==> GoodStrings(body) && !body.personalityTraits.Arr?
      ensures response.Created? ==>
                && response.animal == Animal(DecimalString(|old(animals)|), body.name.s, body.species.s, body.diet.s, body.personalityTraits)
                && animals == old(animals) + [response.animal]
      ensures response.BadRequest? ==> response.message == NotFormatted && animals == old(animals)
      ensures IdsMatchPositions(old(animals)) ==> IdsMatchPositions(animals)
      ensures response.Created? && IdsMatchPositions(old(animals)) ==>
                FindById(response.animal.id, animals) == Some(response.animal)
    {
      var stamped := body.(id := Str(DecimalString(|animals|)));
      if !RouteAccepts(stamped) {
        response := BadRequest(NotFormatted);
      } else {
        var animal := CreateNewAnimal(ToAnimal(stamped));
        response := Created(animal);
        if IdsMatchPositions(old(animals)) {
          FindAssignedId(animals, |old(animals)|);
        }
      }
    }
  }
}
