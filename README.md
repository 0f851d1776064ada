# zookeepr animal service: a Dafny model of its collection logic

The zookeepr server (`server.js`) keeps a collection of animal records in memory.
It lists them filtered by query-string keys (`filterByQuery`), finds one by
identifier (`findById`), and accepts new ones over POST. A new record gets the
decimal string of the collection length as its `id`, is checked by
`validateAnimal`, and is pushed onto the collection (`createNewAnimal`).
This project models those operations and proves what they do.

Modules:

- `Records` (records.dfy): JavaScript values as the server inspects them
  (`Missing` for `undefined`/`null`, strings, arrays, and other values with their
  truthiness), parsed query values (`One` string or `Many` strings for a repeated key),
  the stored record `Animal`, and the two `indexOf` methods the trait filter calls.
  On an array, `indexOf` is exact element match. On a string, it is substring search.
  Any other value has no `indexOf`, so calling it throws a TypeError.
- `Selection` (selection.dfy): `Array.prototype.filter` for the predicates the
  server uses (`Select`), with composition, reordering, subsequence and first-match lemmas.
- `QueryFilter` (query_filter.dfy): `filterByQuery` as a method that mirrors the
  code stage by stage. It is proved equal to the specification function `Filtered`.
  A reference predicate `Passes` says which records survive.
- `Validator` (validator.dfy): `validateAnimal` with its three outcomes. A
  `FallThrough` outcome stands for the `undefined` it returns when it runs off its end.
- `Decimal` (decimal.dfy): the identifier string `animals.length.toString()` and its inverse.
- `RecordStore` (record_store.dfy): `findById`, and a `Store` class whose
  `animals` field is the in-memory collection. The class has the `createNewAnimal`
  push and the POST handler's create step.

Consequences of the code that the model keeps:

- `validateAnimal` lets a non-array `personalityTraits` through and turns an array away
  (server.js:148-151): once `name`, `species` and `diet` are non-empty strings, it returns
  `true` for absent or non-array traits and falls off its end, returning `undefined` (falsy),
  for an array. So the POST route rejects every body that carries a trait list
  (`RouteAccepts`, `Store.PostAnimal`).
- So a record stored over POST never has a trait list. This is why `Animal.personalityTraits`
  is a general value and not a list of strings. If any record has no `indexOf` (its traits
  are absent, a number, or an object), a later query with a trait throws a TypeError
  (`FilterByTrait`, `FilterByQuery`). If its traits are a string, the trait is matched as a substring.
- An empty string counts as missing for `name`, `species` and `diet`, because `!animal.name` is true for it.
- A string trait key with the empty string is falsy and applies no filter. The list `[""]`
  does apply a filter, so the one-element-list equivalence holds only for non-empty strings
  (`StringTraitIsSingleton`).
- A repeated `diet`, `species` or `name` key arrives as an array. An array is truthy and
  never strictly equal to a string, so such a query lists nothing.

## Model

| member | source | states |
|---|---|---|
| Records.SubstringIndexFrom | server.js:50 | `indexOf` on a string trait value: the first index at or after `i` where the trait occurs, and -1 exactly when it occurs nowhere there |
| Records.ElementIndex | server.js:50 | `indexOf` on a trait array: the first index holding exactly that string, and -1 exactly when no element equals it |
| Records.IndexOf | server.js:50 | `animal.personalityTraits.indexOf(trait)` is defined exactly for strings and arrays. On an array, -1 means "not an element". On a string, -1 means "not a substring". Anything else throws |
| Selection.Select | server.js:49-67 | a record is in a `.filter` result iff it is in the input and satisfies every criterion, and the result is never longer than the input (how often each record appears is `SelectCount`) |
| Selection.SelectCount | server.js:49-67 | a `.filter` result holds each record the criteria keep exactly as often as the input does, and no record they reject |
| Selection.SelectNothing | server.js:31 | with no filter applied, `filteredResults` is the input collection itself |
| Selection.SelectCompose | server.js:41-68 | re-filtering the previous result is one filter by the conjunction of all criteria so far |
| Selection.SelectAgree | server.js:41-68 | criteria that agree on every record give the same result, so the order of the filters does not matter |
| Selection.SelectSubsequence | server.js:49-68 | every filter result is a subsequence of the input, so relative order is preserved |
| Selection.SelectFirst | server.js:76 | element `[0]` of a filter result is the first record of the input that satisfies the criteria |
| QueryFilter.FilterByTrait | server.js:49-51 | one trait's `.filter`, walked record by record, throws iff some record's traits have no `indexOf`; otherwise it keeps exactly the records whose traits contain the trait, in input order |
| QueryFilter.ApplyTraits | server.js:41-52 | the per-trait `forEach` loop throws exactly when there is a trait and some record has no `indexOf`. Otherwise it yields the records that contain every trait, in input order |
| QueryFilter.ApplyField | server.js:54-68 | a truthy `diet`/`species`/`name` key adds one strict-equality filter, and a falsy one leaves the result unchanged |
| QueryFilter.FilterByQuery | server.js:27-71 | the staged filter (normalise traits, loop over them, then three conditional re-filters) yields exactly `Filtered(q, animals)`, and it throws iff at least one trait is requested and some record at an index of the input has traits without `indexOf` |
| QueryFilter.KeepCriteria | server.js:41-68 | the staged filters keep a record iff it passes the reference conjunction `Passes` (every requested trait contained, every truthy field strictly equal) |
| QueryFilter.EmptyQueryIsIdentity | server.js:29-70 | with no truthy `personalityTraits`, `diet`, `species` or `name`, the input collection comes back unchanged and in the same order |
| QueryFilter.FilterSubsequence | server.js:49-68 | a listed result is always a subsequence of the input collection |
| QueryFilter.FilterMembership | server.js:41-68 | a record is listed iff it is in the input, contains every requested trait, and has each truthy field equal to the query value; it is listed exactly as many times as it occurs in the input |
| QueryFilter.TraitOrderIrrelevant | server.js:41-52 | queries requesting the same set of traits, in any order and with any repetition, give the same result |
| QueryFilter.StringTraitIsSingleton | server.js:32-39 | a non-empty string trait behaves as the one-element list holding it, and the empty string behaves as no trait key |
| QueryFilter.EmptyStringKeysIgnored | server.js:54-68 | a `diet`, `species` or `name` key whose value is the empty string applies no filter |
| Validator.ValidateAnimal | server.js:138-151 | the result is `false` iff `name`, `species` or `diet` is not a non-empty string. It is `true` iff those three are good and the traits are not an array. It is `undefined` iff they are good and the traits are an array |
| Validator.RouteAccepts | server.js:98-100 | the route stores a body iff its three string fields are non-empty strings and its traits are not an array, so a body with a trait array is never stored |
| Decimal.DecimalString | server.js:96 | the identifier is a non-empty string of decimal digits with no leading zero, one character long exactly below ten |
| Decimal.ParseDecimalString | server.js:96 | reading the identifier back as a decimal number gives the collection length it was made from |
| Decimal.DecimalStringParse | server.js:96 | every canonical digit string is the identifier of the number it denotes |
| Decimal.DecimalStringInjective | server.js:96 | different collection lengths give different identifiers |
| RecordStore.FindById | server.js:75-78 | `undefined` (None) iff no record has that `id`. Otherwise the result is the first record in collection order whose `id` equals the argument |
| RecordStore.FindAssignedId | server.js:75-78 | in a collection whose identifiers were assigned by position, looking up the identifier of position `k` yields the record at `k` |
| RecordStore.Store.constructor | server.js:22 | the store starts with the loaded collection |
| RecordStore.Store.CreateNewAnimal | server.js:119-134 | `push` appends the record at the end, leaves all earlier records unchanged, and returns that record |
| RecordStore.Store.PostAnimal | server.js:94-105 | an accepted body is stored with `id` = decimal string of the old length, whatever `id` the client sent. It is appended at the end. A rejected body gets the fixed 400 message and leaves the collection unchanged. Position-matched identifiers stay matched, and the new record is found by its identifier |

## Left out

- Express setup, middleware and route registration (server.js:6-19, server.js:80-91, server.js:107-116, server.js:154-156): HTTP plumbing over a library outside the model. `FindById` and `Filtered` are what the GET routes return. The POST route's decision and reply are kept in `Store.PostAnimal`.
- Parsing of query strings and bodies by `express.urlencoded` and `express.json`: the model takes parsed values. A query key parsed into an object (nested brackets) is not modelled. For `personalityTraits` such an object is truthy and not a string, so server.js:38 assigns it and server.js:41 always throws, because an object has no `forEach`. For `diet`, `species` or `name` it is truthy and never `===` a string (server.js:56, 61, 66), so such a query lists nothing.
- Fields of a POST body other than `id`, `name`, `species`, `diet` and `personalityTraits`: they are stored and echoed unchanged, and no code reads them.
- Loading the collection with `require('./data/animals')` (server.js:22): file I/O. The store is constructed from an already loaded sequence. Stored records are taken to have string `id`, `name`, `species` and `diet`.
- Persistence with `fs.writeFileSync` and `JSON.stringify(..., null, 2)` (server.js:127-130): file I/O and foreign serialisation.
- `console.log` (server.js:123) and the `PORT` environment lookup (server.js:8).
- Object identity: `createNewAnimal` pushes the very body object, and `filterByQuery` returns the original array when no filter applies. The model uses values, so aliasing is not captured. Because of that, nothing in the model can change the input of the filter.
- JavaScript strings are sequences of UTF-16 code units. The model uses Dafny characters and does no normalisation.
