# DogHouseService: the listing and creation engine, in Dafny

DogHouseService is a small registry of dogs. Each record has an identity, a name, a
colour, a tail length and a weight. This project models the service's one piece of
real logic and proves properties of it. There are three parts:

- **Dynamic order-by** (`QueryableExtensions.OrderBy`). A property name is matched
  against the record's public properties without regard to case. An unknown name
  raises an `ArgumentException` whose message quotes the name. A known name sorts
  the records by that property, ascending or descending. Reflection and expression
  trees become a finite table (`Extensions.Property`, `Extensions.KeyOf`). All five
  properties are in it: `Id` is sortable too.
- **Listing** (`DogService.GetDogsAsync`). The table is sorted only when both
  `attribute` and `order` are non-null and non-empty. The sort is ascending exactly
  when `order.ToLower() == "asc"`. Every other non-empty order sorts descending:
  `"desc"`, `"DESC"` and `"xyz"` alike. The page is then cut with
  `Skip((pageNumber - 1) * pageSize)` and `Take(pageSize)`.
- **Creation** (`DogService.CreateDogAsync`). A name equal to a stored name is
  rejected first. A negative tail length is rejected next. Otherwise the record is
  appended under a fresh identity and returned. Weight is never checked.

Modelling choices:

- The database table is the `seq<Dog>` field `dogs` of class `Services.DogService`,
  in insertion order. The store's identity counter is the field `nextId`. Saving a
  new record assigns it the counter's value, the next unused identity.
- Exceptions are values: `Result` carries either the value or an `Exception`
  (`ArgumentException` or `InvalidOperationException`, each with its message).
  The `attribute` and `order` arguments of the listing may be `null`; they are
  `Option<string>`, and `null` is `Option.None`.
- String properties are compared in plain ordinal lexicographic order over
  `seq<char>` (`Strings.StrLe`), proved total, transitive and antisymmetric. The
  running system uses the culture comparer in memory, or the database collation.
- Case is folded for ASCII letters only (`Strings.ToLower`). For the test against
  `"asc"` this is exact: no other character lower-cases to `a`, `s` or `c`.
- `Skip` and `Take` follow LINQ to Objects, the provider the in-memory tests use.
  `Skip(n)` with `n <= 0` drops nothing. `Take(n)` with `n <= 0` yields nothing.
  Counts past the end are cut at the end.
- `(pageNumber - 1) * pageSize` is computed in C#'s unchecked 32-bit arithmetic
  (`Services.PageOffset`), and it can wrap around. Page 65537 of size 65536 should
  start 2^32 records in, but it returns the first page
  (`ServicesExamples.OffsetWrapsAround`). A very negative page number can likewise
  wrap to a large positive offset.
- The sort is a stable insertion sort. Only what `OrderBy` promises is proved: the
  result is sorted by the key and is a permutation of the input. When the key tells
  different records apart, the sorted order is unique, so the descending result is
  the reverse of the ascending one.
- The doc comment of `GetDogsAsync` (`DogService.cs:25-26`, repeated in
  `IDogService.cs:10-11`) gives "Name", "Color", "TailLength" and "Weight" as
  examples of attributes, and describes two orders, "asc" and "desc". The model
  follows the code, which goes further: it also resolves `Id`, like every public
  property (`QueryableExtensions.cs:11`), and it sorts descending for every
  non-empty order other than a spelling of "asc" (`DogService.cs:37`).

## Model

| member | source | states |
|---|---|---|
| `Strings.ToLower` | DogHouseService.BLL/Services/DogService.cs:37 | lower-casing keeps the length, maps every character through the ASCII case mapping, and leaves no upper-case letter |
| `Strings.StrLeTotal` | DogHouseService.BLL/Extensions/QueryableExtensions.cs:20 | any two strings are comparable in the string order used for sorting |
| `Strings.StrLeTransitive` | DogHouseService.BLL/Extensions/QueryableExtensions.cs:20 | the string order is transitive |
| `Strings.StrLeAntisymmetric` | DogHouseService.BLL/Extensions/QueryableExtensions.cs:20 | two strings each ordered before the other are equal |
| `Extensions.KeyLeTotal` | DogHouseService.BLL/Extensions/QueryableExtensions.cs:20 | any two property values are comparable |
| `Extensions.KeyLeTransitive` | DogHouseService.BLL/Extensions/QueryableExtensions.cs:20 | the order on property values is transitive |
| `Extensions.KeyLeAntisymmetric` | DogHouseService.BLL/Extensions/QueryableExtensions.cs:20 | two property values each ordered before the other are equal |
| `Extensions.FindProperty` | DogHouseService.BLL/Extensions/QueryableExtensions.cs:11 | the property found is in the table and its name matches ignoring case; when none is found, no property in the table matches |
| `Extensions.GetProperty` | DogHouseService.BLL/Extensions/QueryableExtensions.cs:11 | a property is found exactly when some public property's name equals the given name ignoring case, and the one found matches it |
| `Extensions.GetPropertyIgnoresCase` | DogHouseService.BLL/Extensions/QueryableExtensions.cs:11 | the lookup returns property `p` if and only if the name equals `p`'s name ignoring case, for each of Id, Name, Color, TailLength and Weight |
| `Extensions.Insert` | DogHouseService.BLL/Extensions/QueryableExtensions.cs:20-27 | inserting adds exactly the one record to the multiset of records |
| `Extensions.InsertSorted` | DogHouseService.BLL/Extensions/QueryableExtensions.cs:20-27 | inserting into a sorted sequence keeps it sorted, in either direction |
| `Extensions.SortBy` | DogHouseService.BLL/Extensions/QueryableExtensions.cs:20-27 | the result is a permutation of the input, sorted non-decreasing (ascending) or non-increasing (descending) by the property |
| `Extensions.NoPropertyMessage` | DogHouseService.BLL/Extensions/QueryableExtensions.cs:14 | the message is "No property '", then the name exactly as given, then "' found on 'Dog'" |
| `Extensions.OrderBy` | DogHouseService.BLL/Extensions/QueryableExtensions.cs:8-30 | fails exactly when no property matches, with `ArgumentException` "No property '<name>' found on 'Dog'"; otherwise returns a sorted permutation of the source |
| `Extensions.SortedUnique` | DogHouseService.BLL/Extensions/QueryableExtensions.cs:20 | two sorted permutations of one another are equal when the key tells different records apart |
| `Extensions.DescendingIsReverseOfAscending` | DogHouseService.Tests/BLL/QueryableExtensionsTests.cs:54-78 | when the key tells records apart, the descending result is the reverse of the ascending one |
| `ExtensionsExamples.SortByIdAscending` | DogHouseService.Tests/BLL/QueryableExtensionsTests.cs:26-38 | ids 3, 1, 2 sorted ascending by "Id" give 1, 2, 3 |
| `ExtensionsExamples.SortByIdDescending` | DogHouseService.Tests/BLL/QueryableExtensionsTests.cs:40-52 | ids 3, 1, 2 sorted descending by "Id" give 3, 2, 1 |
| `ExtensionsExamples.SortByNameAscending` | DogHouseService.Tests/BLL/QueryableExtensionsTests.cs:54-65 | Charlie, Alpha, Bravo sorted ascending by "Name" give Alpha, Bravo, Charlie |
| `ExtensionsExamples.SortByNameDescending` | DogHouseService.Tests/BLL/QueryableExtensionsTests.cs:67-78 | the same records sorted descending give Charlie, Bravo, Alpha |
| `ExtensionsExamples.UnknownProperty` | DogHouseService.Tests/BLL/QueryableExtensionsTests.cs:80-93 | "NonExistentProperty" fails with the message "No property 'NonExistentProperty' found on 'Dog'", whatever the source and direction |
| `Services.Wrap32` | DogHouseService.BLL/Services/DogService.cs:41 | the wrapped value is a 32-bit int congruent to the exact value modulo 2^32, and equal to it when it already fits |
| `Services.PageOffset` | DogHouseService.BLL/Services/DogService.cs:41 | the offset is a 32-bit int, equal to `(pageNumber - 1) * pageSize` whenever that product fits, and congruent to it modulo 2^32 otherwise, which fixes the wrapped value |
| `Services.Skip` | DogHouseService.BLL/Services/DogService.cs:41 | skipping n leaves the suffix after the first n elements; n of zero or less leaves everything |
| `Services.Take` | DogHouseService.BLL/Services/DogService.cs:42 | taking n leaves the first n elements, or all of them if fewer; n of zero or less leaves nothing |
| `Services.Page` | DogHouseService.BLL/Services/DogService.cs:40-43 | the page is the contiguous slice starting at the clamped offset, holding at most `pageSize` elements, and a sub-multiset of the input |
| `Services.IsAscending` | DogHouseService.BLL/Services/DogService.cs:37 | the direction is ascending exactly for the eight case spellings of "asc" (three characters: `a` or `A`, `s` or `S`, `c` or `C`) |
| `Services.SortRequested` | DogHouseService.BLL/Services/DogService.cs:35 | sorting is requested exactly when both the attribute and the order are present and non-empty |
| `Services.GetDogs` | DogHouseService.BLL/Services/DogService.cs:31-46 | listing fails exactly when a complete sort request names an unknown attribute, and then with the resolver's message |
| `Services.GetDogsNaturalOrder` | DogHouseService.BLL/Services/DogService.cs:35-43 | without a complete sort request the listing succeeds, even for an unknown attribute, and returns the window of the table in insertion order |
| `Services.GetDogsSorted` | DogHouseService.BLL/Services/DogService.cs:35-43 | with a complete sort request the page is cut after sorting; it is sorted in the chosen direction and contains only records of the table |
| `Services.GetDogsDescendingUnlessAsc` | DogHouseService.BLL/Services/DogService.cs:37 | every non-empty order that does not lower-case to "asc" lists exactly as "desc" does |
| `Services.GetDogsAscendingAnyCase` | DogHouseService.BLL/Services/DogService.cs:37 | every order that lower-cases to "asc" lists exactly as "asc" does |
| `Services.GetDogsUnknownAttribute` | DogHouseService.BLL/Services/DogService.cs:35-38 | a complete sort request with an attribute no property matches fails with "No property '<attribute>' found on 'Dog'" |
| `Services.NameTaken` | DogHouseService.BLL/Services/DogService.cs:58 | true exactly when some stored record has a name equal to the given one |
| `Services.DogService.constructor` | DogHouseService.DAL/Data/DogHouseContext.cs:16 | a new store is an empty table whose identity counter starts at 1 |
| `Services.DogService.GetDogsAsync` | DogHouseService.BLL/Services/DogService.cs:31-46 | returns the listing of the current table and changes nothing |
| `Services.DogService.CreateDogAsync` | DogHouseService.BLL/Services/DogService.cs:56-73 | a duplicate name fails with "A dog with the same name already exists." and leaves the store unchanged; otherwise a negative tail length fails with "Tail length cannot be a negative number." and leaves the store unchanged; otherwise exactly one record is appended, carrying the candidate's name, colour, tail length and weight and a fresh identity, and it is returned; weight is never checked; unique names stay unique |
| `ServicesExamples.DefaultListingIsWholeTable` | DogHouseService.BLL/Services/DogService.cs:31 | with the default arguments a table of at most ten records is listed whole, in insertion order |
| `ServicesExamples.DefaultListingNeoThenJessy` | DogHouseService.Tests/DogServiceTests.cs:35-59 | Neo and Jessy are listed Neo first, then Jessy |
| `ServicesExamples.SecondPageOfTwo` | DogHouseService.BLL/Services/DogService.cs:40-43 | page 2 of size 2 over five records holds the third and fourth |
| `ServicesExamples.NonPositivePageIsFirstPage` | DogHouseService.BLL/Services/DogService.cs:41 | a page number of one or less gives the first page, for every page size, negative ones included, as long as the offset does not wrap |
| `ServicesExamples.OffsetWrapsAround` | DogHouseService.BLL/Services/DogService.cs:41 | page 65537 of size 65536 has an exact offset of 2^32, which wraps to 0, so it lists the first page |
| `ServicesExamples.CreationScenario` | DogHouseService.Tests/DogServiceTests.cs:61-113 | on an empty store: "Rex" is created with identity 1; a second "Rex" fails on the name, even with a negative tail; "Fido" with a negative tail fails on the tail; "Fido" with a negative weight is created with identity 2; the default listing then returns Rex and Fido in that order. The duplicate, negative-tail and valid-creation cases are those of these tests and of `BLL/DogServiceTests.cs:55-95`, which check them one at a time; the candidate that is both a duplicate and negative-tailed, and the accepted negative weight, are cases the scenario adds |

## Left out

- Asynchrony, Entity Framework query translation and SQL Server behaviour are not modelled. This covers an error on a negative OFFSET, collation-dependent string order and case-insensitive name equality in the database.
- The race between the duplicate-name check and the insert is a concurrency issue and is not modelled.
- Identity values are unbounded integers; the store's 32-bit identity column running out is not modelled.
- The candidate's own `Id` is ignored and the store always assigns a fresh one. Entity Framework would keep an explicitly set non-zero key.
- Record fields are unbounded integers and non-null strings. The data annotations on the record (length 50, non-negative ranges) are enforced by the framework, not by the service, so the model does not enforce them.
- The model folds case for ASCII letters only (`Strings.ToLower`, `Strings.EqualsIgnoreCase`). Non-ASCII letters that the runtime's case mapping sends to ASCII letters are not modelled.
- Extensions.OrderBy: a null property name, for which reflection throws `ArgumentNullException`, is not modelled; the property name is a plain string. `GetDogsAsync` never passes one, because it tests `IsNullOrEmpty` first (`DogService.cs:35`).
- String properties sort in ordinal order, not by the culture comparer or the database collation.
- Stability of the sort is not claimed: the sort used is stable, but the database does not promise it.
- The object mapping between the stored record and the service's model is the identity on the four data fields. HTTP routing, the controller, dependency wiring, rate limiting and API documentation are not part of this model.
