/** The dog service: a paginated listing with an optional dynamic sort, and the
    validated creation of one record. The database table is the field `dogs`, in
    insertion order, and the store's identity counter is the field `nextId`. */
module Services {
  import opened Wrappers
  import opened Strings
  import opened Models
  import opened Extensions

  const IntMin: int := -0x8000_0000
  const IntMax: int := 0x7fff_ffff

  /** A value of C#'s 32-bit `int`. */
  predicate IsInt32(x: int) {
    IntMin <= x <= IntMax
  }

  /** Two's-complement wrap-around of an exact result to 32 bits, as C# does in
      an unchecked context. */
  function Wrap32(x: int): (r: int)
    ensures IsInt32(r)
    ensures (x - r) % 0x1_0000_0000 == 0
    ensures IsInt32(x) ==> r == x
  {
    (x - IntMin) % 0x1_0000_0000 + IntMin
  }

  /** `(pageNumber - 1) * pageSize` evaluated in 32-bit arithmetic. Wrapping each
      step, or only the exact product, gives the same value modulo 2^32, and so the
      same 32-bit result. */
  function PageOffset(pageNumber: int, pageSize: int): (r: int)
    ensures IsInt32(r)
    ensures IsInt32((pageNumber - 1) * pageSize) ==> r == (pageNumber - 1) * pageSize
    ensures ((pageNumber - 1) * pageSize - r) % 0x1_0000_0000 == 0
  {
    Wrap32((pageNumber - 1) * pageSize)
  }

  /** A count `n` applied to a sequence of length `len`: non-positive counts act
      as zero, counts past the end as the whole length. */
  function Clamp(n: int, len: nat): (r: nat)
    ensures r <= len
    ensures 0 < n <= len ==> r == n
  {
    if n <= 0 then 0 else if n >= len then len else n
  }

  /** LINQ `Skip(n)` on an in-memory sequence: drops the first `n` elements;
      a count of zero or less drops nothing. */
  function Skip<T>(s: seq<T>, n: int): (r: seq<T>)
    ensures r == s[Clamp(n, |s|)..]
  {
    if n <= 0 || s == [] then s else Skip(s[1..], n - 1)
  }

  /** LINQ `Take(n)` on an in-memory sequence: keeps the first `n` elements;
      a count of zero or less keeps nothing. */
  function Take<T>(s: seq<T>, n: int): (r: seq<T>)
    ensures r == s[..Clamp(n, |s|)]
  {
    if n <= 0 || s == [] then [] else [s[0]] + Take(s[1..], n - 1)
  }

  /** The page a listing returns: `Skip` the offset, then `Take` the page size.
      It is the slice of `s` that starts at the clamped offset and holds at most
      `pageSize` elements. */
  function Page<T>(s: seq<T>, pageNumber: int, pageSize: int): (r: seq<T>)
    ensures var lo := Clamp(PageOffset(pageNumber, pageSize), |s|);
      && |r| == Clamp(pageSize, |s| - lo)
      && r == s[lo..lo + |r|]
    ensures multiset(r) <= multiset(s)
  {
    var lo := Clamp(PageOffset(pageNumber, pageSize), |s|);
    var r := Take(Skip(s, PageOffset(pageNumber, pageSize)), pageSize);
    assert s == s[..lo] + r + s[lo + |r|..];
    r
  }

  /** The sort direction chosen for a non-empty `order`: ascending exactly when the
      lower-cased text is "asc", descending for every other text. */
  predicate IsAscending(order: string): (r: bool)
    ensures r <==> |order| == 3 && order[0] in "aA" && order[1] in "sS" && order[2] in "cC"
  {
    ToLower(order) == "asc"
  }

  /** Sorting is requested only when both the attribute and the order are given
      and non-empty. */
  predicate SortRequested(attribute: Option<string>, order: Option<string>): (r: bool)
    ensures r <==> attribute.Some? && order.Some? && attribute.value != "" && order.value != ""
  {
    !IsNullOrEmpty(attribute) && !IsNullOrEmpty(order)
  }

  /** `GetDogsAsync`: optionally order the table, then take the requested page. */
  function GetDogs(dogs: seq<Dog>, attribute: Option<string>, order: Option<string>,
                   pageNumber: int, pageSize: int): (r: Result<seq<Dog>, Exception>)
    requires IsInt32(pageNumber) && IsInt32(pageSize)
    ensures r.Failure? <==> SortRequested(attribute, order) && GetProperty(attribute.value).None?
    ensures r.Failure? ==> r.error == ArgumentException(NoPropertyMessage(attribute.value))
  {
    var query :-
      if SortRequested(attribute, order)
      then OrderBy(dogs, attribute.value, IsAscending(order.value))
      else Success(dogs);
    Success(Page(query, pageNumber, pageSize))
  }

  /** Without a complete sort request the resolver is not consulted: even an
      unknown attribute succeeds, and the page is cut from the table's natural order. */
  lemma GetDogsNaturalOrder(dogs: seq<Dog>, attribute: Option<string>, order: Option<string>,
                            pageNumber: int, pageSize: int)
    requires IsInt32(pageNumber) && IsInt32(pageSize)
    requires !SortRequested(attribute, order)
    ensures var r := GetDogs(dogs, attribute, order, pageNumber, pageSize);
      var lo := Clamp(PageOffset(pageNumber, pageSize), |dogs|);
      && r.Success?
      && r.value == dogs[lo..lo + Clamp(pageSize, |dogs| - lo)]
  {
  }

  /** With a complete sort request naming a property, the page is cut after sorting:
      it is a window of the sorted table, so it is itself sorted, in the direction
      `IsAscending` picks, and holds only records of the table. */
  lemma GetDogsSorted(dogs: seq<Dog>, attribute: Option<string>, order: Option<string>,
                      pageNumber: int, pageSize: int, p: Property)
    requires IsInt32(pageNumber) && IsInt32(pageSize)
    requires SortRequested(attribute, order)
    requires GetProperty(attribute.value) == Some(p)
    ensures var r := GetDogs(dogs, attribute, order, pageNumber, pageSize);
      && r.Success?
      && r.value == Page(SortBy(dogs, p, IsAscending(order.value)), pageNumber, pageSize)
      && Sorted(r.value, p, IsAscending(order.value))
      && multiset(r.value) <= multiset(dogs)
  {
  }

  /** Every non-empty order other than a spelling of "asc" sorts descending, exactly
      as "desc" does; "xyz" included. */
  lemma GetDogsDescendingUnlessAsc(dogs: seq<Dog>, attribute: Option<string>, order: string,
                                   pageNumber: int, pageSize: int)
    requires IsInt32(pageNumber) && IsInt32(pageSize)
    requires order != "" && !IsAscending(order)
    ensures GetDogs(dogs, attribute, Some(order), pageNumber, pageSize)
         == GetDogs(dogs, attribute, Some("desc"), pageNumber, pageSize)
  {
  }

  /** Every spelling of "asc", in any case, sorts ascending. */
  lemma GetDogsAscendingAnyCase(dogs: seq<Dog>, attribute: Option<string>, order: string,
                                pageNumber: int, pageSize: int)
    requires IsInt32(pageNumber) && IsInt32(pageSize)
    requires IsAscending(order)
    ensures GetDogs(dogs, attribute, Some(order), pageNumber, pageSize)
         == GetDogs(dogs, attribute, Some("asc"), pageNumber, pageSize)
  {
    assert IsAscending("asc") by {
      assert ToLower("asc") == "asc";
    }
  }

  /** An unknown attribute in a complete sort request raises the resolver's error,
      quoting the attribute as given. */
  lemma GetDogsUnknownAttribute(dogs: seq<Dog>, attribute: string, order: string,
                                pageNumber: int, pageSize: int)
    requires IsInt32(pageNumber) && IsInt32(pageSize)
    requires attribute != "" && order != ""
    requires forall p: Property :: !EqualsIgnoreCase(PropertyName(p), attribute)
    ensures GetDogs(dogs, Some(attribute), Some(order), pageNumber, pageSize)
         == Failure(ArgumentException("No property '" + attribute + "' found on 'Dog'"))
  {
    assert GetProperty(attribute).None?;
    assert NoPropertyMessage(attribute) == "No property '" + attribute + "' found on 'Dog'";
  }

  /** Any(d => d.Name == name): the exact, case-sensitive name test. */
  function NameTaken(dogs: seq<Dog>, name: string): (b: bool)
    ensures b <==> exists i :: 0 <= i < |dogs| && dogs[i].name == name
  {
    if dogs == [] then false
    else dogs[0].name == name || NameTaken(dogs[1..], name)
  }

  /** No two records share a name. */
  ghost predicate UniqueNames(dogs: seq<Dog>) {
    forall i, j :: 0 <= i < j < |dogs| ==> dogs[i].name != dogs[j].name
  }

  const DuplicateNameMessage: string := "A dog with the same name already exists."
  const NegativeTailLengthMessage: string := "Tail length cannot be a negative number."

  class DogService {
    /** The dogs table, in insertion order. */
    var dogs: seq<Dog>
    /** The identity the store assigns to the next inserted record. */
    var nextId: int

    ghost predicate Valid()
      reads this
    {
      forall i :: 0 <= i < |dogs| ==> dogs[i].id < nextId
    }

    /** An empty table whose identity column starts at 1. */
    constructor ()
      ensures Valid()
      ensures dogs == [] && nextId == 1
    {
      dogs := [];
      nextId := 1;
    }

    /** Lists one page; reading never changes the table. */
    method GetDogsAsync(attribute: Option<string>, order: Option<string>, pageNumber: int, pageSize: int)
      returns (r: Result<seq<Dog>, Exception>)
      requires IsInt32(pageNumber) && IsInt32(pageSize)
      ensures r == GetDogs(dogs, attribute, order, pageNumber, pageSize)
    {
      r := GetDogs(dogs, attribute, order, pageNumber, pageSize);
    }

    /** Rejects a duplicate name, then a negative tail length; otherwise inserts the
        candidate under a fresh identity and returns the stored record. The
        candidate's own `id` is not used: the store assigns the identity. */
    method CreateDogAsync(dogModel: Dog) returns (r: Result<Dog, Exception>)
      requires Valid()
      modifies this
      ensures Valid()
      ensures NameTaken(old(dogs), dogModel.name) ==>
        && r == Failure(InvalidOperationException(DuplicateNameMessage))
        && dogs == old(dogs) && nextId == old(nextId)
      ensures !NameTaken(old(dogs), dogModel.name) && dogModel.tailLength < 0 ==>
        && r == Failure(InvalidOperationException(NegativeTailLengthMessage))
        && dogs == old(dogs) && nextId == old(nextId)
      ensures !NameTaken(old(dogs), dogModel.name) && dogModel.tailLength >= 0 ==>
        && r == Success(Dog(old(nextId), dogModel.name, dogModel.color, dogModel.tailLength, dogModel.weight))
        && dogs == old(dogs) + [r.value]
        && nextId == old(nextId) + 1
      ensures r.Success? ==> forall i :: 0 <= i < |old(dogs)| ==> old(dogs)[i].id != r.value.id
      ensures UniqueNames(old(dogs)) ==> UniqueNames(dogs)
    {
      if NameTaken(dogs, dogModel.name) {
        return Failure(InvalidOperationException(DuplicateNameMessage));
      }
      if dogModel.tailLength < 0 {
        return Failure(InvalidOperationException(NegativeTailLengthMessage));
      }
      var dog := Dog(nextId, dogModel.name, dogModel.color, dogModel.tailLength, dogModel.weight);
      dogs := dogs + [dog];
      nextId := nextId + 1;
      r := Success(dog);
    }
  }
}

/** Listing and creation scenarios taken from the service's tests, and from the
    `<exception>` doc of `CreateDogAsync` (DogService.cs:53-55). */
module ServicesExamples {
  import opened Wrappers
  import opened Models
  import opened Services

  const Neo := Dog(1, "Neo", "red & amber", 22, 32)
  const Jessy := Dog(2, "Jessy", "black & white", 7, 14)

  /** With the default arguments (no sort, page 1 of size 10), a table of at most
      ten records comes back whole, in insertion order. */
  lemma DefaultListingIsWholeTable(dogs: seq<Dog>)
    requires |dogs| <= 10
    ensures GetDogs(dogs, None, None, 1, 10) == Success(dogs)
  {
    GetDogsNaturalOrder(dogs, None, None, 1, 10);
    assert PageOffset(1, 10) == 0;
    assert dogs[0..|dogs|] == dogs;
  }

  lemma DefaultListingNeoThenJessy()
    ensures GetDogs([Neo, Jessy], None, None, 1, 10) == Success([Neo, Jessy])
  {
    DefaultListingIsWholeTable([Neo, Jessy]);
  }

  /** Page 2 of size 2 over five records holds the third and fourth. */
  lemma SecondPageOfTwo(dogs: seq<Dog>)
    requires |dogs| == 5
    ensures GetDogs(dogs, None, None, 2, 2) == Success([dogs[2], dogs[3]])
  {
    GetDogsNaturalOrder(dogs, None, None, 2, 2);
    assert PageOffset(2, 2) == 2;
    assert dogs[2..4] == [dogs[2], dogs[3]];
  }

  /** A page number of one or less gives the first page, as long as the offset does
      not wrap around: with a non-negative size the offset is zero or less and skips
      nothing; with a negative size both pages are empty. */
  lemma NonPositivePageIsFirstPage(dogs: seq<Dog>, pageNumber: int, pageSize: int)
    requires IsInt32(pageNumber) && IsInt32(pageSize)
    requires pageNumber <= 1
    requires IsInt32((pageNumber - 1) * pageSize)
    ensures GetDogs(dogs, None, None, pageNumber, pageSize) == GetDogs(dogs, None, None, 1, pageSize)
  {
    if 0 <= pageSize {
      var offset := (pageNumber - 1) * pageSize;
      assert offset <= 0 by {
        NonPositiveProduct(pageNumber - 1, pageSize);
      }
      assert Clamp(PageOffset(pageNumber, pageSize), |dogs|) == 0;
      assert Clamp(PageOffset(1, pageSize), |dogs|) == 0;
    }
    GetDogsNaturalOrder(dogs, None, None, pageNumber, pageSize);
    GetDogsNaturalOrder(dogs, None, None, 1, pageSize);
  }

  lemma NonPositiveProduct(a: int, b: int)
    requires a <= 0 <= b
    ensures a * b <= 0
  {
  }

  /** The offset is computed in 32-bit arithmetic: page 65537 of size 65536 should
      start 2^32 records in, but the product wraps to 0, so the first page comes back. */
  lemma OffsetWrapsAround(dogs: seq<Dog>)
    ensures (65537 - 1) * 65536 == 0x1_0000_0000
    ensures GetDogs(dogs, None, None, 65537, 65536) == GetDogs(dogs, None, None, 1, 65536)
  {
    assert PageOffset(65537, 65536) == 0;
    GetDogsNaturalOrder(dogs, None, None, 65537, 65536);
    GetDogsNaturalOrder(dogs, None, None, 1, 65536);
  }

  /** Creation as the service's tests drive it, starting from an empty table. */
  method CreationScenario() returns (listing: Result<seq<Dog>, Exception>)
    ensures listing == Success([Dog(1, "Rex", "brown", 5, 10), Dog(2, "Fido", "black", 0, -7)])
  {
    var service := new DogService();
    var rex := service.CreateDogAsync(Dog(0, "Rex", "brown", 5, 10));
    assert rex == Success(Dog(1, "Rex", "brown", 5, 10));
    assert service.dogs == [Dog(1, "Rex", "brown", 5, 10)];

    var again := service.CreateDogAsync(Dog(0, "Rex", "black", 3, 4));
    assert again == Failure(InvalidOperationException(DuplicateNameMessage));

    var both := service.CreateDogAsync(Dog(0, "Rex", "black", -1, 4));
    assert both == Failure(InvalidOperationException(DuplicateNameMessage));

    var fido := service.CreateDogAsync(Dog(0, "Fido", "black", -1, 10));
    assert fido == Failure(InvalidOperationException(NegativeTailLengthMessage));

    var heavy := service.CreateDogAsync(Dog(0, "Fido", "black", 0, -7));
    assert heavy.Success? && heavy.value.id == 2;
    assert service.dogs == [Dog(1, "Rex", "brown", 5, 10), Dog(2, "Fido", "black", 0, -7)];

    listing := service.GetDogsAsync(None, None, 1, 10);
    assert listing == Success(service.dogs) by {
      DefaultListingIsWholeTable(service.dogs);
    }
  }
}
