/** The dynamic order-by extension: a property name, matched without regard to case,
    selects one public property of the record, and the records are sorted by it,
    ascending or descending. Reflection and expression trees become a finite table
    from property to key. */
module Extensions {
  import opened Wrappers
  import opened Strings
  import opened Models

  /** The public instance properties of `Dog`, in declaration order. */
  datatype Property = Id | Name | Color | TailLength | Weight

  const Properties: seq<Property> := [Id, Name, Color, TailLength, Weight]

  function PropertyName(p: Property): string {
    match p
    case Id => "Id"
    case Name => "Name"
    case Color => "Color"
    case TailLength => "TailLength"
    case Weight => "Weight"
  }

  /** A property value: integer-typed properties compare as numbers, string-typed
      ones in ordinal lexicographic order. */
  datatype Key = IntKey(n: int) | StrKey(s: string)

  function KeyOf(d: Dog, p: Property): Key {
    match p
    case Id => IntKey(d.id)
    case Name => StrKey(d.name)
    case Color => StrKey(d.color)
    case TailLength => IntKey(d.tailLength)
    case Weight => IntKey(d.weight)
  }

  /** The comparer of keys. Keys of one property are always of one kind; across
      kinds integers are put first only to make the order total. */
  predicate KeyLe(a: Key, b: Key) {
    match (a, b)
    case (IntKey(x), IntKey(y)) => x <= y
    case (StrKey(x), StrKey(y)) => StrLe(x, y)
    case (IntKey(_), StrKey(_)) => true
    case (StrKey(_), IntKey(_)) => false
  }

  lemma KeyLeTotal(a: Key, b: Key)
    ensures KeyLe(a, b) || KeyLe(b, a)
  {
    if a.StrKey? && b.StrKey? {
      StrLeTotal(a.s, b.s);
    }
  }

  lemma KeyLeTransitive(a: Key, b: Key, c: Key)
    requires KeyLe(a, b) && KeyLe(b, c)
    ensures KeyLe(a, c)
  {
    if a.StrKey? && b.StrKey? && c.StrKey? {
      StrLeTransitive(a.s, b.s, c.s);
    }
  }

  lemma KeyLeAntisymmetric(a: Key, b: Key)
    requires KeyLe(a, b) && KeyLe(b, a)
    ensures a == b
  {
    if a.StrKey? && b.StrKey? {
      StrLeAntisymmetric(a.s, b.s);
    }
  }

  /** `a` may come before `b` in a result sorted by `p` in the given direction. */
  predicate InOrder(a: Dog, b: Dog, p: Property, ascending: bool) {
    if ascending then KeyLe(KeyOf(a, p), KeyOf(b, p)) else KeyLe(KeyOf(b, p), KeyOf(a, p))
  }

  lemma InOrderTotal(a: Dog, b: Dog, p: Property, ascending: bool)
    ensures InOrder(a, b, p, ascending) || InOrder(b, a, p, ascending)
  {
    KeyLeTotal(KeyOf(a, p), KeyOf(b, p));
  }

  lemma InOrderTransitive(a: Dog, b: Dog, c: Dog, p: Property, ascending: bool)
    requires InOrder(a, b, p, ascending) && InOrder(b, c, p, ascending)
    ensures InOrder(a, c, p, ascending)
  {
    if ascending {
      KeyLeTransitive(KeyOf(a, p), KeyOf(b, p), KeyOf(c, p));
    } else {
      KeyLeTransitive(KeyOf(c, p), KeyOf(b, p), KeyOf(a, p));
    }
  }

  /** Sorted non-decreasing (ascending) or non-increasing (descending) by `p`. */
  ghost predicate Sorted(s: seq<Dog>, p: Property, ascending: bool) {
    forall i, j :: 0 <= i < j < |s| ==> InOrder(s[i], s[j], p, ascending)
  }

  /** Different records in `s` have different values of `p`. */
  ghost predicate KeysDetermineRecords(s: seq<Dog>, p: Property) {
    forall x, y :: x in s && y in s && KeyOf(x, p) == KeyOf(y, p) ==> x == y
  }

  /** Reflection's case-insensitive property lookup over the table. */
  function FindProperty(props: seq<Property>, name: string): (r: Option<Property>)
    ensures r.Some? ==> r.value in props && EqualsIgnoreCase(PropertyName(r.value), name)
    ensures r.None? ==> forall p :: p in props ==> !EqualsIgnoreCase(PropertyName(p), name)
  {
    if props == [] then None
    else if EqualsIgnoreCase(PropertyName(props[0]), name) then Some(props[0])
    else FindProperty(props[1..], name)
  }

  /** `typeof(Dog).GetProperty(name, IgnoreCase | Public | Instance)`. */
  function GetProperty(name: string): (r: Option<Property>)
    ensures r.Some? ==> EqualsIgnoreCase(PropertyName(r.value), name)
    ensures r.Some? <==> exists p: Property :: EqualsIgnoreCase(PropertyName(p), name)
  {
    FindProperty(Properties, name)
  }

  /** Every spelling of a property's name, in any case, finds exactly that property;
      every other name finds nothing. */
  lemma GetPropertyIgnoresCase(p: Property, name: string)
    ensures GetProperty(name) == Some(p) <==> EqualsIgnoreCase(PropertyName(p), name)
  {
  }

  /** Places `x` before the first element it may precede. */
  function Insert(x: Dog, s: seq<Dog>, p: Property, ascending: bool): (r: seq<Dog>)
    ensures multiset(r) == multiset(s) + multiset{x}
  {
    if s == [] || InOrder(x, s[0], p, ascending) then [x] + s
    else
      assert s == [s[0]] + s[1..];
      [s[0]] + Insert(x, s[1..], p, ascending)
  }

  lemma {:induction false} InsertSorted(x: Dog, s: seq<Dog>, p: Property, ascending: bool)
    requires Sorted(s, p, ascending)
    ensures Sorted(Insert(x, s, p, ascending), p, ascending)
  {
    if s == [] {
    } else if InOrder(x, s[0], p, ascending) {
      forall j | 0 <= j < |s|
        ensures InOrder(x, s[j], p, ascending)
      {
        if j > 0 {
          InOrderTransitive(x, s[0], s[j], p, ascending);
        }
      }
      ConsSorted(x, s, p, ascending);
    } else {
      InOrderTotal(x, s[0], p, ascending);
      InsertSorted(x, s[1..], p, ascending);
      HeadPrecedesInsert(x, s, p, ascending);
      ConsSorted(s[0], Insert(x, s[1..], p, ascending), p, ascending);
    }
  }

  lemma ConsSorted(y: Dog, t: seq<Dog>, p: Property, ascending: bool)
    requires Sorted(t, p, ascending)
    requires forall k :: 0 <= k < |t| ==> InOrder(y, t[k], p, ascending)
    ensures Sorted([y] + t, p, ascending)
  {
    forall i, j | 0 <= i < j < |[y] + t|
      ensures InOrder(([y] + t)[i], ([y] + t)[j], p, ascending)
    {
      if i > 0 {
        assert ([y] + t)[i] == t[i - 1];
      }
      assert ([y] + t)[j] == t[j - 1];
    }
  }

  lemma HeadPrecedesInsert(x: Dog, s: seq<Dog>, p: Property, ascending: bool)
    requires s != [] && Sorted(s, p, ascending) && InOrder(s[0], x, p, ascending)
    ensures forall k :: 0 <= k < |Insert(x, s[1..], p, ascending)| ==>
      InOrder(s[0], Insert(x, s[1..], p, ascending)[k], p, ascending)
  {
    var t := Insert(x, s[1..], p, ascending);
    forall k | 0 <= k < |t|
      ensures InOrder(s[0], t[k], p, ascending)
    {
      assert t[k] in multiset(t);
      if t[k] != x {
        assert t[k] in multiset(s[1..]);
        var m :| 0 <= m < |s[1..]| && s[1..][m] == t[k];
        assert s[m + 1] == t[k];
      }
    }
  }

  /** A stable insertion sort by `p`: a sorted permutation of `s`. */
  function SortBy(s: seq<Dog>, p: Property, ascending: bool): (r: seq<Dog>)
    ensures multiset(r) == multiset(s)
    ensures Sorted(r, p, ascending)
  {
    if s == [] then []
    else
      assert s == [s[0]] + s[1..];
      var t := SortBy(s[1..], p, ascending);
      InsertSorted(s[0], t, p, ascending);
      Insert(s[0], t, p, ascending)
  }

  /** The message of the exception raised for an unknown property name. */
  function NoPropertyMessage(propertyName: string): (r: string)
    ensures |r| == |propertyName| + 29
    ensures r[..13] == "No property '"
    ensures r[13..13 + |propertyName|] == propertyName
    ensures r[13 + |propertyName|..] == "' found on 'Dog'"
  {
    "No property '" + propertyName + "' found on '" + TypeName + "'"
  }

  /** `source.OrderBy(propertyName, ascending)`: throws when no property matches,
      otherwise sorts by the matched property. */
  function OrderBy(source: seq<Dog>, propertyName: string, ascending: bool): (r: Result<seq<Dog>, Exception>)
    ensures r.Failure? <==> GetProperty(propertyName).None?
    ensures r.Failure? ==> r.error == ArgumentException(NoPropertyMessage(propertyName))
    ensures r.Success? ==>
      && multiset(r.value) == multiset(source)
      && Sorted(r.value, GetProperty(propertyName).value, ascending)
  {
    match GetProperty(propertyName)
    case None => Failure(ArgumentException(NoPropertyMessage(propertyName)))
    case Some(p) => Success(SortBy(source, p, ascending))
  }

  function Reverse(s: seq<Dog>): (r: seq<Dog>)
    ensures |r| == |s|
    ensures forall i :: 0 <= i < |s| ==> r[i] == s[|s| - 1 - i]
    ensures multiset(r) == multiset(s)
  {
    if s == [] then []
    else
      assert s == [s[0]] + s[1..];
      Reverse(s[1..]) + [s[0]]
  }

  /** Two sorted permutations of one another are equal when the sort key tells
      different records apart. */
  lemma {:induction false} SortedUnique(a: seq<Dog>, b: seq<Dog>, p: Property, ascending: bool)
    requires multiset(a) == multiset(b)
    requires Sorted(a, p, ascending) && Sorted(b, p, ascending)
    requires KeysDetermineRecords(a, p)
    ensures a == b
  {
    assert |a| == |multiset(a)| == |multiset(b)| == |b|;
    if a != [] {
      HeadsEqual(a, b, p, ascending);
      TailsAgree(a, b, p, ascending);
      SortedUnique(a[1..], b[1..], p, ascending);
    }
  }

  lemma TailsAgree(a: seq<Dog>, b: seq<Dog>, p: Property, ascending: bool)
    requires a != [] && b != [] && a[0] == b[0] && multiset(a) == multiset(b)
    requires Sorted(a, p, ascending) && Sorted(b, p, ascending)
    requires KeysDetermineRecords(a, p)
    ensures multiset(a[1..]) == multiset(b[1..])
    ensures Sorted(a[1..], p, ascending) && Sorted(b[1..], p, ascending)
    ensures KeysDetermineRecords(a[1..], p)
  {
    assert a == [a[0]] + a[1..] && b == [b[0]] + b[1..];
    assert multiset(a[1..]) == multiset(a) - multiset{a[0]};
    assert multiset(b[1..]) == multiset(b) - multiset{b[0]};
    SortedTail(a, p, ascending);
    SortedTail(b, p, ascending);
    forall x | x in a[1..] ensures x in a { }
  }

  lemma SortedTail(a: seq<Dog>, p: Property, ascending: bool)
    requires a != [] && Sorted(a, p, ascending)
    ensures Sorted(a[1..], p, ascending)
  {
    forall i, j | 0 <= i < j < |a| - 1
      ensures InOrder(a[1..][i], a[1..][j], p, ascending)
    {
      assert a[1..][i] == a[i + 1] && a[1..][j] == a[j + 1];
    }
  }

  lemma HeadsEqual(a: seq<Dog>, b: seq<Dog>, p: Property, ascending: bool)
    requires a != [] && multiset(a) == multiset(b)
    requires Sorted(a, p, ascending) && Sorted(b, p, ascending)
    requires KeysDetermineRecords(a, p)
    ensures b != [] && a[0] == b[0]
  {
    assert a[0] in multiset(b) && b[0] in multiset(a);
    var k :| 0 <= k < |b| && b[k] == a[0];
    var m :| 0 <= m < |a| && a[m] == b[0];
    if k != 0 && m != 0 {
      assert InOrder(a[0], b[0], p, ascending) && InOrder(b[0], a[0], p, ascending);
      if ascending {
        KeyLeAntisymmetric(KeyOf(a[0], p), KeyOf(b[0], p));
      } else {
        KeyLeAntisymmetric(KeyOf(b[0], p), KeyOf(a[0], p));
      }
    }
  }

  /** When the key tells records apart, sorting descending gives the reverse of
      sorting ascending. */
  lemma DescendingIsReverseOfAscending(source: seq<Dog>, propertyName: string)
    requires GetProperty(propertyName).Some?
    requires KeysDetermineRecords(source, GetProperty(propertyName).value)
    ensures OrderBy(source, propertyName, false).value == Reverse(OrderBy(source, propertyName, true).value)
  {
    var p := GetProperty(propertyName).value;
    var down := OrderBy(source, propertyName, false).value;
    var up := Reverse(OrderBy(source, propertyName, true).value);
    forall x | x in down
      ensures x in source
    {
      assert x in multiset(down);
    }
    SortedUnique(down, up, p, false);
  }
}

/** The records of the order-by tests, and what sorting them gives. */
module ExtensionsExamples {
  import opened Wrappers
  import opened Strings
  import opened Models
  import opened Extensions

  const Charlie := Dog(3, "Charlie", "c", 0, 0)
  const Alpha := Dog(1, "Alpha", "a", 0, 0)
  const Bravo := Dog(2, "Bravo", "b", 0, 0)
  const Entities := [Charlie, Alpha, Bravo]

  /** A sorted arrangement of the entities is what sorting them produces. */
  lemma SortsTo(p: Property, ascending: bool, expected: seq<Dog>)
    requires multiset(expected) == multiset(Entities)
    requires Sorted(expected, p, ascending)
    requires KeysDetermineRecords(Entities, p)
    ensures SortBy(Entities, p, ascending) == expected
  {
    var r := SortBy(Entities, p, ascending);
    forall x | x in r
      ensures x in Entities
    {
      assert x in multiset(r);
    }
    SortedUnique(r, expected, p, ascending);
  }

  lemma Resolves(name: string, p: Property)
    requires ToLower(name) == ToLower(PropertyName(p))
    ensures GetProperty(name) == Some(p)
  {
    GetPropertyIgnoresCase(p, name);
  }

  lemma IdsInOrder()
    ensures Sorted([Alpha, Bravo, Charlie], Id, true) && Sorted([Charlie, Bravo, Alpha], Id, false)
  {
  }

  lemma NamesInOrder()
    ensures Sorted([Alpha, Bravo, Charlie], Name, true) && Sorted([Charlie, Bravo, Alpha], Name, false)
  {
  }

  lemma SameEntities()
    ensures multiset([Alpha, Bravo, Charlie]) == multiset(Entities)
    ensures multiset([Charlie, Bravo, Alpha]) == multiset(Entities)
  {
  }

  lemma SortByIdAscending()
    ensures OrderBy(Entities, "Id", true) == Success([Alpha, Bravo, Charlie])
  {
    IdsInOrder();
    SameEntities();
    SortsTo(Id, true, [Alpha, Bravo, Charlie]);
    Resolves("Id", Id);
  }

  lemma SortByIdDescending()
    ensures OrderBy(Entities, "Id", false) == Success([Charlie, Bravo, Alpha])
  {
    IdsInOrder();
    SameEntities();
    SortsTo(Id, false, [Charlie, Bravo, Alpha]);
    Resolves("Id", Id);
  }

  lemma SortByNameAscending()
    ensures OrderBy(Entities, "Name", true) == Success([Alpha, Bravo, Charlie])
  {
    NamesInOrder();
    SameEntities();
    SortsTo(Name, true, [Alpha, Bravo, Charlie]);
    Resolves("Name", Name);
  }

  lemma SortByNameDescending()
    ensures OrderBy(Entities, "Name", false) == Success([Charlie, Bravo, Alpha])
  {
    NamesInOrder();
    SameEntities();
    SortsTo(Name, false, [Charlie, Bravo, Alpha]);
    Resolves("Name", Name);
  }

  lemma UnknownProperty(source: seq<Dog>, ascending: bool, name: string)
    requires name == "NonExistentProperty"
    ensures OrderBy(source, name, ascending)
      == Failure(ArgumentException("No property 'NonExistentProperty' found on 'Dog'"))
  {
    NoSuchProperty(name);
    UnknownPropertyMessage();
  }

  lemma UnknownPropertyMessage()
    ensures NoPropertyMessage("NonExistentProperty") == "No property 'NonExistentProperty' found on 'Dog'"
  {
  }

  lemma NoSuchProperty(name: string)
    requires |name| > 10
    ensures GetProperty(name) == None
  {
  }
}
