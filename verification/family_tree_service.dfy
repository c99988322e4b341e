/**
 * The service layer over the family tree: searches by id and by full name that return the
 * first match in the list getAllPeople produces, the search-box query that picks one of
 * them, and delegation of addPerson and setParents to the tree.
 */
module FamilyTreeService {
  import opened Wrappers
  import opened Text
  import opened Person
  import FamilyTree

  /** Integer.MAX_VALUE: the largest value Integer.parseInt accepts. */
  const MaxInt: int := 0x7fff_ffff

  /** The AND match of the service's name search: both names match, ignoring case. */
  predicate MatchesFullName(p: PersonRec, firstName: string, lastName: string)
  {
    EqualsIgnoreCase(p.firstName, firstName) && EqualsIgnoreCase(p.lastName, lastName)
  }

  /** The first person in the list with the given id, or none. */
  function FirstWithId(people: seq<PersonRec>, id: int): (r: Option<PersonRec>)
    ensures r.None? <==> forall i :: 0 <= i < |people| ==> people[i].id != id
    ensures r.Some? ==> exists i :: 0 <= i < |people| && people[i] == r.value && r.value.id == id
                                   && forall j :: 0 <= j < i ==> people[j].id != id
    decreases |people|
  {
    if people == [] then None
    else if people[0].id == id then Some(people[0])
    else
      var r := FirstWithId(people[1..], id);
      assert forall i :: 1 <= i < |people| ==> people[i] == people[1..][i - 1];
      r
  }

  /** The first person in the list whose first and last names both match, or none. */
  function FirstWithName(people: seq<PersonRec>, firstName: string, lastName: string): (r: Option<PersonRec>)
    ensures r.None? <==> forall i :: 0 <= i < |people| ==> !MatchesFullName(people[i], firstName, lastName)
    ensures r.Some? ==> exists i :: 0 <= i < |people| && people[i] == r.value
                                   && MatchesFullName(r.value, firstName, lastName)
                                   && forall j :: 0 <= j < i ==> !MatchesFullName(people[j], firstName, lastName)
    decreases |people|
  {
    if people == [] then None
    else if MatchesFullName(people[0], firstName, lastName) then Some(people[0])
    else
      var r := FirstWithName(people[1..], firstName, lastName);
      assert forall i :: 1 <= i < |people| ==> people[i] == people[1..][i - 1];
      r
  }

  /** findById: scan the list, return the first person with the id, or none. */
  method FindById(people: seq<PersonRec>, id: int) returns (r: Option<PersonRec>)
    ensures r == FirstWithId(people, id)
  {
    for i := 0 to |people|
      invariant FirstWithId(people[i..], id) == FirstWithId(people, id)
    {
      assert people[i..][1..] == people[i + 1..];
      if people[i].id == id {
        return Some(people[i]);
      }
    }
    return None;
  }

  /** findByName: scan the list, return the first person matching both names, or none. */
  method FindByName(people: seq<PersonRec>, firstName: string, lastName: string) returns (r: Option<PersonRec>)
    ensures r == FirstWithName(people, firstName, lastName)
  {
    for i := 0 to |people|
      invariant FirstWithName(people[i..], firstName, lastName) == FirstWithName(people, firstName, lastName)
    {
      assert people[i..][1..] == people[i + 1..];
      if MatchesFullName(people[i], firstName, lastName) {
        return Some(people[i]);
      }
    }
    return None;
  }

  /**
   * Ids are unique in the store, so searching any listing of it by id finds exactly the
   * record stored under that id, whatever the listing's order.
   */
  lemma FirstWithIdInStore(all: seq<PersonRec>, s: FamilyTree.Store, id: int)
    requires FamilyTree.Enumerates(all, s) && FamilyTree.KeysMatchIds(s)
    ensures FirstWithId(all, id) == if id in s then Some(s[id]) else None
  {
    var r := FirstWithId(all, id);
    if id in s {
      assert s[id] in all;
      var i :| 0 <= i < |all| && all[i] == s[id];
      assert all[i].id == id;
    }
  }

  /**
   * Searching a listing of the store by full name finds a stored record matching both
   * names, and finds none exactly when no stored record matches both.
   */
  lemma FirstWithNameInStore(all: seq<PersonRec>, s: FamilyTree.Store, firstName: string, lastName: string)
    requires FamilyTree.Enumerates(all, s)
    ensures var r := FirstWithName(all, firstName, lastName);
      && (r.Some? ==> r.value.id in s && s[r.value.id] == r.value
                      && MatchesFullName(r.value, firstName, lastName))
      && (r.None? <==> forall k :: k in s ==> !MatchesFullName(s[k], firstName, lastName))
  {
    var r := FirstWithName(all, firstName, lastName);
    if r.None? {
      forall k | k in s
        ensures !MatchesFullName(s[k], firstName, lastName)
      {
        assert s[k] in all;
      }
    }
  }

  /** The service's AND result, when there is one, is among the tree's OR results. */
  lemma FullNameMatchIsAmongEitherMatches(all: seq<PersonRec>, s: FamilyTree.Store, firstName: string, lastName: string)
    requires FamilyTree.Enumerates(all, s)
    ensures var r := FirstWithName(all, firstName, lastName);
      r.Some? ==> r.value.id in FamilyTree.MatchingEitherName(s, firstName, lastName)
  {
    FirstWithNameInStore(all, s, firstName, lastName);
  }

  /** With "" as the last name, only a person whose last name is empty can be found. */
  lemma EmptyLastNameMatchesOnlyEmpty(people: seq<PersonRec>, firstName: string)
    ensures var r := FirstWithName(people, firstName, "");
      r.Some? ==> r.value.lastName == "" && EqualsIgnoreCase(r.value.firstName, firstName)
  {
    var r := FirstWithName(people, firstName, "");
    if r.Some? {
      EqualsIgnoreCaseEmpty(r.value.lastName);
    }
  }

  // ----- The search box: findByNameOrId -----

  /** What a search-box input asks for. */
  datatype Query = ById(id: int) | ByName(firstName: string, lastName: string)

  /**
   * The exceptions findByNameOrId lets escape: Integer.parseInt on a digit string above
   * Integer.MAX_VALUE, and indexing the empty array that split(" ") gives for an input
   * made only of spaces.
   */
  datatype SearchError = NumberFormat | IndexOutOfBounds

  /**
   * How findByNameOrId reads its input: all digits means an id; otherwise the first piece
   * of split(" ") is the first name and the second piece, or "" if there is none, the
   * last name.
   */
  function ParseQuery(input: string): Result<Query, SearchError>
  {
    if AllDigits(input) then
      var value := DecimalValue(input);
      if value <= MaxInt then Success(ById(value)) else Failure(NumberFormat)
    else
      var parts := Split(input);
      if |parts| == 0 then Failure(IndexOutOfBounds)
      else Success(ByName(parts[0], if |parts| > 1 then parts[1] else ""))
  }

  /** Typing the decimal form of any id from 0 to Integer.MAX_VALUE searches by that id. */
  lemma DecimalInputSearchesById(n: nat)
    requires n <= MaxInt
    ensures ParseQuery(DecimalString(n)) == Success(ById(n))
  {
    DecimalRoundTrip(n);
  }

  /** A digit string whose value exceeds Integer.MAX_VALUE fails to parse. */
  lemma OversizedNumberFails(input: string)
    requires AllDigits(input) && DecimalValue(input) > MaxInt
    ensures ParseQuery(input) == Failure(NumberFormat)
  {
  }

  /** A single word that is not all digits is a first name, with "" as the last name. */
  lemma SingleWordSearchesWithEmptyLastName(input: string)
    requires ' ' !in input && !AllDigits(input)
    ensures ParseQuery(input) == Success(ByName(input, ""))
  {
    SplitWord(input);
  }

  /**
   * Input "a b..." that is not all spaces searches for first name a and last name b; either
   * may be empty, as around adjacent spaces ("  b" searches for "" and "b"). Whatever follows
   * the second word is ignored.
   */
  lemma WordsSearchByFirstTwo(a: string, b: string, tail: string)
    requires ' ' !in a && ' ' !in b
    requires tail == "" || tail[0] == ' '
    requires !Blank(a + " " + b + tail)
    ensures ParseQuery(a + " " + b + tail) == Success(ByName(a, b))
  {
    var input := a + " " + b + tail;
    assert input[|a|] == ' ';
    assert !AllDigits(input);
    SplitFirstTwo(a, b, tail);
  }

  /** An input made only of spaces fails on the empty split. */
  lemma BlankInputFails(input: string)
    requires |input| > 0 && Blank(input)
    ensures ParseQuery(input) == Failure(IndexOutOfBounds)
  {
    assert !IsDigit(input[0]);
    SplitBlank(input);
  }

  class FamilyTreeService {
    const familyTree: FamilyTree.FamilyTree

    ghost predicate Valid()
      reads familyTree
    {
      familyTree.Valid()
    }

    constructor (familyTree: FamilyTree.FamilyTree)
      ensures this.familyTree == familyTree
    {
      this.familyTree := familyTree;
    }

    /**
     * addPerson: construct a person with no relationships and add it to the tree. The id
     * is a parameter, since the person constructor that assigns it is not modelled.
     */
    method AddPerson(id: int, firstName: string, lastName: string,
                     birthDate: Option<Date>, deathDate: Option<Date>, gender: Option<Gender>)
      requires Valid()
      modifies familyTree
      ensures Valid()
      ensures familyTree.people ==
        old(familyTree.people)[id := NewPerson(id, firstName, lastName, birthDate, deathDate, gender)]
    {
      var person := NewPerson(id, firstName, lastName, birthDate, deathDate, gender);
      familyTree.AddPerson(person);
    }

    /** setParents: delegated to the tree unchanged. */
    method SetParents(childId: int, motherId: int, fatherId: int)
      requires Valid()
      modifies familyTree
      ensures Valid()
      ensures familyTree.people == FamilyTree.SetParentsSpec(old(familyTree.people), childId, motherId, fatherId)
    {
      familyTree.SetParents(childId, motherId, fatherId);
    }

    /**
     * findByNameOrId: an id query finds the person stored under that id; a name query
     * finds a stored person matching both names, and none exactly when nobody matches;
     * a malformed input fails with the exception Java would throw.
     */
    method FindByNameOrId(searchInput: string) returns (r: Result<Option<PersonRec>, SearchError>)
      requires Valid()
      ensures ParseQuery(searchInput).Failure? ==> r == Failure(ParseQuery(searchInput).error)
      ensures ParseQuery(searchInput).Success? && ParseQuery(searchInput).value.ById? ==>
        r == Success(familyTree.GetPerson(ParseQuery(searchInput).value.id))
      ensures ParseQuery(searchInput).Success? && ParseQuery(searchInput).value.ByName? ==>
        var q := ParseQuery(searchInput).value;
        && r.Success?
        && (r.value.Some? ==> familyTree.GetPerson(r.value.value.id) == r.value
                              && MatchesFullName(r.value.value, q.firstName, q.lastName))
        && (r.value.None? <==> forall k :: k in familyTree.people ==>
                                 !MatchesFullName(familyTree.people[k], q.firstName, q.lastName))
    {
      var query := ParseQuery(searchInput);
      if query.Failure? {
        return Failure(query.error);
      }
      var all := familyTree.GetAllPeople();
      match query.value
      case ById(id) =>
        var found := FindById(all, id);
        FirstWithIdInStore(all, familyTree.people, id);
        r := Success(found);
      case ByName(firstName, lastName) =>
        var found := FindByName(all, firstName, lastName);
        FirstWithNameInStore(all, familyTree.people, firstName, lastName);
        r := Success(found);
    }
  }
}
