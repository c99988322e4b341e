/**
 * The family tree: a keyed store of person records, the one owner of all of them, and
 * the only writer of the parent/child links (setParents). Records refer to each other
 * by id, so the store is an arena map from id to record.
 */
module FamilyTree {
  import opened Wrappers
  import opened Text
  import opened Person

  type Store = map<int, PersonRec>

  /** Every record is stored under its own id. */
  ghost predicate KeysMatchIds(s: Store)
  {
    forall k :: k in s ==> s[k].id == k
  }

  /** Every relationship reference of p names a stored record. */
  ghost predicate RefsIn(p: PersonRec, s: Store)
  {
    && (p.mother.Some? ==> p.mother.value in s)
    && (p.father.Some? ==> p.father.value in s)
    && (forall c :: c in p.children ==> c in s)
  }

  /** No stored record refers to an id that is not stored. */
  ghost predicate Linked(s: Store)
  {
    forall k :: k in s ==> RefsIn(s[k], s)
  }

  /** all lists the records of s, each exactly once (in no particular order). */
  ghost predicate Enumerates(all: seq<PersonRec>, s: Store)
  {
    && (forall i :: 0 <= i < |all| ==> all[i].id in s && s[all[i].id] == all[i])
    && (forall k :: k in s ==> s[k] in all)
    && (forall i, j :: 0 <= i < j < |all| ==> all[i].id != all[j].id)
  }

  /** The OR match of the tree's name search: first name or last name, ignoring case. */
  predicate MatchesEitherName(p: PersonRec, firstName: string, lastName: string)
  {
    EqualsIgnoreCase(p.firstName, firstName) || EqualsIgnoreCase(p.lastName, lastName)
  }

  /** The part of the store that the OR name search selects. */
  ghost function MatchingEitherName(s: Store, firstName: string, lastName: string): Store
  {
    map k | k in s && MatchesEitherName(s[k], firstName, lastName) :: s[k]
  }

  /** The reference setParents records for a parent id: the id if it is stored, else none. */
  function ParentRef(s: Store, id: int): Option<int>
  {
    if id in s then Some(id) else None
  }

  /** Appends childId to the children of parentId's record, if there is one. */
  function AppendChild(s: Store, parentId: int, childId: int): Store
  {
    if parentId in s then s[parentId := AddChild(s[parentId], childId)] else s
  }

  /** Appending touches only the children of parentId's record. */
  lemma AppendChildEffect(s: Store, parentId: int, childId: int)
    ensures var r := AppendChild(s, parentId, childId);
      && r.Keys == s.Keys
      && (forall k :: k in s ==>
            && r[k].children == s[k].children + (if k == parentId then [childId] else [])
            && r[k].mother == s[k].mother && r[k].father == s[k].father
            && SameAttributes(r[k], s[k]))
      && (forall k :: k in s && k != parentId ==> r[k] == s[k])
  {
  }

  /** Sets the mother and father references of childId's record. */
  function LinkChild(s: Store, childId: int, mother: Option<int>, father: Option<int>): Store
    requires childId in s
  {
    s[childId := s[childId].(mother := mother, father := father)]
  }

  /** Linking touches only the mother and father references of childId's record. */
  lemma LinkChildEffect(s: Store, childId: int, mother: Option<int>, father: Option<int>)
    requires childId in s
    ensures var r := LinkChild(s, childId, mother, father);
      && r.Keys == s.Keys
      && r[childId].mother == mother && r[childId].father == father
      && (forall k :: k in s ==> r[k].children == s[k].children && SameAttributes(r[k], s[k]))
      && (forall k :: k in s && k != childId ==> r[k] == s[k])
  {
  }

  /**
   * The store after setParents(c, m, f): link the child to the parents found, then append
   * the child to the mother's record, then to the father's.
   */
  function SetParentsSpec(s: Store, c: int, m: int, f: int): Store
  {
    if c !in s then s
    else
      var linked := LinkChild(s, c, ParentRef(s, m), ParentRef(s, f));
      var withMother := AppendChild(linked, m, c);
      AppendChild(withMother, f, c)
  }

  /**
   * What setParents(c, m, f) does to the references. An absent child changes nothing.
   * Otherwise the child's mother and father become the references found for m and f
   * (none for an absent id, which clears an earlier one); no other record's references
   * change, and no name, date or gender changes.
   */
  lemma SetParentsLinks(s: Store, c: int, m: int, f: int)
    ensures var r := SetParentsSpec(s, c, m, f);
      && r.Keys == s.Keys
      && (c !in s ==> r == s)
      && (c in s ==> r[c].mother == ParentRef(s, m) && r[c].father == ParentRef(s, f))
      && (forall k :: k in s && k != c ==> r[k].mother == s[k].mother && r[k].father == s[k].father)
      && (forall k :: k in s ==> SameAttributes(r[k], s[k]))
  {
    if c in s {
      var linked := LinkChild(s, c, ParentRef(s, m), ParentRef(s, f));
      var withMother := AppendChild(linked, m, c);
      LinkChildEffect(s, c, ParentRef(s, m), ParentRef(s, f));
      AppendChildEffect(linked, m, c);
      AppendChildEffect(withMother, f, c);
    }
  }

  /**
   * What setParents(c, m, f) does to the children sequences. With the child stored, each
   * parent that is found gets c appended at the end, after the earlier entries (twice when
   * m == f).
   */
  lemma SetParentsAppends(s: Store, c: int, m: int, f: int)
    ensures var r := SetParentsSpec(s, c, m, f);
      && r.Keys == s.Keys
      && (forall k :: k in s ==>
            r[k].children == s[k].children + (if c in s && k == m then [c] else [])
                                           + (if c in s && k == f then [c] else []))
  {
    if c in s {
      var linked := LinkChild(s, c, ParentRef(s, m), ParentRef(s, f));
      var withMother := AppendChild(linked, m, c);
      LinkChildEffect(s, c, ParentRef(s, m), ParentRef(s, f));
      AppendChildEffect(linked, m, c);
      AppendChildEffect(withMother, f, c);
    }
  }

  /** setParents(c, m, f) changes no record other than the child's, the mother's and the father's. */
  lemma SetParentsTouchesOnlyFamily(s: Store, c: int, m: int, f: int)
    ensures var r := SetParentsSpec(s, c, m, f);
      forall k :: k in s && k != c && k != m && k != f ==> k in r && r[k] == s[k]
  {
    if c in s {
      var linked := LinkChild(s, c, ParentRef(s, m), ParentRef(s, f));
      var withMother := AppendChild(linked, m, c);
      LinkChildEffect(s, c, ParentRef(s, m), ParentRef(s, f));
      AppendChildEffect(linked, m, c);
      AppendChildEffect(withMother, f, c);
    }
  }

  /** With child, mother and father all stored, the links point both ways. */
  lemma SetParentsLinksBothWays(s: Store, c: int, m: int, f: int)
    requires c in s && m in s && f in s
    ensures var r := SetParentsSpec(s, c, m, f);
      && r[c].mother == Some(m) && r[c].father == Some(f)
      && c in r[m].children && c in r[f].children
      && r[f].children[|r[f].children| - 1] == c
  {
    SetParentsLinks(s, c, m, f);
    SetParentsAppends(s, c, m, f);
  }

  /**
   * setParents is not idempotent: a second identical call appends the child again to each
   * parent that is found, and leaves the child's own references as the first call set them.
   */
  lemma SetParentsTwice(s: Store, c: int, m: int, f: int)
    requires c in s
    ensures var once := SetParentsSpec(s, c, m, f);
      var twice := SetParentsSpec(once, c, m, f);
      && twice[c].mother == once[c].mother && twice[c].father == once[c].father
      && (forall k :: k in s ==>
            twice[k].children == once[k].children + (if k == m then [c] else [])
                                                  + (if k == f then [c] else []))
      && (m in s || f in s ==> twice != once)
  {
    var once := SetParentsSpec(s, c, m, f);
    var twice := SetParentsSpec(once, c, m, f);
    SetParentsLinks(s, c, m, f);
    SetParentsAppends(s, c, m, f);
    SetParentsLinks(once, c, m, f);
    SetParentsAppends(once, c, m, f);
    var p := if m in s then m else f;
    if p in s {
      assert |twice[p].children| > |once[p].children|;
    }
  }

  /** setParents keeps every record under its own id and adds no dangling reference. */
  lemma SetParentsPreservesInvariants(s: Store, c: int, m: int, f: int)
    ensures KeysMatchIds(s) ==> KeysMatchIds(SetParentsSpec(s, c, m, f))
    ensures Linked(s) ==> Linked(SetParentsSpec(s, c, m, f))
  {
    var r := SetParentsSpec(s, c, m, f);
    SetParentsLinks(s, c, m, f);
    SetParentsAppends(s, c, m, f);
    if Linked(s) {
      forall k | k in r
        ensures RefsIn(r[k], r)
      {
        assert RefsIn(s[k], s);
        forall x | x in r[k].children
          ensures x in r
        {
          if x !in s[k].children {
            assert x == c;
          }
        }
      }
    }
  }

  /** A non-empty set of ids has a member to pick next. */
  lemma SomeIdLeft(rest: set<int>)
    requires rest != {}
    ensures exists k :: k in rest
  {
    if forall k :: k !in rest {
      assert false;
    }
  }

  class FamilyTree {
    var people: Store

    ghost predicate Valid()
      reads this
    {
      KeysMatchIds(people)
    }

    /** A new tree is empty. */
    constructor ()
      ensures Valid() && people == map[]
    {
      people := map[];
    }

    /** getPerson: the record stored under id, or none; never an error. */
    function GetPerson(id: int): (r: Option<PersonRec>)
      reads this
      ensures r.Some? <==> id in people
      ensures Valid() && r.Some? ==> r.value.id == id
    {
      if id in people then Some(people[id]) else None
    }

    /** The underlying query of getChildren: the children ids of a stored person. */
    function GetChildren(personId: int): (r: Option<seq<int>>)
      reads this
      ensures r.Some? <==> GetPerson(personId).Some?
      ensures r.Some? ==> r.value == GetPerson(personId).value.children
    {
      if personId in people then Some(people[personId].children) else None
    }

    /** The underlying query of getParents: the (mother, father) references of a stored person. */
    function GetParents(personId: int): (r: Option<(Option<int>, Option<int>)>)
      reads this
      ensures r.Some? <==> GetPerson(personId).Some?
      ensures r.Some? ==> r.value == (GetPerson(personId).value.mother, GetPerson(personId).value.father)
    {
      if personId in people then Some((people[personId].mother, people[personId].father)) else None
    }

    /**
     * addPerson: insert or silently overwrite under the person's id; every other id keeps
     * its record.
     */
    method AddPerson(person: PersonRec)
      requires Valid()
      modifies this
      ensures Valid()
      ensures people == old(people)[person.id := person]
      ensures GetPerson(person.id) == Some(person)
      ensures forall id :: id != person.id ==> GetPerson(id) == old(GetPerson(id))
      ensures |people| == if person.id in old(people) then old(|people|) else old(|people|) + 1
    {
      people := people[person.id := person];
    }

    /**
     * getAllPeople: a fresh sequence holding every stored record exactly once, in the
     * store's iteration order (left unspecified, like a hash map's).
     */
    method GetAllPeople() returns (all: seq<PersonRec>)
      requires Valid()
      ensures Enumerates(all, people)
      ensures |all| == |people|
    {
      all := [];
      var rest := people.Keys;
      while rest != {}
        invariant rest <= people.Keys
        invariant |all| + |rest| == |people|
        invariant forall i :: 0 <= i < |all| ==>
          all[i].id in people && all[i].id !in rest && people[all[i].id] == all[i]
        invariant forall k :: k in people && k !in rest ==> people[k] in all
        invariant forall i, j :: 0 <= i < j < |all| ==> all[i].id != all[j].id
        decreases |rest|
      {
        SomeIdLeft(rest);
        var k :| k in rest;
        all := all + [people[k]];
        rest := rest - {k};
      }
    }

    /**
     * findByName: every stored person whose first name OR last name matches, ignoring
     * case, each once, in the store's iteration order.
     */
    method FindByName(firstName: string, lastName: string) returns (results: seq<PersonRec>)
      requires Valid()
      ensures Enumerates(results, MatchingEitherName(people, firstName, lastName))
      ensures forall i :: 0 <= i < |results| ==> MatchesEitherName(results[i], firstName, lastName)
    {
      results := [];
      var rest := people.Keys;
      while rest != {}
        invariant rest <= people.Keys
        invariant forall i :: 0 <= i < |results| ==>
          && results[i].id in people && results[i].id !in rest && people[results[i].id] == results[i]
          && MatchesEitherName(results[i], firstName, lastName)
        invariant forall k :: k in people && k !in rest && MatchesEitherName(people[k], firstName, lastName) ==>
          people[k] in results
        invariant forall i, j :: 0 <= i < j < |results| ==> results[i].id != results[j].id
        decreases |rest|
      {
        SomeIdLeft(rest);
        var k :| k in rest;
        var person := people[k];
        if MatchesEitherName(person, firstName, lastName) {
          results := results + [person];
        }
        rest := rest - {k};
      }
    }

    /**
     * setParents: look up child, mother and father; if the child is stored, set its
     * mother and father references, then append the child to the mother's record, then
     * to the father's, re-reading each record after the previous write.
     */
    method SetParents(childId: int, motherId: int, fatherId: int)
      requires Valid()
      modifies this
      ensures Valid()
      ensures people == SetParentsSpec(old(people), childId, motherId, fatherId)
      ensures old(GetPerson(childId)).None? ==> people == old(people)
      ensures old(GetPerson(childId)).Some? ==>
        GetParents(childId) == Some((ParentRef(old(people), motherId), ParentRef(old(people), fatherId)))
      ensures forall k :: k in old(people) ==>
        GetChildren(k) == Some(old(people)[k].children
          + (if childId in old(people) && k == motherId then [childId] else [])
          + (if childId in old(people) && k == fatherId then [childId] else []))
    {
      var child := GetPerson(childId);
      var mother := GetPerson(motherId);
      var father := GetPerson(fatherId);
      if child.Some? {
        var motherRef := if mother.Some? then Some(mother.value.id) else None;
        var fatherRef := if father.Some? then Some(father.value.id) else None;
        ghost var before := people;
        assert motherRef == ParentRef(before, motherId) && fatherRef == ParentRef(before, fatherId);
        var c := people[childId];
        people := people[childId := c.(mother := motherRef, father := fatherRef)];
        ghost var linked := people;
        assert linked == LinkChild(before, childId, motherRef, fatherRef);
        if mother.Some? {
          var m := people[motherId];
          people := people[motherId := AddChild(m, childId)];
        }
        assert people == AppendChild(linked, motherId, childId);
        ghost var withMother := people;
        if father.Some? {
          var f := people[fatherId];
          people := people[fatherId := AddChild(f, childId)];
        }
        assert people == AppendChild(withMother, fatherId, childId);
        assert people == SetParentsSpec(before, childId, motherId, fatherId);
      }
      SetParentsAppends(old(people), childId, motherId, fatherId);
    }
  }
}
