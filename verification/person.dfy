/**
 * One genealogical record. Person.java is not part of this model; the fields are the ones
 * the family tree reads and writes through its accessors. Relationship references are
 * ids into the tree's store (an arena) instead of object references.
 */
module Person {
  import opened Wrappers

  /** The gender categories; the store only carries the value. */
  datatype Gender = Male | Female

  /** A calendar date, carried as an opaque value; nothing in the store inspects it. */
  datatype Date = Date(year: int, month: int, day: int)

  datatype PersonRec = PersonRec(
    id: int,
    firstName: string,
    lastName: string,
    birthDate: Option<Date>,
    deathDate: Option<Date>,
    gender: Option<Gender>,
    mother: Option<int>,
    father: Option<int>,
    children: seq<int>)

  /** A newly constructed person: no parents and no children on record. */
  function NewPerson(id: int, firstName: string, lastName: string,
                     birthDate: Option<Date>, deathDate: Option<Date>, gender: Option<Gender>): PersonRec
  {
    PersonRec(id, firstName, lastName, birthDate, deathDate, gender, None, None, [])
  }

  /** Person.addChild: append a child reference, with no duplicate check. */
  function AddChild(p: PersonRec, childId: int): PersonRec
  {
    p.(children := p.children + [childId])
  }

  /** Everything except the relationship references is equal. */
  predicate SameAttributes(p: PersonRec, q: PersonRec)
  {
    && p.id == q.id
    && p.firstName == q.firstName
    && p.lastName == q.lastName
    && p.birthDate == q.birthDate
    && p.deathDate == q.deathDate
    && p.gender == q.gender
  }
}
