# Family tree: a verified model

This project models the core of a small genealogy program. A family tree is a keyed store of
person records. It inserts or overwrites records by id, looks them up and lists them, searches
them by name, and links a child to its mother and father. A service layer on top parses a
search-box query into an id search or a full-name search, and a file manager normalises file
names to the `.ser` extension before saving or loading.

Java's object references between people become ids into the store. Each record's `mother`
and `father` are optional ids, and `children` is a sequence of ids. The store is a
`map<int, PersonRec>` held by the class `FamilyTree.FamilyTree`.

Modules, one per source file plus two of support:

- `Wrappers`: `Option` (Java's `null`) and `Result` (Java's exceptions).
- `Text`: the `String` operations the code relies on. These are `equalsIgnoreCase` (ASCII case
  folding), `matches("\\d+")`, the value `Integer.parseInt` gives a digit string, `split(" ")`
  and `endsWith`.
- `Person`: the person record. `Person.java` is not part of this model, so its fields are the ones
  the tree reads and writes.
- `FamilyTree`: the store class. `SetParentsSpec` is the pure description of `setParents` that
  the method is proved against; `SetParentsLinks` and `SetParentsAppends` state what it does.
- `FamilyTreeService`: first-match searches over the list `getAllPeople` returns, `ParseQuery`
  (how `findByNameOrId` reads its input) and the service class.
- `FileManager`: the `.ser` normalisation shared by save and load. The file system is a map
  parameter; a file holds a serialised tree, a serialised object of another class, or bytes
  that do not deserialise.

Four facts about the code shape the model:
- Ids are not assigned by the tree. `addPerson` stores a record under the id it already has
  (`src/FamilyTree.java:16`).
- Saving reports no success or failure to its caller; it prints (`src/Util/FileManager.java:15-20`).
- `findByNameOrId` can throw. The exceptions become `Failure` results:
  - `NumberFormat` for a digit string above `Integer.MAX_VALUE`;
  - `IndexOutOfBounds` for an input made only of spaces, where `split(" ")` returns an empty array.
- Loading catches only I/O and missing-class errors, which give `null`. A file holding a well-formed object of another class makes the cast throw a `ClassCastException` that escapes (`src/Util/FileManager.java:29-33`); `FileManager.Load` returns a `ClassCast` failure for it.

## Model

| member | source | states |
|---|---|---|
| `Text.EqualsIgnoreCaseIsEquivalence` | src/FamilyTree.java:33-34 | case-insensitive name equality is reflexive, symmetric and transitive |
| `Text.EqualsIgnoreCaseEmpty` | src/Service/FamilyTreeService.java:85 | a name equals `""` ignoring case exactly when it is empty |
| `Text.DecimalString` | src/Service/FamilyTreeService.java:63 | the decimal rendering of a number matches `\d+` and has no leading zero |
| `Text.DecimalRoundTrip` | src/Service/FamilyTreeService.java:64 | the value parsed from the decimal rendering of n is n |
| `Text.Segments` | src/Service/FamilyTreeService.java:67 | splitting at every single space gives at least one piece, and no piece contains a space |
| `Text.JoinSegments` | src/Service/FamilyTreeService.java:67 | joining the pieces with single spaces gives back the input |
| `Text.SegmentsAfterWord` | src/Service/FamilyTreeService.java:67 | a space-free word followed by a space is the first piece, and the rest splits on its own |
| `Text.DropTrailingEmpty` | src/Service/FamilyTreeService.java:67 | the result is a prefix of the pieces, everything removed is empty, and it does not end in an empty piece |
| `Text.SplitWord` | src/Service/FamilyTreeService.java:67 | a string without a space splits into itself alone |
| `Text.SplitFirstTwo` | src/Service/FamilyTreeService.java:67-69 | for input `a b...` that is not all spaces, the first piece is `a`; the second is `b`, or missing only when `b` is empty; either word may be empty |
| `Text.SomeSegmentNonEmpty` | src/Service/FamilyTreeService.java:67 | a string with a character other than a space has a non-empty segment between spaces |
| `Text.SplitBlank` | src/Service/FamilyTreeService.java:67-68 | a non-empty string of spaces splits into no pieces |
| `FamilyTree.LinkChildEffect` | src/FamilyTree.java:48-49 | setting the child's mother and father changes only those two references of the child's record |
| `FamilyTree.AppendChildEffect` | src/FamilyTree.java:50-55 | appending a child to a parent changes only that parent's children, by one entry at the end |
| `FamilyTree.SetParentsLinks` | src/FamilyTree.java:42-49 | same ids; an absent child changes nothing; a stored child's mother and father become the found ids or none, clearing earlier ones; no other record's references change; names, dates and gender never change |
| `FamilyTree.SetParentsAppends` | src/FamilyTree.java:50-55 | with the child stored, each found parent gets the child appended after its earlier children (twice when mother == father); nobody else's children change |
| `FamilyTree.SetParentsTouchesOnlyFamily` | src/FamilyTree.java:42-57 | records other than the child's, the mother's and the father's are unchanged |
| `FamilyTree.SetParentsLinksBothWays` | src/FamilyTree.java:48-55 | with all three ids stored, the child points to both parents and each parent's children contain the child, last for the father |
| `FamilyTree.SetParentsTwice` | src/FamilyTree.java:50-55 | a repeated call appends the child again to each found parent and keeps the child's references, so the store changes again (not idempotent) |
| `FamilyTree.SetParentsPreservesInvariants` | src/FamilyTree.java:42-57 | records stay under their own ids, and no dangling reference is created |
| `FamilyTree.FamilyTree.constructor` | src/FamilyTree.java:10-12 | a new tree is empty |
| `FamilyTree.FamilyTree.GetPerson` | src/FamilyTree.java:20-22 | a record exactly for stored ids, and it carries the id asked for; otherwise none |
| `FamilyTree.FamilyTree.GetChildren` | src/FamilyTree.java:60-68 | the children ids of a stored person, none for an unknown id |
| `FamilyTree.FamilyTree.GetParents` | src/FamilyTree.java:71-86 | the (mother, father) references of a stored person, none for an unknown id |
| `FamilyTree.FamilyTree.AddPerson` | src/FamilyTree.java:15-17 | afterwards `GetPerson(p.id)` is p and every other id is unchanged; the size grows by one only for a new id |
| `FamilyTree.FamilyTree.GetAllPeople` | src/FamilyTree.java:25-27 | every stored record exactly once, each under its own id, as many as the store holds; the store is not changed |
| `FamilyTree.FamilyTree.FindByName` | src/FamilyTree.java:30-39 | exactly the stored people whose first name OR last name matches ignoring case, each once |
| `FamilyTree.FamilyTree.SetParents` | src/FamilyTree.java:42-57 | the new store is `SetParentsSpec` of the old; an absent child leaves it unchanged; a present child's parents are the found ids; every stored person's children are the old list with the child appended once for each parent role they fill (none when the child is absent) |
| `FamilyTreeService.FirstWithId` | src/Service/FamilyTreeService.java:74-81 | none iff no person has the id; otherwise the person at the first index with that id |
| `FamilyTreeService.FirstWithName` | src/Service/FamilyTreeService.java:83-90 | none iff nobody matches both names; otherwise the person at the first index matching both |
| `FamilyTreeService.FindById` | src/Service/FamilyTreeService.java:74-81 | the loop with early return computes `FirstWithId` |
| `FamilyTreeService.FindByName` | src/Service/FamilyTreeService.java:83-90 | the loop with early return computes `FirstWithName` |
| `FamilyTreeService.FirstWithIdInStore` | src/Service/FamilyTreeService.java:74-81 | over any listing of the store, the id search returns the record stored under that id, or none if the id is absent |
| `FamilyTreeService.FirstWithNameInStore` | src/Service/FamilyTreeService.java:83-90 | over any listing of the store, the name search returns a stored record matching both names, and none exactly when no stored record does |
| `FamilyTreeService.FullNameMatchIsAmongEitherMatches` | src/Service/FamilyTreeService.java:85 | the service's AND match, if any, is among the tree's OR matches |
| `FamilyTreeService.EmptyLastNameMatchesOnlyEmpty` | src/Service/FamilyTreeService.java:85 | with last name `""`, only a person with an empty last name can be found |
| `FamilyTreeService.DecimalInputSearchesById` | src/Service/FamilyTreeService.java:63-65 | the decimal form of any id from 0 to `Integer.MAX_VALUE` is read as an id query for that id |
| `FamilyTreeService.OversizedNumberFails` | src/Service/FamilyTreeService.java:63-64 | a digit string above `Integer.MAX_VALUE` fails with a number-format error |
| `FamilyTreeService.SingleWordSearchesWithEmptyLastName` | src/Service/FamilyTreeService.java:66-70 | a single non-numeric word is a name query with that first name and last name `""` |
| `FamilyTreeService.WordsSearchByFirstTwo` | src/Service/FamilyTreeService.java:66-70 | input `a b...` that is not all spaces is a name query for first name `a` and last name `b`, either of which may be empty (`" b"` gives `""` and `b`); later words are ignored |
| `FamilyTreeService.BlankInputFails` | src/Service/FamilyTreeService.java:67-68 | an input made only of spaces fails with an index-out-of-bounds error |
| `FamilyTreeService.FamilyTreeService.constructor` | src/Service/FamilyTreeService.java:16-19 | the service works on the tree it is given |
| `FamilyTreeService.FamilyTreeService.AddPerson` | src/Service/FamilyTreeService.java:21-24 | the tree gains, or has overwritten, a new person with no relationships under the given id |
| `FamilyTreeService.FamilyTreeService.SetParents` | src/Service/FamilyTreeService.java:104-106 | the tree changes exactly as the tree's `setParents` specifies |
| `FamilyTreeService.FamilyTreeService.FindByNameOrId` | src/Service/FamilyTreeService.java:62-72 | a malformed input fails; an id query returns the person stored under the id; a name query returns a stored person matching both names, or none exactly when nobody does |
| `FileManager.WithExtension` | src/Util/FileManager.java:11-13 | the result ends in `.ser` and extends the name by at most `.ser`; it equals the name exactly when the name already ends in `.ser`, and is the name followed by `.ser` otherwise |
| `FileManager.WithExtensionIdempotent` | src/Util/FileManager.java:11-13 | normalising twice equals normalising once |
| `FileManager.SaveThenLoad` | src/Util/FileManager.java:10-30 | loading a name after saving under it returns the saved tree without error, and so does loading the normalised name |
| `FileManager.SaveKeepsOtherFiles` | src/Util/FileManager.java:10-16 | saving changes only the file at the normalised name |
| `FileManager.LoadFailsOnBadFile` | src/Util/FileManager.java:24-34 | a missing or unreadable file is caught and loads as none (Java's `null`) |
| `FileManager.LoadThrowsOnlyOnOtherObject` | src/Util/FileManager.java:29-33 | loading fails with a class-cast error exactly when the normalised file holds a well-formed object of another class, which the catch clause does not handle |

## Left out

- `validateAndParseDate` and `validateAndParseGender` (src/Service/FamilyTreeService.java:26-60) are left out. They are console input loops, so interactive I/O.
- The printing in `getChildren` and `getParents` is presentation. Only the underlying lookups are modelled.
- Java serialisation is modelled as storing the store's value. The byte format is not modelled.
- A failed save (an `IOException`) is not modelled: `Save` always writes. The catch blocks that print error messages are not modelled either.
- The service and `FileManager` hold a generic `Model.FamilyTree<Person>` (src/Service/FamilyTreeService.java:13, src/Util/FileManager.java:3) whose class is not part of this model. That tree is taken to be the class in src/FamilyTree.java, so `FamilyTreeService.FamilyTreeService` holds a `FamilyTree.FamilyTree` and `FileManager` saves and loads its `Store`.
- `loadTree` (src/Service/FamilyTreeService.java:96-102) is left out. Under the assumption above, it clears and refills the list that `getAllPeople` returns, which is a fresh copy, so the store is unchanged.
- `saveTree` and `getFamilyTree` are one-line delegation and an accessor. `FileManager.Save` models what `saveTree` does.
- The commented-out older service (src/Service/FamilyTreeService.java:113-178) is not live code.
- `Person.java` is not part of this model. That covers `toString` and how the constructor assigns ids: `FamilyTreeService.FamilyTreeService.AddPerson` takes the id as a parameter. Dates and gender are carried as opaque values.
- Case folding covers ASCII letters only. `equalsIgnoreCase` on other Unicode letters is not modelled.
- Ids are unbounded integers. Java's 32-bit `int` only matters when parsing a query, and there the `Integer.MAX_VALUE` bound is modelled.
- Aliasing of `Person` objects is not modelled. Relationships are ids, so there are two differences from Java:
  - after `addPerson` overwrites an id, references to that id resolve to the new record, while in Java other people keep pointing at the old object;
  - changes a caller makes through a `Person` it still holds are not seen by the store.
- `FamilyTree.FamilyTree.GetAllPeople`: the contract fixes the contents but not the order, because a hash map's iteration order is unspecified.
- `FamilyTree.FamilyTree.FindByName`: does not state that its results come in the same order as `GetAllPeople` lists them; it states the contents only, as above.
- `FamilyTreeService.FamilyTreeService.FindByNameOrId`: when several stored people match a name query, it does not say which one is returned. That depends on the unspecified listing order; `FamilyTreeService.FirstWithName` states the first-match rule for a given listing.
