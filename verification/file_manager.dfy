/**
 * Saving and loading a family tree. Both operations first normalise the file name to end
 * in ".ser". The file system is a parameter: a map from file names to contents, where a
 * file holds a serialised tree, a serialised object of some other class, or bytes that do
 * not deserialise at all.
 */
module FileManager {
  import opened Wrappers
  import opened Text
  import FamilyTree

  const Extension: string := ".ser"

  /** Append ".ser" unless the name already ends with it. */
  function WithExtension(fileName: string): (r: string)
    ensures EndsWith(r, Extension)
    ensures |fileName| <= |r| <= |fileName| + |Extension| && r[..|fileName|] == fileName
    ensures r == fileName <==> EndsWith(fileName, Extension)
    ensures !EndsWith(fileName, Extension) ==> r == fileName + Extension
  {
    if EndsWith(fileName, Extension) then fileName else fileName + Extension
  }

  /** Normalising twice is normalising once. */
  lemma WithExtensionIdempotent(fileName: string)
    ensures WithExtension(WithExtension(fileName)) == WithExtension(fileName)
  {
  }

  /** What a file holds. */
  datatype FileContent =
    | Serialized(tree: FamilyTree.Store)
    | OtherObject     // a well-formed serialised object that is not a family tree
    | Unreadable      // bytes that readObject rejects (an IOException or ClassNotFoundException)

  type Disk = map<string, FileContent>

  /** The exception loadFamilyTree lets escape: the cast of what was read to the tree type. */
  datatype LoadError = ClassCast

  /** saveFamilyTree: write the whole store to the normalised file name. */
  function Save(disk: Disk, tree: FamilyTree.Store, saveFilename: string): Disk
  {
    disk[WithExtension(saveFilename) := Serialized(tree)]
  }

  /**
   * loadFamilyTree: read the object at the normalised file name. A missing or unreadable
   * file is caught and gives none (Java's null); an object of another class fails the cast.
   */
  function Load(disk: Disk, saveFilename: string): Result<Option<FamilyTree.Store>, LoadError>
  {
    var name := WithExtension(saveFilename);
    if name !in disk then Success(None)
    else match disk[name]
      case Serialized(tree) => Success(Some(tree))
      case OtherObject => Failure(ClassCast)
      case Unreadable => Success(None)
  }

  /**
   * Save and load normalise the same way, so loading a name gives back the tree saved
   * under it, and so does loading the name with ".ser" written out.
   */
  lemma SaveThenLoad(disk: Disk, tree: FamilyTree.Store, fileName: string)
    ensures Load(Save(disk, tree, fileName), fileName) == Success(Some(tree))
    ensures Load(Save(disk, tree, fileName), WithExtension(fileName)) == Success(Some(tree))
  {
    WithExtensionIdempotent(fileName);
  }

  /** Saving touches only the one normalised file name. */
  lemma SaveKeepsOtherFiles(disk: Disk, tree: FamilyTree.Store, fileName: string, other: string)
    requires WithExtension(other) != WithExtension(fileName)
    ensures Load(Save(disk, tree, fileName), other) == Load(disk, other)
  {
  }

  /** Loading a missing or unreadable file gives none. */
  lemma LoadFailsOnBadFile(disk: Disk, fileName: string)
    requires WithExtension(fileName) !in disk || disk[WithExtension(fileName)] == Unreadable
    ensures Load(disk, fileName) == Success(None)
  {
  }

  /** Loading throws exactly when the normalised file holds an object of another class. */
  lemma LoadThrowsOnlyOnOtherObject(disk: Disk, fileName: string)
    ensures Load(disk, fileName) == Failure(ClassCast)
        <==> WithExtension(fileName) in disk && disk[WithExtension(fileName)] == OtherObject
  {
  }
}
