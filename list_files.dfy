/**
 * A JSON file holding one list of strings, as the store and unit lists keep
 * it: absent, present but unreadable (or not an array), or holding an array.
 */
module ListFiles {

  datatype ListFile = Missing | Corrupt | Written(entries: seq<string>)

  /** What a read returns: the stored array, or the defaults when the file is missing or unreadable. */
  function Listed(file: ListFile, defaults: seq<string>): (r: seq<string>)
  {
    match file
    case Written(entries) => entries
    case _ => defaults
  }

  /** The file after a read: a missing file is created holding the saved defaults; otherwise unchanged. */
  function Seeded(file: ListFile, savedDefaults: seq<string>): (r: ListFile)
  {
    if file.Missing? then Written(savedDefaults) else file
  }

  /** Only the first read writes: afterwards the file is never missing, so a further read leaves it alone. */
  lemma OnlyFirstReadWrites(file: ListFile, savedDefaults: seq<string>)
    ensures !Seeded(file, savedDefaults).Missing?
    ensures Seeded(Seeded(file, savedDefaults), savedDefaults) == Seeded(file, savedDefaults)
  {
  }

  /**
   * A read that follows a read returns what the first one saved, when the file
   * was missing, and what the first one returned otherwise.
   */
  lemma RereadReturnsSaved(file: ListFile, defaults: seq<string>, savedDefaults: seq<string>)
    ensures Listed(Seeded(file, savedDefaults), defaults)
      == if file.Missing? then savedDefaults else Listed(file, defaults)
  {
  }
}
