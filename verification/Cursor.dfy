/** The abstract iterator: a cursor on a sorted list of entries, with one invalid position past the
    end (include/leveldb/iterator.h, db/version_set.cc). */
module Cursors {
  import opened Keys
  import opened Versions

  datatype Cursor = Cursor(list: seq<Entry>, pos: nat) {
    predicate Valid() {
      pos < |list|
    }

    function Entry(): Entry
      requires Valid()
    {
      list[pos]
    }

    function SeekToFirst(): Cursor {
      this.(pos := 0)
    }

    function SeekToLast(): Cursor {
      this.(pos := if list == [] then 0 else |list| - 1)
    }

    function Seek(target: InternalKey): Cursor {
      this.(pos := LowerBound(list, target))
    }

    function Next(): Cursor
      requires Valid()
    {
      this.(pos := pos + 1)
    }

    // Stepping back from the first entry leaves the cursor invalid.
    function Prev(): Cursor
      requires Valid()
    {
      this.(pos := if pos == 0 then |list| else pos - 1)
    }
  }
}
