/**
 * The in-memory text buffer (`io.StringIO`) the bursar CSV is written into and
 * read back from, seen one CSV record at a time.
 */
module CsvBuffers {
  import opened Wrappers

  /** `lines` holds the records written so far, each as its list of fields;
      `position` is the record the next read starts at. */
  class CsvBuffer {
    var lines: seq<seq<string>>
    var position: nat

    ghost predicate Valid()
      reads this
    {
      position <= |lines|
    }

    /** `StringIO()`: empty, positioned at the start. */
    constructor ()
      ensures Valid() && lines == [] && position == 0
    {
      lines := [];
      position := 0;
    }

    /** A CSV writer's `writerow`: the buffer is positioned at its end, so the record is appended. */
    method WriteRow(fields: seq<string>)
      requires Valid() && position == |lines|
      modifies this
      ensures Valid() && lines == old(lines) + [fields] && position == |lines|
    {
      lines := lines + [fields];
      position := |lines|;
    }

    /** `seek(0)`. */
    method Rewind()
      requires Valid()
      modifies this
      ensures Valid() && lines == old(lines) && position == 0
    {
      position := 0;
    }

    /** A CSV reader's next record, or nothing at the end of the buffer. */
    method ReadLine() returns (line: Option<seq<string>>)
      requires Valid()
      modifies this
      ensures Valid() && lines == old(lines)
      ensures old(position) < |lines| ==> line == Some(lines[old(position)]) && position == old(position) + 1
      ensures old(position) == |lines| ==> line == None && position == old(position)
    {
      if position < |lines| {
        line := Some(lines[position]);
        position := position + 1;
      } else {
        line := None;
      }
    }
  }
}
