/** Reading a text file, as the parsers do it: by `readline` calls or by one `readlines` call. */
module Files {
  /** What `readline` returns when the cursor is at 0-based line `i`: that line, or "" at end of file. */
  function LineAt(lines: seq<string>, i: nat): string {
    if i < |lines| then lines[i] else ""
  }

  /**
   * An open text file: its physical lines and the number of `readline` calls
   * made so far. Past the end of the file every call returns "".
   */
  class LineReader {
    const lines: seq<string>
    var pos: nat

    constructor (lines: seq<string>)
      ensures this.lines == lines && pos == 0
    {
      this.lines := lines;
      pos := 0;
    }

    /** `readline`: the next line, or "" once the end of the file is reached. */
    method ReadLine() returns (line: string)
      modifies this
      ensures line == LineAt(lines, old(pos)) && pos == old(pos) + 1
    {
      line := if pos < |lines| then lines[pos] else "";
      pos := pos + 1;
    }

    /** `readlines`: every line not read yet; afterwards the reader is at the end of the file. */
    method ReadLines() returns (ls: seq<string>)
      modifies this
      ensures ls == if old(pos) < |lines| then lines[old(pos)..] else []
      ensures pos == if old(pos) < |lines| then |lines| else old(pos)
    {
      if pos < |lines| {
        ls := lines[pos..];
        pos := |lines|;
      } else {
        ls := [];
      }
    }
  }
}
