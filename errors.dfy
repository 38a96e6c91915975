/** The error model: located parse errors, validation errors, and the outcome of a parse. */
module Errors {
  import opened Options
  import Numbers

  /** `ParseError`: a message with an optional file path and an optional 1-based line number. */
  datatype ParseError = ParseError(message: string, filePath: Option<string>, lineNum: Option<int>)

  /** `ValidationError`: raised when a demand names a node the topology lacks; it names both files. */
  datatype ValidationError = ValidationError(message: string, topologyFile: string, demandsFile: string)

  /** Python exceptions the parsers and the demand check raise without wrapping them in an error of the package. */
  datatype CrashKind =
    | IndexError  // `fields[0]` on a header line without any field
    | ValueError  // `int()` or `float()` on a field that is not a number; `Template.substitute` on a stray `$`
    | KeyError    // `Template.substitute` on a `$name` placeholder it has no value for

  /** What a parse ends with: a value, a located `ParseError`, or an unwrapped Python exception. */
  datatype Outcome<+T> = Ok(value: T) | Fail(error: ParseError) | Crash(kind: CrashKind) {

    predicate IsFailure() {
      !Ok?
    }

    function PropagateFailure<U>(): Outcome<U>
      requires !Ok?
    {
      if Fail? then Fail(error) else Crash(kind)
    }

    function Extract(): T
      requires Ok?
    {
      value
    }
  }

  /** The error every parser raises: a message located at `lineNum` of `filePath`. */
  function ErrorAt(message: string, filePath: string, lineNum: int): ParseError {
    ParseError(message, Some(filePath), Some(lineNum))
  }

  /** `ParseError.__str__`: the location fields that are present, a ": " separator if any is, then the message. */
  method Render(e: ParseError) returns (s: string)
    ensures e.filePath.None? && e.lineNum.None? ==> s == e.message
    ensures e.filePath.Some? && e.lineNum.None? ==> s == e.filePath.value + ": " + e.message
    ensures e.filePath.Some? && e.lineNum.Some? ==>
              s == e.filePath.value + ":" + Numbers.FormatInt(e.lineNum.value) + ": " + e.message
    ensures e.filePath.None? && e.lineNum.Some? ==> s == ":" + Numbers.FormatInt(e.lineNum.value) + ": " + e.message
    ensures |s| >= |e.message| && s[|s| - |e.message|..] == e.message
    ensures (e.filePath.Some? || e.lineNum.Some?) <==>
              |s| >= |e.message| + 2 && s[|s| - |e.message| - 2..|s| - |e.message|] == ": "
  {
    s := "";
    var hasPath := e.filePath.Some?;
    var hasLine := e.lineNum.Some?;
    if hasPath {
      s := s + e.filePath.value;
      assert s == e.filePath.value;
    }
    if hasLine {
      s := s + ":" + Numbers.FormatInt(e.lineNum.value);
    }
    ghost var location := s;
    if hasPath || hasLine {
      s := s + ": ";
    }
    s := s + e.message;
    if hasPath || hasLine {
      assert s == location + ": " + e.message;
      LocatedMessage(location, e.message);
      if hasPath && hasLine {
        assert location == e.filePath.value + ":" + Numbers.FormatInt(e.lineNum.value);
      } else if hasPath {
        assert location == e.filePath.value;
      } else {
        assert location == ":" + Numbers.FormatInt(e.lineNum.value);
      }
    } else {
      assert s == e.message;
    }
  }

  /** A location, the ": " separator, then the message: the message ends the text and the separator precedes it. */
  lemma LocatedMessage(location: string, message: string)
    ensures var s := location + ": " + message;
            && s[|s| - |message|..] == message
            && s[|s| - |message| - 2..|s| - |message|] == ": "
  {
    var s := location + ": " + message;
    assert s[|s| - |message|..] == message;
    assert s[|s| - |message| - 2..|s| - |message|] == ": ";
  }
}
