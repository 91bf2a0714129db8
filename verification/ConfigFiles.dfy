/** A text file as the bootstrapper reads and writes it. */
module ConfigFiles {
  import opened Wrappers

  datatype Failure =
    | UnreadableFile
    | MissingVariable(name: string)
    | NotANumber(text: string)
    | ConflictingAgent(jar: string)

  /** What an action leaves behind: the file, and the exception it threw, if any. */
  datatype Outcome = Outcome(file: ConfigFile, failure: Option<Failure>)

  /**
   * The lines of a file and whether the last one ends in a line separator. Appending to a
   * file whose last line is unterminated continues that line.
   */
  datatype ConfigFile = Absent | Present(lines: seq<string>, terminated: bool) {

    /** An unterminated last line has at least one character. */
    ghost predicate WellFormed() {
      Present? && !terminated ==> lines != [] && lines[|lines| - 1] != ""
    }

    /** `writeLines`: nothing happens when there are no lines to write. */
    function Written(newLines: seq<string>): ConfigFile {
      if newLines == [] then this else Present(newLines, true)
    }

    /** `appendLines`. */
    function Appended(newLines: seq<string>): ConfigFile
      requires Present?
    {
      if newLines == [] then this
      else if terminated || lines == [] then Present(lines + newLines, true)
      else
        var last := |lines| - 1;
        Present(lines[..last] + [lines[last] + newLines[0]] + newLines[1..], true)
    }
  }

  lemma AppendedTwice(file: ConfigFile, a: seq<string>, b: seq<string>)
    requires file.Present?
    ensures file.Appended(a).Appended(b) == file.Appended(a + b)
  {
    if a == [] {
      assert a + b == b;
    } else if file.terminated || file.lines == [] {
      assert file.lines + a + b == file.lines + (a + b);
    } else {
      var last := |file.lines| - 1;
      var glued := file.lines[..last] + [file.lines[last] + a[0]];
      assert (a + b)[0] == a[0] && (a + b)[1..] == a[1..] + b;
      assert glued + a[1..] + b == glued + (a[1..] + b);
      assert b == [] ==> a + b == a;
    }
  }
}
