/**
 * Loading the blacklist: the names of repositories that must not be
 * mirrored, one per line of a text file, blank lines and `#` comments
 * ignored.
 */
module Blacklist {
  import opened Wrappers
  import opened Text

  /** What opening the blacklist file yields: its lines, no file, or an error while reading. */
  datatype BlacklistFile = Missing | Unreadable | Lines(lines: seq<string>)

  /** A line names a repository when its stripped text is non-empty and not a `#` comment. */
  predicate Listed(line: string) {
    var name := Strip(line);
    name != "" && !StartsWith(name, "#")
  }

  /** The set of names the lines of the file contribute, in reading order. */
  function NamesOf(lines: seq<string>): (names: set<string>)
    decreases |lines|
  {
    if lines == [] then {}
    else
      var last := lines[|lines| - 1];
      var earlier := NamesOf(lines[..|lines| - 1]);
      if Listed(last) then earlier + {Strip(last)} else earlier
  }

  /** Every name in the set is the stripped text of some listed line. */
  lemma {:induction false} NamesOfSound(lines: seq<string>, x: string)
    requires x in NamesOf(lines)
    ensures exists line :: line in lines && Listed(line) && Strip(line) == x
    decreases |lines|
  {
    var n := |lines| - 1;
    if x in NamesOf(lines[..n]) {
      NamesOfSound(lines[..n], x);
      var line :| line in lines[..n] && Listed(line) && Strip(line) == x;
      assert line in lines;
    } else {
      assert lines[n] in lines;
    }
  }

  /** Every listed line's stripped text is in the set. */
  lemma {:induction false} NamesOfComplete(lines: seq<string>, line: string)
    requires line in lines && Listed(line)
    ensures Strip(line) in NamesOf(lines)
    decreases |lines|
  {
    var n := |lines| - 1;
    if line != lines[n] {
      assert lines == lines[..n] + [lines[n]];
      assert line in lines[..n];
      NamesOfComplete(lines[..n], line);
    }
  }

  /**
   * Every name in the set is a stripped, non-empty string that does not
   * start with `#`.
   */
  lemma NamesAreNames(lines: seq<string>, x: string)
    requires x in NamesOf(lines)
    ensures x != "" && !StartsWith(x, "#") && Strip(x) == x
  {
    NamesOfSound(lines, x);
    var i :| 0 <= i < |lines| && Listed(lines[i]) && Strip(lines[i]) == x;
    StripIdempotent(lines[i]);
  }

  /** Comment lines, blank lines and white space alone contribute nothing. */
  lemma {:induction false} IgnoredLinesAddNothing(lines: seq<string>, ignored: seq<string>)
    requires forall line :: line in ignored ==> !Listed(line)
    ensures NamesOf(lines + ignored) == NamesOf(lines)
    decreases |ignored|
  {
    var all := lines + ignored;
    if ignored == [] {
      assert all == lines;
    } else {
      var n := |ignored| - 1;
      var k := |all| - 1;
      assert all[..k] == lines + ignored[..n];
      assert all[k] == ignored[n] && ignored[n] in ignored;
      assert NamesOf(all) == NamesOf(all[..k]);
      assert forall line :: line in ignored[..n] ==> line in ignored;
      IgnoredLinesAddNothing(lines, ignored[..n]);
    }
  }

  /**
   * `_load_blacklist`: reads the file line by line and adds every listed
   * name.  A missing file gives the empty blacklist; any other reading
   * error propagates to the caller, shown as `None`.
   */
  method LoadBlacklist(file: BlacklistFile) returns (blacklist: Option<set<string>>)
    ensures file.Missing? ==> blacklist == Some({})
    ensures file.Unreadable? ==> blacklist == None
    ensures file.Lines? ==> blacklist == Some(NamesOf(file.lines))
  {
    match file {
      case Missing =>
        blacklist := Some({});
      case Unreadable =>
        blacklist := None;
      case Lines(lines) =>
        var names: set<string> := {};
        var i := 0;
        while i < |lines|
          invariant 0 <= i <= |lines|
          invariant names == NamesOf(lines[..i])
        {
          var line := lines[i];
          if Listed(line) {
            names := names + {Strip(line)};
          }
          assert lines[..i + 1][..i] == lines[..i];
          i := i + 1;
        }
        assert lines[..i] == lines;
        blacklist := Some(names);
    }
  }

  /** A file holding only `secret-repo` yields exactly that name, newline stripped. */
  lemma SecretRepoListed()
    ensures NamesOf(["secret-repo\n"]) == {"secret-repo"}
  {
    var line := "secret-repo\n";
    var name := "secret-repo";
    assert line[..|line| - 1] == name && IsSpace(line[|line| - 1]);
    assert !IsSpace(name[|name| - 1]) && !IsSpace(name[0]);
    assert StripRight(line) == name;
    assert StripLeft(name) == name;
    assert Strip(line) == name;
    assert Listed(line);
    var lines: seq<string> := [line];
    assert lines[..0] == [];
  }
}
