/**
 * The writer: the output file `<location>.csv` is opened for writing (created,
 * or truncated when it exists) and every entry is written followed by a
 * newline, in order. The directory is a map from file names to contents; the
 * names whose opening fails are a fixed set.
 */
module Writer {
  import opened Strings
  import opened Location
  import Fetch

  /** The line separator, fixed to `\n`. */
  const NewLine: string := "\n"

  /** The file content for `entries`: each entry followed by a newline, in order. */
  function Render(entries: seq<string>): (content: string)
    ensures content == [] <==> entries == []
    ensures entries != [] ==> content[|content| - 1] == '\n'
  {
    if entries == [] then [] else entries[0] + NewLine + Render(entries[1..])
  }

  /** Rendering a concatenation renders each part, one after the other. */
  lemma {:induction false} RenderAppend(a: seq<string>, b: seq<string>)
    ensures Render(a + b) == Render(a) + Render(b)
  {
    if a == [] {
      assert a + b == b;
    } else {
      assert (a + b)[0] == a[0];
      assert (a + b)[1..] == a[1..] + b;
      RenderAppend(a[1..], b);
    }
  }

  /**
   * Reading the written file line by line gives back the entries, as long as
   * no entry holds a line terminator of its own.
   */
  lemma {:induction false} RenderReadsBack(entries: seq<string>)
    requires forall k :: 0 <= k < |entries| ==> Fetch.NoTerminator(entries[k])
    ensures Fetch.Lines(Render(entries)) == entries
  {
    if entries != [] {
      var rest := Render(entries[1..]);
      var text := Render(entries);
      assert text == entries[0] + (NewLine + rest);
      FirstWhereAt(Fetch.IsTerminator, entries[0], NewLine + rest);
      assert text[..|entries[0]|] == entries[0];
      assert text[|entries[0]| + 1..] == rest;
      RenderReadsBack(entries[1..]);
    }
  }

  /** The working directory: file contents by name, and the names that cannot be opened for writing. */
  class Directory {
    var files: map<string, string>
    const denied: set<string>

    constructor (files: map<string, string>, denied: set<string>)
      ensures this.files == files && this.denied == denied
    {
      this.files := files;
      this.denied := denied;
    }

    /**
     * Writes the entries to `location + ".csv"`, replacing any previous
     * content; when the file cannot be opened nothing changes.
     */
    method WriteToFile(entries: seq<string>, location: string) returns (ok: bool)
      modifies this
      ensures ok <==> FileName(location) !in denied
      ensures files == if ok then old(files)[FileName(location) := Render(entries)] else old(files)
    {
      var name := location + FileExt;
      if name in denied {
        return false;
      }
      files := files[name := ""];
      for i := 0 to |entries|
        invariant files == old(files)[name := Render(entries[..i])]
      {
        var entry := entries[i];
        files := files[name := files[name] + entry];
        files := files[name := files[name] + NewLine];
        assert entries[..i + 1] == entries[..i] + [entry];
        RenderAppend(entries[..i], [entry]);
        assert Render([entry]) == entry + NewLine + Render([]);
        assert Render(entries[..i + 1]) == Render(entries[..i]) + entry + NewLine;
      }
      assert entries[..|entries|] == entries;
      return true;
    }
  }

  /**
   * Writing the same entries a second time leaves the same content as the
   * first write, whatever the file held before: the file is replaced, never
   * appended to.
   */
  method WriteTwice(entries: seq<string>, location: string, previous: string) returns (first: string, second: string)
    ensures first == second == Render(entries)
  {
    var name := FileName(location);
    var dir := new Directory(map[name := previous], {});
    var ok := dir.WriteToFile(entries, location);
    first := dir.files[name];
    ok := dir.WriteToFile(entries, location);
    second := dir.files[name];
  }
}
