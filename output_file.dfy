/**
 * The content `save_subdomains_to_file` writes: every subdomain name
 * followed by a line feed, in order. The file itself is modelled by the
 * text written to it.
 */
module OutputFile {

  /** The text of a file holding `names`, one per line. */
  function Serialised(names: seq<string>): string {
    if names == [] then [] else names[0] + "\n" + Serialised(names[1..])
  }

  /** Writing one more name appends it and its line feed. */
  lemma {:induction false} SerialisedSnoc(names: seq<string>, name: string)
    ensures Serialised(names + [name]) == Serialised(names) + name + "\n"
  {
    if names == [] {
      assert [name][1..] == [];
    } else {
      assert (names + [name])[0] == names[0];
      assert (names + [name])[1..] == names[1..] + [name];
      SerialisedSnoc(names[1..], name);
    }
  }

  /**
   * `with open(filename, "w") as file: for subdomain in subdomains: file.write(f"{subdomain}\n")`.
   * Opening for writing truncates, so the content is exactly what the loop writes.
   */
  method WriteSubdomains(subdomains: seq<string>) returns (content: string)
    ensures content == Serialised(subdomains)
  {
    content := [];
    for i := 0 to |subdomains|
      invariant content == Serialised(subdomains[..i])
    {
      assert subdomains[..i + 1] == subdomains[..i] + [subdomains[i]];
      SerialisedSnoc(subdomains[..i], subdomains[i]);
      content := content + subdomains[i] + "\n";
    }
    assert subdomains[..|subdomains|] == subdomains;
  }

  /** The sum of the lengths of `names`. */
  function TotalLength(names: seq<string>): nat {
    if names == [] then 0 else |names[0]| + TotalLength(names[1..])
  }

  /** The content has one character per name character plus one line feed per name; no names give an empty file. */
  lemma {:induction false} SerialisedLength(names: seq<string>)
    ensures |Serialised(names)| == TotalLength(names) + |names|
    ensures names == [] <==> Serialised(names) == []
  {
    if names != [] {
      SerialisedLength(names[1..]);
    }
  }

  /** The index of the first line feed of `s`, or `|s|` when there is none. */
  function LineEnd(s: string): (i: nat)
    ensures i <= |s|
    ensures i < |s| ==> s[i] == '\n'
    ensures forall k :: 0 <= k < i ==> s[k] != '\n'
  {
    if s == [] || s[0] == '\n' then 0 else 1 + LineEnd(s[1..])
  }

  /** Reading a text back as lines, each without its line feed; a last line without one counts too. */
  function ReadLines(s: string): seq<string>
    decreases |s|
  {
    if s == [] then []
    else
      var i := LineEnd(s);
      if i == |s| then [s] else [s[..i]] + ReadLines(s[i + 1..])
  }

  /**
   * Reading the file back gives the names, in order, provided no name holds
   * a line feed itself: k names make exactly k lines.
   */
  lemma {:induction false} ReadLinesSerialised(names: seq<string>)
    requires forall k :: 0 <= k < |names| ==> '\n' !in names[k]
    ensures ReadLines(Serialised(names)) == names
  {
    if names != [] {
      ReadLinesCons(names[0], Serialised(names[1..]));
      assert forall k :: 0 <= k < |names[1..]| ==> names[1..][k] == names[k + 1];
      ReadLinesSerialised(names[1..]);
    }
  }

  /** A line without a line feed, then one, then the rest: the line is read first. */
  lemma ReadLinesCons(line: string, rest: string)
    requires '\n' !in line
    ensures ReadLines(line + "\n" + rest) == [line] + ReadLines(rest)
  {
    var s := line + "\n" + rest;
    assert s[|line|] == '\n';
    assert forall c :: 0 <= c < |line| ==> s[c] == line[c];
    LineEndAt(s, |line|);
    assert s[..|line|] == line;
    assert s[|line| + 1..] == rest;
  }

  /** The first line feed is at `i` when `s[i]` is one and none comes before. */
  lemma {:induction false} LineEndAt(s: string, i: nat)
    requires i < |s| && s[i] == '\n'
    requires forall k :: 0 <= k < i ==> s[k] != '\n'
    ensures LineEnd(s) == i
  {
    if i > 0 {
      assert s[0] != '\n';
      forall k | 0 <= k < i - 1 ensures s[1..][k] != '\n' { assert s[1..][k] == s[k + 1]; }
      LineEndAt(s[1..], i - 1);
    }
  }

  /** Two names are written as two lines, in order; no names give an empty file. */
  lemma SerialisedExample()
    ensures Serialised(["a.example.com", "b.example.com"]) == "a.example.com\nb.example.com\n"
    ensures Serialised([]) == ""
  {
    assert ["a.example.com", "b.example.com"][1..] == ["b.example.com"];
    assert ["b.example.com"][1..] == [];
  }
}
