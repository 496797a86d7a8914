/**
  One search as the picker runs it: build ripgrep's arguments from the
  filter, run ripgrep in the search root, split its output on newlines and
  parse the lines. Running ripgrep is a parameter of the model.
 */
module Search {
  import opened Wrappers
  import opened Strings
  import opened RipgrepArgs
  import opened OutputParser

  const Newline: char := '\n'

  /** The items shown for a filter, given what ripgrep printed for the
      arguments and the directory it was started in. */
  method PopulateSearchItems(filter: string, cwd: string, rg: (seq<string>, string) -> string)
    returns (args: seq<string>, items: seq<Item>)
    ensures args == Args(Normalize(filter))
    ensures items == ParseAll(Split(rg(args, cwd), Newline), cwd)
  {
    args := BuildArgs(filter);
    var output := rg(args, cwd);
    var lines := Split(output, Newline);
    items := Parse(lines, cwd);
  }

  /** The newline that ends ripgrep's last line yields an empty line, which
      is dropped: output with or without it gives the same items. */
  lemma {:induction false} TrailingNewlineIgnored(output: string, cwd: string)
    ensures ParseAll(Split(output + [Newline], Newline), cwd) == ParseAll(Split(output, Newline), cwd)
  {
    SplitTrailingSep(output, Newline);
    ParseAllAppend(Split(output, Newline), [""], cwd);
    assert ParseLine("", cwd) == None;
    assert ParseAll([""], cwd) == [];
  }
}
