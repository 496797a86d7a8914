/**
  Turning ripgrep's `path:line:text` output lines into picker items. Each
  line is split on `:`; the first piece is the file path, the second the
  line number, and the remaining pieces are joined back with `:` into the
  matched text. A line whose text comes out empty is skipped.
 */
module OutputParser {
  import opened Wrappers
  import opened Strings
  import opened Numbers

  const Sep: char := ':'

  /** A picker entry. `labelText`, `description` and `detail` are what the picker
      shows; the other fields locate the match for navigation. */
  datatype Item = Item(
    rootpath: string,
    labelText: string,  // the picker's `label` (a keyword in Dafny)
    description: string,
    detail: string,
    text: string,
    filepath: string,
    linenumber: Number)

  /** The record the extension builds for a kept line. Its description,
      a colon and its text spell the output line again, and its number is
      `+` of what follows the path in the description. */
  function MakeItem(filepath: string, linenumber: string, text: string, cwd: string): (it: Item)
    ensures it.text == text && it.filepath == filepath
    ensures it.description + [Sep] + it.text == filepath + [Sep] + linenumber + [Sep] + text
    ensures |it.description| > |filepath| && it.description[..|filepath|] == it.filepath
    ensures it.linenumber == ToNumber(it.description[|filepath| + 1..])
    ensures it.labelText == "" && it.rootpath == cwd && it.detail == it.text
  {
    Item(cwd, "", filepath + [Sep] + linenumber, text, text, filepath, ToNumber(linenumber))
  }

  /** One output line: split on `:`, rejoin everything after the second piece,
      and skip the line when that text is empty. With fewer than two pieces
      the line number is undefined in the extension; such a line always has
      empty text and is skipped before the line number is looked at. */
  function ParseLine(line: string, cwd: string): (r: Option<Item>)
    ensures line == "" ==> r.None?
    ensures r.Some? ==>
      && r.value.text != "" && r.value.detail == r.value.text
      && r.value.labelText == "" && r.value.rootpath == cwd
      && Sep !in r.value.filepath
  {
    var parts := Split(line, Sep);
    var filepath := parts[0];
    var xs := if |parts| >= 2 then parts[2..] else [];
    var text := Join(xs, Sep);
    if text == "" then None
    else Some(MakeItem(filepath, parts[1], text, cwd))
  }

  /** The three fields of an output line, located by searching for the
      first two colons instead of splitting. */
  datatype RawFields = RawFields(filepath: string, linenumber: string, text: string)

  /** The reference reading of a line: everything before the first colon,
      between the first and the second, and after the second; None when
      the line has fewer than two colons. */
  function SplitFields(line: string): (r: Option<RawFields>)
    ensures r.Some? ==>
      && Sep !in r.value.filepath && Sep !in r.value.linenumber
      && line == r.value.filepath + [Sep] + r.value.linenumber + [Sep] + r.value.text
    ensures r.None? <==>
      forall i, j :: 0 <= i < j < |line| && line[i] == Sep ==> line[j] != Sep
  {
    var i := IndexOf(line, Sep);
    if i == |line| then None
    else
      var rest := line[i + 1..];
      var j := IndexOf(rest, Sep);
      if j == |rest| then
        assert forall k :: i < k < |line| ==> line[k] == rest[k - i - 1];
        None
      else
        assert line == line[..i] + [Sep] + rest[..j] + [Sep] + rest[j + 1..];
        Some(RawFields(line[..i], rest[..j], rest[j + 1..]))
  }

  /** Writing the fields out with colons and reading them back gives the same fields. */
  lemma {:induction false} SplitFieldsRoundTrip(f: RawFields)
    requires Sep !in f.filepath && Sep !in f.linenumber
    ensures SplitFields(f.filepath + [Sep] + f.linenumber + [Sep] + f.text) == Some(f)
  {
    var line := f.filepath + [Sep] + f.linenumber + [Sep] + f.text;
    IndexOfFirst(f.filepath, f.linenumber + [Sep] + f.text, Sep);
    assert line == f.filepath + [Sep] + (f.linenumber + [Sep] + f.text);
    var rest := line[|f.filepath| + 1..];
    assert rest == f.linenumber + [Sep] + f.text;
    IndexOfFirst(f.linenumber, f.text, Sep);
    assert line[..|f.filepath|] == f.filepath;
    assert rest[..|f.linenumber|] == f.linenumber;
    assert rest[|f.linenumber| + 1..] == f.text;
  }

  /** A line with two colons: the split gives path and line number, and the
      rejoined rest is the text after the second colon, verbatim. */
  lemma {:induction false} ParseFields(f: RawFields, cwd: string)
    requires Sep !in f.filepath && Sep !in f.linenumber
    ensures ParseLine(f.filepath + [Sep] + f.linenumber + [Sep] + f.text, cwd) ==
      if f.text == "" then None else Some(MakeItem(f.filepath, f.linenumber, f.text, cwd))
  {
    var line := f.filepath + [Sep] + f.linenumber + [Sep] + f.text;
    SplitAtFirst(f.linenumber, f.text, Sep);
    assert line == f.filepath + [Sep] + (f.linenumber + [Sep] + f.text);
    SplitAtFirst(f.filepath, f.linenumber + [Sep] + f.text, Sep);
    var parts := Split(line, Sep);
    assert parts == [f.filepath, f.linenumber] + Split(f.text, Sep);
    assert parts[2..] == Split(f.text, Sep);
    JoinSplit(f.text, Sep);
  }

  /** A line with at most one colon splits into at most two pieces and is dropped. */
  lemma {:induction false} ParseFewColons(line: string, cwd: string)
    requires forall i, j :: 0 <= i < j < |line| && line[i] == Sep ==> line[j] != Sep
    ensures ParseLine(line, cwd) == None
  {
    var i := IndexOf(line, Sep);
    if i == |line| {
      assert line[..i] == line;
      SplitWithoutSep(line, Sep);
    } else {
      var rest := line[i + 1..];
      assert Sep !in rest by {
        forall k | 0 <= k < |rest| ensures rest[k] != Sep {
          assert rest[k] == line[i + 1 + k];
        }
      }
      assert line == line[..i] + [Sep] + rest;
      SplitAtFirst(line[..i], rest, Sep);
      SplitWithoutSep(rest, Sep);
      assert Split(line, Sep)[2..] == [];
    }
  }

  /** The keep/drop rule: a line yields a record exactly when it has two
      colons and the text after the second one is non-empty, and the record
      then carries the fields found there. Further colons stay in the text. */
  lemma {:induction false} ParseLineSpec(line: string, cwd: string)
    ensures ParseLine(line, cwd) ==
      match SplitFields(line)
      case None => None
      case Some(f) => if f.text == "" then None else Some(MakeItem(f.filepath, f.linenumber, f.text, cwd))
  {
    match SplitFields(line)
    case Some(f) => ParseFields(f, cwd);
    case None => ParseFewColons(line, cwd);
  }

  /** What a kept record holds: an empty label, the search root, the text
      verbatim and as detail, a colon-free path, and a description that is
      `path:linenumber`; description, colon and text rebuild the line. */
  lemma {:induction false} KeptItem(line: string, cwd: string)
    requires ParseLine(line, cwd).Some?
    ensures var it := ParseLine(line, cwd).value;
      && it.labelText == "" && it.rootpath == cwd
      && it.text != "" && it.detail == it.text
      && Sep !in it.filepath
      && |it.description| > |it.filepath|
      && it.description[..|it.filepath| + 1] == it.filepath + [Sep]
      && Sep !in it.description[|it.filepath| + 1..]
      && it.linenumber == ToNumber(it.description[|it.filepath| + 1..])
      && line == it.description + [Sep] + it.text
  {
    ParseLineSpec(line, cwd);
    var f := SplitFields(line).value;
    var it := ParseLine(line, cwd).value;
    assert it.description[|it.filepath| + 1..] == f.linenumber;
  }

  /** The record list for a sequence of lines: kept lines in their order. */
  function ParseAll(lines: seq<string>, cwd: string): (items: seq<Item>)
    ensures |items| <= |lines|
  {
    if |lines| == 0 then []
    else
      ParseAll(lines[..|lines| - 1], cwd)
      + match ParseLine(lines[|lines| - 1], cwd) case None => [] case Some(it) => [it]
  }

  /** Order preservation: the records of a concatenation are the records of
      the first part followed by those of the second. */
  lemma {:induction false} ParseAllAppend(a: seq<string>, b: seq<string>, cwd: string)
    ensures ParseAll(a + b, cwd) == ParseAll(a, cwd) + ParseAll(b, cwd)
    decreases |b|
  {
    if |b| > 0 {
      var b' := b[..|b| - 1];
      assert (a + b)[..|a + b| - 1] == a + b';
      assert (a + b)[|a + b| - 1] == b[|b| - 1];
      ParseAllAppend(a, b', cwd);
    } else {
      assert a + b == a;
    }
  }

  /** A record is in the result exactly when some input line parses to it. */
  lemma {:induction false} ParseAllMembers(lines: seq<string>, cwd: string, it: Item)
    ensures it in ParseAll(lines, cwd) <==>
      exists k :: 0 <= k < |lines| && ParseLine(lines[k], cwd) == Some(it)
    decreases |lines|
  {
    if |lines| > 0 {
      var init := lines[..|lines| - 1];
      ParseAllMembers(init, cwd, it);
      if it in ParseAll(init, cwd) {
        var k :| 0 <= k < |init| && ParseLine(init[k], cwd) == Some(it);
        assert lines[k] == init[k];
      }
      if exists k :: 0 <= k < |lines| && ParseLine(lines[k], cwd) == Some(it) {
        var k :| 0 <= k < |lines| && ParseLine(lines[k], cwd) == Some(it);
        if k < |lines| - 1 {
          assert init[k] == lines[k];
        }
      }
    }
  }

  /** The extension's loop: push the record of every kept line, `continue`
      past the others. */
  method Parse(lines: seq<string>, cwd: string) returns (parsedLines: seq<Item>)
    ensures parsedLines == ParseAll(lines, cwd)
  {
    parsedLines := [];
    for i := 0 to |lines|
      invariant parsedLines == ParseAll(lines[..i], cwd)
    {
      assert lines[..i + 1][..i] == lines[..i];
      var parsed := ParseLine(lines[i], cwd);
      if parsed.None? {
        continue;
      }
      parsedLines := parsedLines + [parsed.value];
    }
    assert lines[..|lines|] == lines;
  }
}
