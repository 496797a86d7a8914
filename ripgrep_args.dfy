/**
  How the text typed into the picker becomes the argument list given to
  ripgrep. A leading `/` asks for a regular expression: the slash is dropped
  and `--fixed-strings` is left out. Any other text, the empty text included,
  is searched for literally.
 */
module RipgrepArgs {
  import opened Wrappers

  const LineNumberFlag: string := "--line-number"
  const SmartCaseFlag: string := "--smart-case"
  const FixedStringsFlag: string := "--fixed-strings"

  datatype Mode = Literal | Regex

  /** What a filter asks ripgrep to do: how to read the pattern, and the pattern. */
  datatype Query = Query(mode: Mode, pattern: string)

  predicate StartsWithSlash(filter: string) {
    |filter| > 0 && filter[0] == '/'
  }

  /** The query a filter denotes. Total: every string, "" included, is a query. */
  function Normalize(filter: string): (q: Query)
    ensures q.mode == Regex <==> StartsWithSlash(filter)
    ensures q.mode == Regex ==> filter == "/" + q.pattern
    ensures q.mode == Literal ==> q.pattern == filter
  {
    if StartsWithSlash(filter) then Query(Regex, filter[1..]) else Query(Literal, filter)
  }

  /** The filter a user types to obtain a query: the inverse of Normalize. */
  function Denormalize(q: Query): (filter: string)
    ensures !(q.mode == Literal && StartsWithSlash(q.pattern)) ==> Normalize(filter) == q
  {
    match q.mode
    case Regex => "/" + q.pattern
    case Literal => q.pattern
  }

  /** Normalize forgets nothing: the filter can always be recovered from its query. */
  lemma NormalizeRoundTrip(filter: string)
    ensures Denormalize(Normalize(filter)) == filter
  {
  }

  /** The ripgrep argument list for a query: the line-number and smart-case
      flags, `--fixed-strings` in literal mode, and the pattern last. */
  function Args(q: Query): (args: seq<string>)
    ensures |args| == (if q.mode == Regex then 3 else 4)
    ensures args[0] == LineNumberFlag && args[1] == SmartCaseFlag
    ensures args[|args| - 1] == q.pattern
    ensures q.mode == Literal ==> args[2] == FixedStringsFlag
  {
    [LineNumberFlag, SmartCaseFlag]
    + (if q.mode == Literal then [FixedStringsFlag] else [])
    + [q.pattern]
  }

  /** Reads a query back out of an argument list of the shape Args builds. */
  function ArgsQuery(args: seq<string>): (q: Option<Query>)
    ensures q.Some? ==> Args(q.value) == args
  {
    if |args| == 3 && args[0] == LineNumberFlag && args[1] == SmartCaseFlag then
      Some(Query(Regex, args[2]))
    else if |args| == 4 && args[0] == LineNumberFlag && args[1] == SmartCaseFlag
            && args[2] == FixedStringsFlag then
      Some(Query(Literal, args[3]))
    else None
  }

  /** Args is injective: the argument list determines the mode and the pattern. */
  lemma ArgsRoundTrip(q: Query)
    ensures ArgsQuery(Args(q)) == Some(q)
  {
  }

  /** The argument construction as the extension performs it: start from the
      two fixed flags, then either strip the slash or push `--fixed-strings`,
      then push the pattern. */
  method BuildArgs(filter: string) returns (args: seq<string>)
    ensures args == Args(Normalize(filter))
    ensures args[0] == LineNumberFlag && args[1] == SmartCaseFlag
    ensures StartsWithSlash(filter) ==> |args| == 3 && "/" + args[2] == filter
    ensures !StartsWithSlash(filter) ==>
      |args| == 4 && args[2] == FixedStringsFlag && args[3] == filter
  {
    var pattern := filter;
    var useRegex := |filter| > 0 && filter[0] == '/';
    args := [LineNumberFlag, SmartCaseFlag];
    if useRegex {
      pattern := pattern[1..];
    } else {
      args := args + [FixedStringsFlag];
    }
    args := args + [pattern];
  }
}
