/** The line counter: the argument list `get_loc` runs it with, and the
    per-language counts its JSON output is read into. */
module Tokei {

  datatype Option<T> = None | Some(value: T)

  type Language = string

  /** One entry of the counter's output: a language with its `code` and
      `comments` line counts. */
  datatype LanguageCount = LanguageCount(language: Language, code: int, comments: int)

  /** A parsed JSON object names each language once. */
  predicate DistinctLanguages(m: seq<LanguageCount>) {
    forall i, j :: 0 <= i < j < |m| ==> m[i].language != m[j].language
  }

  /** The counter's output for one checkout, entries in the order of the
      parsed JSON object. */
  type Measurement = m: seq<LanguageCount> | DistinctLanguages(m)

  const BASE_COMMAND: seq<string> := ["tokei", "--output", "json"]

  /** Python truthiness of the `--exclude` option: absent (`None`) and the
      empty string are false. */
  predicate Truthy(exclude: Option<string>) {
    exclude.Some? && exclude.value != ""
  }

  function Command(exclude: Option<string>): (cmd: seq<string>)
    ensures |cmd| >= 3 && cmd[..3] == ["tokei", "--output", "json"]
    ensures Truthy(exclude) ==> cmd == BASE_COMMAND + ["--exclude", exclude.value]
    ensures !Truthy(exclude) ==> cmd == BASE_COMMAND
  {
    var cmd := BASE_COMMAND;
    if Truthy(exclude) then cmd + ["--exclude", exclude.value] else cmd
  }

  /** The pattern a counter argument list excludes, if any. */
  function ExcludedPattern(cmd: seq<string>): Option<string> {
    if |cmd| == 5 && cmd[3] == "--exclude" then Some(cmd[4]) else None
  }

  /** The argument list carries the exclusion pattern if and only if the
      option is set to a non-empty string, and then carries it verbatim. */
  lemma CommandExcludes(exclude: Option<string>)
    ensures ExcludedPattern(Command(exclude)) ==
      (if Truthy(exclude) then exclude else None)
  {
  }
}
