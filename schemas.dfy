/** The argument schema of the export tool: an object with one string field,
    `id`, that must match `^[0-9a-z]+$`. */
module Schemas {

  /** The message attached to a page id that does not match the pattern. */
  const PageIdMessage := "Notion page id must only contain 0-9a-z"

  /** A value of the arguments object, as far as the schema tells values apart. */
  datatype Value = Str(s: string) | NonString

  /** What a successful parse yields: the declared `id` and nothing else, so
      any other key of the arguments (a `recursive` flag, say) is dropped. */
  datatype ExportResultRequest = ExportResultRequest(id: string)

  /** Why a parse fails: `id` missing or not a string, or a string that does
      not match the pattern. */
  datatype Issue = InvalidType | PatternMismatch(message: string)

  datatype Parsed = Parsed(request: ExportResultRequest) | Failed(issue: Issue)

  /** The character class `[0-9a-z]`. */
  predicate IsPageIdChar(c: char) {
    '0' <= c <= '9' || 'a' <= c <= 'z'
  }

  /** `^[0-9a-z]+$` read as a matcher: one character of the class, then either
      the end of the input or another match of the same pattern. */
  predicate MatchesPageIdPattern(s: string)
    ensures MatchesPageIdPattern(s) ==> |s| > 0 && forall i :: 0 <= i < |s| ==> IsPageIdChar(s[i])
  {
    |s| > 0 && IsPageIdChar(s[0]) && (|s| == 1 || MatchesPageIdPattern(s[1..]))
  }

  /** The pattern accepts exactly the non-empty strings made only of `0-9a-z`. */
  lemma {:induction false} PatternMeansClassChars(s: string)
    ensures MatchesPageIdPattern(s) <==> |s| > 0 && forall i :: 0 <= i < |s| ==> IsPageIdChar(s[i])
  {
    if |s| > 1 {
      PatternMeansClassChars(s[1..]);
      assert forall i :: 1 <= i < |s| ==> s[1..][i - 1] == s[i];
    }
  }

  /** `GetExportResultRequestSchema.parse(args)`. */
  function ParseRequest(args: map<string, Value>): (r: Parsed)
    ensures r.Parsed? <==> (
      && "id" in args && args["id"].Str? && |args["id"].s| > 0
      && forall i :: 0 <= i < |args["id"].s| ==> IsPageIdChar(args["id"].s[i]))
    ensures r.Parsed? ==> r.request.id == args["id"].s
    ensures r.Failed? && r.issue.PatternMismatch? ==> r.issue.message == PageIdMessage
    ensures "id" in args && args["id"].Str? && !r.Parsed? ==> r == Failed(PatternMismatch(PageIdMessage))
    ensures !("id" in args && args["id"].Str?) ==> r == Failed(InvalidType)
  {
    if "id" !in args || !args["id"].Str? then Failed(InvalidType)
    else
      var id := args["id"].s;
      PatternMeansClassChars(id);
      if MatchesPageIdPattern(id) then Parsed(ExportResultRequest(id))
      else Failed(PatternMismatch(PageIdMessage))
  }

  /** The `+` needs at least one character: the empty id is refused with the
      pattern's message. */
  lemma EmptyIdRejected(args: map<string, Value>)
    requires "id" in args && args["id"] == Str("")
    ensures ParseRequest(args) == Failed(PatternMismatch(PageIdMessage))
  {
  }

  /** A dash or an upper-case letter anywhere in the id gets it refused with the
      pattern's message, so the dashed UUID form is not accepted. */
  lemma DashOrUpperCaseRejected(args: map<string, Value>, i: nat)
    requires "id" in args && args["id"].Str?
    requires i < |args["id"].s|
    requires args["id"].s[i] == '-' || 'A' <= args["id"].s[i] <= 'Z'
    ensures ParseRequest(args) == Failed(PatternMismatch(PageIdMessage))
  {
    assert !IsPageIdChar(args["id"].s[i]);
  }

  /** There is no length check: an id of any positive length made of class
      characters is accepted, 32 or not. */
  lemma AnyLengthAccepted(id: string)
    requires |id| > 0 && forall i :: 0 <= i < |id| ==> IsPageIdChar(id[i])
    ensures ParseRequest(map["id" := Str(id)]) == Parsed(ExportResultRequest(id))
  {
  }

  /** Only `id` is looked at: adding or changing any other key, such as a
      `recursive` flag, does not change the outcome. */
  lemma OtherKeysIgnored(args: map<string, Value>, key: string, v: Value)
    requires key != "id"
    ensures ParseRequest(args[key := v]) == ParseRequest(args)
  {
    assert "id" in args[key := v] <==> "id" in args;
    if "id" in args {
      assert args[key := v]["id"] == args["id"];
    }
  }
}
