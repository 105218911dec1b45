/** `getMessage(messageID, args...)`: a message text with its numbered placeholders
    `{0}`, `{1}`, ... replaced by the arguments, one placeholder after the other. */
module MessageText {
  import opened JavaString

  /** The placeholder for argument i: `"{" + i + "}"`. */
  function Placeholder(i: nat): (t: string)
    ensures |t| >= 3 && t[0] == '{'
  {
    "{" + IntToString(i) + "}"
  }

  /** The text after the replacements for the first n arguments. */
  function Substituted(message: string, args: seq<string>, n: nat): string
    requires n <= |args|
  {
    if n == 0 then message
    else Replace(Substituted(message, args, n - 1), Placeholder(n - 1), args[n - 1])
  }

  /** A text without a `{` comes back unchanged, whatever the arguments. */
  lemma {:induction false} NoPlaceholderUnchanged(message: string, args: seq<string>, n: nat)
    requires n <= |args| && '{' !in message
    ensures Substituted(message, args, n) == message
  {
    if n > 0 {
      NoPlaceholderUnchanged(message, args, n - 1);
      NoFirstCharNoOccurrence(message, Placeholder(n - 1));
      ReplaceAbsent(message, Placeholder(n - 1), args[n - 1]);
    }
  }

  /** A text with one placeholder `{0}` and no other `{` takes the one argument in its place. */
  lemma OneArgument(before: string, after: string, arg: string)
    requires '{' !in before && '{' !in after
    ensures Substituted(before + "{0}" + after, [arg], 1) == before + arg + after
  {
    assert Placeholder(0) == "{0}";
    ReplaceSingle(before, "{0}", after, arg);
  }
}
