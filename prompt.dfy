/** `FactCheckerPrompt`: a prompt template, either a string or a list of chat messages, into
    which a claim and its evidence are substituted with `str.format`. */
module Prompts {
  import opened Wrappers

  /** Why `str.format(claim=..., evidence=...)` raises: a replacement field naming anything
      but `claim` or `evidence` (`KeyError`, or `IndexError` for a positional field), or a
      brace with no partner (`ValueError`). */
  datatype FormatError = UnknownField(name: string) | Unbalanced(message: string)

  const SingleOpen := "Single '{' encountered in format string"
  const SingleClose := "Single '}' encountered in format string"
  const UnclosedField := "expected '}' before end of string"

  /** The position of the first `}` at or after `i`, or `|t|`. */
  function FindClose(t: string, i: nat): (j: nat)
    requires i <= |t|
    ensures i <= j <= |t| && (j < |t| ==> t[j] == '}')
    ensures forall k :: i <= k < j ==> t[k] != '}'
    decreases |t| - i
  {
    if i == |t| || t[i] == '}' then i else FindClose(t, i + 1)
  }

  function Prepend(s: string, r: Result<string, FormatError>): (q: Result<string, FormatError>)
    ensures q.Ok? <==> r.Ok?
  {
    if r.Ok? then Ok(s + r.value) else r
  }

  /** `template.format(claim=claim, evidence=evidence)`: `{{` and `}}` stand for single
      braces, `{claim}` and `{evidence}` for the arguments. */
  function Format(t: string, claim: string, evidence: string): Result<string, FormatError>
    decreases |t|
  {
    if t == [] then Ok([])
    else if t[0] == '{' then
      if |t| == 1 then Err(Unbalanced(SingleOpen))
      else if t[1] == '{' then Prepend("{", Format(t[2..], claim, evidence))
      else
        var j := FindClose(t, 1);
        if j == |t| then Err(Unbalanced(UnclosedField))
        else if t[1..j] == "claim" then Prepend(claim, Format(t[j + 1..], claim, evidence))
        else if t[1..j] == "evidence" then Prepend(evidence, Format(t[j + 1..], claim, evidence))
        else Err(UnknownField(t[1..j]))
    else if t[0] == '}' then
      if |t| >= 2 && t[1] == '}' then Prepend("}", Format(t[2..], claim, evidence))
      else Err(Unbalanced(SingleClose))
    else Prepend([t[0]], Format(t[1..], claim, evidence))
  }

  /** A template as written from its parts: literal text, or one of the two fields. */
  datatype Part = Literal(text: string) | ClaimField | EvidenceField

  /** Literal text with its braces doubled, so that `format` reads them as text. */
  function Escape(s: string): (r: string)
    ensures |r| >= |s|
    decreases |s|
  {
    if s == [] then []
    else (if s[0] == '{' then "{{" else if s[0] == '}' then "}}" else [s[0]]) + Escape(s[1..])
  }

  function PartTemplate(p: Part): string {
    match p
    case Literal(s) => Escape(s)
    case ClaimField => "{claim}"
    case EvidenceField => "{evidence}"
  }

  function Template(parts: seq<Part>): string
    decreases |parts|
  {
    if parts == [] then [] else PartTemplate(parts[0]) + Template(parts[1..])
  }

  function PartText(p: Part, claim: string, evidence: string): string {
    match p
    case Literal(s) => s
    case ClaimField => claim
    case EvidenceField => evidence
  }

  /** What the filled-in template should read: the literals, with the claim and the
      evidence where their fields are. */
  function Render(parts: seq<Part>, claim: string, evidence: string): string
    decreases |parts|
  {
    if parts == [] then [] else PartText(parts[0], claim, evidence) + Render(parts[1..], claim, evidence)
  }

  lemma PrependPrepend(a: string, b: string, r: Result<string, FormatError>)
    ensures Prepend(a, Prepend(b, r)) == Prepend(a + b, r)
  {
    if r.Ok? {
      assert a + (b + r.value) == (a + b) + r.value;
    }
  }

  /** A doubled opening brace formats to one brace, then the rest. */
  lemma FormatDoubledOpen(tail: string, claim: string, evidence: string)
    ensures Format("{{" + tail, claim, evidence) == Prepend("{", Format(tail, claim, evidence))
  {
    var t := "{{" + tail;
    assert t[0] == '{' && t[1] == '{' && t[2..] == tail;
  }

  /** A doubled closing brace formats to one brace, then the rest. */
  lemma FormatDoubledClose(tail: string, claim: string, evidence: string)
    ensures Format("}}" + tail, claim, evidence) == Prepend("}", Format(tail, claim, evidence))
  {
    var t := "}}" + tail;
    assert t[0] == '}' && t[1] == '}' && t[2..] == tail;
  }

  /** A character other than a brace formats to itself, then the rest. */
  lemma FormatPlain(c: char, tail: string, claim: string, evidence: string)
    requires c != '{' && c != '}'
    ensures Format([c] + tail, claim, evidence) == Prepend([c], Format(tail, claim, evidence))
  {
    var t := [c] + tail;
    assert t[0] == c && t[1..] == tail;
  }

  /** The first escaped character of the text formats back to itself. */
  lemma FormatEscapeHead(s: string, rest: string, claim: string, evidence: string)
    requires s != []
    ensures Format(Escape(s) + rest, claim, evidence)
      == Prepend([s[0]], Format(Escape(s[1..]) + rest, claim, evidence))
  {
    var tail := Escape(s[1..]) + rest;
    var head := if s[0] == '{' then "{{" else if s[0] == '}' then "}}" else [s[0]];
    assert Escape(s) + rest == head + tail by {
      assert Escape(s) == head + Escape(s[1..]);
    }
    if s[0] == '{' {
      FormatDoubledOpen(tail, claim, evidence);
    } else if s[0] == '}' {
      FormatDoubledClose(tail, claim, evidence);
    } else {
      FormatPlain(s[0], tail, claim, evidence);
    }
  }

  /** Formatting escaped text followed by more template reads the text back, then formats
      the rest. */
  lemma {:induction false} FormatEscape(s: string, rest: string, claim: string, evidence: string)
    ensures Format(Escape(s) + rest, claim, evidence) == Prepend(s, Format(rest, claim, evidence))
    decreases |s|
  {
    if s == [] {
      assert Escape(s) + rest == rest;
      var f := Format(rest, claim, evidence);
      if f.Ok? {
        assert [] + f.value == f.value;
      }
    } else {
      FormatEscapeHead(s, rest, claim, evidence);
      FormatEscape(s[1..], rest, claim, evidence);
      PrependPrepend([s[0]], s[1..], Format(rest, claim, evidence));
      assert [s[0]] + s[1..] == s;
    }
  }

  /** Formatting one part followed by more template gives the part's text, then formats the
      rest. */
  lemma FormatPart(p: Part, rest: string, claim: string, evidence: string)
    ensures Format(PartTemplate(p) + rest, claim, evidence) == Prepend(PartText(p, claim, evidence), Format(rest, claim, evidence))
  {
    match p
    case Literal(s) =>
      FormatEscape(s, rest, claim, evidence);
    case ClaimField =>
      var t := "{claim}" + rest;
      assert FindClose(t, 1) == 6 by {
        assert t[6] == '}';
        assert forall k :: 1 <= k < 6 ==> t[k] != '}';
      }
      assert t[1..6] == "claim";
      assert t[7..] == rest;
    case EvidenceField =>
      var t := "{evidence}" + rest;
      assert FindClose(t, 1) == 9 by {
        assert t[9] == '}';
        assert forall k :: 1 <= k < 9 ==> t[k] != '}';
      }
      assert t[1..9] == "evidence";
      assert t[10..] == rest;
  }

  /** Formatting a template built from parts never fails and yields the rendered text. */
  lemma {:induction false} FormatTemplate(parts: seq<Part>, claim: string, evidence: string)
    ensures Format(Template(parts), claim, evidence) == Ok(Render(parts, claim, evidence))
    decreases |parts|
  {
    if parts != [] {
      FormatTemplate(parts[1..], claim, evidence);
      FormatPart(parts[0], Template(parts[1..]), claim, evidence);
    }
  }

  /** Text without braces is its own escape, so it formats to itself. */
  lemma {:induction false} EscapeBraceFree(s: string)
    requires BraceFree(s)
    ensures Escape(s) == s
    decreases |s|
  {
    if s != [] {
      EscapeBraceFree(s[1..]);
    }
  }

  /** One entry of a message list: a dictionary (`role`, `content`, ...) or anything else. */
  datatype Item = Message(fields: map<string, string>) | NotADict

  /** `PromptType`: a plain string or a list of messages. */
  datatype Prompt = Text(text: string) | Messages(items: seq<Item>)

  /** What a call raises. */
  datatype PromptError =
    | FormatFailed(cause: FormatError)
    | EmptyMessages
    | LastNotADict(message: string)
    | MissingContent

  const LastItemMessage := "The last item in the prompt list must be a dictionary."

  const SystemInstruction :=
    "You are a precise and concise assistant that analyzes factual "
    + "accuracy in statements based on provided facts. "
    + "Your task is to identify and briefly explain factual inconsistencies "
    + "between the given statement and the listed facts. "
    + "Only mention explicit factual contradictions. Do not speculate or add "
    + "information not found in the facts. "

  const FactsHeader := "### Facts:\n"
  const StatementHeader := "\n\n### Statement:\n"
  const UserTemplate := FactsHeader + ("{evidence}" + (StatementHeader + "{claim}"))

  /** `FACT_CHECKER_PROMPT`: the system instruction, then the user message template. */
  const DefaultPrompt := Messages([
    Message(map["role" := "system", "content" := SystemInstruction]),
    Message(map["role" := "user", "content" := UserTemplate])
  ])

  /** The prompt a call returns for `base`: a string is formatted as a whole; for a list,
      only the `content` of the last message is formatted, in a copy of the list. */
  function Formatted(base: Prompt, claim: string, evidence: string): Result<Prompt, PromptError> {
    match base
    case Text(t) =>
      var r := Format(t, claim, evidence);
      if r.Ok? then Ok(Text(r.value)) else Err(FormatFailed(r.error))
    case Messages(items) =>
      if items == [] then Err(EmptyMessages)
      else
        var last := items[|items| - 1];
        if last.NotADict? then Err(LastNotADict(LastItemMessage))
        else if "content" !in last.fields then Err(MissingContent)
        else
          var r := Format(last.fields["content"], claim, evidence);
          if r.Err? then Err(FormatFailed(r.error))
          else Ok(Messages(items[..|items| - 1] + [Message(last.fields["content" := r.value])]))
  }

  /** Two messages with the same keys and the same values except perhaps under `content`. */
  predicate SameExceptContent(a: map<string, string>, b: map<string, string>) {
    a.Keys == b.Keys && forall k :: k in a && k != "content" ==> b[k] == a[k]
  }

  /** For a list, the result has as many messages; all but the last are the base's own, and
      the last keeps its keys and values except `content`, which is formatted. */
  lemma FormattedMessages(items: seq<Item>, claim: string, evidence: string)
    requires Formatted(Messages(items), claim, evidence).Ok?
    ensures var out := Formatted(Messages(items), claim, evidence).value;
      out.Messages? && |out.items| == |items| > 0
      && (forall i :: 0 <= i < |items| - 1 ==> out.items[i] == items[i])
      && items[|items| - 1].Message? && out.items[|items| - 1].Message?
      && SameExceptContent(items[|items| - 1].fields, out.items[|items| - 1].fields)
      && Format(items[|items| - 1].fields["content"], claim, evidence)
           == Ok(out.items[|items| - 1].fields["content"])
  {
  }

  /** A list call fails exactly when the list is empty, its last entry is not a dictionary or
      has no `content`, or that content does not format; the first applicable of these is
      the error. */
  lemma FormattedMessagesErrors(items: seq<Item>, claim: string, evidence: string)
    ensures items == [] ==> Formatted(Messages(items), claim, evidence) == Err(EmptyMessages)
    ensures items != [] && items[|items| - 1].NotADict? ==>
      Formatted(Messages(items), claim, evidence) == Err(LastNotADict(LastItemMessage))
    ensures items != [] && items[|items| - 1].Message? && "content" !in items[|items| - 1].fields ==>
      Formatted(Messages(items), claim, evidence) == Err(MissingContent)
    ensures (items != [] && items[|items| - 1].Message? && "content" in items[|items| - 1].fields
      && Format(items[|items| - 1].fields["content"], claim, evidence).Err?) ==>
      Formatted(Messages(items), claim, evidence)
        == Err(FormatFailed(Format(items[|items| - 1].fields["content"], claim, evidence).error))
  {
  }

  /** Text with no brace in it. */
  predicate BraceFree(s: string) {
    '{' !in s && '}' !in s
  }

  /** A template of text, the evidence field, text and the claim field fills in both. */
  lemma FillEvidenceThenClaim(facts: string, statement: string, claim: string, evidence: string)
    requires BraceFree(facts) && BraceFree(statement)
    ensures Format(facts + ("{evidence}" + (statement + "{claim}")), claim, evidence)
      == Ok(facts + (evidence + (statement + claim)))
  {
    EscapeBraceFree(facts);
    EscapeBraceFree(statement);
    var t3: string := "{claim}";
    FormatPart(ClaimField, [], claim, evidence);
    assert t3 + [] == t3;
    assert claim + [] == claim;
    assert Format(t3, claim, evidence) == Ok(claim);
    var t2 := statement + t3;
    FormatEscape(statement, t3, claim, evidence);
    assert Format(t2, claim, evidence) == Ok(statement + claim);
    var t1 := "{evidence}" + t2;
    FormatPart(EvidenceField, t2, claim, evidence);
    assert Format(t1, claim, evidence) == Ok(evidence + (statement + claim));
    FormatEscape(facts, t1, claim, evidence);
  }

  lemma HeadersBraceFree()
    ensures BraceFree(FactsHeader) && BraceFree(StatementHeader)
  {
  }

  /** The user message of the default prompt reads the facts, then the statement. */
  lemma UserTemplateFilled(claim: string, evidence: string)
    ensures Format(UserTemplate, claim, evidence) == Ok(FactsHeader + (evidence + (StatementHeader + claim)))
  {
    HeadersBraceFree();
    FillEvidenceThenClaim(FactsHeader, StatementHeader, claim, evidence);
  }

  /** The default prompt asks about the claim against the evidence; the system message is
      left as it is. */
  lemma DefaultPromptFilled(claim: string, evidence: string)
    ensures Formatted(DefaultPrompt, claim, evidence) == Ok(Messages([
      Message(map["role" := "system", "content" := SystemInstruction]),
      Message(map["role" := "user", "content" := FactsHeader + (evidence + (StatementHeader + claim))])
    ]))
  {
    UserTemplateFilled(claim, evidence);
    var system := Message(map["role" := "system", "content" := SystemInstruction]);
    var user := map["role" := "user", "content" := UserTemplate];
    var filled := FactsHeader + (evidence + (StatementHeader + claim));
    assert DefaultPrompt == Messages([system] + [Message(user)]);
    assert user["content"] == UserTemplate;
    FormattedLast([system], user, claim, evidence);
    var done := map["role" := "user", "content" := filled];
    assert user["content" := filled] == done;
    assert [system] + [Message(done)] == [system, Message(done)];
  }

  /** A list whose last message formats fine comes back with that message's content filled. */
  lemma FormattedLast(init: seq<Item>, last: map<string, string>, claim: string, evidence: string)
    requires "content" in last && Format(last["content"], claim, evidence).Ok?
    ensures Formatted(Messages(init + [Message(last)]), claim, evidence)
      == Ok(Messages(init + [Message(last["content" := Format(last["content"], claim, evidence).value])]))
  {
    assert (init + [Message(last)])[..|init|] == init;
  }

  class FactCheckerPrompt {
    var basePrompt: Prompt

    /** With no base prompt, a copy of `FACT_CHECKER_PROMPT`. */
    constructor (base: Option<Prompt>)
      ensures basePrompt == if base.None? then DefaultPrompt else base.value
    {
      if base.None? {
        basePrompt := DefaultPrompt;
      } else {
        basePrompt := base.value;
      }
    }

    /** `__call__`: works on a copy, so the base prompt is never changed. */
    method Call(claim: string, evidence: string) returns (r: Result<Prompt, PromptError>)
      ensures r == Formatted(basePrompt, claim, evidence)
    {
      var prompt := basePrompt;
      if prompt.Text? {
        var formatted := Format(prompt.text, claim, evidence);
        if formatted.Err? {
          return Err(FormatFailed(formatted.error));
        }
        return Ok(Text(formatted.value));
      }
      if prompt.items == [] {
        return Err(EmptyMessages);
      }
      var item := prompt.items[|prompt.items| - 1];
      if item.NotADict? {
        return Err(LastNotADict(LastItemMessage));
      }
      if "content" !in item.fields {
        return Err(MissingContent);
      }
      var content := Format(item.fields["content"], claim, evidence);
      if content.Err? {
        return Err(FormatFailed(content.error));
      }
      item := Message(item.fields["content" := content.value]);
      r := Ok(Messages(prompt.items[..|prompt.items| - 1] + [item]));
    }
  }

  const NotImplementedMessage := "The build_fact_check_model function is not yet implemented."

  /** `build_fact_check_model`: not implemented; every call raises. */
  function BuildFactCheckModel(): (r: Outcome<string>)
    ensures r.Fail?
  {
    Fail(NotImplementedMessage)
  }
}
