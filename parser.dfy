/**
 * The command grammar: the text after `/who` (or an inline query) becomes a
 * question and its options. `Question##Opt1#Opt2#...` names options; any
 * other text is just a question.
 */
module Parser {
  import opened Wrappers
  import opened GoStrings
  import opened Poll

  datatype ParseError = TooManyOptions

  datatype Command = Command(question: string, options: seq<string>)

  const DefaultQuestion: string := "Who's Down"

  /**
   * The question and option texts as split, before any trimming: empty
   * text asks the default question; text that splits on `##` into exactly
   * two parts gives the first part and the `#`-pieces of the second; any
   * other text is the question, whole.
   */
  function RawSplit(query: string): (r: (string, seq<string>))
    ensures query == "" ==> r == (DefaultQuestion, [])
    ensures query != "" && |Split(query, "##")| != 2 ==> r == (query, [])
    ensures |Split(query, "##")| == 2 ==> r == (Split(query, "##")[0], Split(Split(query, "##")[1], "#"))
  {
    if query == "" then (DefaultQuestion, [])
    else if Contains(query, "##") then
      var parts := Split(query, "##");
      if |parts| != 2 then (query, []) else (parts[0], Split(parts[1], "#"))
    else (query, [])
  }

  function TrimEach(pieces: seq<string>): (r: seq<string>)
    ensures |r| == |pieces|
    ensures forall i :: 0 <= i < |r| ==> r[i] == TrimSpace(pieces[i])
  {
    seq(|pieces|, i requires 0 <= i < |pieces| => TrimSpace(pieces[i]))
  }

  /**
   * What the command text means: more than `MaxOptions` option pieces is an
   * error, otherwise the trimmed question and the trimmed options, at most
   * `MaxOptions` of them.
   */
  function Parse(query: string): (r: Result<Command, ParseError>)
    ensures r.Err? <==> |RawSplit(query).1| > MaxOptions
    ensures r.Ok? ==> && Trimmed(r.value.question)
                      && |r.value.options| == |RawSplit(query).1| <= MaxOptions
                      && forall i :: 0 <= i < |r.value.options| ==> Trimmed(r.value.options[i])
  {
    var (question, options) := RawSplit(query);
    if |options| > MaxOptions then Err(TooManyOptions)
    else Ok(Command(TrimSpace(question), TrimEach(options)))
  }

  /** `commandQuerySplit`: split, check the option count, then trim. */
  method CommandQuerySplit(query: string) returns (question: string, options: seq<string>, err: Option<ParseError>)
    ensures err.None? <==> Parse(query).Ok?
    ensures err.None? ==> Parse(query) == Ok(Command(question, options))
  {
    question, options := "", [];
    if query != "" {
      if Contains(query, "##") {
        var splitQ := Split(query, "##");
        if |splitQ| != 2 {
          question := query;
        } else {
          question := splitQ[0];
          options := Split(splitQ[1], "#");
        }
      } else {
        question := query;
      }
    } else {
      question := DefaultQuestion;
    }
    assert (question, options) == RawSplit(query);
    if |options| > MaxOptions {
      err := Some(TooManyOptions);
      return;
    }
    ghost var raw := options;
    options := TrimOptions(options);
    assert options == TrimEach(raw);
    question := TrimSpace(question);
    err := None;
  }

  /** The loop of `commandQuerySplit` that trims every option in place. */
  method TrimOptions(raw: seq<string>) returns (options: seq<string>)
    ensures |options| == |raw|
    ensures forall k :: 0 <= k < |raw| ==> options[k] == TrimSpace(raw[k])
  {
    options := raw;
    var i := 0;
    while i < |options|
      invariant 0 <= i <= |options| == |raw|
      invariant forall k :: 0 <= k < i ==> options[k] == TrimSpace(raw[k])
      invariant forall k :: i <= k < |options| ==> options[k] == raw[k]
    {
      options := options[i := TrimSpace(options[i])];
      i := i + 1;
    }
  }

  /** Empty text asks the default question and names no options. */
  lemma ParseEmpty()
    ensures Parse("") == Ok(Command(DefaultQuestion, []))
  {
    assert Trimmed(DefaultQuestion);
    TrimSpaceOfTrimmed(DefaultQuestion);
  }

  /**
   * Text that does not split on `##` into exactly two parts (no `##`, or
   * more than one) is taken whole, trimmed, as the question, with no options.
   */
  lemma ParseUndelimited(query: string)
    requires query != "" && |Split(query, "##")| != 2
    ensures Parse(query) == Ok(Command(TrimSpace(query), []))
  {
  }

  /**
   * Text that splits on `##` into exactly two parts: the question is the
   * trimmed first part, the options are the trimmed `#`-pieces of the second
   * part in order (at least one), unless there are more than `MaxOptions`.
   */
  lemma ParseDelimited(query: string)
    requires |Split(query, "##")| == 2
    ensures var parts := Split(query, "##");
            var pieces := Split(parts[1], "#");
            && (Parse(query).Err? <==> |pieces| > MaxOptions)
            && (Parse(query).Ok? ==>
                  && Parse(query).value.question == TrimSpace(parts[0])
                  && |Parse(query).value.options| == |pieces| >= 1
                  && forall i :: 0 <= i < |pieces| ==> Parse(query).value.options[i] == TrimSpace(pieces[i]))
  {
    assert query != "";
    assert Contains(query, "##");
  }

  /** A parsed command names options exactly when the text split on `##` into two parts. */
  lemma ParseOptionsIff(query: string)
    requires Parse(query).Ok?
    ensures Parse(query).value.options != [] <==> (query != "" && |Split(query, "##")| == 2)
  {
    if query != "" && |Split(query, "##")| == 2 {
      ParseDelimited(query);
    }
  }

  /**
   * A parsed command that names options comes from the raw text
   * `q + "##" + o1 + "#" + ... + "#" + on`: the question is `q` trimmed,
   * option i is `oi` trimmed, and no raw option contains `#`.
   */
  lemma ParseReconstructs(query: string)
    requires Parse(query).Ok? && Parse(query).value.options != []
    ensures exists q: string, raw: seq<string> ::
              && query == q + "##" + Join(raw, "#")
              && !Contains(q, "##")
              && Parse(query).value.question == TrimSpace(q)
              && |raw| == |Parse(query).value.options|
              && (forall i :: 0 <= i < |raw| ==> !Contains(raw[i], "#"))
              && (forall i :: 0 <= i < |raw| ==> Parse(query).value.options[i] == TrimSpace(raw[i]))
  {
    ParseOptionsIff(query);
    var parts := Split(query, "##");
    var raw := Split(parts[1], "#");
    TwoParts(query);
    JoinSplit(parts[1], "#");
    SplitPiecesFree(parts[1], "#");
    ParseDelimited(query);
    assert query == parts[0] + "##" + Join(raw, "#");
  }

  /** Text that splits on `##` into two parts is the first, `##`, then the second. */
  lemma TwoParts(query: string)
    requires |Split(query, "##")| == 2
    ensures var parts := Split(query, "##");
            query == parts[0] + "##" + parts[1] && !Contains(parts[0], "##")
  {
    var parts := Split(query, "##");
    JoinSplit(query, "##");
    SplitPiecesFree(query, "##");
    assert parts == [parts[0]] + parts[1..];
    assert Join(parts[1..], "##") == parts[1];
  }

  /** A poll created from a parsed command has between 1 and `MaxOptions` choices. */
  lemma CreatedPollChoices(query: string)
    requires Parse(query).Ok?
    ensures var c := Parse(query).value;
            && 1 <= |NewWhoMessage(c.question, c.options).choices| <= MaxOptions
            && NewWhoMessage(c.question, c.options).users == []
  {
  }
}
