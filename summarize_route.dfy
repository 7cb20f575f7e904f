/**
 * The completion endpoint (POST /api/summarize): validates the request, builds the prompt from the
 * question and the earlier turns, hands it to the generative-language provider and maps the provider's
 * answer or failure to an HTTP status. The provider call is not modelled: its outcome is an input, and
 * the prompt the handler would send is an output.
 */
module SummarizeRoute {
  import opened Wrappers
  import opened Strings

  /** One earlier turn of the conversation, `{text, isUser}`. */
  datatype Turn = Turn(text: string, isUser: bool)

  /** The JSON request body; both fields may be absent. */
  datatype Request = Request(text: Option<string>, conversationHistory: Option<seq<Turn>>)

  /** One candidate of the provider's answer, reduced to the texts of its content parts. */
  datatype Candidate = Candidate(parts: seq<string>)

  /**
   * What the provider call produced: a 2xx answer with its candidates, or a rejection (axios throws) with
   * the HTTP status of the error response when there was one (`error.response?.status`).
   */
  datatype ProviderResult = Generated(candidates: seq<Candidate>) | Rejected(status: Option<int>)

  datatype Body = Summary(summary: string) | Error(message: string)

  datatype Response = Response(status: int, body: Body)

  /** The fixed instruction that opens every prompt, followed by an empty line. */
  const Instruction: string :=
    "Du er ekspert i juridisk ret og skal give kort besvarelse af følgende spørgsmål. Husk konteksten fra tidligere spørgsmål i samtalen.\n\n"
  const HistoryTitle: string := "Tidligere samtale:"
  const QuestionLabel: string := "Spørgsmål: "
  const CurrentQuestionLabel: string := "Nuværende spørgsmål: "
  const Cue: string := "Svar:"

  const NoTextMessage: string := "Ingen tekst blev sendt"
  const KeyMissingMessage: string := "Gemini API nøgle mangler"
  const UnavailableMessage: string :=
    "Gemini AI er midlertidigt utilgængelig. Prøv venligst igen om et par minutter."
  const GenericMessage: string := "Der opstod en fejl ved besvarelse af spørgsmålet. Prøv venligst igen."

  /** The line one earlier turn contributes to the prompt. */
  function TurnLine(t: Turn): (line: string)
    ensures EndsWith(line, "\n")
    ensures StartsWith(line, if t.isUser then "Bruger: " else "AI: ")
    ensures var tag := if t.isUser then "Bruger: " else "AI: ";
            |line| == |tag| + |t.text| + 1 && line[|tag|..|line| - 1] == t.text
  {
    (if t.isUser then "Bruger" else "AI") + ": " + t.text + "\n"
  }

  /** The earlier turns, one line each, oldest first. */
  function Transcript(h: seq<Turn>): string
  {
    if h == [] then "" else Transcript(h[..|h| - 1]) + TurnLine(h[|h| - 1])
  }

  /** The history is used only when present and non-empty (`conversationHistory && conversationHistory.length > 0`). */
  predicate HasHistory(history: Option<seq<Turn>>)
  {
    history.Some? && |history.value| > 0
  }

  /** The prompt the route sends for question `text` and the given history. */
  function Prompt(text: string, history: Option<seq<Turn>>): string
  {
    if HasHistory(history) then
      Instruction + HistoryTitle + "\n" + Transcript(history.value) + "\n" + CurrentQuestionLabel + text + "\n\n" + Cue
    else
      Instruction + QuestionLabel + text + "\n\n" + Cue
  }

  /** Builds the prompt as the route does: start from the instruction and extend it turn by turn. */
  method BuildPrompt(text: string, history: Option<seq<Turn>>) returns (prompt: string)
    ensures prompt == Prompt(text, history)
  {
    prompt := Instruction;
    if history.Some? && |history.value| > 0 {
      var h := history.value;
      prompt := prompt + HistoryTitle + "\n";
      ghost var opening := prompt;
      var i := 0;
      while i < |h|
        invariant 0 <= i <= |h|
        invariant prompt == opening + Transcript(h[..i])
      {
        TranscriptStep(h, i);
        AppendAssoc(opening, Transcript(h[..i]), TurnLine(h[i]));
        prompt := prompt + TurnLine(h[i]);
        i := i + 1;
      }
      assert h[..|h|] == h;
      prompt := prompt + "\n" + CurrentQuestionLabel + text + "\n\n" + Cue;
    } else {
      prompt := prompt + QuestionLabel + text + "\n\n" + Cue;
    }
  }

  /** The transcript of one more turn ends with that turn's line. */
  lemma TranscriptStep(h: seq<Turn>, i: int)
    requires 0 <= i < |h|
    ensures Transcript(h[..i + 1]) == Transcript(h[..i]) + TurnLine(h[i])
  {
    assert h[..i + 1][..i] == h[..i];
  }

  lemma AppendAssoc(a: string, b: string, c: string)
    ensures a + (b + c) == a + b + c
  {
  }

  /** The prompt opens with the fixed instruction and closes with the answer cue, whatever the history. */
  lemma PromptFraming(text: string, history: Option<seq<Turn>>)
    ensures StartsWith(Prompt(text, history), Instruction)
    ensures EndsWith(Prompt(text, history), Cue)
  {
    if HasHistory(history) {
      Regroup(Instruction, HistoryTitle, "\n", Transcript(history.value), "\n", CurrentQuestionLabel, text, "\n\n", Cue);
    } else {
      Regroup(Instruction, QuestionLabel, text, "\n\n", [], [], [], [], Cue);
      assert Instruction + QuestionLabel + text + "\n\n" + Cue
          == Instruction + QuestionLabel + text + "\n\n" + [] + [] + [] + [] + Cue;
    }
  }

  /** A chain of concatenations starts with its first piece and ends with its last. */
  lemma Regroup(a: string, b1: string, b2: string, b3: string, b4: string, b5: string, b6: string, b7: string, c: string)
    ensures StartsWith(a + b1 + b2 + b3 + b4 + b5 + b6 + b7 + c, a)
    ensures EndsWith(a + b1 + b2 + b3 + b4 + b5 + b6 + b7 + c, c)
  {
    var b := b1 + b2 + b3 + b4 + b5 + b6 + b7;
    assert a + b1 + b2 + b3 + b4 + b5 + b6 + b7 + c == a + (b + c);
    AppendParts(a, b + c);
    AppendParts(a + b, c);
  }

  /** A turn's line without its line break. */
  function TurnLabel(t: Turn): (tag: string)
    ensures TurnLine(t) == tag + "\n"
  {
    (if t.isUser then "Bruger" else "AI") + ": " + t.text
  }

  /** The turns' lines without their line breaks, in order. */
  function Labels(h: seq<Turn>): (labels: seq<string>)
    ensures |labels| == |h|
    ensures forall i :: 0 <= i < |h| ==> labels[i] == TurnLabel(h[i])
  {
    seq(|h|, i requires 0 <= i < |h| => TurnLabel(h[i]))
  }

  /** One more turn adds one more label at the end. */
  lemma LabelsSnoc(h: seq<Turn>)
    requires h != []
    ensures Labels(h) == Labels(h[..|h| - 1]) + [TurnLabel(h[|h| - 1])]
  {
    var a := Labels(h);
    var b := Labels(h[..|h| - 1]) + [TurnLabel(h[|h| - 1])];
    forall i | 0 <= i < |h| ensures a[i] == b[i] {
      if i < |h| - 1 {
        assert b[i] == Labels(h[..|h| - 1])[i];
      }
    }
  }

  /** The transcript is the turns' labels joined by line breaks, with a final line break. */
  lemma {:induction false} TranscriptIsJoin(h: seq<Turn>)
    requires h != []
    ensures Transcript(h) == Join(Labels(h), '\n') + "\n"
    decreases |h|
  {
    var last := h[|h| - 1];
    var front := h[..|h| - 1];
    LabelsSnoc(h);
    if |h| == 1 {
      assert front == [];
    } else {
      TranscriptIsJoin(front);
      JoinAppend(Labels(front), [TurnLabel(last)], '\n');
    }
  }

  /** The history-case prompt, regrouped as the instruction followed by its lines joined by line breaks. */
  lemma HistoryShape(i: string, title: string, labels: seq<string>, q: string, text: string, cue: string)
    requires |labels| >= 1
    ensures i + title + "\n" + (Join(labels, '\n') + "\n") + "\n" + q + text + "\n\n" + cue
         == i + Join([title] + labels + ["", q + text, "", cue], '\n')
  {
    var tail := ["", q + text, "", cue];
    JoinAppend([title] + labels, tail, '\n');
    JoinAppend([title], labels, '\n');
    JoinFour(tail, '\n');
    HistoryRegroup(i, title, Join(labels, '\n'), q, text, cue);
  }

  lemma HistoryRegroup(i: string, title: string, l: string, q: string, text: string, cue: string)
    ensures i + title + "\n" + (l + "\n") + "\n" + q + text + "\n\n" + cue
         == i + (title + "\n" + l + "\n" + ("" + "\n" + (q + text) + "\n" + "" + "\n" + cue))
  {
    LineRegroup(i, title, l, q, text, cue, "\n");
    assert "\n\n" == "\n" + "\n";
  }

  /** The same regrouping with the line break abstracted, which keeps the proof to associativity. */
  lemma LineRegroup(i: string, t: string, l: string, q: string, x: string, c: string, n: string)
    ensures i + t + n + (l + n) + n + q + x + (n + n) + c == i + (t + n + l + n + ([] + n + (q + x) + n + [] + n + c))
  {
    assert [] + n == n;
  }

  /** The no-history prompt, regrouped the same way. */
  lemma PlainShape(i: string, q: string, text: string, cue: string)
    ensures i + q + text + "\n\n" + cue == i + Join([q + text, "", cue], '\n')
  {
    JoinThree([q + text, "", cue], '\n');
  }

  /** The lines a prompt with history `h` has after its instruction. */
  function HistoryPromptLines(text: string, h: seq<Turn>): seq<string>
  {
    [HistoryTitle] + Labels(h) + ["", CurrentQuestionLabel + text, "", Cue]
  }

  lemma HistoryPromptIsJoin(text: string, h: seq<Turn>)
    requires h != []
    ensures Prompt(text, Some(h)) == Instruction + Join(HistoryPromptLines(text, h), '\n')
  {
    TranscriptIsJoin(h);
    HistoryShape(Instruction, HistoryTitle, Labels(h), CurrentQuestionLabel, text, Cue);
  }

  lemma LabelUnbroken(t: Turn)
    requires '\n' !in t.text
    ensures '\n' !in TurnLabel(t)
  {
  }

  lemma LabelsUnbroken(h: seq<Turn>)
    requires forall i :: 0 <= i < |h| ==> '\n' !in h[i].text
    ensures forall i :: 0 <= i < |Labels(h)| ==> '\n' !in Labels(h)[i]
  {
    forall i | 0 <= i < |h| ensures '\n' !in Labels(h)[i] {
      LabelUnbroken(h[i]);
    }
  }

  lemma UnbrokenConcat(a: seq<string>, b: seq<string>)
    requires forall i :: 0 <= i < |a| ==> '\n' !in a[i]
    requires forall i :: 0 <= i < |b| ==> '\n' !in b[i]
    ensures forall i :: 0 <= i < |a + b| ==> '\n' !in (a + b)[i]
  {
    forall i | 0 <= i < |a + b| ensures '\n' !in (a + b)[i] {
      if i >= |a| {
        assert (a + b)[i] == b[i - |a|];
      }
    }
  }

  lemma HistoryPromptLinesUnbroken(text: string, h: seq<Turn>)
    requires '\n' !in text
    requires forall i :: 0 <= i < |h| ==> '\n' !in h[i].text
    ensures forall i :: 0 <= i < |HistoryPromptLines(text, h)| ==> '\n' !in HistoryPromptLines(text, h)[i]
  {
    var tail := ["", CurrentQuestionLabel + text, "", Cue];
    assert '\n' !in CurrentQuestionLabel + text;
    LabelsUnbroken(h);
    UnbrokenConcat([HistoryTitle], Labels(h));
    UnbrokenConcat([HistoryTitle] + Labels(h), tail);
  }

  /**
   * After the instruction, a prompt with history reads line by line: the history title, one line per
   * earlier turn in order, an empty line, the current question, an empty line and the answer cue --
   * provided no text holds a line break of its own.
   */
  lemma PromptLinesWithHistory(text: string, h: seq<Turn>)
    requires h != []
    requires '\n' !in text
    requires forall i :: 0 <= i < |h| ==> '\n' !in h[i].text
    ensures StartsWith(Prompt(text, Some(h)), Instruction)
    ensures Split(Prompt(text, Some(h))[|Instruction|..], '\n') == HistoryPromptLines(text, h)
  {
    var all := HistoryPromptLines(text, h);
    HistoryPromptIsJoin(text, h);
    AppendParts(Instruction, Join(all, '\n'));
    HistoryPromptLinesUnbroken(text, h);
    SplitJoin(all, '\n');
  }

  /**
   * After the instruction, a prompt without history is the question label with the question, an empty line
   * and the answer cue; split on line breaks, a question without line breaks of its own gives those three lines.
   */
  lemma PromptLinesWithoutHistory(text: string, history: Option<seq<Turn>>)
    requires !HasHistory(history)
    ensures StartsWith(Prompt(text, history), Instruction)
    ensures Prompt(text, history)[|Instruction|..] == QuestionLabel + text + "\n\n" + Cue
    ensures '\n' !in text ==> Split(Prompt(text, history)[|Instruction|..], '\n') == [QuestionLabel + text, "", Cue]
  {
    var lines := [QuestionLabel + text, "", Cue];
    PlainShape(Instruction, QuestionLabel, text, Cue);
    AppendParts(Instruction, Join(lines, '\n'));
    if '\n' !in text {
      SplitJoin(lines, '\n');
    }
  }

  lemma JoinThree(l: seq<string>, sep: char)
    requires |l| == 3
    ensures Join(l, sep) == l[0] + [sep] + l[1] + [sep] + l[2]
  {
    assert l[1..][0] == l[1];
    assert l[1..][1..] == [l[2]];
    assert Join(l[1..], sep) == l[1] + [sep] + l[2];
  }

  lemma JoinFour(l: seq<string>, sep: char)
    requires |l| == 4
    ensures Join(l, sep) == l[0] + [sep] + l[1] + [sep] + l[2] + [sep] + l[3]
  {
    JoinThree(l[1..], sep);
    assert l[1..][0] == l[1] && l[1..][1] == l[2] && l[1..][2] == l[3];
  }

  /** The catch block: 503 from the provider becomes 503, every other failure 500. */
  function FailureResponse(status: Option<int>): (r: Response)
    ensures r.status == 503 <==> status == Some(503)
    ensures r.status == 503 || r.status == 500
    ensures r.body == Error(if r.status == 503 then UnavailableMessage else GenericMessage)
  {
    if status == Some(503) then Response(503, Error(UnavailableMessage))
    else Response(500, Error(GenericMessage))
  }

  /**
   * `response.data.candidates[0].content.parts[0].text`: the first part of the first candidate. A missing
   * candidate or part throws a TypeError, which carries no response status.
   */
  function Extract(result: ProviderResult): (r: Response)
    ensures r.status == 200 <==> result.Generated? && |result.candidates| > 0 && |result.candidates[0].parts| > 0
    ensures r.status == 200 ==> r.body == Summary(result.candidates[0].parts[0])
    ensures r.status != 200 ==> r == FailureResponse(if result.Rejected? then result.status else None)
  {
    match result
    case Generated(cs) =>
      if |cs| > 0 && |cs[0].parts| > 0 then Response(200, Summary(cs[0].parts[0]))
      else FailureResponse(None)
    case Rejected(status) => FailureResponse(status)
  }

  /**
   * The handler. `body` is None when the request body is not valid JSON (`request.json()` throws);
   * `apiKey` is the environment's key; `provider` is what the provider call would produce. `sent` is the
   * prompt handed to the provider, None when the provider is not called.
   */
  method Post(body: Option<Request>, apiKey: Option<string>, provider: ProviderResult)
    returns (response: Response, sent: Option<string>)
    ensures body.None? ==> response == Response(500, Error(GenericMessage)) && sent == None
    ensures body.Some? && !Truthy(body.value.text) ==> response == Response(400, Error(NoTextMessage)) && sent == None
    ensures body.Some? && Truthy(body.value.text) && !Truthy(apiKey) ==>
              response == Response(500, Error(KeyMissingMessage)) && sent == None
    ensures body.Some? && Truthy(body.value.text) && Truthy(apiKey) ==>
              sent == Some(Prompt(body.value.text.value, body.value.conversationHistory)) && response == Extract(provider)
    ensures response.status in {200, 400, 500, 503}
    ensures response.status == 200 ==> sent.Some?
  {
    sent := None;
    if body.None? {
      response := FailureResponse(None);
      return;
    }
    var request := body.value;
    if !Truthy(request.text) {
      response := Response(400, Error(NoTextMessage));
      return;
    }
    if !Truthy(apiKey) {
      response := Response(500, Error(KeyMissingMessage));
      return;
    }
    var prompt := BuildPrompt(request.text.value, request.conversationHistory);
    sent := Some(prompt);
    response := Extract(provider);
  }
}
