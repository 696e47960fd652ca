/**
 The conversation controller of the proofreader (app.py, lines 49-115) as a
 function on values: one turn takes the session fields and the user's input
 and gives the new session fields and the prompts sent to the language model.
 The model itself is an arbitrary function from prompt to response, supplied
 per turn; the session class in module Session is proved to follow `Turn`.
 */
module Conversation {
  import opened Optional
  import opened Affirmative
  import opened Replies

  datatype Role = User | Assistant

  /** One entry of the transcript: `{"role": ..., "content": ...}`. */
  datatype Message = Message(role: Role, content: string)

  /** The three session fields once the first two have been initialised. */
  datatype State = State(messages: seq<Message>, waitingForCorrection: bool, originalText: Option<string>)

  /** The outcome of a turn: the new fields, and the prompts sent to the model, in order. */
  datatype Step = Step(after: State, calls: seq<string>)

  /** A fresh or cleared session that has never held any text. */
  const Initial: State := State([], false, None)

  /** While a correction is offered there is a stored text to correct. */
  predicate WellFormed(s: State) {
    s.waitingForCorrection ==> s.originalText.Some?
  }

  /** The transcript is a sequence of user/assistant pairs. */
  predicate Alternating(ms: seq<Message>) {
    |ms| % 2 == 0 && forall i :: 0 <= i < |ms| ==> ms[i].role == (if i % 2 == 0 then User else Assistant)
  }

  /**
   While a correction is offered, the transcript ends with the user's text and
   the assistant's offer, and the stored text is that user's text.
   */
  predicate OfferPending(s: State) {
    s.waitingForCorrection ==>
      && s.originalText.Some?
      && |s.messages| >= 2
      && s.messages[|s.messages| - 2] == Message(User, s.originalText.value)
      && s.messages[|s.messages| - 1].role == Assistant
      && EndsWith(s.messages[|s.messages| - 1].content, OfferSuffix)
  }

  /** Everything the controller keeps true of a session. */
  predicate Consistent(s: State) {
    WellFormed(s) && Alternating(s.messages) && OfferPending(s)
  }

  /** One turn of the controller on input `input`, the model answering with `generate`. */
  function Turn(s: State, input: string, generate: string -> string): (r: Step)
    requires WellFormed(s)
    ensures WellFormed(r.after)
  {
    if input == "" then
      Step(s, [])
    else if !s.waitingForCorrection then
      var prompt := MistakePrompt(input);
      var reply := FindingsMessage(generate(prompt));
      Step(State(s.messages + [Message(User, input), Message(Assistant, reply)], true, Some(input)), [prompt])
    else if IsAffirmative(input) then
      var prompt := CorrectionPrompt(s.originalText.value);
      var reply := CorrectedMessage(generate(prompt));
      Step(State(s.messages + [Message(User, input), Message(Assistant, reply)], false, s.originalText), [prompt])
    else
      Step(State(s.messages + [Message(User, input), Message(Assistant, DeclineMessage)], false, s.originalText), [])
  }

  /** A sequence of turns, the prompts of all of them in order. */
  function Run(s: State, inputs: seq<string>, generate: string -> string): (r: Step)
    requires WellFormed(s)
    ensures WellFormed(r.after)
    decreases |inputs|
  {
    if inputs == [] then
      Step(s, [])
    else
      var first := Turn(s, inputs[0], generate);
      var rest := Run(first.after, inputs[1..], generate);
      Step(rest.after, first.calls + rest.calls)
  }

  /** The fields after the Clear Chat button (app.py, lines 16-18). */
  function Cleared(s: State): (r: State)
    ensures r.messages == [] && !r.waitingForCorrection
    ensures r.originalText == s.originalText
  {
    State([], false, s.originalText)
  }

  /** The fields after initialisation, which fills in only the absent ones (app.py, lines 22-25). */
  function WithDefaults(messages: Option<seq<Message>>, waiting: Option<bool>, originalText: Option<string>): (r: State)
    ensures messages.Some? ==> r.messages == messages.value
    ensures messages.None? ==> r.messages == []
    ensures waiting.Some? ==> r.waitingForCorrection == waiting.value
    ensures waiting.None? ==> !r.waitingForCorrection
    ensures r.originalText == originalText
  {
    State(
      if messages.Some? then messages.value else [],
      if waiting.Some? then waiting.value else false,
      originalText)
  }

  // ---------------------------------------------------------------------------
  // One turn

  /** An empty input changes nothing and calls nothing. */
  lemma EmptyInputIsNoOp(s: State, generate: string -> string)
    requires WellFormed(s)
    ensures Turn(s, "", generate) == Step(s, [])
  {
  }

  /** New text is answered with the model's list of mistakes and an offer, and is stored. */
  lemma NewTextTurn(s: State, input: string, generate: string -> string)
    requires WellFormed(s) && !s.waitingForCorrection && input != ""
    ensures var r := Turn(s, input, generate);
      && r.calls == [MistakePrompt(input)]
      && EndsWith(r.calls[0], "Text: " + input)
      && r.after.messages == s.messages + [
           Message(User, input),
           Message(Assistant, generate(r.calls[0]) + OfferSuffix)]
      && r.after.waitingForCorrection
      && r.after.originalText == Some(input)
  {
  }

  /** An accepting reply makes one call, on a prompt built from the stored text. */
  lemma AcceptedOfferTurn(s: State, input: string, generate: string -> string)
    requires WellFormed(s) && s.waitingForCorrection && input != "" && IsAffirmative(input)
    ensures var r := Turn(s, input, generate);
      && r.calls == [CorrectionPrompt(s.originalText.value)]
      && EndsWith(r.calls[0], "Original: " + s.originalText.value)
      && r.after.messages == s.messages + [
           Message(User, input),
           Message(Assistant, CorrectionHeading + generate(r.calls[0]))]
      && !r.after.waitingForCorrection
      && r.after.originalText == s.originalText
  {
  }

  /** Any other reply gets the fixed decline message, and the model is not called. */
  lemma DeclinedOfferTurn(s: State, input: string, generate: string -> string)
    requires WellFormed(s) && s.waitingForCorrection && input != "" && !IsAffirmative(input)
    ensures var r := Turn(s, input, generate);
      && r.calls == []
      && r.after.messages == s.messages + [Message(User, input), Message(Assistant, DeclineMessage)]
      && !r.after.waitingForCorrection
      && r.after.originalText == s.originalText
  {
  }

  /**
   The correction request does not depend on the reply: any two accepting replies
   send the same prompt and get the same assistant message.
   */
  lemma CorrectionIgnoresReply(s: State, a: string, b: string, generate: string -> string)
    requires WellFormed(s) && s.waitingForCorrection
    requires a != "" && b != "" && IsAffirmative(a) && IsAffirmative(b)
    ensures Turn(s, a, generate).calls == Turn(s, b, generate).calls
    ensures Turn(s, a, generate).after.messages[|s.messages| + 1]
         == Turn(s, b, generate).after.messages[|s.messages| + 1]
  {
  }

  /** A turn calls the model at most once, and exactly when it needs the model's text. */
  lemma ModelCalledOnlyWhenNeeded(s: State, input: string, generate: string -> string)
    requires WellFormed(s)
    ensures |Turn(s, input, generate).calls| <= 1
    ensures |Turn(s, input, generate).calls| == 1 <==>
      input != "" && (!s.waitingForCorrection || IsAffirmative(input))
  {
  }

  /** A turn appends to the transcript, never rewrites it: one user entry, then one assistant entry. */
  lemma TurnAppendsPair(s: State, input: string, generate: string -> string)
    requires WellFormed(s) && input != ""
    ensures var ms := Turn(s, input, generate).after.messages;
      && |ms| == |s.messages| + 2
      && ms[..|s.messages|] == s.messages
      && ms[|s.messages|] == Message(User, input)
      && ms[|s.messages| + 1].role == Assistant
  {
  }

  /**
   The stored text is replaced only by new text; it is never cleared, also not
   when the offer has been answered.
   */
  lemma OriginalTextOnlyReplacedByNewText(s: State, input: string, generate: string -> string)
    requires WellFormed(s)
    ensures Turn(s, input, generate).after.originalText ==
      if input != "" && !s.waitingForCorrection then Some(input) else s.originalText
  {
  }

  /** A turn keeps the transcript alternating. */
  lemma TurnKeepsAlternation(s: State, input: string, generate: string -> string)
    requires WellFormed(s) && Alternating(s.messages)
    ensures Alternating(Turn(s, input, generate).after.messages)
  {
    if input != "" {
      var ms := Turn(s, input, generate).after.messages;
      TurnAppendsPair(s, input, generate);
      forall i | 0 <= i < |ms| ensures ms[i].role == (if i % 2 == 0 then User else Assistant) {
        if i < |s.messages| {
          assert ms[i] == ms[..|s.messages|][i] == s.messages[i];
        }
      }
    }
  }

  /** A turn keeps every invariant of the controller. */
  lemma TurnKeepsConsistency(s: State, input: string, generate: string -> string)
    requires Consistent(s)
    ensures Consistent(Turn(s, input, generate).after)
  {
    TurnKeepsAlternation(s, input, generate);
  }

  /**
   With the invariants, an accepting reply asks for the correction of exactly the
   user message that the pending offer answered.
   */
  lemma AcceptanceCorrectsOfferedText(s: State, input: string, generate: string -> string)
    requires Consistent(s) && s.waitingForCorrection && input != "" && IsAffirmative(input)
    ensures |s.messages| >= 2 && s.messages[|s.messages| - 2].role == User
    ensures Turn(s, input, generate).calls == [CorrectionPrompt(s.messages[|s.messages| - 2].content)]
  {
  }

  // ---------------------------------------------------------------------------
  // Clear Chat and initialisation

  /** Clearing twice is clearing once. */
  lemma ClearIsIdempotent(s: State)
    ensures Cleared(Cleared(s)) == Cleared(s)
  {
  }

  /** A cleared session satisfies every invariant of the controller, whatever it held before. */
  lemma ClearedIsConsistent(s: State)
    ensures Consistent(Cleared(s))
  {
  }

  /** Initialising keeps fields that are present and gives an empty, consistent session otherwise. */
  lemma DefaultsAreConsistent(originalText: Option<string>)
    ensures WithDefaults(None, None, originalText) == State([], false, originalText)
    ensures Consistent(WithDefaults(None, None, originalText))
  {
  }

  // ---------------------------------------------------------------------------
  // Sequences of turns

  /** Any sequence of turns keeps every invariant of the controller. */
  lemma {:induction false} RunKeepsConsistency(s: State, inputs: seq<string>, generate: string -> string)
    requires Consistent(s)
    ensures Consistent(Run(s, inputs, generate).after)
    decreases |inputs|
  {
    if inputs != [] {
      TurnKeepsConsistency(s, inputs[0], generate);
      RunKeepsConsistency(Turn(s, inputs[0], generate).after, inputs[1..], generate);
    }
  }

  /** In an alternating transcript no two neighbouring entries have the same role. */
  lemma AlternatingHasNoRepeats(ms: seq<Message>)
    requires Alternating(ms)
    ensures forall i :: 0 <= i < |ms| - 1 ==> ms[i].role != ms[i + 1].role
  {

  }

  /** Starting from an empty transcript, roles strictly alternate after any sequence of turns. */
  lemma RolesAlternateFromEmpty(s: State, inputs: seq<string>, generate: string -> string)
    requires WellFormed(s) && s.messages == [] && !s.waitingForCorrection
    ensures var ms := Run(s, inputs, generate).after.messages;
      forall i :: 0 <= i < |ms| - 1 ==> ms[i].role != ms[i + 1].role
  {
    RunKeepsConsistency(s, inputs, generate);
    AlternatingHasNoRepeats(Run(s, inputs, generate).after.messages);
  }

  /** A sequence of turns only appends to the transcript, and calls the model at most once per turn. */
  lemma {:induction false} RunAppendsOnly(s: State, inputs: seq<string>, generate: string -> string)
    requires WellFormed(s)
    ensures var r := Run(s, inputs, generate);
      |s.messages| <= |r.after.messages| && r.after.messages[..|s.messages|] == s.messages
    ensures |Run(s, inputs, generate).calls| <= |inputs|
    decreases |inputs|
  {
    if inputs != [] {
      var first := Turn(s, inputs[0], generate);
      ModelCalledOnlyWhenNeeded(s, inputs[0], generate);
      if inputs[0] != "" {
        TurnAppendsPair(s, inputs[0], generate);
      }
      RunAppendsOnly(first.after, inputs[1..], generate);
      var ms := Run(s, inputs, generate).after.messages;
      assert ms[..|first.after.messages|][..|s.messages|] == ms[..|s.messages|];
    }
  }

  // ---------------------------------------------------------------------------
  // Two conversations

  /** Two turns from a session without a pending offer, as `Run` sees them. */
  lemma RunTwo(s: State, first: string, second: string, generate: string -> string)
    requires WellFormed(s)
    ensures var t := Turn(s, first, generate);
      Run(s, [first, second], generate) ==
        Step(Turn(t.after, second, generate).after, t.calls + Turn(t.after, second, generate).calls)
  {
    var t := Turn(s, first, generate);
    var u := Turn(t.after, second, generate);
    assert [first, second][1..] == [second];
    assert [second][1..] == [];
    assert Run(u.after, [], generate) == Step(u.after, []);
  }

  /**
   New text, then an accepting reply: the model is asked about the text and then
   to correct that same text, four entries are added, and the offer is closed.
   */
  lemma OfferAccepted(s: State, text: string, reply: string, generate: string -> string)
    requires WellFormed(s) && !s.waitingForCorrection
    requires text != "" && reply != "" && IsAffirmative(reply)
    ensures var r := Run(s, [text, reply], generate);
      && r.calls == [MistakePrompt(text), CorrectionPrompt(text)]
      && r.after.messages == s.messages + [
           Message(User, text),
           Message(Assistant, FindingsMessage(generate(MistakePrompt(text)))),
           Message(User, reply),
           Message(Assistant, CorrectedMessage(generate(CorrectionPrompt(text))))]
      && !r.after.waitingForCorrection
      && r.after.originalText == Some(text)
  {
    RunTwo(s, text, reply, generate);
    NewTextTurn(s, text, generate);
    AcceptedOfferTurn(Turn(s, text, generate).after, reply, generate);
  }

  /**
   New text, then any other reply: the model is asked once, the decline message
   ends the transcript, the offer is closed and the stored text is kept.
   */
  lemma OfferDeclined(s: State, text: string, reply: string, generate: string -> string)
    requires WellFormed(s) && !s.waitingForCorrection
    requires text != "" && reply != "" && !IsAffirmative(reply)
    ensures var r := Run(s, [text, reply], generate);
      && r.calls == [MistakePrompt(text)]
      && r.after.messages == s.messages + [
           Message(User, text),
           Message(Assistant, FindingsMessage(generate(MistakePrompt(text)))),
           Message(User, reply),
           Message(Assistant, DeclineMessage)]
      && !r.after.waitingForCorrection
      && r.after.originalText == Some(text)
  {
    RunTwo(s, text, reply, generate);
    NewTextTurn(s, text, generate);
    DeclinedOfferTurn(Turn(s, text, generate).after, reply, generate);
  }

  /** Text, then "yes", in a new session: two calls, the second on the stored text; four entries. */
  lemma AcceptScenario(generate: string -> string)
    ensures var r := Run(Initial, ["I has a apple", "yes"], generate);
      && r.calls == [MistakePrompt("I has a apple"), CorrectionPrompt("I has a apple")]
      && |r.after.messages| == 4
      && !r.after.waitingForCorrection
  {
    AcceptedReplies("yes");
    OfferAccepted(Initial, "I has a apple", "yes", generate);
  }

  /** Text, then "nah", in a new session: one call, the decline message last, the text still stored. */
  lemma DeclineScenario(generate: string -> string)
    ensures var r := Run(Initial, ["She go to school", "nah"], generate);
      && r.calls == [MistakePrompt("She go to school")]
      && |r.after.messages| == 4
      && r.after.messages[3] == Message(Assistant, DeclineMessage)
      && !r.after.waitingForCorrection
      && r.after.originalText == Some("She go to school")
  {
    RejectedReplies("nah");
    OfferDeclined(Initial, "She go to school", "nah", generate);
  }
}
