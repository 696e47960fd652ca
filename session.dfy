/**
 The session state of the proofreader page (st.session_state in app.py): three
 fields that one run of the script reads and updates in place. A field is
 `None` until the script first assigns it. The language model is a function
 from prompt to response supplied to each run, and `modelCalls` records every
 prompt sent to it.
 */
module Session {
  import opened Optional
  import opened Affirmative
  import opened Replies
  import opened Conversation

  class SessionState {
    var messages: Option<seq<Message>>
    var waitingForCorrection: Option<bool>
    var originalText: Option<string>
    /** The prompts sent to the language model so far, in order. */
    ghost var modelCalls: seq<string>

    /** The first two fields have been assigned, and the fields form a consistent conversation. */
    ghost predicate Ready()
      reads this
    {
      messages.Some? && waitingForCorrection.Some? &&
      Consistent(State(messages.value, waitingForCorrection.value, originalText))
    }

    /** Either nothing has been assigned yet, or the session is ready. */
    ghost predicate Valid()
      reads this
    {
      (messages.None? && waitingForCorrection.None? && originalText.None?) || Ready()
    }

    /** The fields as a value of the conversation model. */
    ghost function View(): State
      reads this
      requires Ready()
    {
      State(messages.value, waitingForCorrection.value, originalText)
    }

    /** A new browser session: no field has been assigned. */
    constructor ()
      ensures Valid()
      ensures messages == None && waitingForCorrection == None && originalText == None
      ensures modelCalls == []
    {
      messages, waitingForCorrection, originalText := None, None, None;
      modelCalls := [];
    }

    /** The Clear Chat button (app.py, lines 16-18): the stored text is kept. */
    method ClearChat()
      requires Valid()
      modifies this
      ensures Ready()
      ensures messages == Some([]) && waitingForCorrection == Some(false)
      ensures originalText == old(originalText) && modelCalls == old(modelCalls)
      ensures View() == Cleared(WithDefaults(old(messages), old(waitingForCorrection), old(originalText)))
    {
      messages := Some([]);
      waitingForCorrection := Some(false);
    }

    /** Initialisation (app.py, lines 22-25): fills in only the fields that are absent. */
    method InitDefaults()
      requires Valid()
      modifies this
      ensures Ready()
      ensures messages == if old(messages).None? then Some([]) else old(messages)
      ensures waitingForCorrection ==
        if old(waitingForCorrection).None? then Some(false) else old(waitingForCorrection)
      ensures originalText == old(originalText) && modelCalls == old(modelCalls)
      ensures View() == WithDefaults(old(messages), old(waitingForCorrection), old(originalText))
    {
      if messages.None? {
        messages := Some([]);
      }
      if waitingForCorrection.None? {
        waitingForCorrection := Some(false);
      }
    }

    /** Appends one entry to the transcript, as `messages.append(...)` does. */
    method Append(m: Message)
      requires messages.Some?
      modifies this`messages
      ensures messages == Some(old(messages).value + [m])
    {
      messages := Some(messages.value + [m]);
    }

    /** Sends `prompt` to the model and records the call. */
    method Ask(prompt: string, generate: string -> string) returns (response: string)
      modifies this`modelCalls
      ensures response == generate(prompt)
      ensures modelCalls == old(modelCalls) + [prompt]
    {
      modelCalls := modelCalls + [prompt];
      response := generate(prompt);
    }

    /** New text while no offer is pending (app.py, lines 49-82). */
    method SubmitText(userInput: string, generate: string -> string)
      requires Ready() && userInput != "" && !waitingForCorrection.value
      modifies this
      ensures Ready()
      ensures View() == Turn(old(View()), userInput, generate).after
      ensures modelCalls == old(modelCalls) + Turn(old(View()), userInput, generate).calls
    {
      ghost var before := View();
      TurnKeepsConsistency(before, userInput, generate);
      NewTextTurn(before, userInput, generate);
      Append(Message(User, userInput));
      var response := Ask(MistakePrompt(userInput), generate);
      var aiResponse := FindingsMessage(response);
      Append(Message(Assistant, aiResponse));
      assert messages.value == before.messages + [Message(User, userInput), Message(Assistant, aiResponse)];
      waitingForCorrection := Some(true);
      originalText := Some(userInput);
    }

    /** A reply to the pending offer (app.py, lines 84-115). */
    method AnswerOffer(userInput: string, generate: string -> string)
      requires Ready() && userInput != "" && waitingForCorrection.value
      modifies this
      ensures Ready()
      ensures View() == Turn(old(View()), userInput, generate).after
      ensures modelCalls == old(modelCalls) + Turn(old(View()), userInput, generate).calls
    {
      ghost var before := View();
      TurnKeepsConsistency(before, userInput, generate);
      Append(Message(User, userInput));
      if IsAffirmative(userInput) {
        AcceptedOfferTurn(before, userInput, generate);
        var correction := Ask(CorrectionPrompt(originalText.value), generate);
        var correctedText := CorrectedMessage(correction);
        Append(Message(Assistant, correctedText));
        assert messages.value == before.messages + [Message(User, userInput), Message(Assistant, correctedText)];
        waitingForCorrection := Some(false);
      } else {
        DeclinedOfferTurn(before, userInput, generate);
        Append(Message(Assistant, DeclineMessage));
        assert messages.value == before.messages + [Message(User, userInput), Message(Assistant, DeclineMessage)];
        waitingForCorrection := Some(false);
      }
    }

    /** One submission from the chat box (app.py, lines 49-115); an empty one does nothing. */
    method HandleInput(userInput: string, generate: string -> string)
      requires Ready()
      modifies this
      ensures Ready()
      ensures View() == Turn(old(View()), userInput, generate).after
      ensures modelCalls == old(modelCalls) + Turn(old(View()), userInput, generate).calls
    {
      if userInput != "" && !waitingForCorrection.value {
        SubmitText(userInput, generate);
      } else if userInput != "" && waitingForCorrection.value {
        AnswerOffer(userInput, generate);
      }
    }

    /**
     One run of the script: the Clear Chat button ends the run after clearing;
     otherwise the fields are initialised and, when an API key has been entered,
     the submitted input (empty when nothing was submitted) is handled.
     */
    method RunScript(clearClicked: bool, hasApiKey: bool, userInput: string, generate: string -> string)
      requires Valid()
      modifies this
      ensures Ready()
      ensures var start := WithDefaults(old(messages), old(waitingForCorrection), old(originalText));
        && WellFormed(start)
        && View() == (if clearClicked then Cleared(start)
                      else if hasApiKey then Turn(start, userInput, generate).after
                      else start)
        && modelCalls == old(modelCalls) + (if !clearClicked && hasApiKey then Turn(start, userInput, generate).calls else [])
    {
      if clearClicked {
        ClearChat();
        return;
      }
      InitDefaults();
      if hasApiKey {
        HandleInput(userInput, generate);
      }
    }
  }

  /**
   A session as the page sees it: text, then "yes", then Clear Chat, each in its
   own run of the script. `transcript` is the conversation before it was cleared.
   */
  method ProofreadAndAccept(generate: string -> string) returns (transcript: seq<Message>, session: SessionState)
    ensures fresh(session) && session.Ready()
    ensures transcript == [
      Message(User, "I has a apple"),
      Message(Assistant, FindingsMessage(generate(MistakePrompt("I has a apple")))),
      Message(User, "yes"),
      Message(Assistant, CorrectedMessage(generate(CorrectionPrompt("I has a apple"))))]
    ensures session.modelCalls == [MistakePrompt("I has a apple"), CorrectionPrompt("I has a apple")]
    ensures session.messages == Some([]) && session.waitingForCorrection == Some(false)
    ensures session.originalText == Some("I has a apple")
  {
    session := new SessionState();
    session.RunScript(false, true, "I has a apple", generate);
    assert session.waitingForCorrection == Some(true);
    assert session.originalText == Some("I has a apple");
    AcceptedReplies("yes");
    session.RunScript(false, true, "yes", generate);
    transcript := session.messages.value;
    session.RunScript(true, true, "", generate);
  }
}
