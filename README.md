# AI Proofreader: the conversation controller

The proofreader is a one-page chat. The user pastes a text. A language model lists the
grammar, spelling and verb-tense mistakes in it, and the page offers an error-free version.
The user's next message answers that offer. If it contains an affirmative keyword, the
model is asked to correct the stored text. Any other answer gets a fixed "No problem!"
message. A Clear Chat button empties the transcript.

Everything else on the page is rendering, configuration or the model service. The logic
lives in three session fields:

- `messages`: the transcript, a list of `{role, content}` entries appended in place;
- `waiting_for_correction`: set while an offer is pending;
- `original_text`: the last text that was proofread.

The project has five modules, one file each:

- `optional.dfy` (`Optional`): an `Option` type, for session fields that have not been assigned yet.
- `affirmative.dfy` (`Affirmative`): lowercasing, Python's substring test `w in s`, and the
  keyword test on a reply. This is the pure part of the controller.
- `replies.dfy` (`Replies`): the two prompts and the three kinds of assistant message, as
  string functions, with their round trips.
- `conversation.dfy` (`Conversation`): the controller as a function on values. `Turn` is one
  submission, `Run` a sequence of them, and `Cleared` and `WithDefaults` are the button and the
  initialisation. Its lemmas state what each kind of turn does, which invariants every turn
  keeps, and how two-turn conversations end.
- `session.dfy` (`Session`): class `SessionState` holds the three fields and updates them in
  place. Its methods mirror the script: `ClearChat`, `InitDefaults`, `HandleInput` (split into
  `SubmitText` and `AnswerOffer`, the script's two branches) and `RunScript`, which is one run
  of the page. Each method is proved to follow the value model. A ghost field `modelCalls`
  logs every prompt sent to the model.

The language model is a parameter `generate: string -> string`, given afresh to every run of
the script. Each turn calls the model at most once, so within one turn a function can stand for
any answer the service gives. `Conversation.Run` and the lemmas about it use one function for a
whole sequence of turns (see "## Left out"). The call log is what lets the model state "no call was made" and
"the prompt embeds the stored text, not the reply".

### Behaviour as the code has it

- `original_text` is never cleared. Clear Chat resets only the other two fields, and so does
  answering the offer; only new text overwrites it. So "a stored text exists exactly while an
  offer is pending" is not true of the code. The model proves the direction the code keeps:
  while an offer is pending, a stored text exists, and it equals the user entry just before the
  offer (`Conversation.OfferPending`). A design in which the pending text is cleared together
  with the flag would differ here. The model follows the code.
- An empty submission does nothing, because both branches test the input's truthiness.
  `RunScript` gets the empty string when nothing was submitted, since `None` and `""` behave
  the same there.
- A reply is tested by substring, not by word. So "I'm not sure" and "no, not okay" are
  accepted (`Affirmative.AcceptedRefusals`), and the keyword "okay" never changes the outcome,
  because "ok" already matches (`Affirmative.OkayIsRedundant`).
- Clear Chat runs before initialisation and ends the run (`st.rerun()`). Initialisation runs
  only when the button was not pressed, and the turn handler runs only when an API key was
  entered.

## Model

| member | source | states |
|---|---|---|
| `Affirmative.LowerChar` | app.py:92 | lowercasing one character leaves no upper-case ASCII letter, maps 'A'..'Z' onto 'a'..'z' in order, and leaves every other character unchanged |
| `Affirmative.Lower` | app.py:92 | the lowercased reply has the same length, and each position is its character lowercased |
| `Affirmative.LowerIdempotent` | app.py:92 | lowercasing twice is lowercasing once |
| `Affirmative.Contains` | app.py:93 | the left-to-right scan is true exactly when the word occurs somewhere in the text as a contiguous substring, which is Python's `word in text` |
| `Affirmative.AnyOccurs` | app.py:93 | `any(word in s for word in words)` is true exactly when some word of the list occurs in `s` |
| `Affirmative.IsAffirmative` | app.py:92-93 | a reply accepts the offer exactly when one of "yes", "yeah", "sure", "ok", "okay", "yep", "please" occurs in the lowercased reply |
| `Affirmative.AffirmativeIgnoresCase` | app.py:92-93 | the verdict on a reply and on the lowercased reply are the same |
| `Affirmative.AffirmativeInContext` | app.py:93 | an accepting reply stays accepting with any text before and after it |
| `Affirmative.OkayIsRedundant` | app.py:93 | the verdict is the same without the keyword "okay", because every reply containing it contains "ok" |
| `Affirmative.RejectedWithout` | app.py:93 | a reply whose lowercase form has none of 'y', 's', 'k', 'p' is rejected, since every keyword holds one of them |
| `Affirmative.AcceptedReplies` | app.py:92-93 | "yes", "Sure!", "ok please" and "YEAH" are accepted |
| `Affirmative.AcceptedRefusals` | app.py:93 | "I'm not sure" and "no, not okay" are accepted, because the test is by substring |
| `Affirmative.RejectedReplies` | app.py:93 | "no", "later", "" and "nah" are rejected |
| `Replies.MistakePrompt` | app.py:60-72 | the mistake-finding prompt starts with the fixed instructions and ends with "Text: " followed by the user's text |
| `Replies.CorrectionPrompt` | app.py:96-98 | the correction prompt starts with the fixed instructions and ends with "Original: " followed by the stored text |
| `Replies.FindingsMessage` | app.py:75 | the assistant's findings message starts with the model's response and ends with the offer of an error-free version |
| `Replies.CorrectedMessage` | app.py:101 | the corrected-text message starts with the heading "**Here's your error-free version:**" and a blank line, and ends with the model's response |
| `Replies.MistakePromptRoundTrip` | app.py:60-72 | the user's text can be read back from the mistake-finding prompt |
| `Replies.CorrectionPromptRoundTrip` | app.py:96-98 | the stored text can be read back from the correction prompt |
| `Replies.FindingsMessageRoundTrip` | app.py:75 | the model's response can be read back from the findings message |
| `Replies.CorrectedMessageRoundTrip` | app.py:101 | the model's response can be read back from the corrected-text message |
| `Replies.PromptsAreInjective` | app.py:60-98 | different texts give different prompts of either kind |
| `Conversation.Turn` | app.py:49-115 | a turn keeps the invariant that a pending offer has a stored text to correct |
| `Conversation.Run` | app.py:49-115 | a sequence of turns keeps the same invariant |
| `Conversation.Cleared` | app.py:16-18 | Clear Chat empties the transcript, clears the flag and keeps the stored text |
| `Conversation.WithDefaults` | app.py:22-25 | initialisation keeps the transcript and the flag when present, gives an empty transcript and a cleared flag when absent, and keeps the stored text |
| `Conversation.EmptyInputIsNoOp` | app.py:49-84 | an empty input changes no field and calls nothing |
| `Conversation.NewTextTurn` | app.py:49-81 | new text, with no offer pending, makes exactly one call, whose prompt ends with "Text: " and the input. It appends the user entry and then the response plus the offer, sets the flag and stores the input |
| `Conversation.AcceptedOfferTurn` | app.py:92-105 | an accepting reply makes exactly one call, on the correction prompt for the stored text. It appends the reply and then the heading plus the response, clears the flag and keeps the stored text |
| `Conversation.DeclinedOfferTurn` | app.py:107-114 | any other reply makes no call. It appends the reply and then the fixed decline message, clears the flag and keeps the stored text |
| `Conversation.CorrectionIgnoresReply` | app.py:96-104 | two accepting replies send the same prompt and get the same assistant message, so the correction depends on the stored text and not on the reply |
| `Conversation.ModelCalledOnlyWhenNeeded` | app.py:49-115 | a turn calls the model at most once. It calls it exactly when the input is non-empty and either no offer is pending or the reply accepts |
| `Conversation.TurnAppendsPair` | app.py:49-115 | a non-empty turn keeps the old transcript as a prefix and appends one user entry holding the input, then one assistant entry |
| `Conversation.OriginalTextOnlyReplacedByNewText` | app.py:81 | the stored text becomes the input after new text and is otherwise unchanged; it is never cleared |
| `Conversation.TurnKeepsAlternation` | app.py:51-113 | a turn keeps the transcript a sequence of user/assistant pairs |
| `Conversation.TurnKeepsConsistency` | app.py:49-115 | a turn keeps every invariant: stored text while an offer is pending, alternating roles, and the offer answering the stored user text |
| `Conversation.AcceptanceCorrectsOfferedText` | app.py:79-98 | in a consistent session, an accepting reply asks for the correction of exactly the user entry that the pending offer answered |
| `Conversation.ClearIsIdempotent` | app.py:16-18 | clearing twice is clearing once |
| `Conversation.ClearedIsConsistent` | app.py:16-18 | a cleared session satisfies every invariant, whatever it held before |
| `Conversation.DefaultsAreConsistent` | app.py:22-25 | initialising a session with no fields gives an empty transcript and a cleared flag, and keeps the stored text. The result satisfies every invariant |
| `Conversation.RunKeepsConsistency` | app.py:49-115 | every sequence of turns keeps every invariant |
| `Conversation.AlternatingHasNoRepeats` | app.py:51-113 | in an alternating transcript no two neighbouring entries have the same role |
| `Conversation.RolesAlternateFromEmpty` | app.py:51-113 | from an empty transcript, after any sequence of turns, no two neighbouring entries have the same role |
| `Conversation.RunAppendsOnly` | app.py:49-115 | a sequence of turns only appends to the transcript and calls the model at most once per turn |
| `Conversation.OfferAccepted` | app.py:49-105 | text and then an accepting reply: two calls, the second on the same text. The four entries come in order, the flag is cleared and the text stays stored |
| `Conversation.OfferDeclined` | app.py:49-114 | text and then any other reply: one call. The decline message is the last of four entries, the flag is cleared and the text stays stored |
| `Conversation.AcceptScenario` | app.py:49-105 | "I has a apple" then "yes" in a new session: both prompts embed "I has a apple", four entries, offer closed |
| `Conversation.DeclineScenario` | app.py:49-114 | "She go to school" then "nah" in a new session: one call, four entries ending with the decline message, offer closed, text still stored |
| `Session.SessionState.constructor` | app.py:22-25 | a new session has no field assigned and no model call |
| `Session.SessionState.ClearChat` | app.py:16-18 | sets the transcript to empty and the flag to false, keeps the stored text and makes no call |
| `Session.SessionState.InitDefaults` | app.py:22-25 | assigns the transcript and the flag only where absent, and keeps what was present |
| `Session.SessionState.Append` | app.py:51 | appends one entry to the transcript in place |
| `Session.SessionState.Ask` | app.py:74 | returns the model's response to the prompt and logs the call |
| `Session.SessionState.SubmitText` | app.py:49-82 | the new-text branch updates the fields as `Turn` does and logs its one call |
| `Session.SessionState.AnswerOffer` | app.py:84-115 | the reply branch updates the fields as `Turn` does and logs at most one call |
| `Session.SessionState.HandleInput` | app.py:49-115 | one submission updates the fields as `Turn` does and logs exactly `Turn`'s calls; the session stays consistent |
| `Session.SessionState.RunScript` | app.py:16-115 | one run of the page: Clear Chat clears and ends the run; otherwise the fields are initialised and, with an API key, the input is handled as `Turn` does |
| `Session.ProofreadAndAccept` | app.py:16-115 | three runs of the page on a new session, "I has a apple", then "yes", then Clear Chat: before clearing, the transcript holds the text, the findings with the offer, the reply and the corrected text, in that order. Both logged prompts embed "I has a apple". Afterwards the transcript is empty, the flag is false and the text is still stored |

## Left out

- Rendering: page configuration, title, sidebar, chat bubbles, spinners, the welcome and
  help text. None of it changes the session fields.
- The API key: the text box, `genai.configure` and the construction of the model object. In
  `RunScript` only the truthiness of the key is kept, as the flag `hasApiKey`.
- The model service: `generate_content` is the parameter `generate`. Its failures are not
  modelled. In the code an exception aborts the run after the user entry has been appended, so
  nothing here claims that a failed call leaves the transcript untouched.
- `Affirmative.LowerChar`, `Affirmative.Lower`: Python's `str.lower()` applies full Unicode case
  mapping; the model lowercases ASCII letters only, and leaves every other character unchanged.
  Python lowers 'É' to 'é', and lowers 'İ' to two characters, so it also does not keep the
  length of every string. The verdict can differ on replies with non-ASCII characters that
  lowercase to ASCII letters, such as the Kelvin sign, which lowercases to 'k'.
- `Conversation.Run`: one `generate` function answers every turn of the sequence, so the same
  prompt gets the same response in every turn. The live service may answer the same prompt
  differently each time. `RunKeepsConsistency`, `RolesAlternateFromEmpty`, `RunAppendsOnly`,
  `OfferAccepted`, `OfferDeclined`, `AcceptScenario` and `DeclineScenario` are stated under
  that assumption, though none of them compares two responses. `Session.SessionState.RunScript`
  takes its own `generate` on each run and is not restricted this way.
- `Replies.MistakePrompt`, `Replies.CorrectionPrompt`: the instruction text of each prompt is a
  fixed placeholder. Only the final "Text: " or "Original: " line and the text it embeds are as
  in the code.
- The transcript is re-displayed on every run, and `st.rerun()` starts a new run. The model
  takes each run as one call of `RunScript`, with the input of that run.
- Concurrency between browser sessions: each browser session has its own session state,
  and the model covers one of them.
