/**
 The strings the controller builds: the two prompts sent to the language model
 and the three kinds of assistant message (app.py, lines 60-75, 96-101, 110).
 The instruction text at the head of each prompt is kept as a fixed, uninterpreted
 prefix; only how the user's text is embedded after it matters here.
 */
module Replies {

  /** `s` starts with `prefix`. */
  predicate StartsWith(s: string, prefix: string) {
    |prefix| <= |s| && s[..|prefix|] == prefix
  }

  /** `s` ends with `suffix`. */
  predicate EndsWith(s: string, suffix: string) {
    |suffix| <= |s| && s[|s| - |suffix|..] == suffix
  }

  /** Stand-in for the instructions that ask for a numbered list of mistakes. */
  const MistakeInstructions: string := "[instructions: list each grammar, spelling and verb tense mistake]\n\n"

  /** Stand-in for the instructions that ask for the corrected text only. */
  const CorrectionInstructions: string := "[instructions: give only the corrected text and a short explanation]\n\n"

  /** The offer appended to every list of mistakes. */
  const OfferSuffix: string := "\n\n---\n\n**Would you like me to generate an error-free version of your text?**"

  /** The heading put in front of every corrected text. */
  const CorrectionHeading: string := "**Here's your error-free version:**\n\n"

  /** The fixed answer to a reply that declines the offer. */
  const DeclineMessage: string := "No problem! Feel free to paste new text whenever you're ready. \U{1F60A}"

  /** The prompt asking the model to find the mistakes in `text`. */
  function MistakePrompt(text: string): (p: string)
    ensures StartsWith(p, MistakeInstructions)
    ensures EndsWith(p, "Text: " + text)
  {
    MistakeInstructions + "Text: " + text
  }

  /** The prompt asking the model to correct `original`. */
  function CorrectionPrompt(original: string): (p: string)
    ensures StartsWith(p, CorrectionInstructions)
    ensures EndsWith(p, "Original: " + original)
  {
    CorrectionInstructions + "Original: " + original
  }

  /** The assistant message that shows the model's list of mistakes and offers a correction. */
  function FindingsMessage(response: string): (m: string)
    ensures StartsWith(m, response)
    ensures EndsWith(m, OfferSuffix)
  {
    response + OfferSuffix
  }

  /** The assistant message that shows the model's corrected text. */
  function CorrectedMessage(response: string): (m: string)
    ensures StartsWith(m, CorrectionHeading)
    ensures EndsWith(m, response)
  {
    CorrectionHeading + response
  }

  /** The text that follows a fixed prefix: the inverse of prepending it. */
  function AfterPrefix(s: string, prefix: string): (r: string)
    requires StartsWith(s, prefix)
    ensures prefix + r == s
  {
    s[|prefix|..]
  }

  /** The text that precedes a fixed suffix: the inverse of appending it. */
  function BeforeSuffix(s: string, suffix: string): (r: string)
    requires EndsWith(s, suffix)
    ensures r + suffix == s
  {
    s[..|s| - |suffix|]
  }

  /** The text a mistake-finding prompt was built from can be read back from it. */
  lemma MistakePromptRoundTrip(text: string)
    ensures AfterPrefix(MistakePrompt(text), MistakeInstructions + "Text: ") == text
  {

  }

  /** The original a correction prompt was built from can be read back from it. */
  lemma CorrectionPromptRoundTrip(original: string)
    ensures AfterPrefix(CorrectionPrompt(original), CorrectionInstructions + "Original: ") == original
  {

  }

  /** The model's response can be read back from a findings message. */
  lemma FindingsMessageRoundTrip(response: string)
    ensures BeforeSuffix(FindingsMessage(response), OfferSuffix) == response
  {
  }

  /** The model's response can be read back from a corrected-text message. */
  lemma CorrectedMessageRoundTrip(response: string)
    ensures AfterPrefix(CorrectedMessage(response), CorrectionHeading) == response
  {
  }

  /** Distinct texts give distinct prompts, so a prompt identifies the text it embeds. */
  lemma PromptsAreInjective(a: string, b: string)
    ensures MistakePrompt(a) == MistakePrompt(b) ==> a == b
    ensures CorrectionPrompt(a) == CorrectionPrompt(b) ==> a == b
  {
    MistakePromptRoundTrip(a);
    MistakePromptRoundTrip(b);
    CorrectionPromptRoundTrip(a);
    CorrectionPromptRoundTrip(b);
  }
}
