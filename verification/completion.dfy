/** The outcome of the completion call and the text the matcher returns for
    it. The call itself (model, messages, token budget, temperature, the
    network) is not modelled: only whether it returned text or raised. */
module Completion {

  /** What the completion call did: returned the reply text, or raised an
      error with the given message. */
  datatype Outcome = Reply(text: string) | Raised(message: string)

  const ErrorPrefix: string := "Error matching resumes to job: "

  /** The text handed back to the caller: the reply itself, or the error
      message behind a fixed prefix. */
  function ResultText(outcome: Outcome): (text: string)
    ensures outcome.Raised? ==> ErrorPrefix <= text && text[|ErrorPrefix|..] == outcome.message
    ensures outcome.Reply? ==> text == outcome.text
  {
    match outcome
    case Reply(t) => t
    case Raised(m) => ErrorPrefix + m
  }

  /** Text without the error prefix always comes from a successful reply. */
  lemma UnprefixedMeansReply(outcome: Outcome)
    requires !(ErrorPrefix <= ResultText(outcome))
    ensures outcome.Reply? && ResultText(outcome) == outcome.text
  {
  }

  /** The converse fails: a reply that happens to start with the prefix reads
      exactly like an error, so the prefix does not identify failures. */
  lemma PrefixDoesNotIdentifyErrors(message: string)
    ensures ResultText(Reply(ErrorPrefix + message)) == ResultText(Raised(message))
  {
  }
}
