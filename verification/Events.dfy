/** Event envelopes as the delivery tables see them (src/shared/events/index.ts, src/shared/events/inbox.ts). */
module Events {
  import opened Prelude
  import opened Ids

  /** `content` stands for the JSON value of the stored text; `decodable` for whether it is a valid envelope. */
  datatype Envelope = Envelope(id: ID, content: string, decodable: bool)

  datatype Failure =
    | IdReused | LeaseLost | InvalidConsumer | PublishFailed(reason: string) | InvalidReceipt | InvalidToken

  /** `CONSUMER_NAME`: `/^[a-z0-9_.-]{1,64}$/`. */
  predicate IsConsumer(name: string) {
    1 <= |name| <= 64
    && forall i | 0 <= i < |name| :: IsLowerLetter(name[i]) || IsDigit(name[i]) || name[i] in "_.-"
  }

  /** What a handler or publisher answers: nothing on success, an error type otherwise. */
  type Outcome = Option<string>
}
