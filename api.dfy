/**
 * The JSON error replies of the worker (worker/index.ts and
 * src/worker/dev-routes.ts): each refusal carries an HTTP status and an
 * `error` text.
 */
module Api {

  datatype ApiError =
    | TooManyRequests
    | MessageRequired
    | MessageTooShort
    | MessageTooLong
    | LinksNotAllowed
    | NicknameTooLong
    | InappropriateContent
    | InvalidBottleId
    | InvalidEmoji
    | BottleNotFound
    | DevEndpointsDisabled
    | NoTextInAiResponse
    | NoContentInAiResponse
    | UnexpectedAiResponse
    | InvalidGeneratedData
    | GenerationFailed
  {
    /** The HTTP status of the reply. */
    function Status(): nat {
      match this
      case TooManyRequests => 429
      case BottleNotFound => 404
      case DevEndpointsDisabled => 403
      case NoTextInAiResponse | NoContentInAiResponse | UnexpectedAiResponse
        | InvalidGeneratedData | GenerationFailed => 500
      case _ => 400
    }

    /** The `error` field of the reply body. */
    function Text(): string {
      match this
      case TooManyRequests => RateLimitedText
      case MessageRequired => MessageRequiredText
      case MessageTooShort => MessageTooShortText
      case MessageTooLong => MessageTooLongText
      case LinksNotAllowed => LinksNotAllowedText
      case NicknameTooLong => NicknameTooLongText
      case InappropriateContent => InappropriateContentText
      case InvalidBottleId => InvalidBottleIdText
      case InvalidEmoji => InvalidEmojiText
      case BottleNotFound => BottleNotFoundText
      case DevEndpointsDisabled => DevEndpointsDisabledText
      case NoTextInAiResponse => NoTextInAiResponseText
      case NoContentInAiResponse => NoContentInAiResponseText
      case UnexpectedAiResponse => UnexpectedAiResponseText
      case InvalidGeneratedData => InvalidGeneratedDataText
      case GenerationFailed => GenerationFailedText
    }
  }

  // The `error` texts, one per refusal.
  const RateLimitedText: string := "Too many requests. " + "Please try again later."
  const MessageRequiredText: string := "Message is required"
  const MessageTooShortText: string := "Message must be at least 15 characters"
  const MessageTooLongText: string := "Message must be 300 characters or less"
  const LinksNotAllowedText: string := "Messages with links are not allowed"
  const NicknameTooLongText: string := "Nickname must be 30 characters or less"
  const InappropriateContentText: string := "Your " + "content" + " contains " + "inappropriate content and cannot be sent"
  const InvalidBottleIdText: string := "Invalid bottle ID"
  const InvalidEmojiText: string := "Invalid emoji"
  const BottleNotFoundText: string := "Bottle not found"
  const DevEndpointsDisabledText: string := "Dev endpoints are not available in production"
  const NoTextInAiResponseText: string := "No text found in AI response"
  const NoContentInAiResponseText: string := "No content in AI response"
  const UnexpectedAiResponseText: string := "AI returned unexpected response format"
  const InvalidGeneratedDataText: string := "AI did not generate valid data"
  const GenerationFailedText: string := "Failed to generate fake data"

  /**
   * The outcome of one request: a successful JSON body, a refusal with an
   * error reply, or an uncaught exception (a `TypeError` on a malformed
   * body), which the framework answers with status 500.
   */
  datatype Reply<T> = Ok(body: T) | Refused(error: ApiError) | InternalError {
    function Status(): nat {
      match this
      case Ok(_) => 200
      case Refused(e) => e.Status()
      case InternalError => 500
    }

    /** The same outcome with the success body replaced. */
    function Acknowledged<U>(u: U): (r: Reply<U>)
      ensures r.Ok? <==> this.Ok?
      ensures r.Status() == this.Status()
    {
      match this
      case Ok(_) => Ok(u)
      case Refused(e) => Refused(e)
      case InternalError => InternalError
    }
  }
}
