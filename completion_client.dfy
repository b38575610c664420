/**
 * `callGPT4API` (js/services/gptService.js:7-30) as an oracle: the remote
 * completion endpoint is the function `complete` from the prompt to what
 * came back.
 */
module CompletionClient {
  import opened Wrappers
  import opened JsText
  import opened PromptBuilder

  /** What one request to the endpoint yields. */
  datatype Reply =
    | Completed(content: string)   // an ok status with `choices[0].message.content`
    | NotOk(status: int)           // a response whose `ok` is false
    | Rejected                     // fetch rejected, or the body was not the expected envelope

  /** The error `callGPT4API` throws. */
  datatype CallError = RequestFailed(status: int) | TransportFailed

  /**
   * The call: a non-ok status becomes `RequestFailed(status)`, a rejected
   * request `TransportFailed`, and a completion is returned trimmed.
   */
  function CallGPT4API(complete: seq<Message> -> Reply, messages: seq<Message>): (r: Result<string, CallError>)
    ensures r.Success? <==> complete(messages).Completed?
    ensures r.Success? ==> r.value == [] || (!IsWhiteSpace(r.value[0]) && !IsWhiteSpace(r.value[|r.value| - 1]))
    ensures complete(messages).Completed? ==> r == Success(Trim(complete(messages).content))
    ensures complete(messages).NotOk? ==> r == Failure(RequestFailed(complete(messages).status))
    ensures complete(messages).Rejected? ==> r == Failure(TransportFailed)
  {
    match complete(messages)
    case Completed(content) => Success(Trim(content))
    case NotOk(status) => Failure(RequestFailed(status))
    case Rejected => Failure(TransportFailed)
  }
}
