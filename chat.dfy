/**
 * The chat wrapper: a client object that remembers whether its API client
 * could be created and which model it talks to, and a response function
 * that builds a one-turn request, interprets the response shape and maps
 * error text to a user-facing reply.
 *
 * The API call is a parameter: a function from the request to either a
 * response or the text of the exception it raised.
 */
module Chat {
  import opened Wrappers
  import opened Strings

  /** The default model. */
  const DefaultModelId := "amazon.nova-micro-v1:0"

  /** The inference configuration used when the caller gives none. */
  const DefaultInferenceConfig: map<string, real> := map["temperature" := 0.7]

  const NotConnectedReply :=
    "Sorry, I couldn't connect to Amazon Bedrock. Please check your AWS credentials and configuration."
  const UnexpectedFormatReply := "I received an unexpected response format. Please try again."
  const AccessDeniedReply := "Access denied. Please check your AWS credentials and permissions for Amazon Bedrock."
  const ValidationReply := "Invalid request. Please check your input and try again."
  const ThrottlingReply := "Service is currently throttled. Please try again later."
  const GenericErrorPrefix := "Sorry, I encountered an error: "

  /** `str(e)` of the `IndexError` raised by `content[0]` on an empty content list. */
  const IndexErrorText := "list index out of range"
  /** `str(e)` of the `KeyError` raised by `['text']` on a content block without text. */
  const KeyErrorText := "'text'"

  /** The reply when the model is not found; it names the model. */
  function NotFoundReply(modelId: string): string {
    "Model '" + modelId + "' not found. Please check if the model ID is correct and available in your region."
  }

  /** One item of a request message's content. */
  datatype ContentItem = ContentItem(text: string)

  /** One conversation turn of the request. */
  datatype Message = Message(role: string, content: seq<ContentItem>)

  /** The arguments of the `converse` call. */
  datatype Request = Request(modelId: string, messages: seq<Message>, inferenceConfig: map<string, real>)

  /** The parts of a response the wrapper looks at; an absent key is `None`. */
  datatype ContentBlock = ContentBlock(text: Option<string>)
  datatype ReplyMessage = ReplyMessage(content: Option<seq<ContentBlock>>)
  datatype Output = Output(message: Option<ReplyMessage>)
  datatype Response = Response(output: Option<Output>)

  /** What the `converse` call does: respond, or raise an exception with this text. */
  datatype ConverseOutcome = Responded(response: Response) | Raised(errorText: string)

  /** The error classes the wrapper recognises in exception text, in the order it tests them. */
  datatype ErrorKind = AccessDenied | ResourceNotFound | Validation | Throttling | OtherError

  /** The marker each recognised class is detected by. */
  function Marker(k: ErrorKind): string
    requires k != OtherError
  {
    match k
    case AccessDenied => "AccessDeniedException"
    case ResourceNotFound => "ResourceNotFoundException"
    case Validation => "ValidationException"
    case Throttling => "ThrottlingException"
  }

  /** The position of a class in the test order (the unrecognised class last). */
  function Rank(k: ErrorKind): nat {
    match k
    case AccessDenied => 0
    case ResourceNotFound => 1
    case Validation => 2
    case Throttling => 3
    case OtherError => 4
  }

  /**
   * The class of an error text: the first class in test order whose marker
   * occurs in it, or `OtherError` when none does.
   */
  function Classify(errorText: string): (k: ErrorKind)
    ensures k != OtherError ==> Contains(errorText, Marker(k))
    ensures forall j :: j != OtherError && Rank(j) < Rank(k) ==> !Contains(errorText, Marker(j))
  {
    if Contains(errorText, Marker(AccessDenied)) then AccessDenied
    else if Contains(errorText, Marker(ResourceNotFound)) then ResourceNotFound
    else if Contains(errorText, Marker(Validation)) then Validation
    else if Contains(errorText, Marker(Throttling)) then Throttling
    else OtherError
  }

  /** The class is determined by that rule: a present marker with no earlier one present wins. */
  lemma FirstMarkerWins(errorText: string, k: ErrorKind)
    requires k != OtherError && Contains(errorText, Marker(k))
    requires forall j :: j != OtherError && Rank(j) < Rank(k) ==> !Contains(errorText, Marker(j))
    ensures Classify(errorText) == k
  {
  }

  /** The reply for an error of class `k` with text `errorText`, against model `modelId`. */
  function KindReply(k: ErrorKind, errorText: string, modelId: string): (r: string)
    ensures k == AccessDenied ==> r == AccessDeniedReply
    ensures k == ResourceNotFound ==> r == NotFoundReply(modelId)
    ensures k == Validation ==> r == ValidationReply
    ensures k == Throttling ==> r == ThrottlingReply
    ensures k == OtherError ==> r == GenericErrorPrefix + errorText
  {
    match k
    case AccessDenied => AccessDeniedReply
    case ResourceNotFound => NotFoundReply(modelId)
    case Validation => ValidationReply
    case Throttling => ThrottlingReply
    case OtherError => GenericErrorPrefix + errorText
  }

  /**
   * The reply for an exception with text `errorText`: the reply of the
   * first marker, in test order, that occurs in the text; the generic reply
   * with the text when none does.
   */
  function ErrorReply(errorText: string, modelId: string): (r: string)
    ensures Contains(errorText, Marker(AccessDenied)) ==> r == AccessDeniedReply
    ensures !Contains(errorText, Marker(AccessDenied)) && Contains(errorText, Marker(ResourceNotFound)) ==>
              r == NotFoundReply(modelId)
    ensures !Contains(errorText, Marker(AccessDenied)) && !Contains(errorText, Marker(ResourceNotFound)) &&
            Contains(errorText, Marker(Validation)) ==>
              r == ValidationReply
    ensures !Contains(errorText, Marker(AccessDenied)) && !Contains(errorText, Marker(ResourceNotFound)) &&
            !Contains(errorText, Marker(Validation)) && Contains(errorText, Marker(Throttling)) ==>
              r == ThrottlingReply
    ensures !Contains(errorText, Marker(AccessDenied)) && !Contains(errorText, Marker(ResourceNotFound)) &&
            !Contains(errorText, Marker(Validation)) && !Contains(errorText, Marker(Throttling)) ==>
              r == GenericErrorPrefix + errorText
  {
    KindReply(Classify(errorText), errorText, modelId)
  }

  /** The not-found reply names the model, and the generic reply ends with the error text. */
  lemma KindReplyMentions(k: ErrorKind, errorText: string, modelId: string)
    ensures k == ResourceNotFound ==> Contains(KindReply(k, errorText, modelId), modelId)
    ensures k == OtherError ==> EndsWith(KindReply(k, errorText, modelId), errorText)
  {
    var r := KindReply(k, errorText, modelId);
    if k == ResourceNotFound {
      assert r[7..7 + |modelId|] == modelId;
      assert OccursAt(r, modelId, 7);
    }
  }

  /**
   * The reply for the outcome of the call: the first content block's text
   * when the response has `output.message.content`, the unexpected-format
   * reply when any of those keys is missing, and the error reply for a raised
   * exception, including the ones indexing the content raises.
   */
  function ReplyFor(outcome: ConverseOutcome, modelId: string): (r: string)
    ensures outcome.Raised? ==> r == ErrorReply(outcome.errorText, modelId)
    ensures outcome.Responded? && ContentOf(outcome.response).None? ==> r == UnexpectedFormatReply
    ensures outcome.Responded? && ContentOf(outcome.response) == Some([]) ==>
              r == ErrorReply(IndexErrorText, modelId)
    ensures outcome.Responded? && ContentOf(outcome.response).Some? && ContentOf(outcome.response).value != [] ==>
              r == match ContentOf(outcome.response).value[0].text
                   case Some(t) => t
                   case None => ErrorReply(KeyErrorText, modelId)
  {
    match outcome
    case Raised(e) => ErrorReply(e, modelId)
    case Responded(response) =>
      match ContentOf(response)
      case None => UnexpectedFormatReply
      case Some(blocks) =>
        if blocks == [] then ErrorReply(IndexErrorText, modelId)
        else match blocks[0].text
             case Some(t) => t
             case None => ErrorReply(KeyErrorText, modelId)
  }

  /** `response['output']['message']['content']`, or `None` when one of the keys is missing. */
  function ContentOf(response: Response): (content: Option<seq<ContentBlock>>)
    ensures content.Some? <==> response.output.Some? && response.output.value.message.Some? &&
                               response.output.value.message.value.content.Some?
    ensures content.Some? ==> content == response.output.value.message.value.content
  {
    match response.output
    case None => None
    case Some(output) =>
      match output.message
      case None => None
      case Some(message) => message.content
  }

  /** An error text without any of `A`, `R`, `V`, `T` is not a recognised class. */
  lemma NoMarkerInitial(errorText: string)
    requires 'A' !in errorText && 'R' !in errorText && 'V' !in errorText && 'T' !in errorText
    ensures Classify(errorText) == OtherError
  {
    MissingCharNotContained(errorText, Marker(AccessDenied), 0);
    MissingCharNotContained(errorText, Marker(ResourceNotFound), 0);
    MissingCharNotContained(errorText, Marker(Validation), 0);
    MissingCharNotContained(errorText, Marker(Throttling), 0);
  }

  /**
   * The exceptions Python raises while reading the content (an empty list,
   * a block without text) get the generic reply with Python's own text.
   */
  lemma ContentErrorsAreGeneric(errorText: string, modelId: string)
    requires errorText == IndexErrorText || errorText == KeyErrorText
    ensures ErrorReply(errorText, modelId) == GenericErrorPrefix + errorText
  {
    if errorText == IndexErrorText {
      NoMarkerInitial(IndexErrorText);
    } else {
      NoMarkerInitial(KeyErrorText);
    }
  }

  /** The chat client object. */
  class BedrockChat {
    /** Whether the API client was created. */
    var initialized: bool
    /** The model id; it is only stored when the client was created. */
    var modelId: Option<string>

    ghost predicate Valid()
      reads this
    {
      initialized <==> modelId.Some?
    }

    /** `__init__`: `clientCreated` says whether creating the API client succeeded or raised. */
    constructor (clientCreated: bool, modelId: string := DefaultModelId)
      ensures Valid()
      ensures initialized == clientCreated
      ensures clientCreated ==> this.modelId == Some(modelId)
    {
      if clientCreated {
        this.modelId := Some(modelId);
        initialized := true;
      } else {
        this.modelId := None;
        initialized := false;
      }
    }

    /**
     * The request `generate_response` sends, or `None` when the client is
     * not initialised and nothing is sent. It carries the stored model,
     * exactly one user turn whose one content item is the message, and the
     * given inference configuration or the default one.
     */
    function RequestFor(message: string, config: Option<map<string, real>>): (r: Option<Request>)
      reads this
      requires Valid()
      ensures r.None? <==> !initialized
      ensures r.Some? ==> r.value.modelId == modelId.value
      ensures r.Some? ==> |r.value.messages| == 1 && r.value.messages[0].role == "user"
      ensures r.Some? ==> r.value.messages[0].content == [ContentItem(message)]
      ensures r.Some? && config.None? ==> r.value.inferenceConfig == DefaultInferenceConfig
      ensures r.Some? && config.Some? ==> r.value.inferenceConfig == config.value
    {
      if !initialized then None
      else Some(Request(modelId.value, [Message("user", [ContentItem(message)])], config.GetOr(DefaultInferenceConfig)))
    }

    /**
     * `generate_response`: the not-connected reply when the client is not
     * initialised, otherwise the reply for what the call does with the
     * request.
     */
    function GenerateResponse(message: string, config: Option<map<string, real>>,
                              converse: Request -> ConverseOutcome): (r: string)
      reads this
      requires Valid()
      ensures !initialized ==> r == NotConnectedReply
      ensures initialized ==> r == ReplyFor(converse(RequestFor(message, config).value), modelId.value)
    {
      match RequestFor(message, config)
      case None => NotConnectedReply
      case Some(request) => ReplyFor(converse(request), modelId.value)
    }

    /** Without a client the reply does not depend on what the call would do. */
    lemma NotInitialisedSkipsCall(message: string, config: Option<map<string, real>>,
                                  c1: Request -> ConverseOutcome, c2: Request -> ConverseOutcome)
      requires Valid() && !initialized
      ensures GenerateResponse(message, config, c1) == GenerateResponse(message, config, c2) == NotConnectedReply
    {
    }
  }
}
