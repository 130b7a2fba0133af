/** What the handlers return (a status and a JSON body), and the request
    object the token guard decorates with the authenticated user. */
module Http {
  import opened Optional
  import opened Models

  /** The HTTP method of a request. */
  datatype Verb = Get | Post | OtherVerb

  /** One entry of the message feed: `{content, from, to?, image?}`. */
  datatype MessageItem = MessageItem(
    content: string,
    sender: UserRef,
    recipient: Option<UserRef>,
    image: Option<string>)

  datatype Body =
    | Success                        // {'success': True}
    | Failure(error: string)         // {'success': False, 'error': ...}
    | Error(error: string)           // {'error': ...}
    | Fault(withSuccessFlag: bool)   // a caught exception: {'error': str(e)}, with 'success': False when the flag is set
    | Issued(token: string)          // {'token': ...}
    | UserList(users: seq<UserRef>)  // {'users': [...]}
    | MessageList(messages: seq<MessageItem>)  // {'messages': [...]}
    | Unhandled                      // an exception no handler catches: the framework's error page
    | NotAllowed                     // a method the view does not accept

  datatype Response = Response(status: int, body: Body)

  /** The parts of a request the token guard reads and writes. */
  class Request {
    /** The `x-api-key` header, if sent. */
    const apiKey: Option<string>
    /** `request.user`; `None` stands for the anonymous user. */
    var user: Option<User>

    constructor (apiKey: Option<string>)
      ensures this.apiKey == apiKey && user == None
    {
      this.apiKey := apiKey;
      user := None;
    }
  }
}
