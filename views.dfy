/** The request handlers of the chat backend over an in-memory user table and
    an append-only message table: register, login, the user directory,
    sending a message and reading the feed, and the token-guarded entry
    points in front of the last three. */
module Views {
  import opened Optional
  import opened Json
  import opened Models
  import opened Http
  import Auth

  /** A request body after `json.loads`: not JSON at all, JSON that is not an
      object (so `data.get` raises), or an object read into the fields the
      handler asks for. */
  datatype RequestBody<T> = InvalidJson | NotAnObject | Parsed(form: T)

  /** The `username` and `password` fields; `None` when absent or null. */
  datatype Credentials = Credentials(username: Option<string>, password: Option<string>)

  /** The fields of a new message: `content` (`None` when absent or null),
      and `to` and `image` as sent (an absent key reads as null). */
  datatype MessageForm = MessageForm(content: Option<string>, to: Value, image: Value)

  const InvalidJsonText := "Invalid JSON"
  const CredentialsRequired := "Username and password are required"
  const UsernameExists := "Username already exists"
  const InvalidCredentials := "Invalid credentials"
  const ContentRequired := "Content is required"
  const RecipientNotFound := "Recipient user not found"
  const InvalidImage := "Invalid image data"

  /** `if not username or not password` fails for neither field. */
  predicate Filled(f: Credentials) {
    f.username.Some? && f.username.value != "" && f.password.Some? && f.password.value != ""
  }

  /** `User.objects.filter(username=name).exists()`. */
  function UsernameTaken(users: seq<User>, name: string): (taken: bool)
    ensures taken <==> exists u :: u in users && u.username == name
  {
    FindByUsername(users, name).Some?
  }

  /** `authenticate(username=..., password=...)`: the user with that exact
      username, provided the password hashes to the stored hash. An unknown
      username and a wrong password both give nothing. */
  function Authenticate(users: seq<User>, hasher: string -> string, name: string, password: string): (r: Option<User>)
    ensures r.Some? ==> r.value in users && r.value.username == name && r.value.passwordHash == hasher(password)
    ensures UniqueUsernames(users) ==>
      (r.None? <==> forall u :: u in users && u.username == name ==> u.passwordHash != hasher(password))
  {
    match FindByUsername(users, name)
    case None => None
    case Some(u) => if u.passwordHash == hasher(password) then Some(u) else None
  }

  /** A token that `login` issues passes the guard and binds the very user
      whose credentials were checked. */
  lemma LoginTokenPassesGuard(users: seq<User>, hasher: string -> string, codec: Auth.Codec, secret: string,
                              name: string, password: string)
    requires Auth.Sound(codec) && UniqueIds(users)
    requires Authenticate(users, hasher, name, password).Some?
    ensures var u := Authenticate(users, hasher, name, password).value;
      Auth.Check(users, Some(Auth.CreateToken(codec, secret, u)), codec, secret) == Auth.Admit(u)
  {
    Auth.IssuedTokenAdmitsOwner(users, codec, secret, Authenticate(users, hasher, name, password).value);
  }

  /** The user directory: one `{id, username}` entry per stored user, in table order. */
  function Directory(users: seq<User>): (entries: seq<UserRef>)
    ensures |entries| == |users|
    ensures forall i :: 0 <= i < |users| ==> entries[i] == users[i].Ref()
  {
    if users == [] then [] else [users[0].Ref()] + Directory(users[1..])
  }

  // ---------------------------------------------------------------------------
  // The feed

  /** The visibility rule: my own messages, messages to me, and public ones. */
  predicate CanSee(uid: int, m: Message)
    ensures m.sender.id == uid ==> CanSee(uid, m)
    ensures m.IsPublic() ==> CanSee(uid, m)
    ensures CanSee(uid, m) && m.sender.id != uid && !m.IsPublic() ==> m.recipient.value.id == uid
  {
    m.sender.id == uid || (m.recipient.Some? && m.recipient.value.id == uid) || m.recipient.None?
  }

  /** The feed query of user `uid` over a table kept in insertion order: the
      visible messages, most recently inserted first. */
  function Feed(ms: seq<Message>, uid: int): (feed: seq<Message>)
    ensures |feed| <= |ms|
    ensures forall m :: m in feed ==> m in ms && CanSee(uid, m)
  {
    if ms == [] then []
    else Feed(ms[1..], uid) + (if CanSee(uid, ms[0]) then [ms[0]] else [])
  }

  /** The feed holds exactly the stored messages the user may see. */
  lemma {:induction false} FeedMembers(ms: seq<Message>, uid: int)
    ensures forall m :: m in Feed(ms, uid) <==> m in ms && CanSee(uid, m)
  {
    if ms != [] {
      FeedMembers(ms[1..], uid);
      assert ms == [ms[0]] + ms[1..];
    }
  }

  /** In a table whose stamps grow with insertion, the feed is strictly newest
      first: it follows `order_by('-created_at')` and repeats no message. */
  lemma {:induction false} FeedNewestFirst(ms: seq<Message>, uid: int)
    requires forall i, j :: 0 <= i < j < |ms| ==> ms[i].createdAt < ms[j].createdAt
    ensures forall i, j :: 0 <= i < j < |Feed(ms, uid)| ==> Feed(ms, uid)[i].createdAt > Feed(ms, uid)[j].createdAt
    ensures NewestFirst(Feed(ms, uid))
  {
    if ms != [] {
      var rest := ms[1..];
      FeedNewestFirst(rest, uid);
      FeedMembers(rest, uid);
      forall m | m in Feed(rest, uid) ensures m.createdAt > ms[0].createdAt {
        var k :| 0 <= k < |rest| && rest[k] == m;
        assert m == ms[k + 1];
      }
    }
  }

  /** A public message reaches every user's feed, its sender's included. */
  lemma PublicReachesEveryone(ms: seq<Message>, m: Message, uid: int)
    requires m in ms && m.IsPublic()
    ensures m in Feed(ms, uid)
  {
    FeedMembers(ms, uid);
  }

  /** A private message reaches the feeds of its sender and its recipient, and
      no other. */
  lemma PrivateReachesOnlyItsParties(ms: seq<Message>, m: Message, uid: int)
    requires m in ms && !m.IsPublic()
    ensures m in Feed(ms, uid) <==> uid == m.sender.id || uid == m.recipient.value.id
  {
    FeedMembers(ms, uid);
  }

  /** A feed entry: `to` only for a private message, `image` only when
      stored. Only the stamp is dropped: the entry and the stamp give back the
      message. */
  function ItemOf(m: Message): (item: MessageItem)
    ensures Message(item.content, item.sender, item.recipient, item.image, m.createdAt) == m
    ensures item.recipient.Some? <==> !m.IsPublic()
  {
    MessageItem(m.content, m.sender, m.recipient, m.image)
  }

  /** The entries of a feed, one per message, in the same order. */
  function ItemsOf(ms: seq<Message>): (items: seq<MessageItem>)
    ensures |items| == |ms|
    ensures forall k :: 0 <= k < |ms| ==>
      && items[k] == ItemOf(ms[k])
      && (items[k].recipient.Some? <==> !ms[k].IsPublic())
  {
    if ms == [] then [] else [ItemOf(ms[0])] + ItemsOf(ms[1..])
  }

  // ---------------------------------------------------------------------------
  // Sending a message

  /** Where `to` sends a message: nowhere in particular when falsy, else to
      the user the id lookup finds, if it finds one and does not raise. */
  datatype Addressee = Everyone | To(user: User) | NoSuchUser | LookupFault

  function AddresseeFor(users: seq<User>, to: Value): (a: Addressee)
    ensures a.Everyone? <==> !Truthy(to)
    ensures a.To? ==> a.user in users && IdQueryFor(to) == ById(a.user.id)
    ensures Truthy(to) && IdQueryFor(to).ById? ==>
      (a.To? <==> exists u :: u in users && u.id == IdQueryFor(to).id)
    ensures a.NoSuchUser? <==>
      Truthy(to) && (IdQueryFor(to).MatchesNone? || (IdQueryFor(to).ById? && FindById(users, IdQueryFor(to).id).None?))
    ensures a.LookupFault? <==> Truthy(to) && IdQueryFor(to).Raises?
  {
    if !Truthy(to) then Everyone
    else match IdQueryFor(to)
      case ById(id) => (match FindById(users, id) case Some(u) => To(u) case None => NoSuchUser)
      case MatchesNone => NoSuchUser
      case Raises => LookupFault
  }

  /** `image` is offered when it is a non-empty object whose `name` and
      `content` are both truthy; anything else is silently ignored. */
  predicate ImageOffered(image: Value) {
    image.Object? && Truthy(image) && Truthy(GetField(image.fields, "name")) && Truthy(GetField(image.fields, "content"))
  }

  /** What becomes of an offered image: stored under a fresh name, refused
      because its content is not base64 text, or failing at save because its
      name is not text. */
  datatype Attachment = NoImage | Attach(path: string) | Undecodable | NameNotText

  /** `base64.b64decode(content)` returns instead of raising. */
  predicate Decodes(content: Value, decode: string -> Option<seq<bv8>>) {
    content.Str? && decode(content.s).Some?
  }

  function AttachmentFor(image: Value, decode: string -> Option<seq<bv8>>, hex: string): (a: Attachment)
    requires IsUuidHex(hex)
    ensures a.NoImage? <==> !ImageOffered(image)
    ensures a.Undecodable? <==> ImageOffered(image) && !Decodes(GetField(image.fields, "content"), decode)
    ensures a.Attach? <==>
      ImageOffered(image) && Decodes(GetField(image.fields, "content"), decode) && GetField(image.fields, "name").Str?
    ensures a.Attach? ==> a.path == UploadTo(hex, GetField(image.fields, "name").s)
  {
    if !ImageOffered(image) then NoImage
    else
      var name := GetField(image.fields, "name");
      var data := GetField(image.fields, "content");
      if !Decodes(data, decode) then Undecodable
      else if !name.Str? then NameNotText
      else Attach(UploadTo(hex, name.s))
  }

  /** A form `send_message` accepts: non-empty content, no recipient or a
      found one, and no image or one that decodes and has a text name. */
  predicate Deliverable(users: seq<User>, f: MessageForm, decode: string -> Option<seq<bv8>>, hex: string)
    requires IsUuidHex(hex)
  {
    && f.content.Some? && f.content.value != ""
    && (AddresseeFor(users, f.to).Everyone? || AddresseeFor(users, f.to).To?)
    && (AttachmentFor(f.image, decode, hex).NoImage? || AttachmentFor(f.image, decode, hex).Attach?)
  }

  /** The response of `send_message` and the message it saves, if any. */
  datatype SendResult = SendResult(response: Response, saved: Option<Message>)

  /** `send_message` for `me`, stamping a saved message with `now`. Its checks
      run in a fixed order (content, then recipient, then image); every
      failure answers with `success: False` and saves nothing. */
  function SendOutcome(users: seq<User>, me: User, body: RequestBody<MessageForm>,
                       decode: string -> Option<seq<bv8>>, hex: string, now: nat): (r: SendResult)
    requires IsUuidHex(hex)
    ensures r.saved.Some? <==> r.response == Response(200, Success)
    ensures r.saved.Some? <==> body.Parsed? && Deliverable(users, body.form, decode, hex)
    ensures body.Parsed? && Deliverable(users, body.form, decode, hex) ==>
      var a := AddresseeFor(users, body.form.to);
      var i := AttachmentFor(body.form.image, decode, hex);
      r.saved == Some(Message(body.form.content.value, me.Ref(),
                              if a.To? then Some(a.user.Ref()) else None,
                              if i.Attach? then Some(i.path) else None, now))
    ensures r.saved.None? ==> r.response.status in {400, 500} && r.response.body.Failure? != r.response.body.Fault?
    ensures r.saved.Some? ==>
      && body.Parsed? && body.form.content == Some(r.saved.value.content) && r.saved.value.content != ""
      && r.saved.value.sender == me.Ref()
      && r.saved.value.createdAt == now
      && (r.saved.value.recipient.None? <==> !Truthy(body.form.to))
      && (r.saved.value.recipient.Some? ==> exists u :: u in users && u.Ref() == r.saved.value.recipient.value)
      && (r.saved.value.image.Some? <==> ImageOffered(body.form.image))
    ensures body.Parsed? && body.form.content == Some("") ==> r.response == Response(400, Failure(ContentRequired))
    ensures body.Parsed? && body.form.content.None? ==> r.response == Response(500, Fault(true))
    ensures body.Parsed? && body.form.content.Some? && body.form.content.value != "" && AddresseeFor(users, body.form.to).NoSuchUser?
      ==> r.response == Response(400, Failure(RecipientNotFound))
    ensures body.Parsed? && body.form.content.Some? && body.form.content.value != "" && AddresseeFor(users, body.form.to).LookupFault?
      ==> r.response == Response(500, Fault(true))
    ensures body.InvalidJson? ==> r.response == Response(400, Failure(InvalidJsonText))
    ensures body.NotAnObject? ==> r.response == Response(500, Fault(true))
  {
    match body
    case InvalidJson => SendResult(Response(400, Failure(InvalidJsonText)), None)
    case NotAnObject => SendResult(Response(500, Fault(true)), None)
    case Parsed(f) =>
      if f.content.None? then SendResult(Response(500, Fault(true)), None)   // len(None) raises
      else if f.content.value == "" then SendResult(Response(400, Failure(ContentRequired)), None)
      else match AddresseeFor(users, f.to)
        case NoSuchUser => SendResult(Response(400, Failure(RecipientNotFound)), None)
        case LookupFault => SendResult(Response(500, Fault(true)), None)
        case Everyone => Save(f.content.value, me, None, AttachmentFor(f.image, decode, hex), now)
        case To(u) => Save(f.content.value, me, Some(u.Ref()), AttachmentFor(f.image, decode, hex), now)
  }

  /** The last step of `send_message`: the image check, then the save. */
  function Save(content: string, me: User, recipient: Option<UserRef>, a: Attachment, now: nat): (r: SendResult)
    ensures r.saved.Some? <==> a.NoImage? || a.Attach?
    ensures r.saved.Some? ==>
      && r.response == Response(200, Success)
      && r.saved.value == Message(content, me.Ref(), recipient, if a.Attach? then Some(a.path) else None, now)
    ensures a.Undecodable? ==> r.response == Response(400, Failure(InvalidImage))
    ensures a.NameNotText? ==> r.response == Response(500, Fault(true))
  {
    match a
    case Undecodable => SendResult(Response(400, Failure(InvalidImage)), None)
    case NameNotText => SendResult(Response(500, Fault(true)), None)
    case NoImage => SendResult(Response(200, Success), Some(Message(content, me.Ref(), recipient, None, now)))
    case Attach(path) => SendResult(Response(200, Success), Some(Message(content, me.Ref(), recipient, Some(path), now)))
  }

  /** The first failing check decides: empty content is reported even when
      the recipient is unknown and the image is broken, and an unknown
      recipient is reported even when the image is broken. */
  lemma SendCheckOrder(users: seq<User>, me: User, content: Option<string>, to: Value, image: Value,
                       decode: string -> Option<seq<bv8>>, hex: string, now: nat)
    requires IsUuidHex(hex)
    ensures var r := SendOutcome(users, me, Parsed(MessageForm(content, to, image)), decode, hex, now);
      && (content == Some("") ==> r.response == Response(400, Failure(ContentRequired)))
      && ((content.Some? && content.value != "" && AddresseeFor(users, to).NoSuchUser?)
            ==> r.response == Response(400, Failure(RecipientNotFound)))
      && ((content.Some? && content.value != "" && (AddresseeFor(users, to).Everyone? || AddresseeFor(users, to).To?)
            && AttachmentFor(image, decode, hex).Undecodable?)
            ==> r.response == Response(400, Failure(InvalidImage)))
  {
  }

  /** A private message to a stored user, its id sent as a number or as
      decimal text, is saved with that user as its recipient. */
  lemma SendReachesRecipient(users: seq<User>, me: User, content: string, u: User,
                             decode: string -> Option<seq<bv8>>, hex: string, now: nat)
    requires IsUuidHex(hex) && UniqueIds(users) && u in users && u.id > 0 && content != ""
    ensures var saved := SendResult(Response(200, Success), Some(Message(content, me.Ref(), Some(u.Ref()), None, now)));
      && SendOutcome(users, me, Parsed(MessageForm(Some(content), Int(u.id), Null)), decode, hex, now) == saved
      && SendOutcome(users, me, Parsed(MessageForm(Some(content), Str(DecimalText(u.id)), Null)), decode, hex, now) == saved
  {
    FindByIdFindsOwner(users, u);
    DecimalRoundTrip(u.id);
  }

  // ---------------------------------------------------------------------------
  // The messages endpoint as written: the REST framework's request wrapper,
  // configured with no authentication classes, rebinds `request.user` to its
  // anonymous user after the token guard has bound the token's owner.

  /** `send_message` run for the anonymous user: the JSON and content checks
      answer as usual, and building the message from the anonymous user then
      raises, so nothing is ever saved. */
  function AnonymousSend(body: RequestBody<MessageForm>): (resp: Response)
    ensures resp.status != 200
    ensures body.Parsed? && body.form.content.Some? && body.form.content.value != "" ==>
      resp == Response(500, Fault(true))
  {
    match body
    case InvalidJson => Response(400, Failure(InvalidJsonText))
    case NotAnObject => Response(500, Fault(true))
    case Parsed(f) =>
      if f.content.None? then Response(500, Fault(true))
      else if f.content.value == "" then Response(400, Failure(ContentRequired))
      else Response(500, Fault(true))   // `Message(from_user=<anonymous>)` raises
  }

  /** Up to the content checks the anonymous send answers as the intended one. */
  lemma AnonymousSendAgreesBeforeSave(users: seq<User>, me: User, body: RequestBody<MessageForm>,
                                      decode: string -> Option<seq<bv8>>, hex: string, now: nat)
    requires IsUuidHex(hex)
    requires !(body.Parsed? && body.form.content.Some? && body.form.content.value != "")
    ensures AnonymousSend(body) == SendOutcome(users, me, body, decode, hex, now).response
  {
  }

  /** The messages endpoint as written, after the guard's verdict `v`: the
      guard's refusals as usual; once admitted, every send fails, the feed
      query on the anonymous user raises, and other methods get 405. */
  function MessagesAsWritten(v: Auth.Verdict, verb: Verb, body: RequestBody<MessageForm>): (resp: Response)
    ensures resp.status != 200
    ensures !v.Admit? ==> Auth.Rejection(v) == Some(resp)
    ensures v.Admit? && verb == Get ==> resp == Response(500, Fault(false))
  {
    if !v.Admit? then Auth.Rejection(v).value
    else match verb
      case Post => AnonymousSend(body)
      case Get => Response(500, Fault(false))   // filtering on the anonymous user raises
      case OtherVerb => Response(405, NotAllowed)
  }

  /** As written, the owner of a freshly issued token is admitted by the guard
      and still cannot post "hi" or read the feed. */
  lemma RebindingRefusesTokenOwner(users: seq<User>, c: Auth.Codec, secret: string, u: User)
    requires Auth.Sound(c) && UniqueIds(users) && u in users
    ensures var v := Auth.Check(users, Some(Auth.CreateToken(c, secret, u)), c, secret);
      && v == Auth.Admit(u)
      && MessagesAsWritten(v, Post, Parsed(MessageForm(Some("hi"), Null, Null))) == Response(500, Fault(true))
      && MessagesAsWritten(v, Get, InvalidJson) == Response(500, Fault(false))
  {
    Auth.IssuedTokenAdmitsOwner(users, c, secret, u);
  }

  /** As intended, the owner of an issued token posts as itself: the guard
      admits that user, and the send saves a message from that user. */
  lemma TokenOwnerPostsAsSelf(users: seq<User>, c: Auth.Codec, secret: string, u: User, content: string,
                              decode: string -> Option<seq<bv8>>, hex: string, now: nat)
    requires Auth.Sound(c) && UniqueIds(users) && u in users && content != "" && IsUuidHex(hex)
    ensures var v := Auth.Check(users, Some(Auth.CreateToken(c, secret, u)), c, secret);
      && v == Auth.Admit(u)
      && SendOutcome(users, v.user, Parsed(MessageForm(Some(content), Null, Null)), decode, hex, now)
         == SendResult(Response(200, Success), Some(Message(content, u.Ref(), None, None, now)))
  {
    Auth.IssuedTokenAdmitsOwner(users, c, secret, u);
  }

  // ---------------------------------------------------------------------------
  // The store

  /** Whether a message refers to stored users only. */
  ghost predicate Refers(users: seq<User>, m: Message) {
    && (exists u :: u in users && u.Ref() == m.sender)
    && (m.recipient.Some? ==> exists u :: u in users && u.Ref() == m.recipient.value)
  }

  /** The invariant of the two tables: user ids count up from 1 in insertion
      order, usernames are unique, message stamps grow with insertion and stay
      below the clock, and every message refers to stored users. */
  ghost predicate Consistent(users: seq<User>, messages: seq<Message>, clock: nat) {
    && (forall i :: 0 <= i < |users| ==> users[i].id == i + 1)
    && UniqueUsernames(users)
    && (forall i, j :: 0 <= i < j < |messages| ==> messages[i].createdAt < messages[j].createdAt)
    && (forall i :: 0 <= i < |messages| ==> messages[i].createdAt < clock)
    && (forall m :: m in messages ==> Refers(users, m))
  }

  /** Consistent tables have unique user ids, as the token lemmas require. */
  lemma {:induction false} ConsistentIdsUnique(users: seq<User>, messages: seq<Message>, clock: nat)
    requires Consistent(users, messages, clock)
    ensures UniqueIds(users)
  {
    forall i, j | 0 <= i < j < |users| ensures users[i].id != users[j].id {
      assert users[i].id == i + 1 && users[j].id == j + 1;
    }
  }

  /** In consistent tables every feed is newest first. */
  lemma ConsistentFeedNewestFirst(users: seq<User>, messages: seq<Message>, clock: nat, uid: int)
    requires Consistent(users, messages, clock)
    ensures NewestFirst(Feed(messages, uid))
  {
    FeedNewestFirst(messages, uid);
  }

  /** Appending a user with the next id and an unused username keeps the
      tables consistent. */
  lemma AddUserKeepsConsistent(users: seq<User>, messages: seq<Message>, clock: nat, u: User)
    requires Consistent(users, messages, clock)
    requires u.id == |users| + 1 && !UsernameTaken(users, u.username)
    ensures Consistent(users + [u], messages, clock)
  {
    forall m | m in messages ensures Refers(users + [u], m) {
      assert Refers(users, m);
      var w :| w in users && w.Ref() == m.sender;
      assert w in users + [u];
      if m.recipient.Some? {
        var v :| v in users && v.Ref() == m.recipient.value;
        assert v in users + [u];
      }
    }
  }

  /** Appending a message stamped with the clock, from and to stored users,
      and advancing the clock keeps the tables consistent. */
  lemma AddMessageKeepsConsistent(users: seq<User>, messages: seq<Message>, clock: nat, m: Message)
    requires Consistent(users, messages, clock)
    requires m.createdAt == clock && Refers(users, m)
    ensures Consistent(users, messages + [m], clock + 1)
  {
  }

  class ChatStore {
    /** The user table, in insertion order. */
    var users: seq<User>
    /** The message table, in insertion order. */
    var messages: seq<Message>
    /** The stamp the next message receives. */
    var clock: nat

    /** `JWT_SECRET_KEY` and the token library. */
    const codec: Auth.Codec
    const secret: string
    /** The one-way password hasher (salting included). */
    const hasher: string -> string
    /** `normalize_username`: the Unicode NFKC normal form that `create_user`
        stores in place of the username it is given. */
    const normalize: string -> string
    /** `base64.b64decode` on text: the bytes, or nothing when it raises. */
    const decodeBase64: string -> Option<seq<bv8>>

    /** The tables are consistent; see `Consistent`. */
    ghost predicate Valid()
      reads this
    {
      Consistent(users, messages, clock)
    }

    constructor (codec: Auth.Codec, secret: string, hasher: string -> string,
                 normalize: string -> string, decodeBase64: string -> Option<seq<bv8>>)
      ensures Valid()
      ensures users == [] && messages == [] && clock == 0
      ensures this.codec == codec && this.secret == secret && this.hasher == hasher
      ensures this.normalize == normalize && this.decodeBase64 == decodeBase64
    {
      users, messages, clock := [], [], 0;
      this.codec, this.secret, this.hasher := codec, secret, hasher;
      this.normalize, this.decodeBase64 := normalize, decodeBase64;
    }

    /** `register`: refuses a missing or empty field, then an existing
        username as sent; otherwise stores exactly one new user under the
        normal form of the name, or fails with 500 when the unique username
        constraint refuses that form. Messages never change. */
    method Register(body: RequestBody<Credentials>) returns (resp: Response)
      requires Valid()
      modifies this
      ensures Valid()
      ensures messages == old(messages) && clock == old(clock)
      ensures body.InvalidJson? ==> resp == Response(400, Failure(InvalidJsonText)) && users == old(users)
      ensures body.NotAnObject? ==> resp == Response(500, Fault(true)) && users == old(users)
      ensures body.Parsed? && !Filled(body.form) ==>
        resp == Response(400, Failure(CredentialsRequired)) && users == old(users)
      ensures body.Parsed? && Filled(body.form) && UsernameTaken(old(users), body.form.username.value) ==>
        resp == Response(400, Failure(UsernameExists)) && users == old(users)
      ensures (&& body.Parsed? && Filled(body.form) && !UsernameTaken(old(users), body.form.username.value)
               && UsernameTaken(old(users), normalize(body.form.username.value))) ==>
        resp == Response(500, Fault(true)) && users == old(users)
      ensures (&& body.Parsed? && Filled(body.form) && !UsernameTaken(old(users), body.form.username.value)
               && !UsernameTaken(old(users), normalize(body.form.username.value))) ==>
        && resp == Response(200, Success)
        && users == old(users) + [User(|old(users)| + 1, normalize(body.form.username.value), hasher(body.form.password.value))]
    {
      if body.InvalidJson? {
        return Response(400, Failure(InvalidJsonText));
      }
      if body.NotAnObject? {
        return Response(500, Fault(true));
      }
      var username := body.form.username;
      var password := body.form.password;
      if username.None? || username.value == "" || password.None? || password.value == "" {
        return Response(400, Failure(CredentialsRequired));
      }
      if UsernameTaken(users, username.value) {
        return Response(400, Failure(UsernameExists));
      }
      var name := normalize(username.value);
      if UsernameTaken(users, name) {
        // the insert violates the unique constraint on the username
        return Response(500, Fault(true));
      }
      var user := User(|users| + 1, name, hasher(password.value));
      AddUserKeepsConsistent(users, messages, clock, user);
      users := users + [user];
      resp := Response(200, Success);
    }

    /** `login`: refuses a missing or empty field with 400, answers an unknown
        username and a wrong password with the same 401, and otherwise issues
        a token for the authenticated user. */
    method Login(body: RequestBody<Credentials>) returns (resp: Response)
      ensures body.InvalidJson? ==> resp == Response(400, Error(InvalidJsonText))
      ensures body.NotAnObject? ==> resp == Response(500, Fault(false))
      ensures body.Parsed? && !Filled(body.form) ==> resp == Response(400, Error(CredentialsRequired))
      ensures body.Parsed? && Filled(body.form) ==>
        match Authenticate(users, hasher, body.form.username.value, body.form.password.value)
        case None => resp == Response(401, Error(InvalidCredentials))
        case Some(u) => resp == Response(200, Issued(Auth.CreateToken(codec, secret, u)))
    {
      if body.InvalidJson? {
        return Response(400, Error(InvalidJsonText));
      }
      if body.NotAnObject? {
        return Response(500, Fault(false));
      }
      var username := body.form.username;
      var password := body.form.password;
      if username.None? || username.value == "" || password.None? || password.value == "" {
        return Response(400, Error(CredentialsRequired));
      }
      var user := Authenticate(users, hasher, username.value, password.value);
      if user.Some? {
        resp := Response(200, Issued(Auth.CreateToken(codec, secret, user.value)));
      } else {
        resp := Response(401, Error(InvalidCredentials));
      }
    }

    /** `users`: one `{id, username}` entry per stored user, built by a loop. */
    method ListUsers() returns (resp: Response)
      ensures resp == Response(200, UserList(Directory(users)))
    {
      var entries: seq<UserRef> := [];
      var i := 0;
      while i < |users|
        invariant 0 <= i <= |users|
        invariant entries == Directory(users)[..i]
      {
        entries := entries + [users[i].Ref()];
        i := i + 1;
      }
      assert Directory(users)[..i] == Directory(users);
      resp := Response(200, UserList(entries));
    }

    /** `send_message` for the authenticated user `me`; `hex` is the random
        name an uploaded image is stored under. Exactly the message
        `SendOutcome` describes is appended, and nothing on failure. */
    method SendMessage(me: User, body: RequestBody<MessageForm>, hex: string) returns (resp: Response)
      requires Valid() && me in users && IsUuidHex(hex)
      modifies this
      ensures Valid()
      ensures users == old(users)
      ensures var r := SendOutcome(old(users), me, body, decodeBase64, hex, old(clock));
        && resp == r.response
        && messages == old(messages) + (if r.saved.Some? then [r.saved.value] else [])
        && clock == old(clock) + (if r.saved.Some? then 1 else 0)
    {
      if body.InvalidJson? {
        return Response(400, Failure(InvalidJsonText));
      }
      if body.NotAnObject? {
        return Response(500, Fault(true));
      }
      var content := body.form.content;
      var toUserId := body.form.to;
      var imageData := body.form.image;
      if content.None? {
        // `len(content)` raises on None before the emptiness check.
        return Response(500, Fault(true));
      }
      if content.value == "" {
        return Response(400, Failure(ContentRequired));
      }
      var addressee := LookUpRecipient(toUserId);
      if addressee.NoSuchUser? {
        return Response(400, Failure(RecipientNotFound));
      }
      if addressee.LookupFault? {
        return Response(500, Fault(true));
      }
      var recipient := if addressee.To? then Some(addressee.user.Ref()) else None;
      var attachment := ProcessImage(imageData, hex);
      if attachment.Undecodable? {
        return Response(400, Failure(InvalidImage));
      }
      if attachment.NameNotText? {
        // the upload name is split at save time, which raises on non-text
        return Response(500, Fault(true));
      }
      var image := if attachment.Attach? then Some(attachment.path) else None;
      assert SendOutcome(users, me, body, decodeBase64, hex, clock) ==
        SendResult(Response(200, Success), Some(Message(content.value, me.Ref(), recipient, image, clock)));
      var message := Message(content.value, me.Ref(), recipient, image, clock);
      Append(message);
      resp := Response(200, Success);
    }

    /** `message.save()`: the message joins the table with the next stamp. */
    method Append(m: Message)
      requires Valid() && m.createdAt == clock && Refers(users, m)
      modifies this
      ensures Valid()
      ensures users == old(users) && messages == old(messages) + [m] && clock == old(clock) + 1
    {
      AddMessageKeepsConsistent(users, messages, clock, m);
      messages := messages + [m];
      clock := clock + 1;
    }

    /** The recipient step of `send_message`: a falsy `to` sends to everyone,
        otherwise the id lookup runs on the user table. */
    method LookUpRecipient(to: Value) returns (a: Addressee)
      ensures a == AddresseeFor(users, to)
    {
      if !Truthy(to) {
        return Everyone;
      }
      match IdQueryFor(to) {
        case Raises =>
          a := LookupFault;
        case MatchesNone =>
          a := NoSuchUser;
        case ById(id) =>
          var found := FindById(users, id);
          if found.None? {
            a := NoSuchUser;
          } else {
            a := To(found.value);
          }
      }
    }

    /** The image step of `send_message`: an offered image is decoded, then
        stored under `upload_to` of its name. */
    method ProcessImage(image: Value, hex: string) returns (a: Attachment)
      requires IsUuidHex(hex)
      ensures a == AttachmentFor(image, decodeBase64, hex)
    {
      if !(Truthy(image) && image.Object?) {
        return NoImage;
      }
      var name := GetField(image.fields, "name");
      var content := GetField(image.fields, "content");
      if !(Truthy(name) && Truthy(content)) {
        return NoImage;
      }
      if !content.Str? || decodeBase64(content.s).None? {
        return Undecodable;
      }
      if !name.Str? {
        return NameNotText;
      }
      a := Attach(UploadTo(hex, name.s));
    }

    /** `get_messages` for the authenticated user `me`: the feed query, then
        a loop that turns each message into its entry. */
    method GetMessages(me: User) returns (resp: Response)
      ensures resp == Response(200, MessageList(ItemsOf(Feed(messages, me.id))))
      ensures Valid() ==> NewestFirst(Feed(messages, me.id))
    {
      var visible := Feed(messages, me.id);
      var items: seq<MessageItem> := [];
      var i := 0;
      while i < |visible|
        invariant 0 <= i <= |visible|
        invariant items == ItemsOf(visible)[..i]
      {
        items := items + [ItemOf(visible[i])];
        i := i + 1;
      }
      assert ItemsOf(visible)[..i] == ItemsOf(visible);
      resp := Response(200, MessageList(items));
      if Valid() {
        ConsistentFeedNewestFirst(users, messages, clock, me.id);
      }
    }

    /** The guarded `users` endpoint. */
    method HandleUsers(req: Request) returns (resp: Response)
      modifies req
      ensures var v := Auth.Check(users, req.apiKey, codec, secret);
        && (v.Admit? ==> resp == Response(200, UserList(Directory(users))) && req.user == Some(v.user))
        && (!v.Admit? ==> resp == Auth.Rejection(v).value && req.user == old(req.user))
    {
      var denied := Auth.Guard(req, users, codec, secret);
      if denied.Some? {
        return denied.value;
      }
      resp := ListUsers();
    }

    /** The guarded `messages` endpoint: the guard, then POST sends and GET
        reads the feed of the user the guard bound. */
    method HandleMessages(req: Request, verb: Verb, body: RequestBody<MessageForm>, hex: string) returns (resp: Response)
      requires Valid() && IsUuidHex(hex)
      modifies this, req
      ensures Valid()
      ensures users == old(users)
      ensures var v := Auth.Check(old(users), req.apiKey, codec, secret);
        && (!v.Admit? ==> resp == Auth.Rejection(v).value && req.user == old(req.user) && messages == old(messages))
        && (v.Admit? ==> req.user == Some(v.user))
        && (v.Admit? && verb == Get ==>
              resp == Response(200, MessageList(ItemsOf(Feed(old(messages), v.user.id)))) && messages == old(messages))
        && (v.Admit? && verb == Post ==>
              var r := SendOutcome(old(users), v.user, body, decodeBase64, hex, old(clock));
              resp == r.response && messages == old(messages) + (if r.saved.Some? then [r.saved.value] else []))
        && (v.Admit? && verb == OtherVerb ==> resp == Response(405, NotAllowed) && messages == old(messages))
    {
      var denied := Auth.Guard(req, users, codec, secret);
      if denied.Some? {
        return denied.value;
      }
      var me := req.user.value;
      if verb == Post {
        resp := SendMessage(me, body, hex);
      } else if verb == Get {
        resp := GetMessages(me);
      } else {
        resp := Response(405, NotAllowed);
      }
    }

    /** The `messages` endpoint as written: after the guard, the framework's
        request wrapper rebinds `request.user` to the anonymous user, so an
        admitted request never stores a message. */
    method HandleMessagesAsWritten(req: Request, verb: Verb, body: RequestBody<MessageForm>) returns (resp: Response)
      modifies req
      ensures var v := Auth.Check(users, req.apiKey, codec, secret);
        && resp == MessagesAsWritten(v, verb, body)
        && (v.Admit? ==> req.user == None)
        && (!v.Admit? ==> req.user == old(req.user))
    {
      var denied := Auth.Guard(req, users, codec, secret);
      if denied.Some? {
        return denied.value;
      }
      req.user := None;   // the framework's anonymous user
      if verb == Post {
        resp := AnonymousSend(body);
      } else if verb == Get {
        resp := Response(500, Fault(false));
      } else {
        resp := Response(405, NotAllowed);
      }
    }
  }

  /** A walk-through: alice and bob register, alice posts "hi" to everyone
      and bob writes "secret" to alice. Both see both messages, newest first;
      carol, registered afterwards, sees only "hi"; a second "alice" is refused. */
  method Walkthrough() {
    var codec := Auth.Codec((claims, key) => "token", (token, key) => Auth.Invalid);
    var store := new ChatStore(codec, "key", p => p, name => name, text => None);
    var hex := "0123456789abcdef0123456789abcdef";
    assert IsUuidHex(hex);

    var r := store.Register(Parsed(Credentials(Some("alice"), Some("pw1"))));
    assert r == Response(200, Success);
    r := store.Register(Parsed(Credentials(Some("bob"), Some("pw2"))));
    assert r == Response(200, Success);
    var alice, bob := User(1, "alice", "pw1"), User(2, "bob", "pw2");
    assert store.users == [alice, bob];

    var post := Parsed(MessageForm(Some("hi"), Null, Null));
    var hi := Message("hi", alice.Ref(), None, None, 0);
    assert SendOutcome(store.users, alice, post, store.decodeBase64, hex, 0) == SendResult(Response(200, Success), Some(hi));
    r := store.SendMessage(alice, post, hex);
    assert store.messages == [hi];
    WalkthroughPrivate(store, hex);
  }

  /** The walk-through, continued: bob writes to alice, then carol registers. */
  method WalkthroughPrivate(store: ChatStore, hex: string)
    requires store.Valid() && IsUuidHex(hex)
    requires store.users == [User(1, "alice", "pw1"), User(2, "bob", "pw2")]
    requires store.messages == [Message("hi", UserRef(1, "alice"), None, None, 0)] && store.clock == 1
    requires store.hasher == (p => p) && store.normalize == (name => name)
    modifies store
  {
    var alice, bob := store.users[0], store.users[1];
    var post := Parsed(MessageForm(Some("secret"), Int(1), Null));
    var secret := Message("secret", bob.Ref(), Some(alice.Ref()), None, 1);
    assert FindById(store.users, 1) == Some(alice);
    assert SendOutcome(store.users, bob, post, store.decodeBase64, hex, 1) == SendResult(Response(200, Success), Some(secret));
    var r := store.SendMessage(bob, post, hex);
    r := store.Register(Parsed(Credentials(Some("carol"), Some("pw3"))));
    assert r == Response(200, Success);
    WalkthroughFeeds(store);
  }

  /** The feeds of the walk-through's three users. */
  lemma WalkthroughFeedValues(ms: seq<Message>)
    requires ms == [
      Message("hi", UserRef(1, "alice"), None, None, 0),
      Message("secret", UserRef(2, "bob"), Some(UserRef(1, "alice")), None, 1)]
    ensures var hi := MessageItem("hi", UserRef(1, "alice"), None, None);
      var secret := MessageItem("secret", UserRef(2, "bob"), Some(UserRef(1, "alice")), None);
      && ItemsOf(Feed(ms, 1)) == [secret, hi]
      && ItemsOf(Feed(ms, 2)) == [secret, hi]
      && ItemsOf(Feed(ms, 3)) == [hi]
  {
    assert ms[1..] == [ms[1]] && ms[1..][1..] == [];
    assert Feed(ms[1..], 1) == [ms[1]] && Feed(ms[1..], 2) == [ms[1]] && Feed(ms[1..], 3) == [];
    assert Feed(ms, 1) == [ms[1], ms[0]] && Feed(ms, 2) == [ms[1], ms[0]] && Feed(ms, 3) == [ms[0]];
  }

  /** The walk-through, concluded: the three feeds, and a refused second "alice". */
  method WalkthroughFeeds(store: ChatStore)
    requires store.Valid()
    requires store.users == [User(1, "alice", "pw1"), User(2, "bob", "pw2"), User(3, "carol", "pw3")]
    requires store.messages == [
      Message("hi", UserRef(1, "alice"), None, None, 0),
      Message("secret", UserRef(2, "bob"), Some(UserRef(1, "alice")), None, 1)]
    modifies store
  {
    var alice, bob, carol := store.users[0], store.users[1], store.users[2];
    var hi := MessageItem("hi", alice.Ref(), None, None);
    var secret := MessageItem("secret", bob.Ref(), Some(alice.Ref()), None);
    WalkthroughFeedValues(store.messages);
    var r := store.GetMessages(alice);
    assert r == Response(200, MessageList([secret, hi]));
    r := store.GetMessages(bob);
    assert r == Response(200, MessageList([secret, hi]));
    r := store.GetMessages(carol);
    assert r == Response(200, MessageList([hi]));
    assert UsernameTaken(store.users, "alice");
    r := store.Register(Parsed(Credentials(Some("alice"), Some("other"))));
    assert r == Response(400, Failure(UsernameExists));
  }
}
