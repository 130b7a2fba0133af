# Chat backend: store, token guard and upload naming

A sequential model of a small chat backend built on Django. The backend keeps
a user table and an append-only message table. Its request handlers let a
client register, log in for a signed bearer token, list the users, send a
public or private message (optionally with an image), and read a feed. The
feed holds the reader's own messages, the messages sent to the reader, and
every public message, newest first. The last three handlers sit behind a
guard that reads the `x-api-key` header, decodes the token and binds
`request.user`.

Modules, one per part of the system:

- `Optional` (optional.dfy) and `Json` (json.dfy): `Option`, JSON values, and
  Python's truthiness on them (`if not x`, `d.get(k)`).
- `Models` (models.dfy, for `chat/models.py`): the `User` and `Message`
  records, the lookups the handlers run on the user table, and `upload_to` with
  the string operations it uses (`split`, `os.path.join`).
- `Http` (http.dfy): responses as a status and a body tag, and the `Request`
  object whose `user` field the guard sets.
- `Auth` (authentication.dfy, for `chat/authentication.py`): the claim set of
  issued tokens, `decode_jwt_token`, the guard's decision (`Check`) and the
  imperative guard (`Guard`). Tokens are JSON Web Tokens (RFC 7519) signed with
  HMAC SHA-256 (section 3.2 of RFC 7518). Signing and checking are an abstract
  `Codec` pair. The round trip for the payloads this backend issues is the
  hypothesis `Sound(codec)`, taken as a precondition by the lemmas that need
  it, not as an axiom.
- `Views` (views.dfy, for `chat/views.py`): the class `ChatStore` with the two
  tables and the handlers as methods. The pure specifications they are proved
  against are `Feed`, `ItemsOf`, `Directory` and `SendOutcome`, with lemmas
  about them. `HandleMessagesAsWritten` and `MessagesAsWritten` model the
  messages endpoint as deployed (see "## Findings"). `Walkthrough` is a
  client that registers alice and bob. Alice
  posts "hi" to everyone and bob writes "secret" to alice. Its assertions
  state every feed and that a second "alice" is refused.

The model follows the handlers' code in three places where the repository's
own API documentation says otherwise or says nothing:

- Issued tokens carry no expiry claim, so they never expire (chat/authentication.py:12-15).
- Feed entries carry no `created_at` field (chat/views.py:345-373), although
  the response serializer declares one (chat/serializers.py:44).
- The send handler decodes the base64 image itself and rejects a bad one with
  400 (chat/views.py:291-309). The request serializer
  (chat/serializers.py:32-36) does not take part.

## Model

| member | source | states |
|---|---|---|
| `Models.FindById` | chat/authentication.py:45 | `User.objects.get(id=…)`: a found user is in the table with that id; nothing is found exactly when no stored user has that id |
| `Models.FindByIdFindsOwner` | chat/authentication.py:45 | with unique ids, looking up a stored user's id returns that very user |
| `Models.FindByUsername` | chat/views.py:66 | a found user has exactly that (case-sensitive) username; nothing is found exactly when no stored user has it |
| `Models.IdQueryFor` | chat/views.py:280 | how the id lookup treats a JSON value: an integer is looked up as itself, `true`/`false` as 1/0, a string exactly when it is ASCII decimal digits and then as their value; only null matches no user; a list or object makes the lookup raise |
| `Models.DecimalRoundTrip` | chat/views.py:278-280 | an id sent as its decimal text (`"2"`) is read back as that id and looked up as it |
| `Models.Split` | chat/models.py:10 | `str.split` always yields at least one piece |
| `Models.SplitJoin` | chat/models.py:10 | joining the pieces of a split with the separator gives back the original text |
| `Models.SplitPiecesAvoidSep` | chat/models.py:10 | no piece of a split contains the separator |
| `Models.LastPieceIsTail` | chat/models.py:10 | the last piece has no separator, ends the text, and is preceded by a separator whenever it is shorter than the text |
| `Models.Extension` | chat/models.py:10 | the kept extension is the text after the last `.`: it has no `.`, it ends the filename, a `.` precedes it, and a filename with no `.` is kept whole |
| `Models.PathJoin` | chat/models.py:12 | `os.path.join(a, b)`: an absolute `b` replaces `a`; otherwise the result starts with `a`, ends with `b`, and has exactly one added `/` when `a` is non-empty and does not already end in `/`, and nothing added otherwise |
| `Models.UploadTo` | chat/models.py:9-12 | the stored path is `images/` + random hex + `.` + extension; it always begins with `images/`; the base name is dropped |
| `Auth.ClaimsFor` | chat/authentication.py:11-15 | the token payload has exactly the claims `user_id` and `username` with the user's values, and none of the registered claims (`exp`, `nbf`, `iat`, `aud`, `iss`), so no expiry |
| `Auth.CreateToken` | chat/authentication.py:11-17 | under a sound codec, the issued token is non-empty and decodes with the same secret to exactly the user's claims |
| `Auth.DecodeToken` | chat/authentication.py:19-26 | decoding never raises: an expired token and an otherwise invalid one both give `None`; otherwise the decoded claims |
| `Auth.Resolve` | chat/authentication.py:44-50 | an empty payload is an invalid token; a `user_id` the lookup finds admits exactly the stored user it finds; "user not found" exactly when the payload is non-empty and its `user_id` is null or an id no stored user has; an uncaught claim fault exactly when the payload is non-empty and lacks `user_id` or holds one the lookup raises on |
| `Auth.Check` | chat/authentication.py:31-50 | "token required" exactly for a missing or empty header; "invalid token" exactly when decoding fails or gives an empty payload; an admitted user is a stored user |
| `Auth.Rejection` | chat/authentication.py:34-50 | the guard answers for itself exactly when it does not admit: 401 for the three refusals, 500 for an uncaught claim fault |
| `Auth.Guard` | chat/authentication.py:28-52 | the response is the refusal `Check` dictates; on admission `request.user` is the admitted user, on refusal it is unchanged |
| `Auth.IssuedTokenAdmitsOwner` | chat/authentication.py:11-52 | given the round-trip hypothesis, a token issued for a user still in the table passes the guard and binds that user |
| `Auth.UsernameClaimIgnored` | chat/authentication.py:45 | claims that agree on `user_id` resolve alike whatever the `username` claim holds |
| `Auth.DepartedUserRefused` | chat/authentication.py:44-50 | a token for a user no longer in the table is refused with "User not found" |
| `Views.UsernameTaken` | chat/views.py:66 | true exactly when some stored user has that username |
| `Views.Authenticate` | chat/views.py:129-130 | a returned user has that username and a matching password; with unique usernames nothing is returned exactly when no user of that name has a matching password (unknown user and wrong password alike) |
| `Views.LoginTokenPassesGuard` | chat/views.py:129-134 | given the round-trip hypothesis, the token `login` issues passes the guard and binds the authenticated user |
| `Views.Directory` | chat/views.py:173-185 | exactly one `{id, username}` entry per stored user, position for position, and nothing else |
| `Views.CanSee` | chat/views.py:332-335 | a user sees their own messages and every public one; a private message they did not send is visible only if it is addressed to them |
| `Views.Feed` | chat/views.py:332-336 | the feed is drawn from the stored messages, holds only visible ones, and is no longer than the table |
| `Views.FeedMembers` | chat/views.py:332-336 | a message is in the feed of user u exactly when it is stored and u sent it, u receives it, or it has no recipient |
| `Views.FeedNewestFirst` | chat/views.py:336 | when stamps grow with insertion, the feed is strictly ordered by `created_at` descending |
| `Views.PublicReachesEveryone` | chat/views.py:335 | a public message is in every user's feed, its sender's included |
| `Views.PrivateReachesOnlyItsParties` | chat/views.py:333-334 | a private message is in the feed of its sender and of its recipient, and of no one else |
| `Views.ItemOf` | chat/views.py:345-366 | an entry keeps everything of its message but the stamp (entry plus stamp gives back the message), and has `to` exactly when the message is private |
| `Views.ItemsOf` | chat/views.py:344-373 | one entry per feed message in the same order, carrying content, sender and image, and a `to` field exactly when the message is private |
| `Views.AddresseeFor` | chat/views.py:278-289 | a falsy `to` (absent, null, 0, "") makes the message public; a found recipient is a stored user whose id is the one `to` names, and for an id a recipient is found exactly when some stored user has it; "not found" exactly for null or an id nobody has; a fault exactly when the lookup raises |
| `Views.AttachmentFor` | chat/views.py:291-309 | the image is ignored exactly unless it is a non-empty object with truthy `name` and `content`; an offered image is refused as invalid exactly when its content is not base64 text; it is attached exactly when the content decodes and the name is text, under `upload_to` of that name |
| `Views.Save` | chat/views.py:291-313 | the last step saves exactly when the image is absent or attached, with the requester as sender, the given recipient and the attached path; a refused image gives 400 "Invalid image data", a non-text name 500 |
| `Views.SendOutcome` | chat/views.py:252-326 | a message is saved exactly on 200 success, and exactly when the body is an object with non-empty content, a public or found recipient, and no image or a usable one; the saved message is then the content from the requester to the found recipient (or nobody), with the image's `upload_to` path, stamped now; every failure is 400 or 500 and saves nothing; absent content gives 500 before the emptiness check; empty content 400 "Content is required"; an unknown recipient 400 "Recipient user not found"; a lookup fault 500 |
| `Views.SendCheckOrder` | chat/views.py:265-309 | the checks run in a fixed order: empty content wins over a bad recipient and a bad image, and a bad recipient wins over a bad image |
| `Views.SendReachesRecipient` | chat/views.py:278-313 | with unique ids, a message with non-empty content sent to a stored user's id, as a number or as decimal text, is saved with that user as its recipient and answered with 200 |
| `Views.AnonymousSend` | chat/views.py:252-326 | as written, run as the anonymous user: never 200; non-empty content gives 500 because building the message raises |
| `Views.AnonymousSendAgreesBeforeSave` | chat/views.py:255-270 | before the message is built, the anonymous send answers exactly as the intended one (invalid JSON, non-object, absent or empty content) |
| `Views.MessagesAsWritten` | chat/views.py:239-250 | the messages endpoint as written never answers 200: the guard's refusals as usual, and once admitted GET gives 500 |
| `Views.RebindingRefusesTokenOwner` | chat/views.py:240-250 | as written, the owner of an issued token is admitted by the guard, yet posting "hi" gives 500 and reading the feed gives 500 |
| `Views.TokenOwnerPostsAsSelf` | chat/views.py:240-313 | as intended, the owner of an issued token is admitted and its post is saved with that owner as sender |
| `Views.ConsistentIdsUnique` | chat/authentication.py:45 | consistent tables have unique user ids, so the token lemmas apply to the store |
| `Views.ConsistentFeedNewestFirst` | chat/models.py:21-22 | in consistent tables every user's feed is newest first |
| `Views.AddUserKeepsConsistent` | chat/views.py:66-73 | adding a user with the next id and an unused username keeps the tables consistent, so usernames stay unique |
| `Views.AddMessageKeepsConsistent` | chat/views.py:311 | appending a message stamped with the clock, from and to stored users, keeps the tables consistent |
| `Views.ChatStore.Register` | chat/views.py:46-88 | invalid JSON gives 400, a non-object body 500, a missing or empty field 400 "Username and password are required", a username taken as sent 400 "Username already exists", each with the user table unchanged; a name whose normal form is taken gives 500 with the table unchanged; otherwise exactly one user is appended under the normal form of the name and 200 is returned; messages never change |
| `Views.ChatStore.Login` | chat/views.py:112-144 | a missing or empty field gives 400; an unknown user and a wrong password both give the same 401 "Invalid credentials"; success returns the token issued for the authenticated user |
| `Views.ChatStore.ListUsers` | chat/views.py:172-185 | the loop builds exactly the user directory |
| `Views.ChatStore.SendMessage` | chat/views.py:252-326 | the response is the one `SendOutcome` gives; exactly the message it saves is appended (nothing on failure); the user table is unchanged and the store stays consistent |
| `Views.ChatStore.LookUpRecipient` | chat/views.py:278-289 | the imperative recipient step gives exactly the addressee `AddresseeFor` describes |
| `Views.ChatStore.ProcessImage` | chat/views.py:291-309 | the imperative image step gives exactly the attachment `AttachmentFor` describes |
| `Views.ChatStore.Append` | chat/views.py:311 | the message is appended with the next stamp, the user table is unchanged, and the store stays consistent |
| `Views.ChatStore.GetMessages` | chat/views.py:328-376 | the loop returns the entries of the user's feed, in feed order; in a consistent store that feed is newest first |
| `Views.ChatStore.HandleUsers` | chat/views.py:165-185 | a refused request gets the guard's response and leaves `request.user` alone; an admitted one gets the directory with `request.user` bound |
| `Views.ChatStore.HandleMessages` | chat/views.py:240-250 | as intended: a refused request gets the guard's response and stores nothing; once admitted, POST sends as the bound user, GET returns the bound user's feed, and other methods get 405 |
| `Views.ChatStore.HandleMessagesAsWritten` | chat/views.py:239-250 | as written: the guard's response on refusal; once admitted, `request.user` ends up anonymous and the answer is the one `MessagesAsWritten` gives, so nothing is stored |

## Left out

- Token cryptography: HMAC SHA-256 signing, verification and the JWS compact serialisation (section 7.1 of RFC 7515) belong to the JWT library. They are the abstract `Auth.Codec`. The round trip is the hypothesis `Auth.Sound`. It covers only the payloads `create_jwt_token` builds: `user_id` (a number) and `username` (text), with no registered claim.
- Password hashing and the framework's `create_user` and `authenticate`: the password is stored as the image of a store-wide one-way function `hasher`, and a password matches when it hashes to the stored value. Random salts and the active-user flag are not modelled.
- Base64 decoding of images is the abstract `decodeBase64`. Non-text content fails. The file storage behind `ContentFile` and `ImageField` is not modelled, and neither is the storage's own cleaning of the generated name.
- Image URLs: the hard-coded host and port (chat/views.py:356-357) are deployment glue. A feed entry carries the stored image path instead.
- Concurrency and the database: the race between the username check and the insert in `register` is not modelled, and neither are database exceptions. User ids are assumed to count up from 1 in insertion order.
- `created_at` is a strictly increasing counter (`clock`). Equal timestamps, and the order the database would give them, are not modelled.
- JSON parsing: bodies arrive already parsed. Invalid JSON and a JSON value that is not an object are modelled. JSON numbers with a fraction are not.
- `Views.ChatStore.Register`, `Views.ChatStore.Login`: `username` and `password` are taken as text or absent. A truthy non-text value (a number, a list, `true`) is not modelled.
- `Views.ChatStore.Register`: Unicode NFKC normalisation of the username is the abstract `normalize`. Its table is not modelled, so the contract holds for any normalising function. The duplicate check uses the name as sent and login looks the name up as sent, as the code does. The 150-character limit on usernames, which the PostgreSQL column enforces with a 500, is not modelled.
- `Views.ChatStore.SendMessage`: `content` is taken as text or absent. A number (which makes `len` raise) and a list or object (stored as its Python text form) are not modelled.
- `Models.IdQueryFor`: integers, booleans, null and strings of ASCII decimal digits are coerced as the id lookup does. Python's `int()` also accepts a sign, surrounding whitespace, underscores between digits (`"1_0"`) and non-ASCII decimal digits (`"５"`). For those strings the model makes the lookup raise (a 500), where the code looks the id up.
- The exception text of a 500 response (`str(e)`) is not modelled, only that the body is an error.
- Logging, including the public and private tallies in `get_messages`, which only feed a log line.
- The HTTP method restriction on `register`, `login` and `users` (405 for other methods) and the framework's answer to `OPTIONS` are not modelled. For `messages` the 405 comes after the guard, and it is modelled.
- `Views.ChatStore.HandleUsers`: its postcondition on `request.user` states the guard's binding. As written, the REST framework then rebinds the user to its anonymous user (see "## Findings"). The `users` view reads `request.user` only in a log line (chat/views.py:169), which the anonymous user satisfies (empty username, null id), so the response is as stated.
- The order of the user list is the table's insertion order. The database does not promise an order.
- `upload_to`'s `instance` argument is dropped because it is unused. The message's own id is dropped because it appears only in logs.
- Request logging and timing (chat/middleware.py), absolute URLs (chat/home_views.py), API documentation (chat/schema.py, chat/serializers.py), the admin site (chat/admin.py), routing (chat/urls.py) and configuration (chatbot_api/settings.py) are not part of this model.

## Findings

| source | as written | input that shows it | evidently intended | confidence | as-written member | corrected member |
|---|---|---|---|---|---|---|
| chat/views.py:240-241, chatbot_api/settings.py:104-107 | `@jwt_required` wraps the REST framework view, and the framework is configured with no authentication classes. The framework's request wrapper authenticates again when the view starts, finds no authenticator, and sets `request.user` to its anonymous user on the underlying request too. So the view runs as the anonymous user. `Message(from_user=request.user)` (chat/views.py:272-275) then raises, and so does the feed filter (chat/views.py:332-336). Both are caught as 500. | POST /messages with a token the guard accepts and `{"content": "hi"}`; GET /messages with the same token | the view runs as the token's owner: the message is saved with that owner as sender, and GET returns that owner's feed | medium, not executed; it rests on the REST framework's `Request.user` setter, which is not part of this model | `Views.ChatStore.HandleMessagesAsWritten`, `Views.MessagesAsWritten`, `Views.RebindingRefusesTokenOwner` | `Views.ChatStore.HandleMessages`, `Views.TokenOwnerPostsAsSelf` |
