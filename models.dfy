/** The records of the chat application (users and messages), the lookups the
    handlers run on the user table, and the naming of uploaded images. */
module Models {
  import opened Optional
  import opened Json

  /** The public face of a user: the `{id, username}` pair every response carries. */
  datatype UserRef = UserRef(id: int, username: string)

  /** A row of the user table. The password is held only as the image of the
      store's one-way hasher, never as the text the client sent. */
  datatype User = User(id: int, username: string, passwordHash: string) {
    function Ref(): UserRef { UserRef(id, username) }
  }

  /** A row of the message table: a sender always, a recipient only for a
      private message, an image path only when one was uploaded, and the
      creation stamp that orders the feed. */
  datatype Message = Message(
    content: string,
    sender: UserRef,
    recipient: Option<UserRef>,
    image: Option<string>,
    createdAt: nat)
  {
    predicate IsPublic() { recipient.None? }
  }

  /** The default ordering of messages, `-created_at`: newest first. */
  ghost predicate NewestFirst(ms: seq<Message>) {
    forall i, j :: 0 <= i < j < |ms| ==> ms[i].createdAt >= ms[j].createdAt
  }

  ghost predicate UniqueIds(users: seq<User>) {
    forall i, j :: 0 <= i < j < |users| ==> users[i].id != users[j].id
  }

  ghost predicate UniqueUsernames(users: seq<User>) {
    forall i, j :: 0 <= i < j < |users| ==> users[i].username != users[j].username
  }

  // ---------------------------------------------------------------------------
  // Lookups on the user table

  /** `User.objects.get(id=id)`: the user with that id, or nothing (`DoesNotExist`). */
  function FindById(users: seq<User>, id: int): (r: Option<User>)
    ensures r.Some? ==> r.value in users && r.value.id == id
    ensures r.None? <==> forall u :: u in users ==> u.id != id
  {
    if users == [] then None
    else if users[0].id == id then Some(users[0])
    else FindById(users[1..], id)
  }

  /** With unique ids, the lookup by a stored user's id finds that very user. */
  lemma {:induction false} FindByIdFindsOwner(users: seq<User>, u: User)
    requires UniqueIds(users) && u in users
    ensures FindById(users, u.id) == Some(u)
  {
    if users[0] != u {
      assert u in users[1..];
      assert UniqueIds(users[1..]) by {
        forall i, j | 0 <= i < j < |users[1..]|
          ensures users[1..][i].id != users[1..][j].id
        {
          assert users[1..][i] == users[i + 1] && users[1..][j] == users[j + 1];
        }
      }
      FindByIdFindsOwner(users[1..], u);
    }
  }

  /** The user whose username is exactly `name` (case-sensitive), if any. */
  function FindByUsername(users: seq<User>, name: string): (r: Option<User>)
    ensures r.Some? ==> r.value in users && r.value.username == name
    ensures r.None? <==> forall u :: u in users ==> u.username != name
  {
    if users == [] then None
    else if users[0].username == name then Some(users[0])
    else FindByUsername(users[1..], name)
  }

  /** What a lookup `User.objects.get(id=v)` makes of a JSON value `v`: an
      integer, a boolean or a string of decimal digits is coerced to an id,
      null matches no row, and anything else makes the lookup raise. */
  datatype IdQuery = ById(id: int) | MatchesNone | Raises

  function IdQueryFor(v: Value): (q: IdQuery)
    ensures v.Int? ==> q == ById(v.i)
    ensures v.Bool? ==> q == ById(if v.b then 1 else 0)
    ensures v.Str? ==> (q.ById? <==> IsDecimal(v.s)) && (q.ById? ==> q.id == DecimalValue(v.s))
    ensures q.MatchesNone? <==> v.Null?
    ensures (v.List? || v.Object?) ==> q.Raises?
  {
    match v
    case Int(i) => ById(i)
    case Bool(b) => ById(if b then 1 else 0)
    case Str(s) => if IsDecimal(s) then ById(DecimalValue(s)) else Raises
    case Null => MatchesNone
    case List(_) => Raises
    case Object(_) => Raises
  }

  predicate IsDecimal(s: string) {
    |s| > 0 && forall i :: 0 <= i < |s| ==> '0' <= s[i] <= '9'
  }

  function DecimalValue(s: string): (n: nat)
    requires IsDecimal(s)
  {
    if |s| == 1 then (s[0] as int) - ('0' as int)
    else 10 * DecimalValue(s[..|s| - 1]) + ((s[|s| - 1] as int) - ('0' as int))
  }

  /** `str(n)`: the decimal digits of `n`, without leading zeros. */
  function DecimalText(n: nat): (s: string)
    ensures IsDecimal(s)
    ensures |s| > 1 ==> s[0] != '0'
  {
    var digit := ('0' as int + n % 10) as char;
    if n < 10 then [digit] else DecimalText(n / 10) + [digit]
  }

  /** An id sent as its decimal text is looked up as that very id. */
  lemma {:induction false} DecimalRoundTrip(n: nat)
    ensures DecimalValue(DecimalText(n)) == n
    ensures IdQueryFor(Str(DecimalText(n))) == ById(n)
  {
    if n >= 10 {
      DecimalRoundTrip(n / 10);
      var s := DecimalText(n);
      assert s[..|s| - 1] == DecimalText(n / 10);
    }
  }

  // ---------------------------------------------------------------------------
  // Naming of uploaded images (`upload_to`)

  /** Python's `s.split(sep)`: the pieces between the occurrences of `sep`;
      there is always at least one piece. */
  function Split(s: string, sep: char): (parts: seq<string>)
    ensures |parts| >= 1
  {
    if s == [] then [""]
    else
      var rest := Split(s[1..], sep);
      if s[0] == sep then [""] + rest
      else [[s[0]] + rest[0]] + rest[1..]
  }

  /** `sep.join(parts)`, the inverse of `Split`. */
  function Join(parts: seq<string>, sep: char): string
    requires |parts| >= 1
  {
    if |parts| == 1 then parts[0]
    else parts[0] + [sep] + Join(parts[1..], sep)
  }

  /** Joining the pieces of a split gives back the original text. */
  lemma {:induction false} SplitJoin(s: string, sep: char)
    ensures Join(Split(s, sep), sep) == s
  {
    if s != [] {
      var rest := Split(s[1..], sep);
      SplitJoin(s[1..], sep);
      if s[0] == sep {
        assert ([""] + rest)[1..] == rest;
      } else if |rest| > 1 {
        var parts := [[s[0]] + rest[0]] + rest[1..];
        assert parts[1..] == rest[1..];
        assert Join(rest, sep) == rest[0] + [sep] + Join(rest[1..], sep);
      }
    }
  }

  /** No piece of a split contains the separator. */
  lemma {:induction false} SplitPiecesAvoidSep(s: string, sep: char)
    ensures forall k :: 0 <= k < |Split(s, sep)| ==> sep !in Split(s, sep)[k]
  {
    if s != [] {
      SplitPiecesAvoidSep(s[1..], sep);
      var rest := Split(s[1..], sep);
      if s[0] != sep {
        assert sep !in rest[0];
      }
    }
  }

  /** The last piece of a split is the text after the last separator: it
      has no separator, it ends the text, and what precedes it (if anything)
      is a separator. */
  lemma {:induction false} LastPieceIsTail(s: string, sep: char)
    ensures var e := Split(s, sep)[|Split(s, sep)| - 1];
      && sep !in e
      && |e| <= |s| && e == s[|s| - |e|..]
      && (|e| < |s| ==> s[|s| - |e| - 1] == sep)
  {
    SplitPiecesAvoidSep(s, sep);
    if s != [] {
      var t := s[1..];
      var rest := Split(t, sep);
      LastPieceIsTail(t, sep);
      SplitJoin(t, sep);
      var e' := rest[|rest| - 1];
      if s[0] == sep {
        assert Split(s, sep)[|Split(s, sep)| - 1] == e';
      } else if |rest| == 1 {
        assert t == rest[0];
        assert Split(s, sep) == [[s[0]] + t];
      } else {
        assert Split(s, sep)[|Split(s, sep)| - 1] == e';
        assert Join(rest, sep) == rest[0] + [sep] + Join(rest[1..], sep);
        assert sep in t by {
          assert t[|rest[0]|] == sep;
        }
        assert e' != t;
      }
    }
  }

  /** `filename.split('.')[-1]`: the kept extension. */
  function Extension(filename: string): (ext: string)
    ensures '.' !in ext
    ensures |ext| <= |filename| && ext == filename[|filename| - |ext|..]
    ensures |ext| < |filename| ==> filename[|filename| - |ext| - 1] == '.'
    ensures '.' !in filename ==> ext == filename
  {
    LastPieceIsTail(filename, '.');
    var parts := Split(filename, '.');
    parts[|parts| - 1]
  }

  /** `os.path.join(a, b)` for two POSIX path components: an absolute `b`
      replaces `a`, otherwise a single `/` separates them. */
  function PathJoin(a: string, b: string): (p: string)
    ensures |b| > 0 && b[0] == '/' ==> p == b
    ensures !(|b| > 0 && b[0] == '/') ==>
      && |p| >= |a| + |b| && p[..|a|] == a && p[|p| - |b|..] == b
      && (a != "" ==> p[|p| - |b| - 1] == '/')
      && |p| <= |a| + |b| + 1
    ensures !(|b| > 0 && b[0] == '/') ==> |p| == |a| + |b| + (if a != "" && a[|a| - 1] != '/' then 1 else 0)
  {
    if |b| > 0 && b[0] == '/' then b
    else if a == "" || a[|a| - 1] == '/' then a + b
    else a + "/" + b
  }

  /** What `uuid.uuid4().hex` yields: 32 lower-case hexadecimal digits. */
  predicate IsUuidHex(hex: string) {
    |hex| == 32 && forall i :: 0 <= i < |hex| ==> hex[i] in "0123456789abcdef"
  }

  const ImagesDir := "images/"

  /** `upload_to`: the stored path of an uploaded image. The original base
      name is dropped; only its extension survives, behind a random name. */
  function UploadTo(hex: string, filename: string): (path: string)
    requires IsUuidHex(hex)
    ensures path == ImagesDir + hex + "." + Extension(filename)
    ensures |path| > |ImagesDir| && path[..|ImagesDir|] == ImagesDir
  {
    var name := hex + "." + Extension(filename);
    assert name[0] == hex[0] && hex[0] != '/';
    assert ImagesDir[|ImagesDir| - 1] == '/';
    PathJoin(ImagesDir, name)
  }
}
