/** The identity store and the session gate of app.js: the user list, the credential check of POST /login,
    the token it issues, and the `authenticate` middleware that turns an authorization header back into a user. */
module Identity {
  import opened Wrappers
  import opened Errors
  import opened Text

  /** A user id is the text uuidv4 produced for the user at startup. */
  type UserId = string

  datatype User = User(id: UserId, username: string, password: string)

  /** The two seed users (app.js:14-17); their ids are the uuids generated when the process starts. */
  function SeedUsers(first: UserId, second: UserId): seq<User>
  {
    [User(first, "funcionario1", "password1"), User(second, "julio.lima", "123456")]
  }

  /** What uuidv4 guarantees of the seed ids and the token scheme relies on: they are pairwise
      distinct and hold no colon (a uuid is hex digits and hyphens). */
  predicate WellFormedIds(users: seq<User>)
  {
    && (forall i :: 0 <= i < |users| ==> ':' !in users[i].id)
    && (forall i, j :: 0 <= i < j < |users| ==> users[i].id != users[j].id)
  }

  /** The Node `Buffer` base64 codec, which is not modelled: any pair of total string functions. */
  datatype Codec = Codec(encode: string -> string, decode: string -> string)

  predicate IsBase64Char(c: char)
  {
    ('A' <= c <= 'Z') || ('a' <= c <= 'z') || ('0' <= c <= '9') || c == '+' || c == '/' || c == '='
  }

  predicate IsBase64Text(t: string)
  {
    forall i :: 0 <= i < |t| ==> IsBase64Char(t[i])
  }

  /** What the model assumes of the codec: decoding inverts encoding, and encodings use only the
      base64 alphabet. Decoding a text that is not an encoding may give anything. */
  ghost predicate Sound(codec: Codec)
  {
    && (forall s :: codec.decode(codec.encode(s)) == s)
    && (forall s :: IsBase64Text(codec.encode(s)))
  }

  predicate HasCredentials(u: User, username: string, password: string)
  {
    u.username == username && u.password == password
  }

  /** `users.find(u => u.username === username && u.password === password)` (app.js:138): the first
      user matching both fields exactly, or none when no user does. */
  function FindByCredentials(users: seq<User>, username: string, password: string): (r: Option<User>)
    ensures r.None? <==> forall i :: 0 <= i < |users| ==> !HasCredentials(users[i], username, password)
    ensures r.Some? ==> exists i :: 0 <= i < |users| && users[i] == r.value
                          && HasCredentials(users[i], username, password)
                          && forall j :: 0 <= j < i ==> !HasCredentials(users[j], username, password)
    decreases |users|
  {
    if users == [] then None
    else if HasCredentials(users[0], username, password) then Some(users[0])
    else
      var r := FindByCredentials(users[1..], username, password);
      assert forall i :: 1 <= i < |users| ==> users[i] == users[1..][i - 1];
      r
  }

  /** `users.find(u => u.id === id)` (app.js:75): the first user with that id, or none. */
  function FindById(users: seq<User>, id: UserId): (r: Option<User>)
    ensures r.None? <==> forall i :: 0 <= i < |users| ==> users[i].id != id
    ensures r.Some? ==> exists i :: 0 <= i < |users| && users[i] == r.value && users[i].id == id
                          && forall j :: 0 <= j < i ==> users[j].id != id
    decreases |users|
  {
    if users == [] then None
    else if users[0].id == id then Some(users[0])
    else
      var r := FindById(users[1..], id);
      assert forall i :: 1 <= i < |users| ==> users[i] == users[1..][i - 1];
      r
  }

  /** The text `${user.id}:${Date.now()}` that is base64-encoded into a token (app.js:141). */
  function TokenPayload(id: UserId, now: nat): string
  {
    id + ":" + Decimal(now)
  }

  /** POST /login (app.js:136-146): a token for the first user with these credentials, issued at
      instant `now` (the value of Date.now()), or an authentication failure. */
  function Login(users: seq<User>, codec: Codec, username: string, password: string, now: nat): (r: Result<string, Error>)
    ensures r.Err? <==> forall i :: 0 <= i < |users| ==> !HasCredentials(users[i], username, password)
    ensures r.Err? ==> r.error == Unauthenticated(BadCredentials)
  {
    match FindByCredentials(users, username, password)
    case None => Err(Unauthenticated(BadCredentials))
    case Some(u) => Ok(codec.encode(TokenPayload(u.id, now)))
  }

  /** `userIdFromToken` (app.js:73-74): the first colon-separated piece of the decoded token. */
  function TokenUserId(codec: Codec, token: string): string
  {
    Split(codec.decode(token), ':')[0]
  }

  /** The `authenticate` middleware (app.js:66-83) on the authorization header (None when absent): the
      user whose id is the token's first colon-separated piece, where the token is the header's second
      space-separated word. */
  function Authenticate(users: seq<User>, codec: Codec, header: Option<string>): (r: Result<User, Error>)
    ensures r.Ok? ==> && r.value in users && header.Some?
                      && var words := Split(header.value, ' ');
                         |words| >= 2 && r.value.id == TokenUserId(codec, words[1])
    ensures r.Err? && r.error == Unauthenticated(MissingToken) <==> header.None? || header.value == ""
    ensures r.Err? && r.error == Unauthenticated(MalformedHeader)
            <==> header.Some? && header.value != "" && |Split(header.value, ' ')| < 2
    ensures r.Err? && r.error == Unauthenticated(InvalidToken)
            <==> && header.Some? && header.value != ""
                 && var words := Split(header.value, ' ');
                    && |words| >= 2
                    && forall i :: 0 <= i < |users| ==> users[i].id != TokenUserId(codec, words[1])
    ensures r.Err? ==> r.error.Unauthenticated?
    ensures r.Ok? <==> && header.Some? && header.value != ""
                       && var words := Split(header.value, ' ');
                          && |words| >= 2
                          && exists i :: 0 <= i < |users| && users[i].id == TokenUserId(codec, words[1])
  {
    if header.None? || header.value == "" then Err(Unauthenticated(MissingToken))
    else
      var words := Split(header.value, ' ');
      if |words| < 2 then Err(Unauthenticated(MalformedHeader))
      else
        match FindById(users, TokenUserId(codec, words[1]))
        case None => Err(Unauthenticated(InvalidToken))
        case Some(u) => Ok(u)
  }

  /** Destructuring the decoded payload on ':' gives back the user id and the timestamp text. */
  lemma PayloadSplit(id: UserId, now: nat)
    requires ':' !in id
    ensures Split(TokenPayload(id, now), ':') == [id, Decimal(now)]
  {
    DecimalHasNoSeparators(now);
    SplitAtFirstSeparator(id, ':', Decimal(now));
    SplitWithoutSeparator(Decimal(now), ':');
  }

  /** The first piece of the payload is the user id exactly when the id holds no colon. */
  lemma PayloadUserIdExact(id: UserId, now: nat)
    ensures Split(TokenPayload(id, now), ':')[0] == id <==> ':' !in id
  {
    if ':' !in id {
      PayloadSplit(id, now);
    }
  }

  lemma Base64HasNoSpace(t: string)
    requires IsBase64Text(t)
    ensures ' ' !in t
  {
  }

  /** A header `<scheme> <token>` hands the gate exactly the token, whatever the scheme word is. */
  lemma HeaderToken(scheme: string, token: string)
    requires ' ' !in scheme && ' ' !in token
    ensures Split(scheme + " " + token, ' ') == [scheme, token]
  {
    SplitAtFirstSeparator(scheme, ' ', token);
    SplitWithoutSeparator(token, ' ');
  }

  /** The gate accepts any encoded payload that starts with a known id and a colon, as the user with
      that id: the token carries no integrity protection and its timestamp is never examined. */
  lemma ForgedTokenAccepted(users: seq<User>, codec: Codec, k: nat, rest: string, scheme: string)
    requires Sound(codec) && WellFormedIds(users) && k < |users|
    requires ' ' !in scheme
    ensures Authenticate(users, codec, Some(scheme + " " + codec.encode(users[k].id + ":" + rest)))
            == Ok(users[k])
  {
    var id := users[k].id;
    var token := codec.encode(id + ":" + rest);
    Base64HasNoSpace(token);
    HeaderToken(scheme, token);
    SplitAtFirstSeparator(id, ':', rest);
    assert TokenUserId(codec, token) == id;
  }

  /** Login then authenticate: a header carrying the issued token resolves to the user who logged in. */
  lemma LoginAuthenticateRoundTrip(users: seq<User>, codec: Codec, username: string, password: string,
                                   now: nat, scheme: string)
    requires Sound(codec) && WellFormedIds(users)
    requires ' ' !in scheme
    requires Login(users, codec, username, password, now).Ok?
    ensures Authenticate(users, codec, Some(scheme + " " + Login(users, codec, username, password, now).value))
            == Ok(FindByCredentials(users, username, password).value)
  {
    var u := FindByCredentials(users, username, password).value;
    var k :| 0 <= k < |users| && users[k] == u;
    ForgedTokenAccepted(users, codec, k, Decimal(now), scheme);
  }

  /** A token whose first colon-separated piece names no user is rejected as invalid. */
  lemma UnknownUserRejected(users: seq<User>, codec: Codec, scheme: string, token: string)
    requires ' ' !in scheme && ' ' !in token
    requires forall i :: 0 <= i < |users| ==> users[i].id != TokenUserId(codec, token)
    ensures Authenticate(users, codec, Some(scheme + " " + token)) == Err(Unauthenticated(InvalidToken))
  {
    HeaderToken(scheme, token);
  }

  /** A header with no space in it has no token word; the gate does not let it through. */
  lemma HeaderWithoutTokenRejected(users: seq<User>, codec: Codec, header: string)
    requires header != "" && ' ' !in header
    ensures Authenticate(users, codec, Some(header)) == Err(Unauthenticated(MalformedHeader))
  {
    SplitWithoutSeparator(header, ' ');
  }

  /** With the seed users: each seed user's own credentials log in, and each password only with its
      own username. */
  lemma SeedLogins(first: UserId, second: UserId, codec: Codec, now: nat)
    ensures Login(SeedUsers(first, second), codec, "funcionario1", "password1", now)
            == Ok(codec.encode(TokenPayload(first, now)))
    ensures Login(SeedUsers(first, second), codec, "julio.lima", "123456", now)
            == Ok(codec.encode(TokenPayload(second, now)))
    ensures Login(SeedUsers(first, second), codec, "julio.lima", "password1", now).Err?
    ensures Login(SeedUsers(first, second), codec, "funcionario1", "123456", now).Err?
  {
    var users := SeedUsers(first, second);
    assert "funcionario1"[0] != "julio.lima"[0];
    assert !HasCredentials(users[0], "julio.lima", "123456");
    assert FindByCredentials(users[1..], "julio.lima", "123456") == Some(users[1]);
  }
}
