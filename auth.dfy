/** The bearer-token middleware: the Authorization header must read
    "Bearer <id>|<plain>", the pair must name a stored token whose hash
    matches, the token must not have expired and its owner must exist. */
module Auth {
  import opened Common

  const BEARER := "Bearer "
  const STATUS_UNAUTHORIZED := 401
  const NO_TOKEN := "Unauthorized: No token provided"
  const INVALID_FORMAT := "Unauthorized: Invalid token format"
  const INVALID_TOKEN := "Unauthorized: Invalid token"
  const TOKEN_EXPIRED := "Unauthorized: Token expired"
  const USER_NOT_FOUND := "Unauthorized: User not found"

  /** A row of `personal_access_tokens`; `token` holds the hex SHA-256 of the
      plain part, times are seconds. */
  datatype PersonalAccessToken = PersonalAccessToken(
    id: nat, token: string, tokenableId: nat, expiresAt: Option<int>, lastUsedAt: Option<int>)

  datatype HeaderParse = NoToken | BadFormat | Parsed(tokenId: string, plain: string)

  /** The header checks: empty, no "Bearer " prefix, then
      `strings.SplitN(rest, "|", 2)` needing two parts. */
  function ParseHeader(header: string): (r: HeaderParse)
    ensures r.NoToken? <==> header == ""
    ensures r.BadFormat? <==> header != "" && (!StartsWith(header, BEARER) || !HasChar(header[|BEARER|..], '|'))
    ensures r.Parsed? ==> header == BEARER + r.tokenId + "|" + r.plain && !HasChar(r.tokenId, '|')
  {
    if header == "" then NoToken
    else if !StartsWith(header, BEARER) then BadFormat
    else
      var rest := header[|BEARER|..];
      match IndexOf(rest, '|')
      case None => BadFormat
      case Some(k) =>
        SplitAtBar(header, rest, k);
        Parsed(rest[..k], rest[k + 1..])
  }

  /** Cutting the text after the prefix at its first '|' and joining it back. */
  lemma SplitAtBar(header: string, rest: string, k: nat)
    requires StartsWith(header, BEARER) && rest == header[|BEARER|..]
    requires k < |rest| && rest[k] == '|' && forall j :: 0 <= j < k ==> rest[j] != '|'
    ensures header == BEARER + rest[..k] + "|" + rest[k + 1..]
    ensures !HasChar(rest[..k], '|')
  {
    assert rest == rest[..k] + "|" + rest[k + 1..];
    assert header == BEARER + rest;
    var id := rest[..k];
    assert forall j :: 0 <= j < |id| ==> id[j] == rest[j];
  }

  /** The token the login hands out, `fmt.Sprintf("%d|%s", id, plain)`, sent
      as a bearer header splits back into exactly its id and plain part, even
      when the plain part itself contains '|'. */
  lemma HeaderRoundTrip(id: nat, plain: string)
    ensures ParseHeader(BEARER + NatToString(id) + "|" + plain) == Parsed(NatToString(id), plain)
  {
    var digits := NatToString(id);
    var header := BEARER + digits + "|" + plain;
    var rest := header[|BEARER|..];
    assert rest == digits + "|" + plain;
    assert rest[|digits|] == '|';
    assert forall j :: 0 <= j < |digits| ==> rest[j] == digits[j] && IsDigit(digits[j]);
    assert IndexOf(rest, '|') == Some(|digits|);
    assert rest[..|digits|] == digits && rest[|digits| + 1..] == plain;
  }

  /** Any header that parses is the bearer form of its two parts, so the
      split is the only one with a '|'-free id. */
  lemma ParseIsUnique(header: string, tokenId: string, plain: string)
    requires header == BEARER + tokenId + "|" + plain && !HasChar(tokenId, '|')
    ensures ParseHeader(header) == Parsed(tokenId, plain)
  {
    var rest := header[|BEARER|..];
    assert rest == tokenId + "|" + plain;
    assert rest[|tokenId|] == '|';
    assert forall j :: 0 <= j < |tokenId| ==> rest[j] == tokenId[j];
    assert IndexOf(rest, '|') == Some(|tokenId|);
    assert rest[..|tokenId|] == tokenId && rest[|tokenId| + 1..] == plain;
  }

  /** `ExpiresAt != nil && ExpiresAt.Before(now)`. */
  predicate Expired(t: PersonalAccessToken, now: int)
  {
    t.expiresAt.Some? && t.expiresAt.value < now
  }

  /** A token without an expiry never expires; one expiring exactly now is still valid. */
  lemma ExpiryBoundary(t: PersonalAccessToken, now: int)
    ensures t.expiresAt.None? ==> !Expired(t, now)
    ensures t.expiresAt == Some(now) ==> !Expired(t, now)
    ensures t.expiresAt.Some? && now > t.expiresAt.value ==> Expired(t, now)
  {
  }

  /** `id = ? AND token = ?`: the id text read as a number and the stored hash. */
  function Lookup(tokens: map<nat, PersonalAccessToken>, tokenId: string, hashed: string): (r: Option<PersonalAccessToken>)
    ensures r.Some? ==> r.value in tokens.Values && r.value.token == hashed
    ensures r.Some? ==> ParseNat(tokenId).Some? && ParseNat(tokenId).value in tokens
                        && r.value == tokens[ParseNat(tokenId).value]
    ensures (ParseNat(tokenId).Some? && ParseNat(tokenId).value in tokens
             && tokens[ParseNat(tokenId).value].token == hashed)
            ==> r == Some(tokens[ParseNat(tokenId).value])
  {
    match ParseNat(tokenId)
    case None => None
    case Some(id) => if id in tokens && tokens[id].token == hashed then Some(tokens[id]) else None
  }

  datatype AuthOutcome = Rejected(status: int, message: string) | Authenticated(tokenId: nat, userId: nat)

  class TokenStore {
    var tokens: map<nat, PersonalAccessToken>
    /** The ids present in `users`. */
    const users: set<nat>

    predicate Valid()
      reads this
    {
      forall id :: id in tokens ==> tokens[id].id == id
    }

    constructor(tokens: map<nat, PersonalAccessToken>, users: set<nat>)
      requires forall id :: id in tokens ==> tokens[id].id == id
      ensures this.tokens == tokens && this.users == users && Valid()
    {
      this.tokens := tokens;
      this.users := users;
    }

    /** Auth: every rejection is 401; `last_used_at` is written once the
        token has passed the expiry check, before the owner is looked up. */
    method Authenticate(header: string, now: int, sha256Hex: string -> string) returns (r: AuthOutcome)
      requires Valid()
      modifies this`tokens
      ensures Valid()
      ensures r.Rejected? ==> r.status == STATUS_UNAUTHORIZED
      ensures ParseHeader(header).NoToken? ==> r == Rejected(STATUS_UNAUTHORIZED, NO_TOKEN) && tokens == old(tokens)
      ensures ParseHeader(header).BadFormat? ==> r == Rejected(STATUS_UNAUTHORIZED, INVALID_FORMAT) && tokens == old(tokens)
      ensures ParseHeader(header).Parsed? ==>
                var p := ParseHeader(header);
                var found := Lookup(old(tokens), p.tokenId, sha256Hex(p.plain));
                if found.None? then r == Rejected(STATUS_UNAUTHORIZED, INVALID_TOKEN) && tokens == old(tokens)
                else if Expired(found.value, now) then r == Rejected(STATUS_UNAUTHORIZED, TOKEN_EXPIRED) && tokens == old(tokens)
                else tokens == old(tokens)[found.value.id := found.value.(lastUsedAt := Some(now))]
                     && r == (if found.value.tokenableId in users then Authenticated(found.value.id, found.value.tokenableId)
                              else Rejected(STATUS_UNAUTHORIZED, USER_NOT_FOUND))
    {
      var parsed := ParseHeader(header);
      if parsed.NoToken? {
        return Rejected(STATUS_UNAUTHORIZED, NO_TOKEN);
      }
      if parsed.BadFormat? {
        return Rejected(STATUS_UNAUTHORIZED, INVALID_FORMAT);
      }
      var hashedToken := sha256Hex(parsed.plain);
      var token := Lookup(tokens, parsed.tokenId, hashedToken);
      if token.None? {
        return Rejected(STATUS_UNAUTHORIZED, INVALID_TOKEN);
      }
      var t := token.value;
      if Expired(t, now) {
        return Rejected(STATUS_UNAUTHORIZED, TOKEN_EXPIRED);
      }
      tokens := tokens[t.id := t.(lastUsedAt := Some(now))];
      var userId := t.tokenableId;
      if userId !in users {
        return Rejected(STATUS_UNAUTHORIZED, USER_NOT_FOUND);
      }
      r := Authenticated(t.id, userId);
    }
  }

  /** A header built from a stored, unexpired token of an existing user and
      the plain text whose hash it keeps is accepted, as that user. */
  lemma IssuedTokenAccepted(tokens: map<nat, PersonalAccessToken>, users: set<nat>, id: nat, plain: string,
                            now: int, sha256Hex: string -> string)
    requires id in tokens && tokens[id].id == id && tokens[id].token == sha256Hex(plain)
    requires !Expired(tokens[id], now) && tokens[id].tokenableId in users
    ensures var p := ParseHeader(BEARER + NatToString(id) + "|" + plain);
            p.Parsed? && Lookup(tokens, p.tokenId, sha256Hex(p.plain)) == Some(tokens[id])
  {
    HeaderRoundTrip(id, plain);
    ParseNatRoundTrip(id);
  }
}
