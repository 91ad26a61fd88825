/** api/middleware.py: who a request is made by, read from its
    `Authorization: Bearer <token>` header. */
module Middleware {
  import opened Common
  import opened Models
  import opened Utils

  const BEARER: string := "Bearer "

  /** `auth_header.split(' ')[1]` for a header known to start with "Bearer ". */
  function BearerToken(header: string): (token: string)
    requires StartsWith(header, BEARER)
    ensures token == Split(header[|BEARER|..], ' ')[0]
    ensures ' ' !in token
  {
    BearerSplit(header);
    Split(header, ' ')[1]
  }

  /** The header splits into "Bearer" followed by the fields of what comes
      after the prefix, so field 1 exists and is the text up to the second
      space. */
  lemma BearerSplit(header: string)
    requires StartsWith(header, BEARER)
    ensures Split(header, ' ') == ["Bearer"] + Split(header[|BEARER|..], ' ')
  {
    var rest := header[|BEARER|..];
    assert header == "Bearer" + [' '] + rest;
    SplitAfterPrefix("Bearer", rest, ' ');
  }

  /** The token is the longest space-free prefix of what follows "Bearer ". */
  lemma BearerTokenIsFirstWord(header: string)
    requires StartsWith(header, BEARER)
    ensures var rest := header[|BEARER|..]; var token := BearerToken(header);
      |token| <= |rest| && rest[..|token|] == token && (|token| == |rest| || rest[|token|] == ' ')
  {
    SplitFirstField(header[|BEARER|..], ' ');
  }

  /** `get_user_from_token`: a missing header, one without the "Bearer "
      prefix, a token the decoder refuses, or a user id that names no user
      gives the anonymous user; otherwise the user the token names. */
  function GetUserFromToken(header: Option<string>, decode: string -> JwtOutcome, users: map<UserId, User>): (r: RequestUser)
    ensures header.None? || !StartsWith(header.value, BEARER) ==> r == Anonymous
    ensures r.Authenticated? ==> r.id in users && r.user == users[r.id]
    ensures r.Authenticated? <==>
      && header.Some? && StartsWith(header.value, BEARER)
      && decode(BearerToken(header.value)).Decoded?
      && var uid := decode(BearerToken(header.value)).claims.userId;
         uid.Some? && uid.value >= 0 && uid.value as nat in users
    ensures r.Authenticated? ==> Some(r.id as int) == decode(BearerToken(header.value)).claims.userId
  {
    if header.None? || header.value == "" || !StartsWith(header.value, BEARER) then Anonymous
    else
      match decode(BearerToken(header.value))
      case Rejected(_) => Anonymous
      case Decoded(claims) =>
        if claims.userId.Some? && claims.userId.value >= 0 && claims.userId.value as nat in users then
          var id := claims.userId.value as nat;
          Authenticated(id, users[id])
        else Anonymous
  }
}
