/**
 * `AuthMiddleware`: the check every protected route runs before its handler.
 *
 * The header value and the token validator (`AuthService.ValidateToken`) are
 * parameters. The outcome is either a 401 rejection with its error text, or
 * the call of the next handler with `user_id` set in the request context.
 */
module AuthMiddleware {
  import opened Wrappers
  import Text
  import AuthService

  const StatusUnauthorized: int := 401

  const MissingTokenMessage: string := "Отсутствует токен авторизации"

  const MalformedTokenMessage: string := "Неверный формат токена"

  datatype Response =
    | Rejected(status: int, error: string)
    | Proceeded(userId: int)  // `user_id` set to the claims' user id, then `next` called once

  /** The response, and the credentials handed to the validator (at most one). */
  datatype Handling = Handling(validated: seq<string>, response: Response)

  /** The split-on-space format check: exactly two parts, the first exactly "Bearer". */
  function BearerCredential(header: string): (token: Option<string>)
    ensures token.Some? ==> header == "Bearer " + token.value && ' ' !in token.value
  {
    var parts := Text.Split(header, ' ');
    Text.JoinSplit(header, ' ');
    Text.SplitPiecesHaveNoSeparator(header, ' ');
    if |parts| == 2 && parts[0] == "Bearer" then
      assert parts[1..] == [parts[1]];
      Some(parts[1])
    else None
  }

  /** The format check accepts exactly "Bearer", one space, and a credential without spaces. */
  lemma BearerCredentialIff(header: string, token: string)
    ensures BearerCredential(header) == Some(token) <==> header == "Bearer " + token && ' ' !in token
  {
    if BearerCredential(header) == Some(token) {
      var parts := Text.Split(header, ' ');
      Text.JoinSplit(header, ' ');
      Text.SplitPiecesHaveNoSeparator(header, ' ');
      assert parts[1] == token;
      assert parts[1..] == [token];
      assert header == "Bearer" + [' '] + token;
    }
    if header == "Bearer " + token && ' ' !in token {
      assert header == Text.Join(["Bearer", token], ' ');
      Text.SplitJoin(["Bearer", token], ' ');
    }
  }

  /** An accepted header is "Bearer ", then the credential, which holds no space. */
  lemma BearerCredentialShape(header: string)
    ensures BearerCredential(header).Some? ==>
      |header| >= 7 && header[..7] == "Bearer " && BearerCredential(header).value == header[7..] && ' ' !in header[7..]
  {
    if BearerCredential(header).Some? {
      BearerCredentialIff(header, BearerCredential(header).value);
    }
  }

  /** The format check accepts only headers with exactly one space. */
  lemma BearerCredentialNeedsOneSpace(header: string)
    requires BearerCredential(header).Some?
    ensures Text.Occurrences(header, ' ') == 1
  {
    Text.SplitCount(header, ' ');
  }

  /**
   * The middleware: an empty header and a malformed one are rejected with 401 before
   * the validator runs; otherwise the validator sees exactly the second part, its error
   * text becomes the 401 body, and on success the request proceeds as the claims' user.
   */
  function Authenticate(header: string, validate: string -> Result<AuthService.Claims, string>): (h: Handling)
    ensures header == "" ==> h == Handling([], Rejected(StatusUnauthorized, MissingTokenMessage))
    ensures header != "" && BearerCredential(header).None? ==>
      h == Handling([], Rejected(StatusUnauthorized, MalformedTokenMessage))
    ensures BearerCredential(header).Some? ==>
      var token := BearerCredential(header).value;
      h.validated == [token] &&
      (validate(token).Failure? ==> h.response == Rejected(StatusUnauthorized, validate(token).error)) &&
      (validate(token).Success? ==> h.response == Proceeded(validate(token).value.userId))
  {
    if header == "" then
      Handling([], Rejected(StatusUnauthorized, MissingTokenMessage))
    else
      var parts := Text.Split(header, ' ');
      if |parts| != 2 || parts[0] != "Bearer" then
        Handling([], Rejected(StatusUnauthorized, MalformedTokenMessage))
      else
        var token := parts[1];
        match validate(token)
        case Failure(e) => Handling([token], Rejected(StatusUnauthorized, e))
        case Success(claims) => Handling([token], Proceeded(claims.userId))
  }

  /**
   * The next handler runs exactly for a header "Bearer " + credential, with no other space,
   * whose credential the validator accepts; it then runs as the user the claims name.
   */
  lemma ProceedsIff(header: string, validate: string -> Result<AuthService.Claims, string>, token: string)
    ensures (header == "Bearer " + token && ' ' !in token && validate(token).Success?) ==>
      Authenticate(header, validate) == Handling([token], Proceeded(validate(token).value.userId))
    ensures Authenticate(header, validate).response.Proceeded? ==>
      exists t :: header == "Bearer " + t && ' ' !in t && validate(t).Success? &&
        Authenticate(header, validate).response.userId == validate(t).value.userId
  {
    BearerCredentialIff(header, token);
    if Authenticate(header, validate).response.Proceeded? {
      var t := BearerCredential(header).value;
      BearerCredentialIff(header, t);
    }
  }

  /**
   * Where the two header parsers agree and differ: a credential the middleware accepts is
   * what `FormatToken` extracts too, except the empty one; `FormatToken` also accepts
   * credentials containing spaces, which the middleware rejects.
   */
  lemma ParsersCompared(header: string)
    ensures BearerCredential(header).Some? && BearerCredential(header).value != "" ==>
      AuthService.FormatToken(header) == BearerCredential(header).value
    ensures BearerCredential(header) == Some("") ==> AuthService.FormatToken(header) == ""
    ensures AuthService.FormatToken(header) != "" && ' ' in AuthService.FormatToken(header) ==>
      BearerCredential(header).None?
  {
    if BearerCredential(header).Some? {
      var token := BearerCredential(header).value;
      BearerCredentialIff(header, token);
      AuthService.FormatTokenOfBearer(token);
    }
  }

  /** A header with a second space is a format error, whatever follows it. */
  lemma SecondSpaceRejected(token: string, validate: string -> Result<AuthService.Claims, string>)
    requires ' ' in token
    ensures Authenticate("Bearer " + token, validate) == Handling([], Rejected(StatusUnauthorized, MalformedTokenMessage))
  {
    var header := "Bearer " + token;
    assert header[7..] == token;
    BearerCredentialShape(header);
  }

  /**
   * A credential with a space in it, as in "Bearer a b" or "Bearer  x", is extracted whole
   * by `FormatToken` and is a format error for the middleware.
   */
  lemma SpacedCredentialsDisagree(token: string, validate: string -> Result<AuthService.Claims, string>)
    requires ' ' in token
    ensures AuthService.FormatToken("Bearer " + token) == token
    ensures Authenticate("Bearer " + token, validate) == Handling([], Rejected(StatusUnauthorized, MalformedTokenMessage))
  {
    AuthService.FormatTokenOfBearer(token);
    SecondSpaceRejected(token, validate);
  }
}
