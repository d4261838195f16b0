/** The bearer-token guard `protect` of server/middleware/auth.js. It reads
    the optional `Authorization` header, takes the token after the first
    space, asks the token verifier for the user id, and either hands the
    request on or answers 401. The verifier (`jwt.verify` with the server's
    secret) is a parameter: it maps a non-empty token to the id it carries,
    or to nothing when the signature or expiry check fails. */
module Guard {
  import opened Common
  import opened Text

  /** One thing the guard does with a request: call the next handler with
      `req.userId` set, or answer 401 with a message. */
  datatype Emitted = Next(userId: Id) | Unauthorized(message: string)

  const NoTokenMessage: string := "Not authorized, no token provided."
  const TokenFailedMessage: string := "Not authorized, token failed or expired."

  /** The prefix the header is checked for (line 7). */
  const Scheme: string := "Bearer"

  /** Line 7: a header is present and starts with "Bearer". Nothing more
      is checked: "Bearerx y" passes too. */
  predicate Presented(authorization: Option<string>): (p: bool)
    ensures p <==> (authorization.Some? && |Scheme| <= |authorization.value|
      && forall i :: 0 <= i < |Scheme| ==> authorization.value[i] == Scheme[i])
  {
    authorization.Some? && StartsWith(authorization.value, Scheme)
  }

  /** Line 10, `header.split(' ')[1]`: the piece between the first space
      and the next one (or the end), absent when there is no space. */
  function SecondPiece(header: string): (t: Option<string>)
    ensures t.Some? <==> ' ' in header
    ensures t.Some? ==> ' ' !in t.value
    ensures t.Some? ==> var rest := header[IndexOf(header, ' ') + 1..];
      t.value == rest[..IndexOf(rest, ' ')]
  {
    var parts := Split(header, ' ');
    SplitPieces(header, ' ');
    if |parts| >= 2 then Some(parts[1]) else None
  }

  /** A word, a space, a space-free token and then nothing or another space:
      the token is what the split picks. */
  lemma SecondPieceOf(word: string, token: string, rest: string)
    requires ' ' !in word && ' ' !in token
    requires rest == [] || rest[0] == ' '
    ensures SecondPiece(word + " " + token + rest) == Some(token)
  {
    var h := word + " " + token + rest;
    IndexOfFirst(word, " " + token + rest, ' ');
    assert h == word + (" " + token + rest);
    var after := h[|word| + 1..];
    assert after == token + rest;
    IndexOfFirst(token, rest, ' ');
    assert after[..|token|] == token;
  }

  /** `jwt.verify` as the guard meets it: an absent or empty token throws
      ("jwt must be provided") before the verifier is consulted. */
  function Decode(token: Option<string>, verify: string -> Option<Id>): (id: Option<Id>)
    ensures id.Some? ==> token.Some? && token.value != [] && verify(token.value) == id
  {
    if token.None? || token.value == [] then None else verify(token.value)
  }

  /** JavaScript truthiness of the `token` variable. */
  predicate Truthy(token: Option<string>) {
    token.Some? && token.value != []
  }

  /** The token the guard ends up holding: nothing unless the header is
      presented. */
  function HeldToken(authorization: Option<string>): Option<string> {
    if Presented(authorization) then SecondPiece(authorization.value) else None
  }

  /** Everything the guard emits, in order, by the case the request falls
      in. */
  function Responses(authorization: Option<string>, verify: string -> Option<Id>): (out: seq<Emitted>)
    ensures 1 <= |out| <= 2
  {
    var token := HeldToken(authorization);
    if !Presented(authorization) then [Unauthorized(NoTokenMessage)]
    else if !Truthy(token) then [Unauthorized(TokenFailedMessage), Unauthorized(NoTokenMessage)]
    else if verify(token.value).Some? then [Next(verify(token.value).value)]
    else [Unauthorized(TokenFailedMessage)]
  }

  /** Lines 3-28 as written. The catch branch answers when the verifier
      throws, and the `if (!token)` test afterwards attempts a second
      answer whenever the token is absent or empty, including right after
      the catch. */
  method Protect(authorization: Option<string>, verify: string -> Option<Id>) returns (emitted: seq<Emitted>)
    ensures emitted == Responses(authorization, verify)
  {
    emitted := [];
    var token: Option<string> := None;
    if authorization.Some? && StartsWith(authorization.value, Scheme) {
      token := SecondPiece(authorization.value);
      var decoded := Decode(token, verify);
      if decoded.Some? {
        emitted := emitted + [Next(decoded.value)];
      } else {
        emitted := emitted + [Unauthorized(TokenFailedMessage)];
      }
    }
    if !Truthy(token) {
      emitted := emitted + [Unauthorized(NoTokenMessage)];
    }
  }

  /** The next handler runs only with the id the verifier gives for the
      token of a presented header, and then nothing else is emitted. */
  lemma NextOnlyWhenVerified(authorization: Option<string>, verify: string -> Option<Id>, id: Id)
    requires Next(id) in Responses(authorization, verify)
    ensures Presented(authorization)
    ensures var t := SecondPiece(authorization.value);
      t.Some? && t.value != [] && verify(t.value) == Some(id)
    ensures Responses(authorization, verify) == [Next(id)]
  {
  }

  /** With no header, or one not starting with "Bearer", the only answer is
      the "no token provided" 401. */
  lemma AbsentHeaderRejected(authorization: Option<string>, verify: string -> Option<Id>)
    requires !Presented(authorization)
    ensures Responses(authorization, verify) == [Unauthorized(NoTokenMessage)]
    ensures forall e :: e in Responses(authorization, verify) ==> !e.Next?
  {
  }

  /** A well-formed "Bearer <token>" header passes exactly when the verifier
      accepts the token; a rejected one gets the single "token failed" 401. */
  lemma BearerTokenDecided(token: string, verify: string -> Option<Id>)
    requires token != [] && ' ' !in token
    ensures var out := Responses(Some(Scheme + " " + token), verify);
      && (verify(token).Some? ==> out == [Next(verify(token).value)])
      && (verify(token).None? ==> out == [Unauthorized(TokenFailedMessage)])
  {
    SecondPieceOf(Scheme, token, []);
    assert Scheme + " " + token + [] == Scheme + " " + token;
    assert StartsWith(Scheme + " " + token, Scheme);
  }

  /** The guard answers twice exactly when the header is presented but the
      token it yields is absent or empty. */
  lemma TwoAnswersIff(authorization: Option<string>, verify: string -> Option<Id>)
    ensures |Responses(authorization, verify)| == 2 <==> Presented(authorization) && !Truthy(HeldToken(authorization))
  {
  }

  /** "Bearer" alone, and "Bearer" followed by one space, both take the
      double path: a 401 from the catch, then an attempted second 401 on a
      response that was already sent (which the web framework refuses with
      an error). */
  lemma BareSchemeAnsweredTwice(verify: string -> Option<Id>)
    ensures Responses(Some("Bearer"), verify) == [Unauthorized(TokenFailedMessage), Unauthorized(NoTokenMessage)]
    ensures Responses(Some("Bearer "), verify) == [Unauthorized(TokenFailedMessage), Unauthorized(NoTokenMessage)]
  {
    BareSchemeHeld();
    BareSchemeSpaceHeld();
  }

  /** "Bearer" is presented and holds no token. */
  lemma BareSchemeHeld()
    ensures Presented(Some("Bearer")) && HeldToken(Some("Bearer")) == None
  {
    assert StartsWith("Bearer", Scheme);
    assert ' ' !in "Bearer";
  }

  /** "Bearer " is presented and holds the empty token. */
  lemma BareSchemeSpaceHeld()
    ensures Presented(Some("Bearer ")) && HeldToken(Some("Bearer ")) == Some("")
  {
    assert "Bearer" + " " + "" + [] == "Bearer ";
    assert StartsWith("Bearer ", Scheme);
    assert ' ' !in "Bearer";
    SecondPieceOf("Bearer", "", []);
  }

  /** The guard as its authors meant it: one answer per request, the first
      one the written guard gives. */
  function ResponsesOnce(authorization: Option<string>, verify: string -> Option<Id>): (out: seq<Emitted>)
    ensures |out| == 1
    ensures out == Responses(authorization, verify)[..1]
  {
    var token := HeldToken(authorization);
    if !Presented(authorization) then [Unauthorized(NoTokenMessage)]
    else if Truthy(token) && verify(token.value).Some? then [Next(verify(token.value).value)]
    else [Unauthorized(TokenFailedMessage)]
  }

  /** The corrected guard: the "no token provided" answer is only given
      when no "Bearer" header was presented. */
  method ProtectOnce(authorization: Option<string>, verify: string -> Option<Id>) returns (emitted: seq<Emitted>)
    ensures emitted == ResponsesOnce(authorization, verify)
  {
    if authorization.Some? && StartsWith(authorization.value, Scheme) {
      var token := SecondPiece(authorization.value);
      var decoded := Decode(token, verify);
      if decoded.Some? {
        emitted := [Next(decoded.value)];
      } else {
        emitted := [Unauthorized(TokenFailedMessage)];
      }
    } else {
      emitted := [Unauthorized(NoTokenMessage)];
    }
  }

  /** The corrected guard agrees with the written one wherever the written
      one answers once. */
  lemma OnceAgrees(authorization: Option<string>, verify: string -> Option<Id>)
    requires |Responses(authorization, verify)| == 1
    ensures ResponsesOnce(authorization, verify) == Responses(authorization, verify)
  {
  }
}
