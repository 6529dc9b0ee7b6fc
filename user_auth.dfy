/** The access-token middleware: it picks the authorization header, takes
    the token out of a `Bearer` header and has it verified. Verification
    (a signed-token library) is a parameter of the model. */
module UserAuth {

  import opened Common

  /** The two spellings of the header the middleware reads; `None` when the
      request does not carry it. */
  datatype Headers = Headers(upper: Option<string>, lower: Option<string>)

  /** The decoded token payload the middleware attaches as the caller. */
  datatype Claims = Claims(userId: Id, role: Option<string>)

  /** Go on with the decoded caller, or stop with this response. */
  datatype AuthResult = Continue(user: Claims) | Stop(status: int, message: string)

  /** JavaScript truthiness of an optional string. */
  predicate Truthy(h: Option<string>) { h.Some? && h.value != "" }

  /** `Authorization || authorization`: the first spelling unless it is
      missing or empty. */
  function SelectHeader(h: Headers): Option<string> {
    if Truthy(h.upper) then h.upper else h.lower
  }

  // ---------------------------------------------------------------------
  // String.prototype.split with a one-character separator

  /** The fields of `s` between occurrences of `sep`. */
  function Split(s: string, sep: char): (r: seq<string>)
    ensures |r| >= 1
    ensures forall i :: 0 <= i < |r| ==> sep !in r[i]
  {
    if s == [] then [""]
    else
      var rest := Split(s[1..], sep);
      if s[0] == sep then [""] + rest
      else [[s[0]] + rest[0]] + rest[1..]
  }

  /** The fields glued back together with the separator. */
  function Join(fields: seq<string>, sep: char): string
  {
    if |fields| == 0 then ""
    else if |fields| == 1 then fields[0]
    else fields[0] + [sep] + Join(fields[1..], sep)
  }

  /** Splitting loses nothing: joining the fields gives the header back. */
  lemma {:induction false} JoinSplit(s: string, sep: char)
    ensures Join(Split(s, sep), sep) == s
    decreases |s|
  {
    if s != [] {
      var rest := Split(s[1..], sep);
      JoinSplit(s[1..], sep);
      if s[0] == sep {
        assert Split(s, sep) == [""] + rest;
        assert ([""] + rest)[1..] == rest;
      } else {
        var r := Split(s, sep);
        assert r == [[s[0]] + rest[0]] + rest[1..];
        if |rest| == 1 {
          assert r == [[s[0]] + rest[0]];
        } else {
          assert r[1..] == rest[1..];
          assert Join(rest, sep) == rest[0] + [sep] + Join(rest[1..], sep);
          assert Join(r, sep) == ([s[0]] + rest[0]) + [sep] + Join(rest[1..], sep);
        }
        assert s == [s[0]] + s[1..];
      }
    }
  }

  /** A string without the separator is a single field. */
  lemma {:induction false} SplitWithoutSeparator(s: string, sep: char)
    requires sep !in s
    ensures Split(s, sep) == [s]
    decreases |s|
  {
    if s != [] {
      SplitWithoutSeparator(s[1..], sep);
      assert [s[0]] + s[1..] == s;
    }
  }

  /** The first field ends at the first separator. */
  lemma {:induction false} SplitAtFirst(s: string, i: nat, sep: char)
    requires i < |s| && s[i] == sep && sep !in s[..i]
    ensures Split(s, sep) == [s[..i]] + Split(s[i + 1..], sep)
    decreases i
  {
    if i > 0 {
      assert s[1..][..i - 1] == s[..i][1..];
      SplitAtFirst(s[1..], i - 1, sep);
      assert s[1..][i..] == s[i + 1..];
      assert s[0] != sep by { assert s[0] == s[..i][0]; }
      assert [s[0]] + s[1..][..i - 1] == s[..i];
    }
  }

  // ---------------------------------------------------------------------
  // The middleware

  /** `header.split(" ")[1]`, with `""` standing for `undefined`. */
  function BearerToken(header: string): string {
    var fields := Split(header, ' ');
    if |fields| > 1 then fields[1] else ""
  }

  /** The middleware, with the token verifier as a parameter. */
  function Authenticate(h: Headers, verify: string -> Option<Claims>): (r: AuthResult)
    ensures var header := SelectHeader(h);
      r == Stop(BAD_REQUEST, "Missing request header") <==> (header.None? || !("Bearer" <= header.value))
    ensures var header := SelectHeader(h);
      r == Stop(BAD_REQUEST, "Missing access token") <==>
        (header.Some? && "Bearer" <= header.value && BearerToken(header.value) == "")
    ensures var header := SelectHeader(h);
      r == Stop(FORBIDDEN, "Could not verify access token") <==>
        (header.Some? && "Bearer" <= header.value && BearerToken(header.value) != ""
         && verify(BearerToken(header.value)).None?)
    ensures r.Continue? ==>
      var header := SelectHeader(h);
      header.Some? && "Bearer" <= header.value && verify(BearerToken(header.value)) == Some(r.user)
    ensures var header := SelectHeader(h);
      (header.Some? && "Bearer" <= header.value && BearerToken(header.value) != ""
       && verify(BearerToken(header.value)).Some?) ==>
        r == Continue(verify(BearerToken(header.value)).value)
  {
    var header := SelectHeader(h);
    if header.None? || !("Bearer" <= header.value) then Stop(BAD_REQUEST, "Missing request header")
    else
      var token := BearerToken(header.value);
      if token == "" then Stop(BAD_REQUEST, "Missing access token")
      else match verify(token)
        case None => Stop(FORBIDDEN, "Could not verify access token")
        case Some(claims) => Continue(claims)
  }

  /** The token is the text between the first space and the next one (or
      the end). */
  lemma BearerTokenIsSecondField(header: string, i: nat)
    requires i < |header| && header[i] == ' ' && ' ' !in header[..i]
    ensures BearerToken(header) <= header[i + 1..]
    ensures ' ' !in BearerToken(header)
    ensures var t := BearerToken(header);
      |t| == |header| - (i + 1) || header[i + 1 + |t|] == ' '
  {
    SplitAtFirst(header, i, ' ');
    var rest := header[i + 1..];
    match IndexOf(rest, ' ')
    case None =>
      SplitWithoutSeparator(rest, ' ');
    case Some(j) =>
      SplitAtFirst(rest, j, ' ');
  }

  /** Headers the middleware refuses before any verification. */
  lemma MissingHeaderSamples(verify: string -> Option<Claims>)
    ensures Authenticate(Headers(None, None), verify) == Stop(BAD_REQUEST, "Missing request header")
    ensures Authenticate(Headers(None, Some("bearer abc")), verify) == Stop(BAD_REQUEST, "Missing request header")
  {
    assert !("Bearer" <= "bearer abc") by { assert "bearer abc"[0] != 'B'; }
  }

  /** A `Bearer` header without a token, or with an empty second field. */
  lemma MissingTokenSamples(verify: string -> Option<Claims>)
    ensures Authenticate(Headers(None, Some("Bearer")), verify) == Stop(BAD_REQUEST, "Missing access token")
    ensures Authenticate(Headers(None, Some("Bearer ")), verify) == Stop(BAD_REQUEST, "Missing access token")
    ensures Authenticate(Headers(None, Some("Bearer  abc")), verify) == Stop(BAD_REQUEST, "Missing access token")
  {
    NoTokenSamples();
  }

  lemma NoTokenSamples()
    ensures BearerToken("Bearer") == ""
    ensures BearerToken("Bearer ") == ""
    ensures BearerToken("Bearer  abc") == ""
  {
    NoTokenBare();
    NoTokenTrailingSpace();
    NoTokenDoubleSpace();
  }

  lemma NoTokenBare()
    ensures BearerToken("Bearer") == ""
  {
    SplitWithoutSeparator("Bearer", ' ');
  }

  lemma NoTokenTrailingSpace()
    ensures BearerToken("Bearer ") == ""
  {
    var h := "Bearer ";
    assert h[6] == ' ' && h[..6] == "Bearer";
    SplitAtFirst(h, 6, ' ');
    assert h[7..] == "";
  }

  lemma NoTokenDoubleSpace()
    ensures BearerToken("Bearer  abc") == ""
  {
    var h := "Bearer  abc";
    assert h[6] == ' ' && h[..6] == "Bearer";
    SplitAtFirst(h, 6, ' ');
    assert h[7..] == " abc";
    SplitAtFirst(" abc", 0, ' ');
  }

  /** With the upper-case header empty, the lower-case one is used. */
  lemma EmptyHeaderFallsBack(lower: Option<string>, verify: string -> Option<Claims>)
    ensures Authenticate(Headers(Some(""), lower), verify) == Authenticate(Headers(None, lower), verify)
  {
  }
}
