/** Opaque bearer tokens: how they are minted and how a request presents one. */
module Bearer {
  import opened Machine
  import opened Wrappers
  import opened Text
  import Base64Url

  /** HMAC-SHA256 under the configured secret, left uninterpreted. */
  type Mac = string -> seq<Byte>

  /** generateToken for the nonce the random source delivered. */
  function GenerateToken(mac: Mac, nonce: seq<Byte>): string {
    var nonce64 := Base64Url.Encode(nonce);
    nonce64 + "." + Base64Url.Encode(mac(nonce64))
  }

  /** The two halves decode to the nonce and to its signature. */
  lemma GenerateTokenParts(mac: Mac, nonce: seq<Byte>)
    ensures var parts := SplitN(GenerateToken(mac, nonce), '.', 2);
            && |parts| == 2 && GenerateToken(mac, nonce) == parts[0] + "." + parts[1]
            && Base64Url.Decode(parts[0]) == Some(nonce) && Base64Url.Decode(parts[1]) == Some(mac(parts[0]))
  {
    hide Base64Url.Decode;
    hide SplitN;
    var parts := [Base64Url.Encode(nonce), Base64Url.Encode(mac(Base64Url.Encode(nonce)))];
    Base64Url.DecodeEncode(nonce);
    Base64Url.DecodeEncode(mac(parts[0]));
    NoDots(nonce);
    assert Join(parts[1..], '.') == parts[1];
    assert Join(parts, '.') == GenerateToken(mac, nonce);
    SplitNJoin(parts, '.', 2);
  }

  lemma NoDots(b: seq<Byte>)
    ensures '.' !in Base64Url.Encode(b)
  {
    hide Base64Url.Sextets;
  }

  predicate TokenChar(c: char) {
    Base64Url.Value(c).Some? || c == '.'
  }

  lemma TokenChars(mac: Mac, nonce: seq<Byte>)
    ensures GenerateToken(mac, nonce) != ""
    ensures forall c :: c in GenerateToken(mac, nonce) ==> TokenChar(c)
  {
  }

  /** Distinct nonces give distinct tokens, whatever the signature function does. */
  lemma GenerateTokenInjective(mac: Mac, nonce: seq<Byte>, nonce': seq<Byte>)
    requires GenerateToken(mac, nonce) == GenerateToken(mac, nonce')
    ensures nonce == nonce'
  {
    var a, b := Base64Url.Encode(nonce), Base64Url.Encode(nonce');
    IndexOf(a, '.', Base64Url.Encode(mac(a)));
    IndexOf(b, '.', Base64Url.Encode(mac(b)));
    Base64Url.EncodeInjective(nonce, nonce');
  }

  /** extractBearerToken on the Authorization header ("" when it is absent). */
  function ExtractBearerToken(auth: string): string {
    if auth == "" then ""
    else
      var parts := SplitN(auth, ' ', 2);
      if |parts| != 2 || !EqualFold(parts[0], "bearer") then ""
      else TrimSpace(parts[1])
  }

  /** A header is "<scheme> <text>" with a case-insensitive scheme; what is extracted is the trimmed text. */
  lemma ExtractAfterScheme(scheme: string, text: string)
    requires ' ' !in scheme
    ensures ExtractBearerToken(scheme + " " + text) == if IsBearer(scheme) then TrimSpace(text) else ""
  {
    EqualFoldBearer(scheme);
    hide IsBearer;
    var parts := [scheme, text];
    assert Join(parts[1..], ' ') == text;
    assert Join(parts, ' ') == scheme + " " + text;
    hide SplitN;
    hide Join;
    hide TrimSpace;
    hide EqualFold;
    SplitNJoin(parts, ' ', 2);
  }

  lemma NoSchemeNoToken(auth: string)
    requires ' ' !in auth
    ensures ExtractBearerToken(auth) == ""
  {
  }

  /** A text survives the header exactly when no space surrounds it. */
  lemma ExtractText(text: string)
    ensures ExtractBearerToken("Bearer " + text) == text <==> Tight(text)
  {
    assert "Bearer " + text == "Bearer" + " " + text;
    assert IsBearer("Bearer") && ' ' !in "Bearer";
    hide *;
    ExtractAfterScheme("Bearer", text);
    TrimSpaceTight(text);
  }

  /** In particular every issued token is presented exactly as it was issued. */
  lemma ExtractIssued(mac: Mac, nonce: seq<Byte>)
    ensures ExtractBearerToken("Bearer " + GenerateToken(mac, nonce)) == GenerateToken(mac, nonce)
  {
    var tok := GenerateToken(mac, nonce);
    TokenChars(mac, nonce);
    TokenTight(tok);
    ExtractText(tok);
  }

  lemma TokenTight(tok: string)
    requires tok != "" && forall c :: c in tok ==> TokenChar(c)
    ensures Tight(tok)
  {
    assert tok[0] in tok && tok[|tok| - 1] in tok;
  }

  /** What a request to the protected API presents: the Authorization header and the Basic user, if that header is
      Basic. */
  datatype Credentials = Credentials(auth: string, basicUser: Option<string>)

  /** The token BearerAuthMiddleware goes on with: the bearer token, else the Basic user name. */
  function Presented(c: Credentials): string {
    var tok := ExtractBearerToken(c.auth);
    if tok == "" && c.basicUser.Some? then c.basicUser.value else tok
  }

  /** A bearer text that is not blank takes precedence over the Basic user; any other header leaves the Basic user,
      and no token where there is none. */
  lemma PresentedAfterScheme(scheme: string, text: string, basicUser: Option<string>)
    requires ' ' !in scheme
    ensures Presented(Credentials(scheme + " " + text, basicUser)) ==
            if IsBearer(scheme) && TrimSpace(text) != "" then TrimSpace(text)
            else if basicUser.Some? then basicUser.value
            else ""
  {
    hide ExtractBearerToken;
    hide IsBearer;
    hide TrimSpace;
    ExtractAfterScheme(scheme, text);
  }

  lemma PresentedNoScheme(auth: string, basicUser: Option<string>)
    requires ' ' !in auth
    ensures Presented(Credentials(auth, basicUser)) == if basicUser.Some? then basicUser.value else ""
  {
    hide ExtractBearerToken;
    NoSchemeNoToken(auth);
  }
}
