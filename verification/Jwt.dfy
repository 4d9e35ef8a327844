/** Compact JSON web tokens: splitting, decoding and the acceptance rule of OIDCValidator.Validate. */
module Jwt {
  import opened Machine
  import opened Wrappers
  import opened Text
  import opened Jwk
  import Base64Url

  datatype Header = Header(alg: string, kid: string)

  /** The "aud" claim: a string, an array (None for an element that is no string), or anything else. */
  datatype Audience = One(aud: string) | Many(auds: seq<Option<string>>) | Other

  datatype Claims = Claims(issuer: string, subject: string, audience: Audience, expiresAt: Int64, issuedAt: Int64)
  {
    predicate AudienceContains(aud: string) {
      match audience
      case One(a) => a == aud
      case Many(auds) => Some(aud) in auds
      case Other => false
    }
  }

  /** JSON decoding and the two signature checks, left uninterpreted. */
  datatype Library = Library(
    header: seq<Byte> -> Option<Header>,
    claims: seq<Byte> -> Option<Claims>,
    rsaVerifies: (PublicKey, string, seq<Byte>) -> bool,
    ecdsaVerifies: (PublicKey, string, seq<Byte>) -> bool)

  /** verifySignature: each algorithm insists on its own kind of key. */
  predicate Verifies(lib: Library, alg: string, key: PublicKey, signed: string, sig: seq<Byte>) {
    || (alg == "RS256" && key.Rsa? && lib.rsaVerifies(key, signed, sig))
    || (alg == "ES256" && key.Ec? && lib.ecdsaVerifies(key, signed, sig))
  }

  datatype Issuer = Issuer(url: string, audience: string)

  datatype Reason =
    | NotThreeParts | BadHeaderEncoding | BadHeader | NoSigningKey | BadSignatureEncoding | BadSignature
    | BadClaimsEncoding | BadClaims | Expired | WrongIssuer | WrongAudience

  /** A token whose header could be read. */
  datatype Opened = Opened(header: Header, h64: string, c64: string, s64: string)

  /** Validate, step 1. */
  function Open(lib: Library, raw: string): Result<Opened, Reason> {
    var parts := SplitN(raw, '.', 3);
    if |parts| != 3 then Failure(NotThreeParts)
    else match Base64Url.Decode(parts[0])
      case None => Failure(BadHeaderEncoding)
      case Some(bytes) =>
        match lib.header(bytes)
        case None => Failure(BadHeader)
        case Some(header) => Success(Opened(header, parts[0], parts[1], parts[2]))
  }

  /** Validate, steps 3 to 5, once getKey delivered the key; now is the clock at step 5. */
  function Close(lib: Library, iss: Issuer, o: Opened, key: PublicKey, now: int): Result<Claims, Reason> {
    match Base64Url.Decode(o.s64)
    case None => Failure(BadSignatureEncoding)
    case Some(sig) =>
      if !Verifies(lib, o.header.alg, key, o.h64 + "." + o.c64, sig) then Failure(BadSignature)
      else match Base64Url.Decode(o.c64)
        case None => Failure(BadClaimsEncoding)
        case Some(bytes) =>
          match lib.claims(bytes)
          case None => Failure(BadClaims)
          case Some(claims) =>
            if claims.expiresAt != 0 && Unix(now) > claims.expiresAt then Failure(Expired)
            else if claims.issuer != iss.url then Failure(WrongIssuer)
            else if iss.audience != "" && !claims.AudienceContains(iss.audience) then Failure(WrongAudience)
            else Success(claims)
  }

  /** Validate as a whole; key is what getKey answers for the kid in the header. */
  function Validate(lib: Library, iss: Issuer, raw: string, key: string -> Option<PublicKey>, now: int)
    : Result<Claims, Reason>
  {
    match Open(lib, raw)
    case Failure(e) => Failure(e)
    case Success(o) =>
      match key(o.header.kid)
      case None => Failure(NoSigningKey)
      case Some(k) => Close(lib, iss, o, k, now)
  }

  /** The compact serialization of section 7.1 of RFC 7515. */
  function Print(h: seq<Byte>, c: seq<Byte>, s: seq<Byte>): string {
    Base64Url.Encode(h) + "." + Base64Url.Encode(c) + "." + Base64Url.Encode(s)
  }

  /** Three dot-free texts joined by dots come apart again, and hold no other dot. */
  lemma SplitThree(a: string, b: string, c: string)
    requires '.' !in a && '.' !in b
    ensures SplitN(a + "." + b + "." + c, '.', 3) == [a, b, c]
  {
    var parts := [a, b, c];
    assert parts[1..] == [b, c] && parts[1..][1..] == [c];
    assert Join([c], '.') == c;
    assert Join([b, c], '.') == b + ['.'] + c;
    assert Join(parts, '.') == a + ['.'] + (b + ['.'] + c);
    assert a + ['.'] + (b + ['.'] + c) == a + "." + b + "." + c;
    SplitNJoin(parts, '.', 3);
  }

  lemma ThreeParts(raw: string)
    requires |SplitN(raw, '.', 3)| == 3
    ensures var p := SplitN(raw, '.', 3);
            raw == p[0] + "." + p[1] + "." + p[2] && '.' !in p[0] && '.' !in p[1]
  {
  }

  /** Printing and parsing: header, claims and signature come back exactly, and the signed text is the first two
      parts. */
  lemma PrintParse(lib: Library, h: seq<Byte>, c: seq<Byte>, s: seq<Byte>)
    ensures var parts := SplitN(Print(h, c, s), '.', 3);
            && |parts| == 3
            && Base64Url.Decode(parts[0]) == Some(h)
            && Base64Url.Decode(parts[1]) == Some(c)
            && Base64Url.Decode(parts[2]) == Some(s)
            && Print(h, c, s) == parts[0] + "." + parts[1] + "." + Base64Url.Encode(s)
            && Open(lib, Print(h, c, s)) ==
               match lib.header(h)
               case None => Failure(BadHeader)
               case Some(hd) => Success(Opened(hd, parts[0], parts[1], parts[2]))
  {
    hide Base64Url.Decode;
    hide Base64Url.Encode;
    hide SplitN;
    Base64Url.DecodeEncode(h);
    Base64Url.DecodeEncode(c);
    Base64Url.DecodeEncode(s);
    SplitThree(Base64Url.Encode(h), Base64Url.Encode(c), Base64Url.Encode(s));
  }

  /** The acceptance rule, stated on the text rather than on the order of the checks. */
  ghost predicate Acceptable(lib: Library, iss: Issuer, raw: string, key: string -> Option<PublicKey>, now: int,
                             claims: Claims, p: (string, string, string))
  {
    && raw == p.0 + "." + p.1 + "." + p.2
    && Base64Url.Decode(p.0).Some? && Base64Url.Decode(p.1).Some? && Base64Url.Decode(p.2).Some?
    && lib.claims(Base64Url.Decode(p.1).value) == Some(claims)
    && (match lib.header(Base64Url.Decode(p.0).value)
        case None => false
        case Some(hd) =>
          key(hd.kid).Some?
          && (var k, signed, sig := key(hd.kid).value, p.0 + "." + p.1, Base64Url.Decode(p.2).value;
              match k
              case Rsa(_, _) => hd.alg == "RS256" && lib.rsaVerifies(k, signed, sig)
              case Ec(_, _, _) => hd.alg == "ES256" && lib.ecdsaVerifies(k, signed, sig)))
    && (claims.expiresAt == 0 || now < (claims.expiresAt + 1) * SECOND)
    && claims.issuer == iss.url
    && (iss.audience == "" || claims.audience == One(iss.audience)
        || (claims.audience.Many?
            && exists i :: 0 <= i < |claims.audience.auds| && claims.audience.auds[i] == Some(iss.audience)))
  }

  /** A token is accepted with given claims exactly when it is acceptable under some cut into three. */
  lemma ValidateExact(lib: Library, iss: Issuer, raw: string, key: string -> Option<PublicKey>, now: int,
                      claims: Claims)
    ensures Validate(lib, iss, raw, key, now) == Success(claims)
            <==> exists p :: Acceptable(lib, iss, raw, key, now, claims, p)
  {
    hide Base64Url.Decode;
    hide SplitN;
    if Validate(lib, iss, raw, key, now) == Success(claims) {
      var parts := SplitN(raw, '.', 3);
      ValidateSplit(lib, iss, raw, key, now, claims, (parts[0], parts[1], parts[2]));
    }
    forall p | Acceptable(lib, iss, raw, key, now, claims, p)
      ensures Validate(lib, iss, raw, key, now) == Success(claims)
    {
      NoDot(p.0);
      NoDot(p.1);
      SplitThree(p.0, p.1, p.2);
      ValidateSplit(lib, iss, raw, key, now, claims, p);
    }
  }

  lemma ValidateSplit(lib: Library, iss: Issuer, raw: string, key: string -> Option<PublicKey>, now: int,
                      claims: Claims, p: (string, string, string))
    requires SplitN(raw, '.', 3) == [p.0, p.1, p.2]
    ensures Validate(lib, iss, raw, key, now) == Success(claims) <==> Acceptable(lib, iss, raw, key, now, claims, p)
  {
    hide Base64Url.Decode;
    hide SplitN;
    ThreeParts(raw);
  }

  /** Whatever is accepted has exactly two dots. */
  lemma AcceptedHasTwoDots(lib: Library, iss: Issuer, raw: string, key: string -> Option<PublicKey>, now: int)
    ensures Validate(lib, iss, raw, key, now).Success? ==> multiset(raw)['.'] == 2
  {
    hide Base64Url.Decode;
    hide SplitN;
    var parts := SplitN(raw, '.', 3);
    if |parts| == 3 && Base64Url.Decode(parts[2]).Some? {
      ThreeParts(raw);
      NoDot(parts[2]);
      TwoDots(parts[0], parts[1], parts[2]);
    }
  }

  /** Extra dots, which splitting leaves in the third part, never decode. */
  lemma NoDot(s: string)
    requires Base64Url.Decode(s).Some?
    ensures '.' !in s
  {
  }

  lemma TwoDots(a: string, b: string, c: string)
    requires '.' !in a && '.' !in b && '.' !in c
    ensures multiset(a + "." + b + "." + c)['.'] == 2
  {
  }
}
