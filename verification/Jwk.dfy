/** JSON web keys: the number conversions and the fold of a key-set document into a kid map. */
module Jwk {
  import opened Machine
  import opened Wrappers
  import Base64Url

  datatype Curve = P256 | P384

  datatype PublicKey = Rsa(n: nat, e: Int64) | Ec(curve: Curve, x: nat, y: nat)

  /** big.Int.SetBytes. */
  function BigEndian(b: seq<Byte>): nat {
    if b == [] then 0 else 256 * BigEndian(b[..|b| - 1]) + b[|b| - 1]
  }

  /** Minimal big-endian octets, as section 2 of RFC 7518 asks of Base64urlUInt (with no octet for zero). */
  function Octets(n: nat): seq<Byte> {
    if n == 0 then [] else Octets(n / 256) + [n % 256]
  }

  /** Big-endian: the empty text is zero, and one more byte is 256 times as much plus the byte. */
  lemma BigEndianValue(b: seq<Byte>, x: Byte)
    ensures BigEndian([]) == 0 && BigEndian(b + [x]) == 256 * BigEndian(b) + x
  {
    assert (b + [x])[..|b|] == b;
  }

  lemma {:induction false} BigEndianOctets(n: nat)
    ensures BigEndian(Octets(n)) == n
    ensures n > 0 ==> Octets(n) != [] && Octets(n)[0] != 0
  {
    if n > 0 {
      BigEndianOctets(n / 256);
      assert Octets(n)[..|Octets(n)| - 1] == Octets(n / 256);
    }
  }

  lemma {:induction false} LeadingZero(b: seq<Byte>)
    ensures BigEndian([0] + b) == BigEndian(b)
  {
    if b != [] {
      LeadingZero(b[..|b| - 1]);
      var z := [0] + b;
      assert z[..|z| - 1] == [0] + b[..|b| - 1];
    } else {
      assert [0] + b == [0];
    }
  }

  lemma {:induction false} PrefixSmaller(b: seq<Byte>, i: nat)
    requires i <= |b|
    ensures BigEndian(b[..i]) <= BigEndian(b)
  {
    if i < |b| {
      PrefixSmaller(b[..|b| - 1], i);
      assert b[..|b| - 1][..i] == b[..i];
    } else {
      assert b[..i] == b;
    }
  }

  lemma CongruentInt64(w: Int64, w': Int64)
    requires (w - w') % TWO_64 == 0
    ensures w == w'
  {
  }

  lemma Congruence(a: int, b: int, c: int, x: int)
    requires (a - b) % TWO_64 == 0 && (c - (256 * a + x)) % TWO_64 == 0
    ensures (c - (256 * b + x)) % TWO_64 == 0
  {
    var p, q := (a - b) / TWO_64, (c - (256 * a + x)) / TWO_64;
    assert c - (256 * b + x) == TWO_64 * (q + 256 * p);
    MultipleOf(q + 256 * p);
  }

  /** One turn of the loop, e<<8 + b on wrapping 64-bit ints, is one base-256 step modulo 2^64. */
  lemma ShiftAdd(v: int, x: Byte)
    ensures Wrap64(Wrap64(256 * Wrap64(v)) + x) == Wrap64(256 * v + x)
  {
    var shifted := Wrap64(256 * Wrap64(v));
    Offset(shifted, 256 * Wrap64(v), x, Wrap64(shifted + x));
    Congruence(Wrap64(v), v, Wrap64(shifted + x), x);
    var r := Wrap64(256 * v + x);
    Difference(Wrap64(shifted + x), r, 256 * v + x);
    CongruentInt64(Wrap64(shifted + x), r);
  }

  lemma Offset(a: int, b: int, x: int, c: int)
    requires (a - b) % TWO_64 == 0 && (c - (a + x)) % TWO_64 == 0
    ensures (c - (b + x)) % TWO_64 == 0
  {
    var p, q := (a - b) / TWO_64, (c - (a + x)) / TWO_64;
    assert c - (b + x) == TWO_64 * (q + p);
    MultipleOf(q + p);
  }

  lemma Difference(a: int, b: int, c: int)
    requires (a - c) % TWO_64 == 0 && (b - c) % TWO_64 == 0
    ensures (a - b) % TWO_64 == 0
  {
    var p, q := (a - c) / TWO_64, (b - c) / TWO_64;
    assert a - b == TWO_64 * (p - q);
    MultipleOf(p - q);
  }

  /** The accumulation loop of parseRSAPublicKey: the octets' value modulo 2^64, read as a signed int. */
  method RsaExponent(b: seq<Byte>) returns (e: Int64)
    ensures e == Wrap64(BigEndian(b))
    ensures e == BigEndian(b) <==> BigEndian(b) < TWO_63
  {
    e := 0;
    for i := 0 to |b|
      invariant e == Wrap64(BigEndian(b[..i]))
    {
      assert b[..i + 1][..i] == b[..i];
      ShiftAdd(BigEndian(b[..i]), b[i]);
      e := Wrap64(Wrap64(256 * e) + b[i]);
    }
    assert b[..|b|] == b;
    WrapExact(BigEndian(b));
  }

  lemma WrapExact(n: nat)
    ensures Wrap64(n) == n <==> n < TWO_63
  {
    if n < TWO_63 {
      CongruentInt64(Wrap64(n), n);
    }
  }

  /** Below 2^63 no turn of the loop wraps, and the exponent is what a minimal encoding stood for. */
  lemma ExponentRoundTrip(n: nat, b: seq<Byte>, i: nat)
    requires n < TWO_63 && b == Octets(n) && i <= |b|
    ensures Wrap64(BigEndian(b[..i])) == BigEndian(b[..i])
    ensures Wrap64(BigEndian(b)) == n == Wrap64(BigEndian([0] + b))
  {
    BigEndianOctets(n);
    PrefixSmaller(b, i);
    LeadingZero(b);
    WrapExact(BigEndian(b[..i]));
    WrapExact(n);
  }

  /** parseRSAPublicKey. */
  function ParseRsa(n64: string, e64: string): Option<PublicKey> {
    match (Base64Url.Decode(n64), Base64Url.Decode(e64))
    case (Some(n), Some(e)) => Some(Rsa(BigEndian(n), Wrap64(BigEndian(e))))
    case _ => None
  }

  /** parseECPublicKey; the point is not checked to lie on the curve. */
  function ParseEc(crv: string, x64: string, y64: string): Option<PublicKey> {
    if crv != "P-256" && crv != "P-384" then None
    else match (Base64Url.Decode(x64), Base64Url.Decode(y64))
      case (Some(x), Some(y)) => Some(Ec(if crv == "P-256" then P256 else P384, BigEndian(x), BigEndian(y)))
      case _ => None
  }

  /** A number as an issuer may write it: base64url over its octets, any number of zero octets in front, as the
      fixed-width coordinates of section 6.2.1 of RFC 7518 need. */
  function Written(n: nat, zeros: nat): string {
    Base64Url.Encode(seq(zeros, _ => 0) + Octets(n))
  }

  lemma {:induction false} WrittenReads(n: nat, zeros: nat)
    ensures Base64Url.Decode(Written(n, zeros)).Some? && BigEndian(Base64Url.Decode(Written(n, zeros)).value) == n
  {
    hide Base64Url.Decode;
    hide Base64Url.Encode;
    var b := seq(zeros, _ => 0) + Octets(n);
    Base64Url.DecodeEncode(b);
    if zeros == 0 {
      assert b == Octets(n);
      BigEndianOctets(n);
    } else {
      var rest := seq(zeros - 1, _ => 0) + Octets(n);
      WrittenReads(n, zeros - 1);
      Base64Url.DecodeEncode(rest);
      assert b == [0] + rest;
      LeadingZero(rest);
    }
  }

  /** An RSA key comes back from its JSON form exactly when its exponent fits 63 bits. */
  lemma RsaRoundTrip(n: nat, e: nat, zn: nat, ze: nat)
    ensures ParseRsa(Written(n, zn), Written(e, ze)).Some?
    ensures var key := ParseRsa(Written(n, zn), Written(e, ze)).value;
            key.Rsa? && key.n == n && (key.e == e <==> e < TWO_63)
  {
    hide Base64Url.Decode;
    hide Written;
    WrittenReads(n, zn);
    WrittenReads(e, ze);
    WrapExact(e);
  }

  /** An elliptic-curve key comes back under the two supported curve names and no other. */
  lemma EcRoundTrip(crv: string, x: nat, y: nat, zx: nat, zy: nat)
    ensures ParseEc(crv, Written(x, zx), Written(y, zy)) ==
            match crv
            case "P-256" => Some(Ec(P256, x, y))
            case "P-384" => Some(Ec(P384, x, y))
            case _ => None
  {
    hide Base64Url.Decode;
    hide Written;
    WrittenReads(x, zx);
    WrittenReads(y, zy);
  }

  /** One element of the "keys" array, Malformed when it does not unmarshal. */
  datatype RawKey =
    | Malformed
    | Raw(kty: string, kid: string, n: string, e: string, crv: string, x: string, y: string)

  type Document = seq<RawKey>
  type KeySet = map<string, PublicKey>

  function KeyOf(raw: RawKey): Option<PublicKey> {
    match raw
    case Malformed => None
    case Raw(kty, _, n, e, crv, x, y) =>
      if kty == "RSA" then ParseRsa(n, e)
      else if kty == "EC" then ParseEc(crv, x, y)
      else None
  }

  /** The entry contributes a key under this kid. */
  predicate Defines(raw: RawKey, kid: string) {
    KeyOf(raw).Some? && raw.Raw? && raw.kid == kid
  }

  function Fold(doc: Document): KeySet {
    if doc == [] then map[]
    else
      var keys, raw := Fold(doc[..|doc| - 1]), doc[|doc| - 1];
      if KeyOf(raw).Some? then keys[raw.kid := KeyOf(raw).value] else keys
  }

  /** The last of the first n entries that defines the kid. */
  function LastDefining(doc: Document, kid: string, n: nat): (i: Option<nat>)
    requires n <= |doc|
    ensures i.None? ==> forall j :: 0 <= j < n ==> !Defines(doc[j], kid)
    ensures i.Some? ==> i.value < n && Defines(doc[i.value], kid)
                        && forall j :: i.value < j < n ==> !Defines(doc[j], kid)
  {
    hide Defines;
    if n == 0 then None
    else if Defines(doc[n - 1], kid) then Some(n - 1)
    else LastDefining(doc, kid, n - 1)
  }

  function Find(keys: KeySet, kid: string): Option<PublicKey> {
    if kid in keys then Some(keys[kid]) else None
  }

  /** The fold holds a kid exactly when some entry defines it, and then with the key of the last such entry. */
  lemma FoldIsLast(doc: Document, kid: string)
    ensures Find(Fold(doc), kid) ==
            match LastDefining(doc, kid, |doc|) case None => None case Some(i) => KeyOf(doc[i])
  {
    FoldPrefix(doc, kid, |doc|);
    assert doc[..|doc|] == doc;
  }

  lemma {:induction false} FoldPrefix(doc: Document, kid: string, n: nat)
    requires n <= |doc|
    ensures Find(Fold(doc[..n]), kid) ==
            match LastDefining(doc, kid, n) case None => None case Some(i) => KeyOf(doc[i])
  {
    hide ParseRsa;
    hide ParseEc;
    if n > 0 {
      FoldPrefix(doc, kid, n - 1);
      assert doc[..n][..n - 1] == doc[..n - 1];
    }
  }

  // ---------------------------------------------------------------- what the fold holds of the fields

  /** The entry parses under a supported key type. */
  predicate Parses(raw: RawKey) {
    raw.Raw?
    && ((raw.kty == "RSA" && Base64Url.Decode(raw.n).Some? && Base64Url.Decode(raw.e).Some?)
        || (raw.kty == "EC" && raw.crv in {"P-256", "P-384"}
            && Base64Url.Decode(raw.x).Some? && Base64Url.Decode(raw.y).Some?))
  }

  /** The key is the one that the entry's fields describe. */
  predicate Describes(raw: RawKey, key: PublicKey)
    requires Parses(raw)
  {
    match key
    case Rsa(n, e) =>
      && raw.kty == "RSA" && n == BigEndian(Base64Url.Decode(raw.n).value)
      && e == Wrap64(BigEndian(Base64Url.Decode(raw.e).value))
    case Ec(curve, x, y) =>
      && raw.kty == "EC" && raw.crv == (if curve.P256? then "P-256" else "P-384")
      && x == BigEndian(Base64Url.Decode(raw.x).value) && y == BigEndian(Base64Url.Decode(raw.y).value)
  }

  lemma KeyOfExact(raw: RawKey)
    ensures KeyOf(raw).Some? <==> Parses(raw)
    ensures Parses(raw) ==> Describes(raw, KeyOf(raw).value)
    ensures Parses(raw) ==> forall key :: Describes(raw, key) ==> key == KeyOf(raw).value
  {
    hide Base64Url.Decode;
    hide BigEndian;
    hide Wrap64;
  }

  predicate ParsesUnder(raw: RawKey, kid: string) {
    Parses(raw) && raw.kid == kid
  }

  /** Entry i parses under this kid, and no later one does. */
  predicate LastUnder(doc: Document, kid: string, i: nat) {
    i < |doc| && ParsesUnder(doc[i], kid) && forall j :: i < j < |doc| ==> !ParsesUnder(doc[j], kid)
  }

  /** The map holds a kid exactly when some entry with that kid parses under a supported key type, and then with the
      key that the fields of the last such entry describe. */
  lemma FoldExact(doc: Document, kid: string, key: PublicKey)
    ensures Find(Fold(doc), kid) == Some(key) <==>
            exists i: nat :: LastUnder(doc, kid, i) && Describes(doc[i], key)
    ensures Find(Fold(doc), kid).None? <==> forall i :: 0 <= i < |doc| ==> !ParsesUnder(doc[i], kid)
  {
    FoldIsLast(doc, kid);
    forall j | 0 <= j < |doc| ensures Defines(doc[j], kid) <==> ParsesUnder(doc[j], kid) {
      KeyOfExact(doc[j]);
    }
    hide Defines;
    hide ParsesUnder;
    hide Fold;
    var last := LastDefining(doc, kid, |doc|);
    if last.Some? {
      assert LastUnder(doc, kid, last.value);
      LastParses(doc[last.value], kid);
      KeyOfExact(doc[last.value]);
    }
    hide KeyOf;
    hide Parses;
    hide Describes;
    forall i: nat | LastUnder(doc, kid, i) ensures last == Some(i) {
    }
  }

  lemma LastParses(raw: RawKey, kid: string)
    requires ParsesUnder(raw, kid)
    ensures Parses(raw)
  {
  }

  /** An RSA entry as an issuer writes it, if no later entry of its kid replaces it, is found with modulus and
      exponent in their places. */
  lemma FoldFindsRsa(doc: Document, i: nat, kid: string, n: nat, e: nat, zn: nat, ze: nat)
    requires LastUnder(doc, kid, i) && e < TWO_63
    requires doc[i].kty == "RSA" && doc[i].n == Written(n, zn) && doc[i].e == Written(e, ze)
    ensures Find(Fold(doc), kid) == Some(Rsa(n, e))
  {
    RsaRoundTrip(n, e, zn, ze);
    KeyOfExact(doc[i]);
    FoldExact(doc, kid, Rsa(n, e));
    hide Written;
    hide Base64Url.Decode;
    hide Fold;
    hide LastUnder;
  }

  /** And an elliptic-curve entry with its curve and coordinates. */
  lemma FoldFindsEc(doc: Document, i: nat, kid: string, curve: Curve, x: nat, y: nat, zx: nat, zy: nat)
    requires LastUnder(doc, kid, i) && doc[i].kty == "EC" && doc[i].crv == (if curve.P256? then "P-256" else "P-384")
    requires doc[i].x == Written(x, zx) && doc[i].y == Written(y, zy)
    ensures Find(Fold(doc), kid) == Some(Ec(curve, x, y))
  {
    EcRoundTrip(doc[i].crv, x, y, zx, zy);
    KeyOfExact(doc[i]);
    FoldExact(doc, kid, Ec(curve, x, y));
    hide Written;
    hide Base64Url.Decode;
    hide Fold;
    hide LastUnder;
  }

  /** An entry that does not parse, or has another key type, might as well not be there, wherever it stands. */
  lemma {:induction false} FoldIgnores(front: Document, raw: RawKey, back: Document)
    requires !Parses(raw)
    ensures Fold(front + [raw] + back) == Fold(front + back)
  {
    KeyOfExact(raw);
    hide KeyOf;
    hide Parses;
    var with, without := front + [raw] + back, front + back;
    if back == [] {
      assert with[..|front|] == front && without == front;
    } else {
      var init, last := back[..|back| - 1], back[|back| - 1];
      FoldIgnores(front, raw, init);
      assert with[..|with| - 1] == front + [raw] + init && without[..|without| - 1] == front + init;
      assert with[|with| - 1] == last == without[|without| - 1];
    }
  }

  method ParseRSAPublicKey(n64: string, e64: string) returns (key: Option<PublicKey>)
    ensures key == ParseRsa(n64, e64)
  {
    hide Base64Url.Decode;
    var n, eBytes := Base64Url.Decode(n64), Base64Url.Decode(e64);
    if n.None? || eBytes.None? {
      return None;
    }
    var e := RsaExponent(eBytes.value);
    key := Some(Rsa(BigEndian(n.value), e));
  }

  /** The loop of refreshJWKS. */
  method FoldKeys(doc: Document) returns (keys: KeySet)
    ensures keys == Fold(doc)
  {
    keys := map[];
    for i := 0 to |doc|
      invariant keys == Fold(doc[..i])
    {
      assert doc[..i + 1][..i] == doc[..i];
      match doc[i] {
        case Malformed =>
        case Raw(kty, kid, n, e, crv, x, y) =>
          if kty == "RSA" {
            var key := ParseRSAPublicKey(n, e);
            if key.Some? { keys := keys[kid := key.value]; }
          } else if kty == "EC" {
            var key := ParseEc(crv, x, y);
            if key.Some? { keys := keys[kid := key.value]; }
          }
      }
    }
    assert doc[..|doc|] == doc;
  }
}
