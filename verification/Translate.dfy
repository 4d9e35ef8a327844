/** Between the Tailscale and the headscale shape of a pre-auth key. */
module Translate {
  import opened Machine
  import opened Wrappers
  import opened Upstream
  import Decimal

  datatype CreateKeyRequest = CreateKeyRequest(
    reusable: bool, ephemeral: bool, preauthorized: bool, tags: seq<string>, expirySeconds: Int64, description: string)

  /** model.Key with times as instants rather than RFC 3339 texts; None is the empty text. */
  datatype Key = Key(
    id: string, key: string, created: Option<int>, expires: Option<int>, invalid: bool,
    reusable: bool, ephemeral: bool, preauthorized: bool, tags: seq<string>)

  function PreAuthKeyToKey(k: PreAuthKey): Key {
    Key(Decimal.Format(k.id), k.key, k.createdAt, k.expiration, k.used, k.reusable, k.ephemeral, false, k.tags)
  }

  /** What a client is to see of a key, field by field; invalid means used up, whatever its expiry. */
  predicate Renders(k: PreAuthKey, key: Key) {
    && key.id == Decimal.Format(k.id) && key.key == k.key
    && key.created == k.createdAt && key.expires == k.expiration
    && key.reusable == k.reusable && key.ephemeral == k.ephemeral && key.tags == k.tags
    && (key.invalid <==> k.used) && !key.preauthorized
  }

  /** time.Duration(expirySeconds) * time.Second on 64 bits, after the default of an hour for what is not positive. */
  function ExpiryDuration(expirySeconds: Int64): Int64 {
    Wrap64((if expirySeconds <= 0 then 3600 else expirySeconds) * SECOND)
  }

  function KeyRequestToCreatePreAuthKeyRequest(r: CreateKeyRequest, userID: UInt64, now: int): CreateRequest {
    CreateRequest(userID, r.reusable, r.ephemeral, r.tags, now + ExpiryDuration(r.expirySeconds))
  }

  /** The largest number of seconds that fits a time.Duration. */
  const MAX_EXPIRY_SECONDS: int := 9223372036

  /** The key lives as long as asked exactly up to that bound, and modulo 2^64 beyond; nothing or less asks for an
      hour. */
  lemma ExpiryExact(n: Int64)
    ensures n > 0 ==> (ExpiryDuration(n) - n * SECOND) % TWO_64 == 0
    ensures n > 0 ==> (ExpiryDuration(n) == n * SECOND <==> n <= MAX_EXPIRY_SECONDS)
    ensures n <= 0 ==> ExpiryDuration(n) == HOUR
  {
  }

  /** The duration is positive exactly when the product's remainder modulo 2^64 lies strictly in the lower half. */
  lemma ExpiryPositive(n: Int64)
    ensures ExpiryDuration(n) > 0 <==> n <= 0 || 0 < n * SECOND % TWO_64 < TWO_63
  {
    ExpiryExact(n);
  }

  /** A key the server creates at time created from a request stamped at time now is alive at its creation exactly
      when the call took less than the key's life. */
  lemma AliveAtCreation(s: Server, r: CreateKeyRequest, user: UInt64, now: int, secret: string)
    requires Create(s, KeyRequestToCreatePreAuthKeyRequest(r, user, now), secret).1.Success?
    requires r.expirySeconds <= MAX_EXPIRY_SECONDS
    ensures var k := Create(s, KeyRequestToCreatePreAuthKeyRequest(r, user, now), secret).1.value;
            var life := if r.expirySeconds <= 0 then HOUR else r.expirySeconds * SECOND;
            && k.createdAt == Some(s.clock) && k.expiration == Some(now + life)
            && (AliveAt(k, s.clock) <==> s.clock - now < life)
            && (s.clock == now ==> k.expiration.value > k.createdAt.value)
  {
  }

  /** One second more and the product wraps: the key is three centuries dead when it is made. */
  lemma ExpiryWraps(r: CreateKeyRequest, user: UInt64, now: int)
    requires r.expirySeconds == MAX_EXPIRY_SECONDS + 1
    ensures ExpiryDuration(r.expirySeconds) == MAX_EXPIRY_SECONDS * SECOND + SECOND - TWO_64 < 0
    ensures KeyRequestToCreatePreAuthKeyRequest(r, user, now).expiration < now
  {
  }
}
