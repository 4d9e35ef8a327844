/** One key through create, get, list and delete, by whole requests that meet no fault. */
module LifeCycle {
  import opened Machine
  import opened Wrappers
  import opened Upstream
  import opened Translate
  import opened KeyRequests
  import KeyRuns
  import Decimal

  lemma ServeDelete(own: string, srv: Server, k: PreAuthKey, tailnet: string, secret: string, u: User)
    requires Sane(srv) && Resolve(own, tailnet, srv.users) == Success(u) && u.name != ""
    requires k in srv.keys && OwnedBy(k, u.name)
    ensures Serve(own, srv, Op.Delete(Decimal.Format(k.id)), tailnet, secret)
            == (srv.(keys := Without(Upstream.Expire(srv, k.id).0.keys, k.id)), Deleted)
  {
    var op := Op.Delete(Decimal.Format(k.id));
    var shown := FilterKeys(srv.keys, u.name);
    assert k in shown;
    var i :| 0 <= i < |shown| && shown[i] == k;
    KeyRuns.FoundAgain(srv, shown, i);
    ServeFront(own, srv, op, tailnet, secret);
    assert AfterListing(op, u, shown) == ToExpire(u, k.id);
    hide *;
    DeleteTail(own, srv, Request(op, tailnet), u, k, secret);
  }

  lemma DeleteTail(own: string, srv: Server, req: Request, u: User, k: PreAuthKey, secret: string)
    requires k in srv.keys
    ensures Solo(own, srv, req, ToExpire(u, k.id), (_: nat) => Fine, 2, secret)
            == (srv.(keys := Without(Upstream.Expire(srv, k.id).0.keys, k.id)), Deleted)
  {
    var faults := (_: nat) => Fine;
    ExpireKeepsIds(srv, k.id);
    ExpireShape(srv, k.id);
    hide IdsOf;
    hide Without;
    hide Upstream.Expire;
    var expired := Upstream.Expire(srv, k.id).0;
    SoloStep(own, srv, req, ToExpire(u, k.id), faults, 2, secret);
    SoloStep(own, expired, req, ToDelete(u, k.id), faults, 3, secret);
  }

  lemma ExpireShape(srv: Server, id: UInt64)
    ensures id in IdsOf(srv.keys) ==>
              Upstream.Expire(srv, id) == (srv.(keys := Upstream.Expire(srv, id).0.keys), Success(()))
  {
  }

  lemma ExpireKeepsIds(srv: Server, id: UInt64)
    requires exists k :: k in srv.keys && k.id == id
    ensures id in IdsOf(srv.keys) && id in IdsOf(Upstream.Expire(srv, id).0.keys)
  {
    var i :| 0 <= i < |srv.keys| && srv.keys[i].id == id;
    assert srv.keys[i] in srv.keys;
    var s' := Upstream.Expire(srv, id).0;
    assert s'.keys[i] in s'.keys && s'.keys[i].id == id;
  }

  /** Taking a fresh key out again restores the keys there were. */
  lemma {:induction false} WithoutFresh(keys: seq<PreAuthKey>, rest: seq<PreAuthKey>, id: UInt64)
    requires forall k :: k in keys ==> k.id != id
    requires |rest| == 1 && rest[0].id == id
    ensures Without(keys + rest, id) == keys
  {
    if keys != [] {
      assert (keys + rest)[1..] == keys[1..] + rest;
      WithoutFresh(keys[1..], rest, id);
    } else {
      assert keys + rest == rest;
      assert Without(rest[1..], id) == [];
    }
  }

  lemma ExpireLast(srv: Server, k: PreAuthKey, id: UInt64)
    requires k.id == id && forall x :: x in srv.keys ==> x.id != id
    ensures Upstream.Expire(srv.(keys := srv.keys + [k]), id).0.keys == srv.keys + [CutShort(k, srv.clock)]
  {
  }

  /** Nobody to act for: the status of that, to every operation, and the server as it was. */
  lemma NobodyServed(own: string, srv: Server, op: Op, tailnet: string, secret: string, status: nat)
    requires NobodyFor(own, tailnet, srv.users, status)
    ensures Serve(own, srv, op, tailnet, secret) == (srv, Error(status))
  {
    ResolveRefusal(own, tailnet, srv.users, status);
    SoloStep(own, srv, Request(op, tailnet), Start, (_: nat) => Fine, 0, secret);
  }

  /** A list shows exactly the keys of the user acted for (all, were the name empty), each rendered, in the server's
      order; and where there are none it is still a list. */
  lemma ListServed(own: string, srv: Server, tailnet: string, secret: string, u: User)
    returns (kept: seq<PreAuthKey>, from: seq<nat>)
    requires DistinctUsers(srv.users) && ActsFor(own, tailnet, u, srv.users)
    ensures var (srv', resp) := Serve(own, srv, List, tailnet, secret);
            srv' == srv && resp.Listed? && Takes(srv.keys, u.name, kept, from) && Mirrors(kept, resp.keys)
  {
    ResolveExact(own, tailnet, srv.users, u);
    ServeFront(own, srv, List, tailnet, secret);
    kept := FilterKeys(srv.keys, u.name);
    from := FilterInOrder(srv.keys, u.name);
    hide Serve;
    hide Resolve;
    hide Takes;
    hide FilterKeys;
  }

  /** A get shows the key of the user acted for that is shown under the id, and is answered 404 if there is none. */
  lemma GetServed(own: string, srv: Server, tailnet: string, id: string, secret: string, u: User)
    requires Sane(srv) && ActsFor(own, tailnet, u, srv.users)
    ensures var (srv', resp) := Serve(own, srv, Get(id), tailnet, secret);
            && srv' == srv
            && (forall k :: k in srv.keys && OwnedBy(k, u.name) && Decimal.Format(k.id) == id ==>
                  resp.Shown? && Renders(k, resp.key))
            && ((forall k :: k in srv.keys && OwnedBy(k, u.name) ==> Decimal.Format(k.id) != id) ==>
                  resp == Error(404))
  {
    ActsForNamed(own, srv, tailnet, u);
    ServeFront(own, srv, Get(id), tailnet, secret);
    hide Serve;
    hide Resolve;
    hide Sane;
    var shown := FilterKeys(srv.keys, u.name);
    forall k | k in shown && Decimal.Format(k.id) == id ensures FindKeyByID(shown, id) == Some(k) {
      FoundIn(srv, shown, k);
    }
  }

  lemma ActsForNamed(own: string, srv: Server, tailnet: string, u: User)
    requires Sane(srv) && ActsFor(own, tailnet, u, srv.users)
    ensures Resolve(own, tailnet, srv.users) == Success(u) && u.name != ""
  {
    ResolveExact(own, tailnet, srv.users, u);
  }

  lemma FoundIn(srv: Server, shown: seq<PreAuthKey>, k: PreAuthKey)
    requires Sane(srv) && k in shown && forall x :: x in shown ==> x in srv.keys
    ensures FindKeyByID(shown, Decimal.Format(k.id)) == Some(k)
  {
    var i: nat :| i < |shown| && shown[i] == k;
    KeyRuns.FoundAgain(srv, shown, i);
  }

  /** A delete takes out just the key of the user acted for that is shown under the id; if there is none it is answered
      404 and takes out nothing. */
  lemma DeleteServed(own: string, srv: Server, tailnet: string, id: string, secret: string, u: User)
    requires Sane(srv) && ActsFor(own, tailnet, u, srv.users)
    ensures var (srv', resp) := Serve(own, srv, Op.Delete(id), tailnet, secret);
            && (forall i ::
                  0 <= i < |srv.keys| && OwnedBy(srv.keys[i], u.name) && Decimal.Format(srv.keys[i].id) == id ==>
                  srv' == srv.(keys := srv.keys[..i] + srv.keys[i + 1..]) && resp == Deleted)
            && ((forall k :: k in srv.keys && OwnedBy(k, u.name) ==> Decimal.Format(k.id) != id) ==>
                  srv' == srv && resp == Error(404))
  {
    ActsForNamed(own, srv, tailnet, u);
    ServeFront(own, srv, Op.Delete(id), tailnet, secret);
    hide Serve;
    hide Resolve;
    hide Sane;
    forall i: nat | i < |srv.keys| && OwnedBy(srv.keys[i], u.name) && Decimal.Format(srv.keys[i].id) == id
      ensures Serve(own, srv, Op.Delete(id), tailnet, secret)
              == (srv.(keys := srv.keys[..i] + srv.keys[i + 1..]), Deleted)
    {
      ServeDelete(own, srv, srv.keys[i], tailnet, secret, u);
      DeletedAt(srv, i);
    }
  }

  lemma DeletedAt(srv: Server, i: nat)
    requires Sane(srv) && i < |srv.keys|
    ensures Without(Upstream.Expire(srv, srv.keys[i].id).0.keys, srv.keys[i].id) == srv.keys[..i] + srv.keys[i + 1..]
  {
    var keys, id := srv.keys, srv.keys[i].id;
    var keys' := Upstream.Expire(srv, id).0.keys;
    OtherIds(srv, i);
    ExpireElsewhere(srv, i);
    hide *;
    WithoutOne(keys', id, i);
    SameAround(keys, keys', i);
  }

  lemma SameAround(keys: seq<PreAuthKey>, keys': seq<PreAuthKey>, i: nat)
    requires i < |keys| == |keys'| && forall j :: 0 <= j < |keys| && j != i ==> keys'[j] == keys[j]
    ensures keys'[..i] == keys[..i] && keys'[i + 1..] == keys[i + 1..]
  {
  }

  lemma OtherIds(srv: Server, i: nat)
    requires Sane(srv) && i < |srv.keys|
    ensures forall j :: 0 <= j < |srv.keys| ==> (srv.keys[j].id == srv.keys[i].id <==> j == i)
  {
    var keys := srv.keys;
    assert DistinctKeys(keys);
    forall j | 0 <= j < |keys| && j != i ensures keys[j].id != keys[i].id {
      if j < i {
      } else {
        assert keys[i].id != keys[j].id;
      }
    }
  }

  lemma ExpireElsewhere(srv: Server, i: nat)
    requires i < |srv.keys|
    ensures var keys' := Upstream.Expire(srv, srv.keys[i].id).0.keys;
            && |keys'| == |srv.keys|
            && forall j :: 0 <= j < |keys'| ==>
                 keys'[j].id == srv.keys[j].id && (srv.keys[j].id != srv.keys[i].id ==> keys'[j] == srv.keys[j])
  {
    assert srv.keys[i] in srv.keys && srv.keys[i].id in IdsOf(srv.keys);
    hide AliveAt;
  }

  lemma {:induction false} WithoutOne(keys: seq<PreAuthKey>, id: UInt64, i: nat)
    requires i < |keys| && forall j :: 0 <= j < |keys| ==> (keys[j].id == id <==> j == i)
    ensures Without(keys, id) == keys[..i] + keys[i + 1..]
  {
    if i == 0 {
      WithoutNone(keys[1..], id);
    } else {
      WithoutOne(keys[1..], id, i - 1);
      assert keys[..i] + keys[i + 1..] == [keys[0]] + (keys[1..][..i - 1] + keys[1..][i..]);
    }
  }

  lemma {:induction false} WithoutNone(keys: seq<PreAuthKey>, id: UInt64)
    requires forall k :: k in keys ==> k.id != id
    ensures Without(keys, id) == keys
  {
    if keys != [] {
      WithoutNone(keys[1..], id);
    }
  }

  /** Exactly when a create succeeds, and what it makes. */
  lemma CreateServed(own: string, srv: Server, body: Option<CreateKeyRequest>, tailnet: string, secret: string)
    requires Sane(srv)
    ensures var who := Resolve(own, tailnet, srv.users);
            var answer := Serve(own, srv, Op.Create(body), tailnet, secret);
            if who.Success? && body.Some? && srv.nextKey < TWO_64 then
              var b := body.value;
              var k := PreAuthKey(srv.nextKey, Some(who.value), b.reusable, b.ephemeral, false, b.tags,
                                  Some(srv.clock), Some(srv.clock + ExpiryDuration(b.expirySeconds)), secret);
              && answer.0 == srv.(keys := srv.keys + [k], nextKey := srv.nextKey + 1)
              && answer.1.Shown? && Renders(k, answer.1.key)
            else
              answer == (srv, Error(if who.Failure? then who.error else if body.None? then 400 else 500))
  {
    var req, faults := Request(Op.Create(body), tailnet), (_: nat) => Fine;
    var who := Resolve(own, tailnet, srv.users);
    if who.Success? {
      ResolveExact(own, tailnet, srv.users, who.value);
    }
    hide Sane;
    hide Resolve;
    hide Upstream.Create;
    hide ExpiryDuration;
    SoloStep(own, srv, req, Start, faults, 0, secret);
    if who.Success? {
      var u := who.value;
      SoloStep(own, srv, req, Resolved(u), faults, 1, secret);
      if body.Some? {
        var r := KeyRequestToCreatePreAuthKeyRequest(body.value, u.id, srv.clock);
        SoloStep(own, srv, req, ToCreate(u, r), faults, 2, secret);
        CreateAnswered(srv, u, r, secret);
      }
    }
  }

  lemma CreateAnswered(srv: Server, u: User, r: CreateRequest, secret: string)
    requires Sane(srv) && u in srv.users && r.user == u.id
    ensures Upstream.Create(srv, r, secret)
            == if srv.nextKey < TWO_64 then
                 var k := PreAuthKey(srv.nextKey, Some(u), r.reusable, r.ephemeral, false, r.tags, Some(srv.clock),
                                     Some(r.expiration), secret);
                 (srv.(keys := srv.keys + [k], nextKey := srv.nextKey + 1), Success(k))
               else (srv, Failure(OtherCode))
  {
    var owner := UserById(srv.users, u.id);
    KeyRuns.SameUser(srv, owner.value, u);
  }

  /** A created key has exactly the life asked for (an hour if none was) precisely up to the largest duration of
      seconds, and is then live; beyond, it is live exactly when the product's remainder modulo 2^64 lies strictly
      in the lower half. */
  lemma CreatedLives(own: string, srv: Server, body: CreateKeyRequest, tailnet: string, secret: string)
    requires Sane(srv) && srv.nextKey < TWO_64 && Resolve(own, tailnet, srv.users).Success?
    ensures var (s1, created) := Serve(own, srv, Op.Create(Some(body)), tailnet, secret);
            var asked := if body.expirySeconds <= 0 then HOUR else body.expirySeconds * SECOND;
            && created.Shown? && created.key.created == Some(srv.clock)
            && (created.key.expires == Some(srv.clock + asked) <==> body.expirySeconds <= MAX_EXPIRY_SECONDS)
            && (StatusOf(s1, srv.nextKey) == Live <==>
                body.expirySeconds <= 0 || 0 < body.expirySeconds * SECOND % TWO_64 < TWO_63)
            && (body.expirySeconds <= MAX_EXPIRY_SECONDS ==> StatusOf(s1, srv.nextKey) == Live)
  {
    CreateServed(own, srv, Some(body), tailnet, secret);
    ExpiryExact(body.expirySeconds);
    ExpiryPositive(body.expirySeconds);
    var s1 := Serve(own, srv, Op.Create(Some(body)), tailnet, secret).0;
    hide Serve;
    hide Resolve;
    hide ExpiryDuration;
    var k := s1.keys[|srv.keys|];
    assert k in s1.keys && k.id in IdsOf(s1.keys);
    forall x | x in s1.keys && x.id == srv.nextKey ensures x == k {
    }
  }

  /** Create, and the key can be had by the answered id, is listed and carries what was asked for; delete it, and get
      answers 404, and the server's keys are those from before the create. */
  lemma LifeCycle(own: string, srv: Server, body: CreateKeyRequest, tailnet: string, secret: string)
    requires Sane(srv) && srv.nextKey < TWO_64 && Resolve(own, tailnet, srv.users).Success?
    ensures var (s1, created) := Serve(own, srv, Op.Create(Some(body)), tailnet, secret);
            && created.Shown? && Sane(s1)
            && created.key.key == secret && !created.key.invalid
            && created.key.reusable == body.reusable && created.key.ephemeral == body.ephemeral
            && created.key.tags == body.tags
            && Serve(own, s1, Get(created.key.id), tailnet, secret) == (s1, created)
            && (var (s2, listed) := Serve(own, s1, List, tailnet, secret);
                s2 == s1 && listed.Listed? && created.key in listed.keys)
            && (var (s3, deleted) := Serve(own, s1, Op.Delete(created.key.id), tailnet, secret);
                && deleted.Deleted? && s3.keys == srv.keys
                && Serve(own, s3, Get(created.key.id), tailnet, secret) == (s3, Error(404)))
  {
    var s1, k, u := Created(own, srv, body, tailnet, secret);
    hide Serve;
    hide Sane;
    hide Resolve;
    KeyRuns.OwnedIsShown(own, s1, k, u, tailnet, secret);
    CreatedDeleted(own, srv.keys, s1, k, u, tailnet, secret);
  }

  lemma Created(own: string, srv: Server, body: CreateKeyRequest, tailnet: string, secret: string)
    returns (s1: Server, k: PreAuthKey, u: User)
    requires Sane(srv) && srv.nextKey < TWO_64 && Resolve(own, tailnet, srv.users).Success?
    ensures Serve(own, srv, Op.Create(Some(body)), tailnet, secret) == (s1, Shown(PreAuthKeyToKey(k)))
    ensures k.key == secret && !k.used
    ensures k.reusable == body.reusable && k.ephemeral == body.ephemeral && k.tags == body.tags
    ensures Sane(s1) && Resolve(own, tailnet, s1.users) == Success(u) && s1.keys == srv.keys + [k]
    ensures k in s1.keys && OwnedBy(k, u.name) && u.name != "" && forall x :: x in srv.keys ==> x.id != k.id
  {
    u := Resolve(own, tailnet, srv.users).value;
    ResolveExact(own, tailnet, srv.users, u);
    CreateServed(own, srv, Some(body), tailnet, secret);
    s1 := Serve(own, srv, Op.Create(Some(body)), tailnet, secret).0;
    k := s1.keys[|srv.keys|];
    var r := KeyRequestToCreatePreAuthKeyRequest(body, u.id, srv.clock);
    var owner := UserById(srv.users, u.id);
    KeyRuns.SameUser(srv, owner.value, u);
    assert s1 == Upstream.Create(srv, r, secret).0;
    CreateSane(srv, r, secret);
    hide Serve;
    hide Resolve;
    hide Upstream.Create;
    CreatedOwned(srv, s1, k, u);
  }

  lemma CreatedDeleted(own: string, before: seq<PreAuthKey>, s1: Server, k: PreAuthKey, u: User, tailnet: string,
                       secret: string)
    requires Sane(s1) && Resolve(own, tailnet, s1.users) == Success(u) && OwnedBy(k, u.name) && u.name != ""
    requires s1.keys == before + [k] && forall x :: x in before ==> x.id != k.id
    ensures var (s3, deleted) := Serve(own, s1, Op.Delete(Decimal.Format(k.id)), tailnet, secret);
            && deleted.Deleted? && s3.keys == before
            && Serve(own, s3, Get(Decimal.Format(k.id)), tailnet, secret) == (s3, Error(404))
  {
    assert s1.keys[|before|] == k;
    hide Serve;
    hide Sane;
    hide Resolve;
    ServeDelete(own, s1, k, tailnet, secret, u);
    var s0 := s1.(keys := before);
    assert s0.(keys := s0.keys + [k]) == s1;
    ExpireLast(s0, k, k.id);
    WithoutFresh(before, [CutShort(k, s1.clock)], k.id);
    GoneAnswer(own, s0, k.id, tailnet, secret, u);
  }

  /** The new key is u's, and no older key has its id. */
  lemma CreatedOwned(srv: Server, s1: Server, k: PreAuthKey, u: User)
    requires Sane(srv) && u in srv.users && s1.keys == srv.keys + [k] && s1.users == srv.users
    requires k.id == srv.nextKey && k.user == Some(u)
    ensures k in s1.keys && OwnedBy(k, u.name) && u.name != "" && forall x :: x in srv.keys ==> x.id != k.id
  {
  }

  lemma GoneAnswer(own: string, s3: Server, id: UInt64, tailnet: string, secret: string, u: User)
    requires Resolve(own, tailnet, s3.users) == Success(u) && forall x :: x in s3.keys ==> x.id != id
    ensures Serve(own, s3, Get(Decimal.Format(id)), tailnet, secret) == (s3, Error(404))
  {
    var shown := FilterKeys(s3.keys, u.name);
    forall k | k in shown ensures Decimal.Format(k.id) != Decimal.Format(id) {
      Decimal.FormatInjective(k.id, id);
    }
    assert FindKeyByID(shown, Decimal.Format(id)).None?;
    ServeFront(own, s3, Get(Decimal.Format(id)), tailnet, secret);
  }

  /** A user with an empty name, were there one, under an empty configured tailnet: listing "-" shows alice's key. */
  lemma EmptyNameServed(srv: Server, k: PreAuthKey, secret: string)
    requires srv.users == [User(0, ""), User(1, "alice")] && srv.keys == [k] && k.user == Some(User(1, "alice"))
    ensures Resolve("", "-", srv.users) == Success(User(0, ""))
    ensures Serve("", srv, List, "-", secret) == (srv, Listed([PreAuthKeyToKey(k)]))
  {
    assert UserByName(srv.users, "") == Some(User(0, ""));
    assert ToKeys([k]) == [PreAuthKeyToKey(k)];
    ServeFront("", srv, List, "-", secret);
  }
}
