/** The headscale server as its clients see it: users, pre-auth keys, fresh ids, and calls that may fail before or after
    they took effect. Headscale itself is not part of this model; this is the contract the handlers are run against. */
module Upstream {
  import opened Machine
  import opened Wrappers

  datatype User = User(id: UInt64, name: string)

  datatype PreAuthKey = PreAuthKey(
    id: UInt64, user: Option<User>, reusable: bool, ephemeral: bool, used: bool, tags: seq<string>,
    createdAt: Option<int>, expiration: Option<int>, key: string)

  datatype CreateRequest = CreateRequest(
    user: UInt64, reusable: bool, ephemeral: bool, tags: seq<string>, expiration: int)

  /** names remembers every user there ever was; ids are not reused. */
  datatype Server = Server(
    clock: int, users: seq<User>, names: map<UInt64, string>, keys: seq<PreAuthKey>, nextUser: nat, nextKey: nat)

  datatype Code = NotFound | PermissionDenied | Unauthenticated | AlreadyExists | InvalidArgument | OtherCode

  /** grpcStatusToHTTP. */
  function HttpStatus(c: Code): nat {
    match c
    case NotFound => 404
    case PermissionDenied => 403
    case Unauthenticated => 401
    case AlreadyExists => 409
    case InvalidArgument => 400
    case OtherCode => 500
  }

  /** The status under which a client is to see an error of headscale: its own for five of them, 500 for the rest. */
  predicate SeenAs(c: Code, status: nat) {
    && (c == NotFound ==> status == 404)
    && (c == PermissionDenied ==> status == 403)
    && (c == Unauthenticated ==> status == 401)
    && (c == AlreadyExists ==> status == 409)
    && (c == InvalidArgument ==> status == 400)
    && (c == OtherCode ==> status == 500)
  }

  /** What becomes of one call: it goes through; it fails without effect; it takes effect but an error comes back. */
  datatype Fault = Fine | Lost(code: Code) | ReplyLost(code: Code)

  datatype Status = Live | Expired | Gone

  predicate AliveAt(k: PreAuthKey, now: int) {
    k.expiration.Some? && now < k.expiration.value
  }

  function IdsOf(keys: seq<PreAuthKey>): set<UInt64> {
    set k | k in keys :: k.id
  }

  function StatusOf(s: Server, id: UInt64): Status {
    if id !in IdsOf(s.keys) then Gone
    else if exists k :: k in s.keys && k.id == id && AliveAt(k, s.clock) then Live
    else Expired
  }

  ghost predicate DistinctKeys(keys: seq<PreAuthKey>) {
    forall i, j :: 0 <= i < j < |keys| ==> keys[i].id != keys[j].id
  }

  ghost predicate DistinctUsers(users: seq<User>) {
    forall i, j :: 0 <= i < j < |users| ==> users[i].id != users[j].id && users[i].name != users[j].name
  }

  /** Ids are unique and below the next one to be handed out; every owner is a user; names are unique and non-empty. */
  ghost predicate Sane(s: Server) {
    && DistinctKeys(s.keys)
    && (forall k :: k in s.keys ==> k.id < s.nextKey && (k.user.Some? ==> k.user.value in s.users))
    && DistinctUsers(s.users)
    && (forall u :: u in s.users ==> u.id < s.nextUser && u.name != "" && u.id in s.names && s.names[u.id] == u.name)
    && (forall id :: id in s.names ==> id < s.nextUser)
  }

  // ---------------------------------------------------------------- calls

  function ListUsers(s: Server, f: Fault): Result<seq<User>, Code> {
    if f.Fine? then Success(s.users) else Failure(f.code)
  }

  function ListAllKeys(s: Server, f: Fault): Result<seq<PreAuthKey>, Code> {
    if f.Fine? then Success(s.keys) else Failure(f.code)
  }

  /** The first user in the list of which p holds. */
  function FirstUser(users: seq<User>, p: User -> bool): (u: Option<User>)
    ensures u.Some? ==> u.value in users && p(u.value)
    ensures u.None? ==> forall x :: x in users ==> !p(x)
  {
    if users == [] then None else if p(users[0]) then Some(users[0]) else FirstUser(users[1..], p)
  }

  function UserById(users: seq<User>, id: UInt64): Option<User> {
    FirstUser(users, (u: User) => u.id == id)
  }

  /** CreatePreAuthKey: refused for an unknown user or when ids run out. */
  function Create(s: Server, r: CreateRequest, secret: string): (Server, Result<PreAuthKey, Code>) {
    match UserById(s.users, r.user)
    case None => (s, Failure(NotFound))
    case Some(u) =>
      if s.nextKey >= TWO_64 then (s, Failure(OtherCode))
      else
        var k := PreAuthKey(s.nextKey, Some(u), r.reusable, r.ephemeral, false, r.tags,
                            Some(s.clock), Some(r.expiration), secret);
        (s.(keys := s.keys + [k], nextKey := s.nextKey + 1), Success(k))
  }

  function CutShort(k: PreAuthKey, now: int): PreAuthKey {
    if AliveAt(k, now) then k.(expiration := Some(now)) else k
  }

  /** ExpirePreAuthKey: the key's life ends now, unless it has ended before. */
  function Expire(s: Server, id: UInt64): (Server, Result<(), Code>) {
    if id !in IdsOf(s.keys) then (s, Failure(NotFound))
    else
      (s.(keys := seq(|s.keys|, i requires 0 <= i < |s.keys| =>
                    if s.keys[i].id == id then CutShort(s.keys[i], s.clock) else s.keys[i])),
       Success(()))
  }

  function Without(keys: seq<PreAuthKey>, id: UInt64): (r: seq<PreAuthKey>)
    ensures forall k :: k in r <==> k in keys && k.id != id
  {
    if keys == [] then [] else (if keys[0].id == id then [] else [keys[0]]) + Without(keys[1..], id)
  }

  /** DeletePreAuthKey: whatever state the key is in. */
  function Delete(s: Server, id: UInt64): (Server, Result<(), Code>) {
    if id !in IdsOf(s.keys) then (s, Failure(NotFound)) else (s.(keys := Without(s.keys, id)), Success(()))
  }

  /** A state-changing call under a fault. */
  function Faulty<R>(s: Server, done: (Server, Result<R, Code>), f: Fault): (Server, Result<R, Code>) {
    match f
    case Fine => done
    case Lost(code) => (s, Failure(code))
    case ReplyLost(code) => (done.0, Failure(code))
  }

  // ---------------------------------------------------------------- others at work on the server

  /** Time passing, nodes using keys up, and the headscale administrator, who may create, expire and delete any key
      and add and remove users. A removed user's keys lose their owner. */
  datatype Admin =
    | Tick(d: nat)
    | AddUser(name: string)
    | RemoveUser(id: UInt64)
    | AdminCreate(req: CreateRequest, secret: string)
    | AdminExpire(id: UInt64)
    | AdminDelete(id: UInt64)
    | Use(id: UInt64)

  function UsedUp(k: PreAuthKey, id: UInt64): PreAuthKey {
    if k.id == id then k.(used := true) else k
  }

  function Disown(k: PreAuthKey, id: UInt64): PreAuthKey {
    if k.user.Some? && k.user.value.id == id then k.(user := None) else k
  }

  function DropUser(users: seq<User>, id: UInt64): (r: seq<User>)
    ensures forall u :: u in r <==> u in users && u.id != id
  {
    if users == [] then [] else (if users[0].id == id then [] else [users[0]]) + DropUser(users[1..], id)
  }

  function Administer(s: Server, a: Admin): Server {
    match a
    case Tick(d) => s.(clock := s.clock + d)
    case AddUser(name) =>
      if name == "" || s.nextUser >= TWO_64 || (exists u :: u in s.users && u.name == name) then s
      else
        s.(users := s.users + [User(s.nextUser, name)],
           names := s.names[s.nextUser := name],
           nextUser := s.nextUser + 1)
    case RemoveUser(id) =>
      s.(users := DropUser(s.users, id),
         keys := seq(|s.keys|, i requires 0 <= i < |s.keys| => Disown(s.keys[i], id)))
    case AdminCreate(req, secret) => Create(s, req, secret).0
    case AdminExpire(id) => Expire(s, id).0
    case AdminDelete(id) => Delete(s, id).0
    case Use(id) => s.(keys := seq(|s.keys|, i requires 0 <= i < |s.keys| => UsedUp(s.keys[i], id)))
  }

  // ---------------------------------------------------------------- sanity is kept

  lemma {:induction false} WithoutDistinct(keys: seq<PreAuthKey>, id: UInt64)
    requires DistinctKeys(keys)
    ensures DistinctKeys(Without(keys, id))
  {
    if keys != [] {
      WithoutDistinct(keys[1..], id);
      var rest := Without(keys[1..], id);
      forall j | 0 <= j < |rest| ensures rest[j].id != keys[0].id {
        assert rest[j] in keys[1..];
      }
    }
  }

  lemma {:induction false} DropUserDistinct(users: seq<User>, id: UInt64)
    requires DistinctUsers(users)
    ensures DistinctUsers(DropUser(users, id))
  {
    if users != [] {
      DropUserDistinct(users[1..], id);
      var rest := DropUser(users[1..], id);
      forall j | 0 <= j < |rest| ensures rest[j].id != users[0].id && rest[j].name != users[0].name {
        assert rest[j] in users[1..];
      }
    }
  }

  lemma CreateSane(s: Server, r: CreateRequest, secret: string)
    requires Sane(s)
    ensures Sane(Create(s, r, secret).0)
  {
  }

  lemma ExpireSane(s: Server, id: UInt64)
    requires Sane(s)
    ensures Sane(Expire(s, id).0)
  {
  }

  lemma DeleteSane(s: Server, id: UInt64)
    requires Sane(s)
    ensures Sane(Delete(s, id).0)
  {
    WithoutDistinct(s.keys, id);
  }

  lemma RemoveUserSane(s: Server, id: UInt64)
    requires Sane(s)
    ensures Sane(Administer(s, RemoveUser(id)))
  {
    DropUserDistinct(s.users, id);
    var s' := Administer(s, RemoveUser(id));
    forall k | k in s'.keys ensures k.id < s'.nextKey && (k.user.Some? ==> k.user.value in s'.users) {
      var i :| 0 <= i < |s'.keys| && s'.keys[i] == k;
      assert s.keys[i] in s.keys;
    }
  }

  lemma UseSane(s: Server, id: UInt64)
    requires Sane(s)
    ensures Sane(Administer(s, Use(id)))
  {
    var s' := Administer(s, Use(id));
    forall k | k in s'.keys ensures k.id < s'.nextKey && (k.user.Some? ==> k.user.value in s'.users) {
      var i :| 0 <= i < |s'.keys| && s'.keys[i] == k;
      assert s.keys[i] in s.keys;
    }
  }

  lemma AddUserSane(s: Server, name: string)
    requires Sane(s)
    ensures Sane(Administer(s, AddUser(name)))
  {
  }

  lemma AdministerSane(s: Server, a: Admin)
    requires Sane(s)
    ensures Sane(Administer(s, a))
  {
    match a
    case AddUser(name) => AddUserSane(s, name);
    case RemoveUser(id) => RemoveUserSane(s, id);
    case AdminCreate(req, secret) => CreateSane(s, req, secret);
    case AdminExpire(id) => ExpireSane(s, id);
    case AdminDelete(id) => DeleteSane(s, id);
    case Use(id) => UseSane(s, id);
    case Tick(_) =>
  }

  // ---------------------------------------------------------------- one key over time

  /** A later view of the same server: ids used up stay used up, lives do not lengthen, records keep what they say. */
  ghost predicate Evolves(s: Server, s': Server) {
    && s.clock <= s'.clock && s.nextKey <= s'.nextKey && s.nextUser <= s'.nextUser
    && (forall id :: id in s.names ==> id in s'.names && s'.names[id] == s.names[id])
    && (forall k' :: k' in s'.keys && k'.id < s.nextKey ==>
          exists k :: k in s.keys && Ages(k, k', s.clock))
  }

  /** k' is the same key as k, no longer-lived, and owned by the same user if still owned. */
  ghost predicate Ages(k: PreAuthKey, k': PreAuthKey, now: int) {
    && k'.id == k.id && k'.reusable == k.reusable && k'.ephemeral == k.ephemeral && k'.tags == k.tags
    && (k'.user.Some? ==> k'.user == k.user)
    && (!AliveAt(k, now) ==> k'.expiration == k.expiration)
    && (AliveAt(k, now) ==> k'.expiration.Some? && k'.expiration.value <= k.expiration.value)
  }

  lemma CreateEvolves(s: Server, r: CreateRequest, secret: string)
    ensures Evolves(s, Create(s, r, secret).0)
  {
  }

  lemma ExpireEvolves(s: Server, id: UInt64)
    ensures Evolves(s, Expire(s, id).0)
  {
    var s' := Expire(s, id).0;
    forall k' | k' in s'.keys ensures exists k :: k in s.keys && Ages(k, k', s.clock) {
      var i :| 0 <= i < |s'.keys| && s'.keys[i] == k';
      assert s.keys[i] in s.keys && Ages(s.keys[i], k', s.clock);
    }
  }

  lemma DeleteEvolves(s: Server, id: UInt64)
    ensures Evolves(s, Delete(s, id).0)
  {
  }

  lemma AdministerEvolves(s: Server, a: Admin)
    requires Sane(s)
    ensures Evolves(s, Administer(s, a))
  {
    match a
    case AdminCreate(req, secret) => CreateEvolves(s, req, secret);
    case AdminExpire(id) => ExpireEvolves(s, id);
    case AdminDelete(id) => DeleteEvolves(s, id);
    case RemoveUser(id) =>
      var s' := Administer(s, a);
      forall k' | k' in s'.keys ensures exists k :: k in s.keys && Ages(k, k', s.clock) {
        var i :| 0 <= i < |s'.keys| && s'.keys[i] == k';
        assert s.keys[i] in s.keys && Ages(s.keys[i], k', s.clock);
      }
    case Use(id) =>
      var s' := Administer(s, a);
      forall k' | k' in s'.keys ensures exists k :: k in s.keys && Ages(k, k', s.clock) {
        var i :| 0 <= i < |s'.keys| && s'.keys[i] == k';
        assert s.keys[i] in s.keys && Ages(s.keys[i], k', s.clock);
      }
    case _ =>
      forall k | k in s.keys ensures Ages(k, k, s.clock) {
      }
  }

  /** Over any evolution an id once handed out never comes back to life: expired stays expired or goes, gone stays
      gone. */
  lemma StatusFalls(s: Server, s': Server, id: UInt64)
    requires Evolves(s, s') && id < s.nextKey
    ensures StatusOf(s, id) == Gone ==> StatusOf(s', id) == Gone
    ensures StatusOf(s, id) != Live ==> StatusOf(s', id) != Live
  {
  }

  /** A successful expire leaves its key expired. */
  lemma ExpireEnds(s: Server, id: UInt64)
    requires Expire(s, id).1.Success?
    ensures StatusOf(Expire(s, id).0, id) == Expired
    ensures forall id' :: id' != id ==> StatusOf(Expire(s, id).0, id') == StatusOf(s, id')
  {
    ExpireKeys(s, id);
    var keys := Expire(s, id).0.keys;
    hide Expire;
    assert forall k :: k in keys ==> k.id in IdsOf(keys);
    assert forall k :: k in s.keys ==> k.id in IdsOf(s.keys);
    assert IdsOf(keys) == IdsOf(s.keys);
  }

  /** Expiring rewrites the entries with the id in place and leaves the rest. */
  lemma ExpireKeys(s: Server, id: UInt64)
    requires Expire(s, id).1.Success?
    ensures var s' := Expire(s, id).0;
            && s'.clock == s.clock && id in IdsOf(s.keys)
            && (forall k: PreAuthKey :: k.id != id ==> (k in s'.keys <==> k in s.keys))
            && (forall k :: k in s'.keys && k.id == id ==> !AliveAt(k, s.clock))
            && (forall k :: k in s.keys && k.id == id ==> CutShort(k, s.clock) in s'.keys)
  {
    var s' := Expire(s, id).0;
    forall k | k in s.keys ensures (if k.id == id then CutShort(k, s.clock) else k) in s'.keys {
      var i :| 0 <= i < |s.keys| && s.keys[i] == k;
      assert s'.keys[i] in s'.keys;
    }
    forall k | k in s'.keys ensures (k.id == id ==> !AliveAt(k, s.clock)) && (k.id != id ==> k in s.keys) {
      var i :| 0 <= i < |s'.keys| && s'.keys[i] == k;
      assert s.keys[i] in s.keys;
    }
  }
}
