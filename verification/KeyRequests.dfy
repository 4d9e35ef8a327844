/** The auth-key endpoints as request automata: each step is at most one call to headscale. */
module KeyRequests {
  import opened Machine
  import opened Wrappers
  import opened Upstream
  import opened Translate
  import Decimal

  /** body is None when it does not decode. */
  datatype Op = List | Create(body: Option<CreateKeyRequest>) | Get(keyId: string) | Delete(keyId: string)

  datatype Request = Request(op: Op, tailnet: string)

  datatype Response = Error(status: nat) | Listed(keys: seq<Key>) | Shown(key: Key) | Deleted

  // ---------------------------------------------------------------- pure pieces

  function UserByName(users: seq<User>, name: string): Option<User> {
    FirstUser(users, (u: User) => u.name == name)
  }

  /** resolveTailnetUser once the users are listed; own is the configured tailnet name. */
  function Resolve(own: string, tailnet: string, users: seq<User>): Result<User, nat> {
    if users == [] then Failure(404)
    else
      var resolved := if tailnet == "-" then own else tailnet;
      if resolved == "-" then
        if |users| != 1 then Failure(400) else Success(users[0])
      else if own != "-" && tailnet != "-" && tailnet != own then Failure(404)
      else match UserByName(users, resolved)
        case Some(u) => Success(u)
        case None => Failure(404)
  }

  /** The user that a request with this path acts for, given the users there are: the one the path names, where only the
      configured one is admitted if one is configured; under "-" the configured one; and under "-" with none
      configured the only user there is. */
  predicate ActsFor(own: string, path: string, u: User, users: seq<User>) {
    if path != "-" then u in users && u.name == path && own in {"-", path}
    else if own != "-" then u in users && u.name == own
    else users == [u]
  }

  /** Resolving finds just the user that the request acts for. */
  lemma ResolveExact(own: string, tailnet: string, users: seq<User>, u: User)
    ensures Resolve(own, tailnet, users) == Success(u) ==> ActsFor(own, tailnet, u, users)
    ensures DistinctUsers(users) && ActsFor(own, tailnet, u, users) ==> Resolve(own, tailnet, users) == Success(u)
  {
  }

  /** Nobody to act for: 400 where "-" stands for one of several users, else 404. */
  ghost predicate NobodyFor(own: string, path: string, users: seq<User>, status: nat) {
    && (forall u :: u in users ==> !ActsFor(own, path, u, users))
    && status == if path == "-" && own == "-" && users != [] then 400 else 404
  }

  /** It fails just when there is no such user, and with which status. */
  lemma ResolveRefusal(own: string, tailnet: string, users: seq<User>, status: nat)
    ensures Resolve(own, tailnet, users) == Failure(status) <==> NobodyFor(own, tailnet, users, status)
  {
    var who := Resolve(own, tailnet, users);
    if who.Success? {
      assert who.value in users && ActsFor(own, tailnet, who.value, users);
    }
  }

  predicate OwnedBy(k: PreAuthKey, name: string) {
    k.user.Some? && k.user.value.name == name
  }

  /** ListPreAuthKeys after the call: the keys of the named user, or every key for the empty name. */
  function FilterKeys(keys: seq<PreAuthKey>, name: string): (r: seq<PreAuthKey>)
    ensures forall k :: k in r <==> k in keys && (name == "" || OwnedBy(k, name))
  {
    if name == "" then keys else OwnedKeys(keys, name)
  }

  function OwnedKeys(keys: seq<PreAuthKey>, name: string): (r: seq<PreAuthKey>)
    ensures forall k :: k in r <==> k in keys && OwnedBy(k, name)
  {
    if keys == [] then []
    else
      var front, k := OwnedKeys(keys[..|keys| - 1], name), keys[|keys| - 1];
      assert keys == keys[..|keys| - 1] + [k];
      if OwnedBy(k, name) then front + [k] else front
  }

  /** A listing shows one user's keys only if the name is not empty: for the empty name it shows everybody's. */
  lemma FilterIsolates(keys: seq<PreAuthKey>, name: string)
    ensures (forall k :: k in FilterKeys(keys, name) ==> OwnedBy(k, name)) <==>
            name != "" || (forall k :: k in keys ==> OwnedBy(k, ""))
  {
  }

  /** The positions from which the listing takes its keys: in ascending order, and all of those there are. */
  ghost predicate Takes(keys: seq<PreAuthKey>, name: string, r: seq<PreAuthKey>, from: seq<nat>) {
    && |from| == |r|
    && (forall i :: 0 <= i < |r| ==> from[i] < |keys| && r[i] == keys[from[i]])
    && (forall i, j :: 0 <= i < j < |r| ==> from[i] < from[j])
    && (forall p: nat :: p < |keys| ==> (p in from <==> name == "" || OwnedBy(keys[p], name)))
  }

  lemma TakesSnoc(front: seq<PreAuthKey>, k: PreAuthKey, name: string, r: seq<PreAuthKey>, from: seq<nat>)
    requires name != "" && Takes(front, name, r, from)
    ensures if OwnedBy(k, name) then Takes(front + [k], name, r + [k], from + [|front|])
            else Takes(front + [k], name, r, from)
  {
    hide OwnedBy;
    var keys := front + [k];
    assert forall p: nat :: p < |front| ==> keys[p] == front[p];
    assert forall p: nat :: p in from + [|front|] <==> p in from || p == |front|;
    assert forall p :: p in from ==> p < |front|;
  }

  lemma {:induction false} OwnedInOrder(keys: seq<PreAuthKey>, name: string) returns (from: seq<nat>)
    requires name != ""
    ensures Takes(keys, name, OwnedKeys(keys, name), from)
  {
    hide *;
    if keys == [] {
      from := [];
      TakesNone(name);
      assert keys == [];
    } else {
      var front, k := keys[..|keys| - 1], keys[|keys| - 1];
      assert keys == front + [k];
      var init := OwnedInOrder(front, name);
      OwnedSnoc(front, k, name);
      TakesSnoc(front, k, name, OwnedKeys(front, name), init);
      if OwnedBy(k, name) {
        from := init + [|front|];
      } else {
        from := init;
        assert OwnedKeys(front, name) + [] == OwnedKeys(front, name);
      }
    }
  }

  lemma TakesNone(name: string)
    ensures Takes([], name, OwnedKeys([], name), [])
  {
  }

  lemma OwnedSnoc(front: seq<PreAuthKey>, k: PreAuthKey, name: string)
    ensures OwnedKeys(front + [k], name) == OwnedKeys(front, name) + if OwnedBy(k, name) then [k] else []
  {
    assert (front + [k])[..|front|] == front;
  }

  /** The listing keeps every key of the named user, or of everybody for the empty name, once and in order. */
  lemma FilterInOrder(keys: seq<PreAuthKey>, name: string) returns (from: seq<nat>)
    ensures Takes(keys, name, FilterKeys(keys, name), from)
  {
    if name != "" {
      from := OwnedInOrder(keys, name);
    } else {
      from := seq(|keys|, i => i);
      forall p: nat | p < |keys| ensures p in from {
        assert from[p] == p;
      }
    }
  }

  function IdSeq(keys: seq<PreAuthKey>): seq<UInt64> {
    seq(|keys|, i requires 0 <= i < |keys| => keys[i].id)
  }

  /** findKeyByID. */
  function FindKeyByID(keys: seq<PreAuthKey>, id: string): (k: Option<PreAuthKey>)
    ensures k.Some? ==> k.value in keys && Decimal.Format(k.value.id) == id
    ensures k.None? ==> forall x :: x in keys ==> Decimal.Format(x.id) != id
  {
    match Decimal.FindText(IdSeq(keys), id)
    case Some(i) => Some(keys[i])
    case None =>
      assert forall x :: x in keys ==> Decimal.Format(x.id) != id by {
        forall x | x in keys ensures Decimal.Format(x.id) != id {
          var j :| 0 <= j < |keys| && keys[j] == x;
          assert IdSeq(keys)[j] == x.id;
        }
      }
      None
  }

  /** The first key listed that is shown under the id. */
  ghost predicate FirstShown(keys: seq<PreAuthKey>, id: string, k: PreAuthKey) {
    exists i :: (0 <= i < |keys| && keys[i] == k && Decimal.Format(keys[i].id) == id
                 && forall j :: 0 <= j < i ==> Decimal.Format(keys[j].id) != id)
  }

  /** What is found is that key, and nothing only if there is none. */
  lemma FindKeyByIDFirst(keys: seq<PreAuthKey>, id: string, k: PreAuthKey)
    ensures FindKeyByID(keys, id) == Some(k) <==> FirstShown(keys, id, k)
  {
    hide Decimal.Format;
    hide Decimal.FindText;
    var found := Decimal.FindText(IdSeq(keys), id);
    assert forall j :: 0 <= j < |keys| ==> IdSeq(keys)[j] == keys[j].id;
    if FindKeyByID(keys, id) == Some(k) {
      assert keys[found.value] == k;
      forall j | 0 <= j < found.value ensures Decimal.Format(keys[j].id) != id {
        assert Decimal.Format(IdSeq(keys)[j]) != id;
      }
    }
    forall i: nat | i < |keys| && keys[i] == k && Decimal.Format(keys[i].id) == id
                    && forall j :: 0 <= j < i ==> Decimal.Format(keys[j].id) != id
      ensures found == Some(i)
    {
      Decimal.FirstText(IdSeq(keys), id, i);
    }
  }

  function ToKeys(keys: seq<PreAuthKey>): seq<Key> {
    seq(|keys|, i requires 0 <= i < |keys| => PreAuthKeyToKey(keys[i]))
  }

  /** The keys as shown, one by one and in order. */
  predicate Mirrors(keys: seq<PreAuthKey>, shown: seq<Key>) {
    |shown| == |keys| && forall i :: 0 <= i < |keys| ==> Renders(keys[i], shown[i])
  }

  // ---------------------------------------------------------------- steps

  datatype Pc =
    | Start
    | Resolved(user: User)
    | ToCreate(user: User, req: CreateRequest)
    | ToExpire(user: User, id: UInt64)
    | ToDelete(user: User, id: UInt64)
    | Done(resp: Response)

  /** What a step asks of headscale. */
  datatype Call =
    | UsersListed(users: seq<User>)
    | KeysListed(name: string, keys: seq<PreAuthKey>)
    | KeyCreated(req: CreateRequest)
    | KeyExpired(id: UInt64)
    | KeyDeleted(id: UInt64)

  /** The call a step makes, and the error it was answered with, if any; a failed listing shows nothing. */
  datatype Outcome = NoCall | Called(call: Call, err: Option<Code>)

  function ErrorOf<R>(answer: Result<R, Code>): Option<Code> {
    match answer case Success(_) => None case Failure(code) => Some(code)
  }

  /** How the three endpoints that list the keys first go on once they are listed. */
  function AfterListing(op: Op, user: User, shown: seq<PreAuthKey>): Pc
    requires !op.Create?
  {
    match op
    case List => Done(Listed(ToKeys(shown)))
    case Get(id) =>
      (match FindKeyByID(shown, id)
       case None => Done(Error(404))
       case Some(k) => Done(Shown(PreAuthKeyToKey(k))))
    case Delete(id) =>
      (match FindKeyByID(shown, id)
       case None => Done(Error(404))
       case Some(k) => ToExpire(user, k.id))
  }

  datatype Next = Next(srv: Server, pc: Pc, out: Outcome)

  /** One step of a request; f is what becomes of its call, secret the key text the server makes up. */
  function Advance(own: string, srv: Server, req: Request, pc: Pc, f: Fault, secret: string): Next {
    match pc
    case Start =>
      (match ListUsers(srv, f)
       case Failure(code) => Next(srv, Done(Error(HttpStatus(code))), Called(UsersListed([]), Some(code)))
       case Success(users) =>
         match Resolve(own, req.tailnet, users)
         case Failure(status) => Next(srv, Done(Error(status)), Called(UsersListed(users), None))
         case Success(u) => Next(srv, Resolved(u), Called(UsersListed(users), None)))
    case Resolved(u) =>
      if req.op.Create? then
        match req.op.body
        case None => Next(srv, Done(Error(400)), NoCall)
        case Some(b) => Next(srv, ToCreate(u, KeyRequestToCreatePreAuthKeyRequest(b, u.id, srv.clock)), NoCall)
      else
        (match ListAllKeys(srv, f)
         case Failure(code) => Next(srv, Done(Error(HttpStatus(code))), Called(KeysListed(u.name, []), Some(code)))
         case Success(keys) =>
           var shown := FilterKeys(keys, u.name);
           Next(srv, AfterListing(req.op, u, shown), Called(KeysListed(u.name, shown), None)))
    case ToCreate(_, r) =>
      var (srv', answer) := Faulty(srv, Upstream.Create(srv, r, secret), f);
      var resp := if answer.Success? then Shown(PreAuthKeyToKey(answer.value)) else Error(HttpStatus(answer.error));
      Next(srv', Done(resp), Called(KeyCreated(r), ErrorOf(answer)))
    case ToExpire(u, id) =>
      var (srv', answer) := Faulty(srv, Upstream.Expire(srv, id), f);
      Next(srv', if answer.Success? then ToDelete(u, id) else Done(Error(HttpStatus(answer.error))),
           Called(KeyExpired(id), ErrorOf(answer)))
    case ToDelete(_, id) =>
      var (srv', answer) := Faulty(srv, Upstream.Delete(srv, id), f);
      Next(srv', Done(if answer.Success? then Deleted else Error(HttpStatus(answer.error))),
           Called(KeyDeleted(id), ErrorOf(answer)))
    case Done(_) => Next(srv, pc, NoCall)
  }

  function Rank(pc: Pc): nat {
    match pc
    case Start => 4
    case Resolved(_) => 3
    case ToCreate(_, _) => 2
    case ToExpire(_, _) => 2
    case ToDelete(_, _) => 1
    case Done(_) => 0
  }

  lemma RankFalls(own: string, srv: Server, req: Request, pc: Pc, f: Fault, secret: string)
    requires !pc.Done?
    ensures Rank(Advance(own, srv, req, pc, f, secret).pc) < Rank(pc)
  {
  }

  /** A request left to itself: the n-th step meets the n-th fault. */
  function Solo(own: string, srv: Server, req: Request, pc: Pc, faults: nat -> Fault, n: nat, secret: string)
    : (Server, Response)
    decreases Rank(pc)
  {
    match pc
    case Done(resp) => (srv, resp)
    case _ =>
      RankFalls(own, srv, req, pc, faults(n), secret);
      var next := Advance(own, srv, req, pc, faults(n), secret);
      Solo(own, next.srv, req, next.pc, faults, n + 1, secret)
  }

  /** One step of a request left to itself. */
  lemma SoloStep(own: string, srv: Server, req: Request, pc: Pc, faults: nat -> Fault, n: nat, secret: string)
    requires !pc.Done?
    ensures var next := Advance(own, srv, req, pc, faults(n), secret);
            Solo(own, srv, req, pc, faults, n, secret) == Solo(own, next.srv, req, next.pc, faults, n + 1, secret)
  {
  }

  /** What the first two calls of list, get and delete come to. */
  function Front(own: string, srv: Server, tailnet: string, f0: Fault, f1: Fault)
    : Result<(User, seq<PreAuthKey>), nat>
  {
    match Upstream.ListUsers(srv, f0)
    case Failure(code) => Failure(HttpStatus(code))
    case Success(users) =>
      match Resolve(own, tailnet, users)
      case Failure(status) => Failure(status)
      case Success(u) =>
        match ListAllKeys(srv, f1)
        case Failure(code) => Failure(HttpStatus(code))
        case Success(keys) => Success((u, FilterKeys(keys, u.name)))
  }

  lemma FrontIsSolo(own: string, srv: Server, req: Request, faults: nat -> Fault, secret: string)
    requires !req.op.Create?
    ensures var front := Front(own, srv, req.tailnet, faults(0), faults(1));
            Solo(own, srv, req, Start, faults, 0, secret)
            == if front.Failure? then (srv, Error(front.error))
               else Solo(own, srv, req, AfterListing(req.op, front.value.0, front.value.1), faults, 2, secret)
  {
  }

  /** The request run to its end, every call answered. */
  function Serve(own: string, srv: Server, op: Op, tailnet: string, secret: string): (Server, Response) {
    Solo(own, srv, Request(op, tailnet), Start, (_: nat) => Fine, 0, secret)
  }

  /** The state of affairs after listing. */
  lemma ServeFront(own: string, srv: Server, op: Op, tailnet: string, secret: string)
    requires !op.Create?
    ensures var who := Resolve(own, tailnet, srv.users);
            Serve(own, srv, op, tailnet, secret)
            == if who.Failure? then (srv, Error(who.error))
               else Solo(own, srv, Request(op, tailnet),
                         AfterListing(op, who.value, FilterKeys(srv.keys, who.value.name)),
                         (_: nat) => Fine, 2, secret)
  {
  }

  /** Where a tailnet is configured, naming it and writing "-" come to the same thing, fault for fault. */
  lemma DashIsOwnName(own: string, srv: Server, op: Op, pc: Pc, f: Fault, secret: string)
    requires own != "-"
    ensures Advance(own, srv, Request(op, "-"), pc, f, secret) == Advance(own, srv, Request(op, own), pc, f, secret)
  {
  }

  lemma {:induction false} DashIsOwnNameSolo(own: string, srv: Server, op: Op, pc: Pc, faults: nat -> Fault, n: nat,
                                             secret: string)
    requires own != "-"
    ensures Solo(own, srv, Request(op, "-"), pc, faults, n, secret)
            == Solo(own, srv, Request(op, own), pc, faults, n, secret)
    decreases Rank(pc)
  {
    if !pc.Done? {
      DashIsOwnName(own, srv, op, pc, faults(n), secret);
      RankFalls(own, srv, Request(op, own), pc, faults(n), secret);
      var next := Advance(own, srv, Request(op, own), pc, faults(n), secret);
      DashIsOwnNameSolo(own, next.srv, op, next.pc, faults, n + 1, secret);
    }
  }
}
