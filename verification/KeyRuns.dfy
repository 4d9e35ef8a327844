/** Any number of auth-key requests interleaved with each other and with the administrator, any call failing either
    way. */
module KeyRuns {
  import opened Machine
  import opened Wrappers
  import opened Upstream
  import opened Translate
  import opened KeyRequests
  import Decimal

  datatype Thread = Thread(req: Request, pc: Pc)

  /** One call that reached the wire, and the error it was answered with, if any. */
  datatype Entry = Entry(t: nat, call: Call, err: Option<Code>)

  datatype State = State(srv: Server, threads: map<nat, Thread>, calls: seq<Entry>)

  datatype Label = Arrive(t: nat, req: Request) | Step(t: nat, f: Fault, secret: string) | ByAdmin(a: Admin)

  const INITIAL := State(Server(0, [], map[], [], 0, 0), map[], [])

  predicate Fires(s: State, l: Label) {
    match l
    case Arrive(t, _) => t !in s.threads
    case Step(t, _, _) => t in s.threads && !s.threads[t].pc.Done?
    case ByAdmin(_) => true
  }

  function Logged(calls: seq<Entry>, t: nat, out: Outcome): seq<Entry> {
    match out case NoCall => calls case Called(call, err) => calls + [Entry(t, call, err)]
  }

  function StepOf(own: string, s: State, l: Label): Next
    requires Fires(s, l) && l.Step?
  {
    Advance(own, s.srv, s.threads[l.t].req, s.threads[l.t].pc, l.f, l.secret)
  }

  function Apply(own: string, s: State, l: Label): State
    requires Fires(s, l)
  {
    match l
    case Arrive(t, req) => s.(threads := s.threads[t := Thread(req, Start)])
    case ByAdmin(a) => s.(srv := Administer(s.srv, a))
    case Step(t, _, _) =>
      var next := StepOf(own, s, l);
      State(next.srv, s.threads[t := s.threads[t].(pc := next.pc)], Logged(s.calls, t, next.out))
  }

  function Run(own: string, ls: seq<Label>): Option<State> {
    if ls == [] then Some(INITIAL)
    else match Run(own, ls[..|ls| - 1])
      case None => None
      case Some(s) => if Fires(s, ls[|ls| - 1]) then Some(Apply(own, s, ls[|ls| - 1])) else None
  }

  ghost predicate Reachable(own: string, s: State) {
    exists ls :: Run(own, ls) == Some(s)
  }

  // ---------------------------------------------------------------- invariant

  /** The user exists or existed, under this non-empty name. */
  ghost predicate Known(s: State, u: User) {
    u.id in s.srv.names && s.srv.names[u.id] == u.name && u.name != ""
  }

  /** Before call n the thread had listed the users and so come to act for u. */
  ghost predicate ResolvedBefore(own: string, calls: seq<Entry>, n: nat, t: nat, path: string, u: User) {
    exists g: nat :: g < n && g < |calls| && Lists(calls[g], t) && ActsFor(own, path, u, calls[g].call.users)
  }

  /** The thread's own successful listing of the users. */
  predicate Lists(e: Entry, t: nat) {
    e.t == t && e.err.None? && e.call.UsersListed?
  }

  /** Call h is the thread's own listing, under that name, of a key with this id and that owner. */
  ghost predicate ShowedIt(calls: seq<Entry>, h: nat, t: nat, name: string, id: UInt64) {
    && h < |calls| && calls[h].t == t && calls[h].err.None?
    && calls[h].call.KeysListed? && calls[h].call.name == name
    && exists k :: k in calls[h].call.keys && k.id == id && OwnedBy(k, name)
  }

  /** Call h showed the thread a key with this id, in the listing of the user it had come to act for. */
  ghost predicate ListedIt(own: string, calls: seq<Entry>, h: nat, t: nat, path: string, u: User, id: UInt64) {
    ShowedIt(calls, h, t, u.name, id) && ResolvedBefore(own, calls, h, t, path, u)
  }

  /** Call e is the thread's own successful expire of the id. */
  ghost predicate ExpiredIt(calls: seq<Entry>, e: nat, t: nat, id: UInt64) {
    e < |calls| && calls[e] == Entry(t, KeyExpired(id), None)
  }

  /** The response says what some call of the thread's own established. */
  ghost predicate Answers(calls: seq<Entry>, i: nat, t: nat, resp: Response)
    requires i < |calls|
  {
    && calls[i].t == t && calls[i].err.None?
    && (match resp
        case Error(_) => true
        case Listed(ks) => calls[i].call.KeysListed? && ks == ToKeys(calls[i].call.keys)
        case Shown(k) =>
          (match calls[i].call
           case KeysListed(_, keys) => exists x :: x in keys && k == PreAuthKeyToKey(x)
           case KeyCreated(r) =>
             k.reusable == r.reusable && k.ephemeral == r.ephemeral && k.tags == r.tags
             && k.expires == Some(r.expiration)
           case _ => false)
        case Deleted => calls[i].call.KeyDeleted?)
  }

  /** The creation asks for what the body asked for, stamped with a clock reading in the past. */
  ghost predicate AsAsked(op: Op, r: CreateRequest, clock: int) {
    && op.Create? && op.body.Some?
    && (var stamp := r.expiration - ExpiryDuration(op.body.value.expirySeconds);
        stamp <= clock && r == KeyRequestToCreatePreAuthKeyRequest(op.body.value, r.user, stamp))
  }

  /** The response answers the operation asked for, and the id in its path. */
  ghost predicate Meets(op: Op, call: Call, resp: Response, clock: int) {
    match resp
    case Error(_) => true
    case Listed(_) => op.List?
    case Shown(k) => (call.KeysListed? && op == Get(k.id)) || (call.KeyCreated? && AsAsked(op, call.req, clock))
    case Deleted => call.KeyDeleted? && op == Op.Delete(Decimal.Format(call.id))
  }

  ghost predicate PcOk(own: string, s: State, t: nat, req: Request, pc: Pc) {
    match pc
    case Start => true
    case Resolved(u) => Known(s, u) && ResolvedBefore(own, s.calls, |s.calls|, t, req.tailnet, u)
    case ToCreate(u, r) =>
      && Known(s, u) && ResolvedBefore(own, s.calls, |s.calls|, t, req.tailnet, u)
      && r.user == u.id && AsAsked(req.op, r, s.srv.clock)
    case ToExpire(u, id) =>
      && id < s.srv.nextKey && req.op == Op.Delete(Decimal.Format(id))
      && exists h: nat :: ListedIt(own, s.calls, h, t, req.tailnet, u, id)
    case ToDelete(u, id) =>
      && id < s.srv.nextKey && req.op == Op.Delete(Decimal.Format(id))
      && exists h: nat, e: nat ::
           (h < e && ListedIt(own, s.calls, h, t, req.tailnet, u, id) && ExpiredIt(s.calls, e, t, id))
    case Done(resp) => !resp.Error? ==> exists i: nat :: Backs(s, i, t, req.op, resp)
  }

  /** Call i is the thread's own, established the response, and is what the operation needed. */
  ghost predicate Backs(s: State, i: nat, t: nat, op: Op, resp: Response) {
    i < |s.calls| && Answers(s.calls, i, t, resp) && Meets(op, s.calls[i].call, resp, s.srv.clock)
  }

  ghost predicate ThreadOk(own: string, s: State, t: nat)
    requires t in s.threads
  {
    PcOk(own, s, t, s.threads[t].req, s.threads[t].pc)
  }

  /** Call i was in order: it is one that the operation makes and was made for the user its thread acts for; what it
      touched had been listed, what it deleted expired by its thread; what it expired or deleted has not come back. */
  ghost predicate CallOk(own: string, s: State, i: nat)
    requires i < |s.calls|
  {
    s.calls[i].t in s.threads && CallFits(own, s, i, s.threads[s.calls[i].t].req)
  }

  ghost predicate CallFits(own: string, s: State, i: nat, req: Request)
    requires i < |s.calls|
  {
    var t, ok, path := s.calls[i].t, s.calls[i].err.None?, req.tailnet;
    match s.calls[i].call
    case UsersListed(_) => true
    case KeysListed(name, keys) =>
      && !req.op.Create? && (forall k :: k in keys ==> OwnedBy(k, name))
      && exists u: User :: u.name == name && ResolvedBefore(own, s.calls, i, t, path, u)
    case KeyCreated(r) =>
      && AsAsked(req.op, r, s.srv.clock)
      && exists u: User :: u.id == r.user && ResolvedBefore(own, s.calls, i, t, path, u)
    case KeyExpired(id) =>
      && req.op == Op.Delete(Decimal.Format(id))
      && (exists h: nat, u :: h < i && ListedIt(own, s.calls, h, t, path, u, id))
      && id < s.srv.nextKey && (ok ==> StatusOf(s.srv, id) != Live)
    case KeyDeleted(id) =>
      && req.op == Op.Delete(Decimal.Format(id))
      && (exists h: nat, e: nat, u ::
            h < e < i && ListedIt(own, s.calls, h, t, path, u, id) && ExpiredIt(s.calls, e, t, id))
      && id < s.srv.nextKey && (ok ==> StatusOf(s.srv, id) == Gone)
  }

  ghost predicate Inv(own: string, s: State) {
    && Sane(s.srv)
    && (forall t :: t in s.threads ==> ThreadOk(own, s, t))
    && (forall i :: 0 <= i < |s.calls| ==> CallOk(own, s, i))
  }

  // ---------------------------------------------------------------- steps

  lemma AdvanceServer(own: string, srv: Server, req: Request, pc: Pc, f: Fault, secret: string)
    requires Sane(srv)
    ensures var srv' := Advance(own, srv, req, pc, f, secret).srv; Sane(srv') && Evolves(srv, srv')
  {
    hide Sane;
    hide Evolves;
    SameEvolves(srv);
    match pc
    case ToCreate(_, r) => CreateSane(srv, r, secret); CreateEvolves(srv, r, secret);
    case ToExpire(_, id) => ExpireSane(srv, id); ExpireEvolves(srv, id);
    case ToDelete(_, id) => DeleteSane(srv, id); DeleteEvolves(srv, id);
    case _ =>
  }

  lemma SameEvolves(srv: Server)
    ensures Evolves(srv, srv)
  {
  }

  lemma ApplyServer(own: string, s: State, l: Label)
    requires Sane(s.srv) && Fires(s, l)
    ensures var s' := Apply(own, s, l); Sane(s'.srv) && Evolves(s.srv, s'.srv) && s.calls <= s'.calls
  {
    match l
    case Arrive(_, _) => SameEvolves(s.srv);
    case ByAdmin(a) => AdministerSane(s.srv, a); AdministerEvolves(s.srv, a);
    case Step(t, f, secret) => AdvanceServer(own, s.srv, s.threads[t].req, s.threads[t].pc, f, secret);
  }

  lemma ShowedItStable(calls: seq<Entry>, calls': seq<Entry>, h: nat, t: nat, name: string, id: UInt64)
    requires calls <= calls' && ShowedIt(calls, h, t, name, id)
    ensures h < |calls| && ShowedIt(calls', h, t, name, id)
  {
  }

  lemma ResolvedBeforeStable(own: string, calls: seq<Entry>, calls': seq<Entry>, n: nat, t: nat, path: string, u: User)
    requires calls <= calls' && ResolvedBefore(own, calls, n, t, path, u)
    ensures forall n' :: n <= n' ==> ResolvedBefore(own, calls', n', t, path, u)
  {
    var g: nat :| g < n && g < |calls| && Lists(calls[g], t) && ActsFor(own, path, u, calls[g].call.users);
    assert calls'[g] == calls[g];
  }

  lemma ListedItStable(own: string, calls: seq<Entry>, calls': seq<Entry>, h: nat, t: nat, path: string, u: User,
                       id: UInt64)
    requires calls <= calls' && ListedIt(own, calls, h, t, path, u, id)
    ensures h < |calls| && ListedIt(own, calls', h, t, path, u, id)
  {
    ShowedItStable(calls, calls', h, t, u.name, id);
    ResolvedBeforeStable(own, calls, calls', h, t, path, u);
  }

  lemma ExpiredItStable(calls: seq<Entry>, calls': seq<Entry>, e: nat, t: nat, id: UInt64)
    requires calls <= calls' && ExpiredIt(calls, e, t, id)
    ensures e < |calls| && ExpiredIt(calls', e, t, id)
  {
  }

  lemma PcOkStable(own: string, s: State, s': State, t: nat, req: Request, pc: Pc)
    requires PcOk(own, s, t, req, pc) && Evolves(s.srv, s'.srv) && s.calls <= s'.calls
    ensures PcOk(own, s', t, req, pc)
  {
    hide ListedIt;
    hide ResolvedBefore;
    match pc
    case Resolved(u) => ResolvedBeforeStable(own, s.calls, s'.calls, |s.calls|, t, req.tailnet, u);
    case ToCreate(u, _) => ResolvedBeforeStable(own, s.calls, s'.calls, |s.calls|, t, req.tailnet, u);
    case ToExpire(u, id) =>
      var h: nat :| ListedIt(own, s.calls, h, t, req.tailnet, u, id);
      ListedItStable(own, s.calls, s'.calls, h, t, req.tailnet, u, id);
    case ToDelete(u, id) =>
      var h: nat, e: nat :| h < e && ListedIt(own, s.calls, h, t, req.tailnet, u, id) && ExpiredIt(s.calls, e, t, id);
      ListedItStable(own, s.calls, s'.calls, h, t, req.tailnet, u, id);
      ExpiredItStable(s.calls, s'.calls, e, t, id);
    case Done(resp) =>
      if !resp.Error? {
        var i: nat :| Backs(s, i, t, req.op, resp);
        assert s'.calls[i] == s.calls[i] && Backs(s', i, t, req.op, resp);
      }
    case _ =>
  }

  lemma CallFitsStable(own: string, s: State, s': State, i: nat, req: Request)
    requires i < |s.calls| && CallFits(own, s, i, req) && Evolves(s.srv, s'.srv) && s.calls <= s'.calls
    ensures CallFits(own, s', i, req)
  {
    hide ListedIt;
    hide ResolvedBefore;
    hide StatusOf;
    var t, path := s.calls[i].t, req.tailnet;
    assert s'.calls[i] == s.calls[i];
    match s.calls[i].call
    case KeysListed(name, _) =>
      var u: User :| u.name == name && ResolvedBefore(own, s.calls, i, t, path, u);
      ResolvedBeforeStable(own, s.calls, s'.calls, i, t, path, u);
    case KeyCreated(r) =>
      var u: User :| u.id == r.user && ResolvedBefore(own, s.calls, i, t, path, u);
      ResolvedBeforeStable(own, s.calls, s'.calls, i, t, path, u);
    case KeyExpired(id) =>
      var h: nat, u :| h < i && ListedIt(own, s.calls, h, t, path, u, id);
      ListedItStable(own, s.calls, s'.calls, h, t, path, u, id);
      StatusFalls(s.srv, s'.srv, id);
    case KeyDeleted(id) =>
      var h: nat, e: nat, u :| h < e < i && ListedIt(own, s.calls, h, t, path, u, id) && ExpiredIt(s.calls, e, t, id);
      ListedItStable(own, s.calls, s'.calls, h, t, path, u, id);
      ExpiredItStable(s.calls, s'.calls, e, t, id);
      StatusFalls(s.srv, s'.srv, id);
    case _ =>
  }

  /** Threads stay, and keep their requests. */
  lemma RequestsStay(own: string, s: State, l: Label)
    requires Fires(s, l)
    ensures var threads' := Apply(own, s, l).threads;
            forall t :: t in s.threads ==> t in threads' && threads'[t].req == s.threads[t].req
  {
  }

  lemma InvThread(own: string, s: State, t: nat)
    requires Inv(own, s) && t in s.threads
    ensures PcOk(own, s, t, s.threads[t].req, s.threads[t].pc)
  {
    assert ThreadOk(own, s, t);
  }

  /** What a step at the listing of the keys adds, when it lists them. */
  lemma ListingOk(own: string, s: State, s': State, t: nat, req: Request, u: User, keys: seq<PreAuthKey>,
                  err: Option<Code>)
    requires PcOk(own, s, t, req, Resolved(u)) && !req.op.Create?
    requires s'.calls == s.calls + [Entry(t, KeysListed(u.name, keys), err)] && s'.srv == s.srv
    requires forall k :: k in keys ==> k in s.srv.keys && OwnedBy(k, u.name)
    requires Sane(s.srv)
    ensures CallFits(own, s', |s.calls|, req)
    ensures err.None? ==> PcOk(own, s', t, req, AfterListing(req.op, u, keys))
  {
    hide Decimal.Format;
    hide ResolvedBefore;
    ResolvedBeforeStable(own, s.calls, s'.calls, |s.calls|, t, req.tailnet, u);
    if err.None? {
      var i := |s.calls|;
      match req.op
      case List => assert Backs(s', i, t, req.op, Listed(ToKeys(keys)));
      case Get(id) =>
        var found := FindKeyByID(keys, id);
        if found.Some? {
          assert Backs(s', i, t, req.op, Shown(PreAuthKeyToKey(found.value)));
        }
      case Delete(id) =>
        var found := FindKeyByID(keys, id);
        if found.Some? {
          var k := found.value;
          assert k in keys && OwnedBy(k, u.name);
          assert ListedIt(own, s'.calls, i, t, req.tailnet, u, k.id);
        }
    }
  }

  lemma StepFromListing(own: string, s: State, l: Label)
    requires Inv(own, s) && Fires(s, l) && l.Step? && s.threads[l.t].pc.Resolved?
    ensures var s' := Apply(own, s, l);
            ThreadOk(own, s', l.t) && (|s'.calls| > |s.calls| ==> CallOk(own, s', |s.calls|))
  {
    hide ResolvedBefore;
    hide Decimal.Format;
    hide FindKeyByID;
    var t, req, u := l.t, s.threads[l.t].req, s.threads[l.t].pc.user;
    var s' := Apply(own, s, l);
    InvThread(own, s, t);
    if !req.op.Create? {
      var keys := if l.f.Fine? then FilterKeys(s.srv.keys, u.name) else [];
      ListingOk(own, s, s', t, req, u, keys, if l.f.Fine? then None else Some(l.f.code));
    }
  }

  lemma ExpireAnswered(srv: Server, id: UInt64, f: Fault)
    ensures var (srv', answer) := Faulty(srv, Upstream.Expire(srv, id), f);
            srv'.names == srv.names && srv'.nextKey == srv.nextKey && (answer.Success? ==> StatusOf(srv', id) != Live)
  {
    if Upstream.Expire(srv, id).1.Success? {
      ExpireEnds(srv, id);
    }
  }

  /** What a step at the expire call does. */
  lemma ExpireApplied(own: string, s: State, l: Label) returns (err: Option<Code>)
    requires Fires(s, l) && l.Step? && s.threads[l.t].pc.ToExpire?
    ensures var th, s' := s.threads[l.t], Apply(own, s, l);
            && s'.calls == s.calls + [Entry(l.t, KeyExpired(th.pc.id), err)]
            && s'.srv.names == s.srv.names && s'.srv.nextKey == s.srv.nextKey
            && (err.None? ==> StatusOf(s'.srv, th.pc.id) != Live)
            && s'.threads[l.t].req == th.req
            && (if err.None? then s'.threads[l.t].pc == ToDelete(th.pc.user, th.pc.id)
                else s'.threads[l.t].pc.Done? && s'.threads[l.t].pc.resp.Error?)
  {
    hide StatusOf;
    hide Upstream.Expire;
    ExpireAnswered(s.srv, s.threads[l.t].pc.id, l.f);
    err := Apply(own, s, l).calls[|s.calls|].err;
  }

  lemma ExpireOk(own: string, s: State, s': State, t: nat, req: Request, u: User, id: UInt64,
                 err: Option<Code>)
    requires PcOk(own, s, t, req, ToExpire(u, id))
    requires s'.calls == s.calls + [Entry(t, KeyExpired(id), err)]
    requires s'.srv.names == s.srv.names && s'.srv.nextKey == s.srv.nextKey
    requires err.None? ==> StatusOf(s'.srv, id) != Live
    ensures CallFits(own, s', |s.calls|, req) && (err.None? ==> PcOk(own, s', t, req, ToDelete(u, id)))
  {
    hide StatusOf;
    hide Decimal.Format;
    hide ListedIt;
    var h: nat :| ListedIt(own, s.calls, h, t, req.tailnet, u, id);
    ListedItStable(own, s.calls, s'.calls, h, t, req.tailnet, u, id);
    assert err.None? ==> ExpiredIt(s'.calls, |s.calls|, t, id);
  }

  lemma StepExpire(own: string, s: State, l: Label)
    requires Inv(own, s) && Fires(s, l) && l.Step? && s.threads[l.t].pc.ToExpire?
    ensures var s' := Apply(own, s, l);
            ThreadOk(own, s', l.t) && (|s'.calls| > |s.calls| ==> CallOk(own, s', |s.calls|))
  {
    hide Inv;
    hide StatusOf;
    hide CallFits;
    RequestsStay(own, s, l);
    hide Apply;
    var t, req, u, id := l.t, s.threads[l.t].req, s.threads[l.t].pc.user, s.threads[l.t].pc.id;
    InvThread(own, s, t);
    var err := ExpireApplied(own, s, l);
    ExpireOk(own, s, Apply(own, s, l), t, req, u, id, err);
  }

  lemma DeleteAnswered(srv: Server, id: UInt64, f: Fault)
    ensures var (srv', answer) := Faulty(srv, Upstream.Delete(srv, id), f);
            srv'.names == srv.names && srv'.nextKey == srv.nextKey && (answer.Success? ==> StatusOf(srv', id) == Gone)
  {
  }

  /** What a step at the delete call does. */
  lemma DeleteApplied(own: string, s: State, l: Label) returns (err: Option<Code>)
    requires Fires(s, l) && l.Step? && s.threads[l.t].pc.ToDelete?
    ensures var th, s' := s.threads[l.t], Apply(own, s, l);
            && s'.calls == s.calls + [Entry(l.t, KeyDeleted(th.pc.id), err)]
            && s'.srv.names == s.srv.names && s'.srv.nextKey == s.srv.nextKey
            && (err.None? ==> StatusOf(s'.srv, th.pc.id) == Gone)
            && s'.threads[l.t].req == th.req
            && s'.threads[l.t].pc.Done?
            && (if err.None? then s'.threads[l.t].pc.resp == Deleted else s'.threads[l.t].pc.resp.Error?)
  {
    hide StatusOf;
    hide Upstream.Delete;
    DeleteAnswered(s.srv, s.threads[l.t].pc.id, l.f);
    err := Apply(own, s, l).calls[|s.calls|].err;
  }

  lemma DeleteOk(own: string, s: State, s': State, t: nat, req: Request, u: User, id: UInt64,
                 err: Option<Code>)
    requires PcOk(own, s, t, req, ToDelete(u, id))
    requires s'.calls == s.calls + [Entry(t, KeyDeleted(id), err)]
    requires s'.srv.names == s.srv.names && s'.srv.nextKey == s.srv.nextKey
    requires err.None? ==> StatusOf(s'.srv, id) == Gone
    ensures CallFits(own, s', |s.calls|, req) && (err.None? ==> PcOk(own, s', t, req, Done(Deleted)))
  {
    hide StatusOf;
    hide Decimal.Format;
    hide ListedIt;
    var h: nat, e: nat :| h < e && ListedIt(own, s.calls, h, t, req.tailnet, u, id) && ExpiredIt(s.calls, e, t, id);
    ListedItStable(own, s.calls, s'.calls, h, t, req.tailnet, u, id);
    ExpiredItStable(s.calls, s'.calls, e, t, id);
    assert err.None? ==> Backs(s', |s.calls|, t, req.op, Deleted);
  }

  lemma StepDelete(own: string, s: State, l: Label)
    requires Inv(own, s) && Fires(s, l) && l.Step? && s.threads[l.t].pc.ToDelete?
    ensures var s' := Apply(own, s, l);
            ThreadOk(own, s', l.t) && (|s'.calls| > |s.calls| ==> CallOk(own, s', |s.calls|))
  {
    hide Inv;
    hide StatusOf;
    hide CallFits;
    RequestsStay(own, s, l);
    hide Apply;
    var t, req, u, id := l.t, s.threads[l.t].req, s.threads[l.t].pc.user, s.threads[l.t].pc.id;
    InvThread(own, s, t);
    var err := DeleteApplied(own, s, l);
    DeleteOk(own, s, Apply(own, s, l), t, req, u, id, err);
  }

  lemma StepStart(own: string, s: State, l: Label)
    requires Inv(own, s) && Fires(s, l) && l.Step? && s.threads[l.t].pc.Start?
    ensures var s' := Apply(own, s, l);
            ThreadOk(own, s', l.t) && (|s'.calls| > |s.calls| ==> CallOk(own, s', |s.calls|))
  {
    var t, path, users := l.t, s.threads[l.t].req.tailnet, s.srv.users;
    if l.f.Fine? && Resolve(own, path, users).Success? {
      var u := Resolve(own, path, users).value;
      ResolveExact(own, path, users, u);
      var calls' := Apply(own, s, l).calls;
      assert Lists(calls'[|s.calls|], t) && calls'[|s.calls|].call.users == users;
      hide Resolve;
      assert ResolvedBefore(own, calls', |calls'|, t, path, u);
    }
  }

  lemma StepCreate(own: string, s: State, l: Label)
    requires Inv(own, s) && Fires(s, l) && l.Step? && s.threads[l.t].pc.ToCreate?
    ensures var s' := Apply(own, s, l);
            ThreadOk(own, s', l.t) && (|s'.calls| > |s.calls| ==> CallOk(own, s', |s.calls|))
  {
    var t, req, u := l.t, s.threads[l.t].req, s.threads[l.t].pc.user;
    var s' := Apply(own, s, l);
    InvThread(own, s, t);
    hide ResolvedBefore;
    hide Inv;
    ResolvedBeforeStable(own, s.calls, s'.calls, |s.calls|, t, req.tailnet, u);
    if s'.threads[t].pc.resp.Shown? {
      assert Backs(s', |s.calls|, t, req.op, s'.threads[t].pc.resp);
    }
  }

  /** The stepping thread and the call it makes, if it makes one, are in order. */
  lemma StepOk(own: string, s: State, l: Label)
    requires Inv(own, s) && Fires(s, l) && l.Step?
    ensures var s' := Apply(own, s, l);
            l.t in s'.threads && ThreadOk(own, s', l.t) && (|s'.calls| > |s.calls| ==> CallOk(own, s', |s.calls|))
  {
    RequestsStay(own, s, l);
    hide Inv;
    hide Apply;
    hide ThreadOk;
    hide CallOk;
    match s.threads[l.t].pc
    case Start => StepStart(own, s, l);
    case Resolved(_) => StepFromListing(own, s, l);
    case ToCreate(_, _) => StepCreate(own, s, l);
    case ToExpire(_, _) => StepExpire(own, s, l);
    case ToDelete(_, _) => StepDelete(own, s, l);
  }

  lemma OldCalls(own: string, s: State, l: Label)
    requires Inv(own, s) && Fires(s, l)
    ensures forall i :: 0 <= i < |s.calls| ==> i < |Apply(own, s, l).calls| && CallOk(own, Apply(own, s, l), i)
  {
    var s' := Apply(own, s, l);
    ApplyServer(own, s, l);
    RequestsStay(own, s, l);
    hide Apply;
    hide Sane;
    hide Evolves;
    hide CallFits;
    forall i: nat | i < |s.calls| ensures CallOk(own, s', i) {
      assert CallOk(own, s, i);
      assert s'.calls[i] == s.calls[i];
      CallFitsStable(own, s, s', i, s.threads[s.calls[i].t].req);
    }
  }

  lemma FewCalls(own: string, s: State, l: Label)
    requires Fires(s, l)
    ensures var s' := Apply(own, s, l);
            s.calls <= s'.calls && |s'.calls| <= |s.calls| + (if l.Step? then 1 else 0)
  {
  }

  lemma InvStep(own: string, s: State, l: Label)
    requires Inv(own, s) && Fires(s, l)
    ensures Inv(own, Apply(own, s, l))
  {
    ApplyServer(own, s, l);
    FewCalls(own, s, l);
    if l.Step? {
      StepOk(own, s, l);
    }
    OtherThreads(own, s, l);
    OldCalls(own, s, l);
    hide Apply;
    hide Sane;
    hide Evolves;
    hide ThreadOk;
    hide CallOk;
  }

  lemma OtherThreads(own: string, s: State, l: Label)
    requires Inv(own, s) && Fires(s, l)
    ensures var s' := Apply(own, s, l);
            forall t :: t in s'.threads && !(l.Step? && t == l.t) ==> ThreadOk(own, s', t)
  {
    var s' := Apply(own, s, l);
    ApplyServer(own, s, l);
    forall t | t in s'.threads && !(l.Step? && t == l.t) ensures ThreadOk(own, s', t) {
      if t in s.threads {
        PcOkStable(own, s, s', t, s.threads[t].req, s.threads[t].pc);
      }
    }
  }

  lemma {:induction false} RunInv(own: string, ls: seq<Label>)
    requires Run(own, ls).Some?
    ensures Inv(own, Run(own, ls).value)
  {
    hide Inv;
    if ls != [] {
      RunInv(own, ls[..|ls| - 1]);
      InvStep(own, Run(own, ls[..|ls| - 1]).value, ls[|ls| - 1]);
    } else {
      InitialInv(own);
    }
  }

  lemma InitialInv(own: string)
    ensures Inv(own, INITIAL)
  {
  }

  lemma ReachableInv(own: string, s: State)
    requires Reachable(own, s)
    ensures Inv(own, s)
  {
    hide Inv;
    hide Run;
    var ls :| Run(own, ls) == Some(s);
    RunInv(own, ls);
  }

  // ---------------------------------------------------------------- deletion

  /** No delete is issued but by a delete request for that id, and not without the request's own earlier successful
      expire of it, itself after the request's own listing had shown it as owned by the user that the request acts
      for. */
  lemma DeletionProtocol(own: string, s: State, i: nat)
    requires Reachable(own, s) && i < |s.calls| && s.calls[i].call.KeyDeleted?
    ensures s.calls[i].t in s.threads
    ensures var t, id, req := s.calls[i].t, s.calls[i].call.id, s.threads[s.calls[i].t].req;
            && req.op == Op.Delete(Decimal.Format(id))
            && exists h: nat, e: nat, u ::
                 (h < e < i && ListedIt(own, s.calls, h, t, req.tailnet, u, id) && ExpiredIt(s.calls, e, t, id))
  {
    ReachableInv(own, s);
    hide Reachable;
    assert CallOk(own, s, i);
  }

  /** Once a request's expire has gone through, the key is expired or gone for good, whatever fails or interferes after;
      once its delete has, the key is gone for good. */
  lemma ExpireIsFinal(own: string, s: State, i: nat)
    requires Reachable(own, s) && i < |s.calls| && s.calls[i].err.None?
    ensures s.calls[i].call.KeyExpired? ==> StatusOf(s.srv, s.calls[i].call.id) != Live
    ensures s.calls[i].call.KeyDeleted? ==> StatusOf(s.srv, s.calls[i].call.id) == Gone
  {
    ReachableInv(own, s);
    hide Reachable;
    assert CallOk(own, s, i);
  }

  lemma CreateKeepsStatus(srv: Server, r: CreateRequest, secret: string, id: UInt64)
    requires id < srv.nextKey
    ensures StatusOf(Upstream.Create(srv, r, secret).0, id) == StatusOf(srv, id)
  {
  }

  /** The call that thread t made in the step from s to s'. */
  function LastCall(s: State, s': State, t: nat): Option<Call> {
    if |s'.calls| == |s.calls| + 1 && s'.calls[|s.calls|].t == t then Some(s'.calls[|s.calls|].call) else None
  }

  /** Every step of every request moves every key along live, expired, gone, one stage at a time, and moves no key
      but the one its call names. Only the administrator can make a live key disappear. */
  lemma OneStageAtATime(own: string, s: State, l: Label, id: UInt64)
    requires Reachable(own, s) && Fires(s, l) && l.Step? && id < s.srv.nextKey
    ensures var before, after := StatusOf(s.srv, id), StatusOf(Apply(own, s, l).srv, id);
            || after == before
            || (before == Live && after == Expired && LastCall(s, Apply(own, s, l), l.t) == Some(KeyExpired(id)))
            || (before == Expired && after == Gone && LastCall(s, Apply(own, s, l), l.t) == Some(KeyDeleted(id)))
  {
    hide Reachable;
    hide StatusOf;
    hide Upstream.Create;
    hide Upstream.Expire;
    hide Upstream.Delete;
    var t := l.t;
    match s.threads[t].pc
    case ToCreate(_, r) => CreateKeepsStatus(s.srv, r, l.secret, id);
    case ToExpire(_, target) => ExpireStage(s.srv, target, id);
    case ToDelete(_, target) =>
      NotLiveAtDelete(own, s, t);
      DeleteStage(s.srv, target, id);
    case _ =>
  }

  lemma NotLiveAtDelete(own: string, s: State, t: nat)
    requires Reachable(own, s) && t in s.threads && s.threads[t].pc.ToDelete?
    ensures StatusOf(s.srv, s.threads[t].pc.id) != Live
  {
    ReachableInv(own, s);
    assert ThreadOk(own, s, t);
    var u, id := s.threads[t].pc.user, s.threads[t].pc.id;
    var req := s.threads[t].req;
    var h: nat, e: nat :| h < e && ListedIt(own, s.calls, h, t, req.tailnet, u, id) && ExpiredIt(s.calls, e, t, id);
    hide Inv;
    ExpireIsFinal(own, s, e);
  }

  lemma ExpireStage(srv: Server, target: UInt64, id: UInt64)
    ensures var before, after := StatusOf(srv, id), StatusOf(Upstream.Expire(srv, target).0, id);
            after == before || (id == target && before == Live && after == Expired)
  {
    if Upstream.Expire(srv, target).1.Success? {
      ExpireEnds(srv, target);
    }
  }

  lemma DeleteStage(srv: Server, target: UInt64, id: UInt64)
    requires StatusOf(srv, target) != Live
    ensures var before, after := StatusOf(srv, id), StatusOf(Upstream.Delete(srv, target).0, id);
            after == before || (id == target && before == Expired && after == Gone)
  {
  }

  // ---------------------------------------------------------------- isolation

  /** Isolation, for every configuration and every path: a listing shows only keys owned by the user that the request
      acts for, a creation is for that user, and only ids so listed are expired or deleted. */
  lemma TailnetIsolation(own: string, s: State, i: nat)
    requires Reachable(own, s) && i < |s.calls|
    ensures s.calls[i].t in s.threads
    ensures var t := s.calls[i].t;
            var path := s.threads[t].req.tailnet;
            match s.calls[i].call
            case UsersListed(_) => true
            case KeysListed(_, keys) =>
              exists u :: ResolvedBefore(own, s.calls, i, t, path, u) && forall k :: k in keys ==> OwnedBy(k, u.name)
            case KeyCreated(r) => exists u :: ResolvedBefore(own, s.calls, i, t, path, u) && r.user == u.id
            case KeyExpired(id) => exists h: nat, u :: h < i && ListedIt(own, s.calls, h, t, path, u, id)
            case KeyDeleted(id) => exists h: nat, u :: h < i && ListedIt(own, s.calls, h, t, path, u, id)
  {
    ReachableInv(own, s);
    hide Reachable;
    assert CallOk(own, s, i);
    hide ListedIt;
    hide ResolvedBefore;
  }

  function Renamed(own: string, req: Request): Request {
    if req.tailnet == "-" then req.(tailnet := own) else req
  }

  /** The state with every "-" replaced by the configured name: server and calls as they are, each thread at its
      point. */
  function RenamedState(own: string, s: State): State {
    s.(threads := map t | t in s.threads :: s.threads[t].(req := Renamed(own, s.threads[t].req)))
  }

  function RenamedLabel(own: string, l: Label): Label {
    match l case Arrive(t, req) => Arrive(t, Renamed(own, req)) case _ => l
  }

  lemma DashStep(own: string, s: State, l: Label)
    requires own != "-"
    ensures Fires(RenamedState(own, s), RenamedLabel(own, l)) <==> Fires(s, l)
    ensures Fires(s, l) ==>
              Apply(own, RenamedState(own, s), RenamedLabel(own, l)) == RenamedState(own, Apply(own, s, l))
  {
    if Fires(s, l) && l.Step? {
      var th := s.threads[l.t];
      DashIsOwnName(own, s.srv, th.req.op, th.pc, l.f, l.secret);
      hide Advance;
      assert th.req == Request(th.req.op, th.req.tailnet);
    }
  }

  /** With a tailnet configured, writing its name wherever a path says "-" changes nothing in any run: the same
      labels can happen, server and calls are the same, and every thread comes to the same point with the same
      response. */
  lemma {:induction false} DashIsOwnNameRun(own: string, ls: seq<Label>)
    requires own != "-"
    ensures var renamed := Run(own, seq(|ls|, i requires 0 <= i < |ls| => RenamedLabel(own, ls[i])));
            renamed == match Run(own, ls) case None => None case Some(s) => Some(RenamedState(own, s))
  {
    var ls' := seq(|ls|, i requires 0 <= i < |ls| => RenamedLabel(own, ls[i]));
    hide Apply;
    hide Fires;
    hide RenamedLabel;
    if ls != [] {
      var front := ls[..|ls| - 1];
      DashIsOwnNameRun(own, front);
      assert ls'[..|ls'| - 1] == seq(|front|, i requires 0 <= i < |front| => RenamedLabel(own, front[i]));
      if Run(own, front).Some? {
        DashStep(own, Run(own, front).value, ls[|ls| - 1]);
      }
    } else {
      assert RenamedState(own, INITIAL) == INITIAL;
    }
  }

  /** A success is backed by a call of the request's own that fits its operation: a get shows the id in its path, a
      created key carries what the body asked for, and a reported deletion is of the id in the path, which is gone. */
  lemma ResponsesAreTrue(own: string, s: State, t: nat)
    requires Reachable(own, s) && t in s.threads && s.threads[t].pc.Done? && !s.threads[t].pc.resp.Error?
    ensures exists i: nat :: Backs(s, i, t, s.threads[t].req.op, s.threads[t].pc.resp)
                             && (s.threads[t].pc.resp.Deleted? ==> StatusOf(s.srv, s.calls[i].call.id) == Gone)
  {
    ReachableInv(own, s);
    hide Reachable;
    assert ThreadOk(own, s, t);
    var i: nat :| Backs(s, i, t, s.threads[t].req.op, s.threads[t].pc.resp);
    assert CallOk(own, s, i);
  }

  // ---------------------------------------------------------------- life cycle

  /** The server has this id under this owner with these capabilities. */
  ghost predicate Carries(srv: Server, id: UInt64, name: string, reusable: bool, ephemeral: bool, tags: seq<string>) {
    exists k :: k in srv.keys && k.id == id && OwnedBy(k, name)
                && k.reusable == reusable && k.ephemeral == ephemeral && k.tags == tags
  }

  /** In this tailnet get shows the id, with these capabilities, and list contains just what get shows. */
  ghost predicate Visible(own: string, srv: Server, tailnet: string, id: UInt64, reusable: bool, ephemeral: bool,
                          tags: seq<string>)
  {
    var (s1, got) := Serve(own, srv, Get(Decimal.Format(id)), tailnet, "");
    var (s2, listed) := Serve(own, srv, List, tailnet, "");
    && s1 == srv && s2 == srv && got.Shown? && listed.Listed? && got.key in listed.keys
    && got.key.id == Decimal.Format(id)
    && got.key.reusable == reusable && got.key.ephemeral == ephemeral && got.key.tags == tags
  }

  lemma FoundAgain(srv: Server, shown: seq<PreAuthKey>, i: nat)
    requires Sane(srv) && i < |shown| && forall k :: k in shown ==> k in srv.keys
    ensures FindKeyByID(shown, Decimal.Format(shown[i].id)) == Some(shown[i])
  {
    assert shown[i] in shown;
    var found := FindKeyByID(shown, Decimal.Format(shown[i].id));
    Decimal.FormatInjective(found.value.id, shown[i].id);
    hide Decimal.Format;
    hide FindKeyByID;
    SameKey(srv, found.value, shown[i]);
  }

  lemma SameKey(srv: Server, k: PreAuthKey, k': PreAuthKey)
    requires Sane(srv) && k in srv.keys && k' in srv.keys && k.id == k'.id
    ensures k == k'
  {
    var i :| 0 <= i < |srv.keys| && srv.keys[i] == k;
    var j :| 0 <= j < |srv.keys| && srv.keys[j] == k';
    assert i == j;
  }

  lemma OwnedIsShown(own: string, s1: Server, k: PreAuthKey, u: User, tailnet: string, secret: string)
    requires Sane(s1) && Resolve(own, tailnet, s1.users) == Success(u)
    requires k in s1.keys && OwnedBy(k, u.name) && u.name != ""
    ensures Serve(own, s1, Get(Decimal.Format(k.id)), tailnet, secret) == (s1, Shown(PreAuthKeyToKey(k)))
    ensures var (s2, listed) := Serve(own, s1, List, tailnet, secret);
            s2 == s1 && listed.Listed? && PreAuthKeyToKey(k) in listed.keys
  {
    var shown := FilterKeys(s1.keys, u.name);
    assert k in shown;
    var i :| 0 <= i < |shown| && shown[i] == k;
    FoundAgain(s1, shown, i);
    ServeFront(own, s1, Get(Decimal.Format(k.id)), tailnet, secret);
    ServeFront(own, s1, List, tailnet, secret);
    assert ToKeys(shown)[i] == PreAuthKeyToKey(k);
  }

  /** What the server carries is visible in every tailnet that resolves to its owner. */
  lemma CarriedIsVisible(own: string, srv: Server, tailnet: string, u: User, id: UInt64,
                         reusable: bool, ephemeral: bool, tags: seq<string>)
    requires Sane(srv) && Resolve(own, tailnet, srv.users) == Success(u)
    requires Carries(srv, id, u.name, reusable, ephemeral, tags)
    ensures Visible(own, srv, tailnet, id, reusable, ephemeral, tags)
  {
    ResolveExact(own, tailnet, srv.users, u);
    assert u.name != "";
    hide Sane;
    hide Resolve;
    hide Serve;
    hide Decimal.Format;
    var k :| k in srv.keys && k.id == id && OwnedBy(k, u.name)
             && k.reusable == reusable && k.ephemeral == ephemeral && k.tags == tags;
    OwnedIsShown(own, srv, k, u, tailnet, "");
  }

  /** Every listed key can be had by the id it is listed under, and is then shown just as it was listed. */
  lemma ListedThenGet(own: string, srv: Server, tailnet: string, secret: string, i: nat)
    requires Sane(srv)
    ensures var (s1, listed) := Serve(own, srv, List, tailnet, secret);
            s1 == srv && (listed.Listed? && i < |listed.keys| ==>
              Serve(own, srv, Get(listed.keys[i].id), tailnet, secret) == (srv, Shown(listed.keys[i])))
  {
    ServeFront(own, srv, List, tailnet, secret);
    hide Sane;
    hide Serve;
    hide Resolve;
    hide FilterKeys;
    hide FindKeyByID;
    hide Decimal.Format;
    var who := Resolve(own, tailnet, srv.users);
    if who.Success? {
      var shown := FilterKeys(srv.keys, who.value.name);
      if i < |shown| {
        FoundAgain(srv, shown, i);
        ServeFront(own, srv, Get(Decimal.Format(shown[i].id)), tailnet, secret);
      }
    }
  }

  /** After a successful create, named by number, the server carries the key under the user's name, by the id in the
      answer. */
  lemma CreatedIsCarried(own: string, srv: Server, req: Request, u: User, r: CreateRequest, secret: string)
    requires Sane(srv) && r.user == u.id && u in srv.users
    ensures var next := Advance(own, srv, req, ToCreate(u, r), Fine, secret);
            next.pc.Done? && (next.pc.resp.Shown? ==>
              && srv.nextKey < TWO_64 && next.pc.resp.key.id == Decimal.Format(srv.nextKey)
              && Carries(next.srv, srv.nextKey, u.name, r.reusable, r.ephemeral, r.tags))
  {
  }

  lemma SameUser(srv: Server, u: User, v: User)
    requires Sane(srv) && u in srv.users && v in srv.users && u.id == v.id
    ensures u == v
  {
  }

  /** Nothing that happens to the server changes what a key carries, until it is gone or loses its owner. */
  lemma CarriesPersists(srv: Server, srv': Server, k': PreAuthKey, name: string, reusable: bool, ephemeral: bool,
                         tags: seq<string>)
    requires Sane(srv) && Evolves(srv, srv') && k'.id < srv.nextKey && k' in srv'.keys && k'.user.Some?
    requires Carries(srv, k'.id, name, reusable, ephemeral, tags)
    ensures Carries(srv', k'.id, name, reusable, ephemeral, tags)
  {
  }

  lemma EvolvesTransitive(a: Server, b: Server, c: Server)
    requires Evolves(a, b) && Evolves(b, c)
    ensures Evolves(a, c)
  {
  }

  /** A run continued from a state, under any labels. */
  function RunFrom(own: string, s: State, ls: seq<Label>): Option<State> {
    if ls == [] then Some(s)
    else match RunFrom(own, s, ls[..|ls| - 1])
      case None => None
      case Some(s') => if Fires(s', ls[|ls| - 1]) then Some(Apply(own, s', ls[|ls| - 1])) else None
  }

  lemma {:induction false} RunEvolves(own: string, s: State, ls: seq<Label>)
    requires Sane(s.srv) && RunFrom(own, s, ls).Some?
    ensures Sane(RunFrom(own, s, ls).value.srv) && Evolves(s.srv, RunFrom(own, s, ls).value.srv)
  {
    hide Sane;
    hide Evolves;
    hide Apply;
    if ls == [] {
      SameEvolves(s.srv);
    } else {
      var m := RunFrom(own, s, ls[..|ls| - 1]).value;
      RunEvolves(own, s, ls[..|ls| - 1]);
      ApplyServer(own, m, ls[|ls| - 1]);
      EvolvesTransitive(s.srv, m.srv, Apply(own, m, ls[|ls| - 1]).srv);
    }
  }

  /** A key created in a tailnet, however long ago and whatever ran since, is visible in every tailnet that resolves
      to a user of the same name, by the id the create answered and with the capabilities the body asked for, as long
      as it has not been removed or lost its owner. */
  lemma CreatedStaysVisible(own: string, s: State, l: Label, ls: seq<Label>, k': PreAuthKey, tailnet: string, u': User)
    requires Reachable(own, s) && Fires(s, l) && l.Step? && l.f.Fine? && s.threads[l.t].pc.ToCreate?
    requires var s1 := Apply(own, s, l); s1.threads[l.t].pc.resp.Shown? && RunFrom(own, s1, ls).Some?
    requires var srv' := RunFrom(own, Apply(own, s, l), ls).value.srv;
             && k'.id == s.srv.nextKey && k' in srv'.keys && k'.user.Some?
             && Resolve(own, tailnet, srv'.users) == Success(u') && u'.name == s.threads[l.t].pc.user.name
    ensures Apply(own, s, l).threads[l.t].pc.resp.key.id == Decimal.Format(k'.id)
    ensures s.threads[l.t].req.op.Create? && s.threads[l.t].req.op.body.Some?
    ensures var body := s.threads[l.t].req.op.body.value;
            Visible(own, RunFrom(own, Apply(own, s, l), ls).value.srv, tailnet, k'.id, body.reusable, body.ephemeral,
                    body.tags)
  {
    hide Reachable;
    hide Sane;
    hide Evolves;
    hide RunFrom;
    hide Visible;
    hide Resolve;
    hide Carries;
    hide Decimal.Format;
    CreatedCarries(own, s, l);
    var s1, body := Apply(own, s, l), s.threads[l.t].req.op.body.value;
    RunEvolves(own, s1, ls);
    hide Apply;
    var srv' := RunFrom(own, s1, ls).value.srv;
    CarriesPersists(s1.srv, srv', k', u'.name, body.reusable, body.ephemeral, body.tags);
    CarriedIsVisible(own, srv', tailnet, u', k'.id, body.reusable, body.ephemeral, body.tags);
  }

  lemma CreatedCarries(own: string, s: State, l: Label)
    requires Reachable(own, s) && Fires(s, l) && l.Step? && l.f.Fine? && s.threads[l.t].pc.ToCreate?
    requires Apply(own, s, l).threads[l.t].pc.resp.Shown?
    ensures s.threads[l.t].req.op.Create? && s.threads[l.t].req.op.body.Some?
    ensures var s1, body := Apply(own, s, l), s.threads[l.t].req.op.body.value;
            && s.srv.nextKey < TWO_64 && s1.srv.nextKey == s.srv.nextKey + 1 && Sane(s1.srv)
            && s1.threads[l.t].pc.resp.key.id == Decimal.Format(s.srv.nextKey)
            && Carries(s1.srv, s.srv.nextKey, s.threads[l.t].pc.user.name, body.reusable, body.ephemeral, body.tags)
  {
    ReachableInv(own, s);
    hide Reachable;
    assert ThreadOk(own, s, l.t);
    OwnerAtCreate(own, s, l);
    ApplyServer(own, s, l);
    CreatedIsCarried(own, s.srv, s.threads[l.t].req, s.threads[l.t].pc.user, s.threads[l.t].pc.req, l.secret);
    hide Inv;
    hide Sane;
    hide Evolves;
    hide Carries;
    hide Decimal.Format;
  }

  /** A creation that went through found its user still there. */
  lemma OwnerAtCreate(own: string, s: State, l: Label)
    requires Inv(own, s) && Fires(s, l) && l.Step? && l.f.Fine? && s.threads[l.t].pc.ToCreate?
    requires Apply(own, s, l).threads[l.t].pc.resp.Shown?
    ensures s.threads[l.t].pc.user in s.srv.users && s.threads[l.t].pc.req.user == s.threads[l.t].pc.user.id
  {
  }

  /** After a delete has gone through, a get of that id is not answered with a key, in no tailnet and at no time after:
      where the tailnet resolves the answer is 404, and else the error of resolving it. */
  lemma DeletedIsNotFound(own: string, s: State, i: nat, tailnet: string, secret: string)
    requires Reachable(own, s) && i < |s.calls| && s.calls[i].err.None? && s.calls[i].call.KeyDeleted?
    ensures var who := Resolve(own, tailnet, s.srv.users);
            Serve(own, s.srv, Get(Decimal.Format(s.calls[i].call.id)), tailnet, secret)
            == (s.srv, Error(if who.Failure? then who.error else 404))
  {
    ExpireIsFinal(own, s, i);
    var who, id := Resolve(own, tailnet, s.srv.users), s.calls[i].call.id;
    hide Reachable;
    hide StatusOf;
    hide Resolve;
    hide Serve;
    hide Decimal.Format;
    ServeFront(own, s.srv, Get(Decimal.Format(id)), tailnet, secret);
    if who.Success? {
      GoneIsNotFound(s.srv, FilterKeys(s.srv.keys, who.value.name), id);
    }
  }

  lemma GoneIsNotFound(srv: Server, shown: seq<PreAuthKey>, id: UInt64)
    requires StatusOf(srv, id) == Gone && forall k :: k in shown ==> k in srv.keys
    ensures FindKeyByID(shown, Decimal.Format(id)).None?
  {
  }
}
