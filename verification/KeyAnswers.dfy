/** What each auth-key request is answered, over all interleavings: its response follows from its own calls alone. */
module KeyAnswers {
  import opened Machine
  import opened Wrappers
  import opened Upstream
  import opened Translate
  import opened KeyRequests
  import opened KeyRuns
  import Decimal

  /** The calls of one request, in order. */
  function CallsOf(calls: seq<Entry>, t: nat): seq<Entry> {
    if calls == [] then []
    else
      var last := calls[|calls| - 1];
      CallsOf(calls[..|calls| - 1], t) + if last.t == t then [last] else []
  }

  lemma CallsOfSnoc(calls: seq<Entry>, e: Entry, t: nat)
    ensures CallsOf(calls + [e], t) == CallsOf(calls, t) + if e.t == t then [e] else []
  {
    assert (calls + [e])[..|calls|] == calls;
  }

  // ---------------------------------------------------------------- what a response has to be

  /** A failed call is reported under its own status. */
  predicate Reports(resp: Response, code: Code) {
    resp.Error? && SeenAs(code, resp.status)
  }

  /** The first call listed the users, and among these the request acts for u. */
  predicate ForUser(own: string, path: string, es: seq<Entry>, u: User) {
    |es| >= 1 && es[0].err.None? && es[0].call.UsersListed? && ActsFor(own, path, u, es[0].call.users)
  }

  /** The answer of a request that went no further than the users. */
  ghost predicate StoppedAtUsers(own: string, req: Request, e: Entry, resp: Response) {
    && e.call.UsersListed? && resp.Error?
    && match e.err
       case Some(code) => Reports(resp, code)
       case None =>
         if exists u :: u in e.call.users && ActsFor(own, req.tailnet, u, e.call.users) then
           req.op == Op.Create(None) && resp.status == 400
         else NobodyFor(own, req.tailnet, e.call.users, resp.status)
  }

  /** The answer that a listing of the keys allows, where it allows one. */
  ghost predicate AnswersListing(op: Op, keys: seq<PreAuthKey>, resp: Response) {
    match op
    case List => resp.Listed? && Mirrors(keys, resp.keys)
    case Get(id) =>
      if exists k :: k in keys && Decimal.Format(k.id) == id then
        resp.Shown? && exists k :: FirstShown(keys, id, k) && Renders(k, resp.key)
      else resp == Error(404)
    case Delete(id) => resp == Error(404) && forall k :: k in keys ==> Decimal.Format(k.id) != id
    case Create(_) => false
  }

  /** The second call listed the keys under u's name. */
  predicate ListedKeys(es: seq<Entry>, u: User) {
    |es| >= 2 && es[1].call.KeysListed? && es[1].call.name == u.name
  }

  /** It showed the delete request the key to delete. */
  ghost predicate Picked(op: Op, es: seq<Entry>, u: User, id: UInt64) {
    && ListedKeys(es, u) && es[1].err.None? && op.Delete?
    && exists k :: FirstShown(es[1].call.keys, op.keyId, k) && k.id == id
  }

  /** The created key as shown: what the call asked for, unused. */
  predicate Granted(r: CreateRequest, key: Key) {
    && key.reusable == r.reusable && key.ephemeral == r.ephemeral && key.tags == r.tags
    && key.expires == Some(r.expiration) && !key.invalid && !key.preauthorized
  }

  ghost predicate AnswersCreate(es: seq<Entry>, u: User, resp: Response) {
    && |es| == 2 && es[1].call.KeyCreated? && es[1].call.req.user == u.id
    && match es[1].err
       case Some(code) => Reports(resp, code)
       case None => resp.Shown? && Granted(es[1].call.req, resp.key)
  }

  /** Expire, then delete, up to the first that fails. */
  ghost predicate AnswersDelete(es: seq<Entry>, id: UInt64, resp: Response) {
    && |es| >= 3 && es[2].call == KeyExpired(id)
    && match es[2].err
       case Some(code) => |es| == 3 && Reports(resp, code)
       case None =>
         && |es| == 4 && es[3].call == KeyDeleted(id)
         && match es[3].err
            case Some(code) => Reports(resp, code)
            case None => resp == Deleted
  }

  /** From its own calls, all of them, the response of a finished request. */
  ghost predicate Answered(own: string, req: Request, es: seq<Entry>, resp: Response) {
    if |es| == 1 then StoppedAtUsers(own, req, es[0], resp)
    else
      exists u :: (&& ForUser(own, req.tailnet, es, u)
                   && if req.op.Create? then AnswersCreate(es, u, resp)
                      else if |es| == 2 then
                        && ListedKeys(es, u)
                        && match es[1].err
                           case Some(code) => Reports(resp, code)
                           case None => AnswersListing(req.op, es[1].call.keys, resp)
                      else exists id :: Picked(req.op, es, u, id) && AnswersDelete(es, id, resp))
  }

  // ---------------------------------------------------------------- invariant

  /** What calls a request has made when it stands at a point. */
  ghost predicate At(own: string, req: Request, pc: Pc, es: seq<Entry>) {
    match pc
    case Start => es == []
    case Resolved(u) => |es| == 1 && ForUser(own, req.tailnet, es, u)
    case ToCreate(u, r) => |es| == 1 && ForUser(own, req.tailnet, es, u) && req.op.Create? && r.user == u.id
    case ToExpire(u, id) => |es| == 2 && ForUser(own, req.tailnet, es, u) && Picked(req.op, es, u, id)
    case ToDelete(u, id) =>
      && |es| == 3 && ForUser(own, req.tailnet, es, u) && Picked(req.op, es, u, id)
      && es[2].call == KeyExpired(id) && es[2].err.None?
    case Done(resp) => Answered(own, req, es, resp)
  }

  ghost predicate ThreadAt(own: string, s: State, t: nat) {
    if t in s.threads then At(own, s.threads[t].req, s.threads[t].pc, CallsOf(s.calls, t))
    else CallsOf(s.calls, t) == []
  }

  ghost predicate AllAt(own: string, s: State) {
    forall t: nat :: ThreadAt(own, s, t)
  }

  function Appended(es: seq<Entry>, t: nat, out: Outcome): seq<Entry> {
    match out case NoCall => es case Called(call, err) => es + [Entry(t, call, err)]
  }

  lemma AtFromStart(own: string, srv: Server, req: Request, es: seq<Entry>, t: nat, f: Fault, secret: string)
    requires At(own, req, Start, es)
    ensures var next := Advance(own, srv, req, Start, f, secret); At(own, req, next.pc, Appended(es, t, next.out))
  {
    var next := Advance(own, srv, req, Start, f, secret);
    var who := Resolve(own, req.tailnet, srv.users);
    var es' := Appended(es, t, next.out);
    assert |es'| == 1;
    if f.Fine? {
      match who
      case Success(u) => ResolveExact(own, req.tailnet, srv.users, u);
      case Failure(status) => ResolveRefusal(own, req.tailnet, srv.users, status);
    }
  }

  lemma AtFromResolved(own: string, srv: Server, req: Request, u: User, es: seq<Entry>, t: nat, f: Fault,
                       secret: string)
    requires At(own, req, Resolved(u), es)
    ensures var next := Advance(own, srv, req, Resolved(u), f, secret);
            At(own, req, next.pc, Appended(es, t, next.out))
  {
    hide Decimal.Format;
    hide FindKeyByID;
    hide FilterKeys;
    hide FirstShown;
    var next := Advance(own, srv, req, Resolved(u), f, secret);
    var es' := Appended(es, t, next.out);
    if !req.op.Create? {
      assert ForUser(own, req.tailnet, es', u) && ListedKeys(es', u);
      if f.Fine? {
        var keys := FilterKeys(srv.keys, u.name);
        if !req.op.List? {
          var found := FindKeyByID(keys, req.op.keyId);
          if found.Some? {
            FindKeyByIDFirst(keys, req.op.keyId, found.value);
          }
        }
      }
    } else if req.op.body.None? {
      assert u in es[0].call.users;
    }
  }

  lemma AtFromCreate(own: string, srv: Server, req: Request, u: User, r: CreateRequest, es: seq<Entry>, t: nat,
                     f: Fault, secret: string)
    requires At(own, req, ToCreate(u, r), es)
    ensures var next := Advance(own, srv, req, ToCreate(u, r), f, secret);
            At(own, req, next.pc, Appended(es, t, next.out))
  {
    var es' := Appended(es, t, Advance(own, srv, req, ToCreate(u, r), f, secret).out);
    assert ForUser(own, req.tailnet, es', u);
  }

  lemma AtFromExpire(own: string, srv: Server, req: Request, u: User, id: UInt64, es: seq<Entry>, t: nat, f: Fault,
                     secret: string)
    requires At(own, req, ToExpire(u, id), es)
    ensures var next := Advance(own, srv, req, ToExpire(u, id), f, secret);
            At(own, req, next.pc, Appended(es, t, next.out))
  {
    hide Upstream.Expire;
    hide FirstShown;
    var es' := Appended(es, t, Advance(own, srv, req, ToExpire(u, id), f, secret).out);
    assert ForUser(own, req.tailnet, es', u) && Picked(req.op, es', u, id);
  }

  lemma AtFromDelete(own: string, srv: Server, req: Request, u: User, id: UInt64, es: seq<Entry>, t: nat, f: Fault,
                     secret: string)
    requires At(own, req, ToDelete(u, id), es)
    ensures var next := Advance(own, srv, req, ToDelete(u, id), f, secret);
            At(own, req, next.pc, Appended(es, t, next.out))
  {
    hide Upstream.Delete;
    hide FirstShown;
    var es' := Appended(es, t, Advance(own, srv, req, ToDelete(u, id), f, secret).out);
    assert ForUser(own, req.tailnet, es', u) && Picked(req.op, es', u, id);
  }

  lemma AtStep(own: string, srv: Server, req: Request, pc: Pc, es: seq<Entry>, t: nat, f: Fault, secret: string)
    requires At(own, req, pc, es) && !pc.Done?
    ensures var next := Advance(own, srv, req, pc, f, secret); At(own, req, next.pc, Appended(es, t, next.out))
  {
    hide *;
    match pc
    case Start => AtFromStart(own, srv, req, es, t, f, secret);
    case Resolved(u) => AtFromResolved(own, srv, req, u, es, t, f, secret);
    case ToCreate(u, r) => AtFromCreate(own, srv, req, u, r, es, t, f, secret);
    case ToExpire(u, id) => AtFromExpire(own, srv, req, u, id, es, t, f, secret);
    case ToDelete(u, id) => AtFromDelete(own, srv, req, u, id, es, t, f, secret);
  }

  lemma ThreadAtStep(own: string, s: State, l: Label, t: nat)
    requires ThreadAt(own, s, t) && Fires(s, l)
    ensures ThreadAt(own, Apply(own, s, l), t)
  {
    hide At;
    hide Advance;
    hide CallsOf;
    match l
    case Arrive(_, req) => AtArrival(own, req);
    case ByAdmin(_) =>
    case Step(_, f, secret) =>
      var th, next := s.threads[l.t], StepOf(own, s, l);
      if next.out.Called? {
        CallsOfSnoc(s.calls, Entry(l.t, next.out.call, next.out.err), t);
      }
      assert CallsOf(Apply(own, s, l).calls, t)
             == if t == l.t then Appended(CallsOf(s.calls, t), t, next.out) else CallsOf(s.calls, t);
      if t == l.t {
        AtStep(own, s.srv, th.req, th.pc, CallsOf(s.calls, t), t, f, secret);
      }
  }

  lemma AllAtStep(own: string, s: State, l: Label)
    requires AllAt(own, s) && Fires(s, l)
    ensures AllAt(own, Apply(own, s, l))
  {
    hide ThreadAt;
    hide Apply;
    forall t: nat ensures ThreadAt(own, Apply(own, s, l), t) {
      ThreadAtStep(own, s, l, t);
    }
  }

  lemma AtArrival(own: string, req: Request)
    ensures At(own, req, Start, [])
  {
  }

  lemma {:induction false} RunAt(own: string, ls: seq<Label>)
    requires Run(own, ls).Some?
    ensures AllAt(own, Run(own, ls).value)
  {
    hide AllAt;
    hide Apply;
    hide Fires;
    if ls == [] {
      AllAtFirst(own);
    } else {
      RunAt(own, ls[..|ls| - 1]);
      AllAtStep(own, Run(own, ls[..|ls| - 1]).value, ls[|ls| - 1]);
    }
  }

  lemma AllAtFirst(own: string)
    ensures AllAt(own, INITIAL)
  {
  }

  // ---------------------------------------------------------------- theorems

  /** Every finished request, under every interleaving and every fault, has the one answer that its own calls allow: the
      status of the first call that failed; or, every call having gone through, what the last one showed or did. */
  lemma AnswerFollows(own: string, s: State, t: nat)
    requires Reachable(own, s) && t in s.threads && s.threads[t].pc.Done?
    ensures Answered(own, s.threads[t].req, CallsOf(s.calls, t), s.threads[t].pc.resp)
  {
    ReachableAt(own, s, t);
  }

  lemma ReachableAt(own: string, s: State, t: nat)
    requires Reachable(own, s)
    ensures ThreadAt(own, s, t)
  {
    var ls :| Run(own, ls) == Some(s);
    hide Run;
    hide ThreadAt;
    RunAt(own, ls);
  }

  lemma CallsOfHas(calls: seq<Entry>, i: nat)
    requires i < |calls|
    ensures calls[i] in CallsOf(calls, calls[i].t)
  {
    if i < |calls| - 1 {
      CallsOfHas(calls[..|calls| - 1], i);
    }
  }

  /** Once a request's listing of the keys has gone through, a list shows just what it listed, key by key, were it
      nothing; a get shows the first of these under the id in its path, and 404 if there is none; and so does a delete
      that finds none. */
  lemma ListingIsAnswered(own: string, s: State, i: nat)
    requires Reachable(own, s) && i < |s.calls| && s.calls[i].err.None? && s.calls[i].call.KeysListed?
    ensures s.calls[i].t in s.threads
    ensures var th, keys := s.threads[s.calls[i].t], s.calls[i].call.keys;
            (!th.req.op.Delete? || forall k :: k in keys ==> Decimal.Format(k.id) != th.req.op.keyId) ==>
              th.pc.Done? && AnswersListing(th.req.op, keys, th.pc.resp)
  {
    var t := s.calls[i].t;
    ReachableAt(own, s, t);
    CallsOfHas(s.calls, i);
    hide Reachable;
    hide CallsOf;
    hide At;
    var req, keys := s.threads[t].req, s.calls[i].call.keys;
    if !req.op.Delete? || forall k :: k in keys ==> Decimal.Format(k.id) != req.op.keyId {
      ListingAt(own, req, s.threads[t].pc, CallsOf(s.calls, t), s.calls[i]);
    }
  }

  lemma ListingAt(own: string, req: Request, pc: Pc, es: seq<Entry>, e: Entry)
    requires At(own, req, pc, es) && e in es && e.err.None? && e.call.KeysListed?
    requires !req.op.Delete? || forall k :: k in e.call.keys ==> Decimal.Format(k.id) != req.op.keyId
    ensures pc.Done? && AnswersListing(req.op, e.call.keys, pc.resp)
  {
    hide Decimal.Format;
    hide AnswersListing;
    hide ActsFor;
    hide NobodyFor;
    hide Reports;
    hide Granted;
  }

  /** A call that went through showed what the server had then: all users, or the keys of the name asked for, every
      one and in order; a listing changes nothing, nor does a call that was lost, and an error that a call met is the
      one that is logged. */
  lemma CallsTell(own: string, s: State, l: Label) returns (from: seq<nat>)
    requires Fires(s, l) && l.Step?
    ensures var s' := Apply(own, s, l);
            s'.calls != s.calls ==>
              && |s'.calls| == |s.calls| + 1 && s'.calls[..|s.calls|] == s.calls
              && (var e := s'.calls[|s.calls|];
                  && e.t == l.t
                  && (!l.f.Fine? ==> e.err == Some(l.f.code))
                  && (e.call.UsersListed? || e.call.KeysListed? ==> s'.srv == s.srv && (l.f.Fine? ==> e.err.None?))
                  && (l.f.Lost? ==> s'.srv == s.srv)
                  && (e.err.None? ==>
                        && (e.call.UsersListed? ==> e.call.users == s.srv.users)
                        && (e.call.KeysListed? ==> Takes(s.srv.keys, e.call.name, e.call.keys, from))))
  {
    hide Upstream.Create;
    hide Upstream.Expire;
    hide Upstream.Delete;
    hide FilterKeys;
    hide Takes;
    if s.threads[l.t].pc.Resolved? {
      from := FilterInOrder(s.srv.keys, s.threads[l.t].pc.user.name);
    } else {
      from := [];
    }
  }
}
