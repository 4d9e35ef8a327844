/** What holds in every reachable state of the service, under every interleaving. */
module ServiceTheorems {
  import opened Machine
  import opened Wrappers
  import opened Jwk
  import opened Requests
  import opened Service
  import opened ServiceLocks
  import opened ServiceCache
  import opened ServiceTokens
  import Bearer
  import Jwt
  import T = TokenRuns

  // ---------------------------------------------------------------- what stands behind a token

  ghost predicate ExchangeOk(c: Config, ex: Exchange) {
    && c.wif.Some? && RefuseExchange(c, ex.request).None?
    && Jwt.Open(c.wif.value.lib, ex.request.FormValue("jwt")) == Success(ex.jwt)
  }

  /** The grant was deserved, and a signing key it relied on is one the issuer served under the token's kid. */
  ghost predicate Backed(c: Config, s: State, g: Grant) {
    && Deserved(c, g)
    && (g.ByJwt? ==>
          match Jwt.Open(c.wif.value.lib, g.request.FormValue("jwt"))
          case Success(o) => FoundServed(s, o.header.kid, Some(g.key))
          case Failure(_) => false)
  }

  ghost predicate Minted(c: Config, s: State, g: Grant, tok: string) {
    Backed(c, s, g) && tok == Bearer.GenerateToken(c.mac, g.nonce)
  }

  ghost predicate GrantPc(c: Config, s: State, pc: Pc) {
    match pc
    case KeyLock1(ex) => ExchangeOk(c, ex)
    case KeyCheck(ex) => ExchangeOk(c, ex)
    case KeyLookup(ex) => ExchangeOk(c, ex)
    case KeyHit(ex, _) => ExchangeOk(c, ex)
    case KeyMiss(ex) => ExchangeOk(c, ex)
    case Fetch(ex) => ExchangeOk(c, ex)
    case InstallLock(ex, _) => ExchangeOk(c, ex)
    case InstallPending(ex, _) => ExchangeOk(c, ex)
    case Install(ex, _) => ExchangeOk(c, ex)
    case InstallUnlock(ex) => ExchangeOk(c, ex)
    case KeyLock2(ex) => ExchangeOk(c, ex)
    case KeyReread(ex) => ExchangeOk(c, ex)
    case KeyUnlock2(ex, _) => ExchangeOk(c, ex)
    case Close(ex, _) => ExchangeOk(c, ex)
    case MintByCredentials(r) => Backed(c, s, ByCredentials(r, []))
    case MintByJwt(r, key, at) => Backed(c, s, ByJwt(r, key, at, []))
    case Stamp(g, tok) => Minted(c, s, g, tok)
    case PutLock(g, tok, _) => Minted(c, s, g, tok)
    case PutPending(g, tok, _) => Minted(c, s, g, tok)
    case Put(g, tok, _) => Minted(c, s, g, tok)
    case Panicked => false
    case _ => true
  }

  ghost predicate GrantInv(c: Config, s: State) {
    && (forall t :: t in s.threads ==> GrantPc(c, s, s.threads[t]))
    && (forall i :: 0 <= i < |s.log| && s.log[i].Put? ==> s.log[i].r == 0 && Minted(c, s, s.log[i].grant, s.log[i].tok))
  }

  lemma BackedStable(c: Config, s: State, s': State, g: Grant)
    requires Backed(c, s, g) && s.served <= s'.served
    ensures Backed(c, s', g)
  {
  }

  lemma GrantPcStable(c: Config, s: State, s': State, pc: Pc)
    requires GrantPc(c, s, pc) && s.served <= s'.served
    ensures GrantPc(c, s', pc)
  {
    hide Backed;
    hide ExchangeOk;
    forall g | Backed(c, s, g) ensures Backed(c, s', g) {
      BackedStable(c, s, s', g);
    }
  }

  lemma AnyNonce(c: Config, s: State, g: Grant, n: seq<Byte>)
    requires Backed(c, s, g)
    ensures Backed(c, s, g.(nonce := n))
  {
  }

  lemma CloseBacked(c: Config, s: State, ex: Exchange, key: PublicKey, at: int)
    requires FoundServed(s, ex.jwt.header.kid, Some(key)) && ExchangeOk(c, ex)
    requires Jwt.Close(c.wif.value.lib, c.wif.value.issuer, ex.jwt, key, at).Success?
    ensures Backed(c, s, ByJwt(ex.request, key, at, []))
  {
    hide Jwt.Close;
    hide Jwt.Open;
    hide FoundServed;
  }

  lemma GrantNext(c: Config, s: State, pc: Pc, ch: Choice)
    requires CacheInv(s) && CachePc(s, pc) && GrantPc(c, s, pc)
    ensures GrantPc(c, s, Next(c, s, pc, ch))
  {
    hide Jwt.Open;
    hide Jwt.Close;
    hide Bearer.GenerateToken;
    hide Bearer.Presented;
    hide RefuseOAuth;
    hide RefuseExchange;
    hide Fold;
    hide Backed;
    hide CacheInv;
    hide CachePc;
    hide Find;
    hide T.Verdict;
    match pc
    case OAuthStart(r) => StartBacked(c, s, r);
    case ExchangeStart(r) => StartExchange(c, r);
    case Close(_, _) => GrantClose(c, s, pc, ch);
    case MintByCredentials(r) => if ch.nonce.Some? { AnyNonce(c, s, ByCredentials(r, []), ch.nonce.value); }
    case MintByJwt(r, key, at) => if ch.nonce.Some? { AnyNonce(c, s, ByJwt(r, key, at, []), ch.nonce.value); }
    case KeyLookup(_) => NoNil(c, s, pc, ch);
    case KeyReread(_) => NoNil(c, s, pc, ch);
    case _ =>
  }

  lemma GrantClose(c: Config, s: State, pc: Pc, ch: Choice)
    requires CachePc(s, pc) && GrantPc(c, s, pc) && pc.Close?
    ensures GrantPc(c, s, Next(c, s, pc, ch))
  {
    hide Jwt.Close;
    hide Jwt.Open;
    hide CacheInv;
    hide Backed;
    if pc.found.Some? && Jwt.Close(c.wif.value.lib, c.wif.value.issuer, pc.ex.jwt, pc.found.value, s.clock).Success? {
      CloseBacked(c, s, pc.ex, pc.found.value, s.clock);
    }
  }

  lemma NoNil(c: Config, s: State, pc: Pc, ch: Choice)
    requires CacheInv(s) && CachePc(s, pc) && (pc.KeyLookup? || pc.KeyReread?)
    ensures s.jwks.Some? && !Next(c, s, pc, ch).Panicked?
  {
  }

  lemma StartExchange(c: Config, r: Request)
    ensures RefuseExchange(c, r).None? ==> c.wif.Some?
  {
  }

  lemma StartBacked(c: Config, s: State, r: Request)
    ensures RefuseOAuth(c, r).None? ==> Backed(c, s, ByCredentials(r, []))
  {
  }

  lemma GrantThreads(c: Config, s: State, l: Label, u: Tid)
    requires CacheInv(s) && GrantInv(c, s) && Fires(s, l) && u in Apply(c, s, l).threads
    ensures GrantPc(c, Apply(c, s, l), Apply(c, s, l).threads[u])
  {
    hide Next;
    hide OpOf;
    hide Effect;
    hide LockReady;
    hide GrantPc;
    hide CachePc;
    var s' := Apply(c, s, l);
    CacheEffect(c, s, l);
    if l.Spawn? && u == l.t {
      GrantStart(c, s', l.pc);
    } else {
      var pc := if l.Step? && u == l.t then Next(c, s, s.threads[u], l.ch) else s.threads[u];
      if l.Step? && u == l.t {
        GrantNext(c, s, s.threads[u], l.ch);
      }
      GrantPcStable(c, s, s', pc);
    }
  }

  lemma GrantStart(c: Config, s: State, pc: Pc)
    requires Starts(pc)
    ensures GrantPc(c, s, pc)
  {
  }

  lemma GrantInvStep(c: Config, s: State, l: Label)
    requires CacheInv(s) && GrantInv(c, s) && Fires(s, l)
    ensures GrantInv(c, Apply(c, s, l))
  {
    var s' := Apply(c, s, l);
    LogStep(c, s, l);
    CacheEffect(c, s, l);
    if l.Step? && s.threads[l.t].Put? {
      assert GrantPc(c, s, s.threads[l.t]);
    }
    hide Apply;
    hide GrantPc;
    hide CacheInv;
    hide Bearer.GenerateToken;
    hide Backed;
    forall u | u in s'.threads ensures GrantPc(c, s', s'.threads[u]) {
      GrantThreads(c, s, l, u);
    }
    forall i | 0 <= i < |s'.log| && s'.log[i].Put?
      ensures s'.log[i].r == 0 && Minted(c, s', s'.log[i].grant, s'.log[i].tok)
    {
      BackedStable(c, s, s', s'.log[i].grant);
    }
  }

  // ---------------------------------------------------------------- the invariant

  ghost predicate Inv(c: Config, s: State) {
    LockInv(s) && CacheInv(s) && TokenInv(c, s) && GrantInv(c, s)
  }

  lemma InitialInv(c: Config)
    ensures Inv(c, INITIAL)
  {
    forall l | l in INITIAL.locks ensures Tallies(INITIAL.threads, l, INITIAL.locks[l]) {
      assert Readers(INITIAL.threads, l) == {};
    }
  }

  lemma InvStep(c: Config, s: State, l: Label)
    requires Inv(c, s) && Fires(s, l)
    ensures Inv(c, Apply(c, s, l))
  {
    hide LockInv;
    hide CacheInv;
    hide TokenInv;
    hide Next;
    if l.Step? {
      assert GrantPc(c, s, s.threads[l.t]);
    }
    GrantInvStep(c, s, l);
    CacheInvStep(c, s, l);
    TokenInvStep(c, s, l);
    NextInThreads(c, s, l);
    LockInvStep(c, s, l);
  }

  lemma NextInThreads(c: Config, s: State, l: Label)
    requires Fires(s, l) && GrantInv(c, Apply(c, s, l))
    ensures l.Step? ==> !Next(c, s, s.threads[l.t], l.ch).Panicked?
  {
    hide Next;
    hide Effect;
    hide OpOf;
    hide LockReady;
    hide GrantPc;
    if l.Step? {
      var s' := Apply(c, s, l);
      assert s'.threads[l.t] == Next(c, s, s.threads[l.t], l.ch);
      PanickedPc(c, s', s'.threads[l.t]);
    }
  }

  lemma {:induction false} RunInv(c: Config, ls: seq<Label>)
    requires Run(c, ls).Some?
    ensures Inv(c, Run(c, ls).value)
  {
    hide Inv;
    if ls == [] {
      InitialInv(c);
    } else {
      RunInv(c, ls[..|ls| - 1]);
      InvStep(c, Run(c, ls[..|ls| - 1]).value, ls[|ls| - 1]);
    }
  }

  lemma ReachableInv(c: Config, s: State)
    requires Reachable(c, s)
    ensures LockInv(s)
    ensures CacheInv(s)
    ensures TokenInv(c, s)
    ensures GrantInv(c, s)
  {
    hide LockInv;
    hide CacheInv;
    hide TokenInv;
    hide GrantInv;
    hide Run;
    var ls :| Run(c, ls) == Some(s);
    RunInv(c, ls);
  }

  // ---------------------------------------------------------------- locks

  /** Each mutex records what the threads hold: it counts the readers and names the writer and the announced writer. */
  lemma LocksTally(c: Config, s: State, l: LockId)
    requires Reachable(c, s)
    ensures l in s.locks && Tallies(s.threads, l, s.locks[l])
  {
    ReachableInv(c, s);
    hide Reachable;
    hide CacheInv;
    hide TokenInv;
    hide GrantInv;
    hide Tallies;
    assert l == TokenLock || l == KeyLock;
  }

  /** A thread at a write-holding point has its mutex to itself. */
  lemma WritersExclude(c: Config, s: State, t: Tid, u: Tid)
    requires Reachable(c, s) && t in s.threads && u in s.threads && t != u
    ensures HoldOf(s.threads[t]).Writes? ==>
              HoldOf(s.threads[u]) == Free || HoldOf(s.threads[u]).l != HoldOf(s.threads[t]).l
  {
    ReachableInv(c, s);
    hide Reachable;
    hide LockInv;
    hide CacheInv;
    hide TokenInv;
    hide GrantInv;
    hide HoldOf;
    if HoldOf(s.threads[t]).Writes? {
      Exclusion(s, t, HoldOf(s.threads[t]).l, u);
    }
  }

  /** No data races: a step that reads a map holds its mutex for reading, with no writer there, and a step that changes
      one holds it for writing, with no reader there. */
  lemma AccessesAreLocked(c: Config, s: State, l: Label)
    requires Reachable(c, s) && Fires(s, l)
    ensures TokenLock in s.locks && KeyLock in s.locks
    ensures l.Step? && s.threads[l.t].MwRead? ==>
              s.locks[TokenLock].readers > 0 && s.locks[TokenLock].writer.None?
    ensures l.Step? && (s.threads[l.t].KeyCheck? || s.threads[l.t].KeyLookup? || s.threads[l.t].KeyReread?) ==>
              s.locks[KeyLock].readers > 0 && s.locks[KeyLock].writer.None?
    ensures (l.Step? && s.threads[l.t].PurgeLoop?) || Apply(c, s, l).tokens != s.tokens ==>
              l.Step? && s.locks[TokenLock].writer == Some(l.t) && s.locks[TokenLock].readers == 0
    ensures Apply(c, s, l).jwks != s.jwks || Apply(c, s, l).installs != s.installs ==>
              l.Step? && s.locks[KeyLock].writer == Some(l.t) && s.locks[KeyLock].readers == 0
  {
    LocksTally(c, s, TokenLock);
    LocksTally(c, s, KeyLock);
    hide Reachable;
    hide Next;
    hide LockReady;
    if l.Step? && HoldOf(s.threads[l.t]).Reads? {
      var k := HoldOf(s.threads[l.t]).l;
      assert l.t in Readers(s.threads, k);
    }
    hide Readers;
    hide T.Expired;
  }

  /** The reread after a refresh, and every other access to the cache, finds it installed. */
  lemma NeverNil(c: Config, s: State, t: Tid)
    requires Reachable(c, s) && t in s.threads
    ensures !s.threads[t].Panicked?
  {
    ReachableInv(c, s);
    hide Reachable;
    hide LockInv;
    hide CacheInv;
    hide TokenInv;
    hide GrantPc;
    PanickedPc(c, s, s.threads[t]);
  }

  lemma PanickedPc(c: Config, s: State, pc: Pc)
    ensures pc.Panicked? ==> !GrantPc(c, s, pc)
  {
  }

  /** No deadlock, for each lock: an unfinished thread can take its next step, or some thread that can take its own
      holds, or has announced itself to, the very lock it waits for. */
  lemma DeadlockFree(c: Config, s: State, t: Tid)
    requires Reachable(c, s) && t in s.threads && !Finished(s.threads[t])
    ensures (exists ch :: Enabled(s, t, ch))
            || (OpOf(s.threads[t]) != Nothing
                && exists t', ch :: Enabled(s, t', ch) && Engaged(s.threads[t'], OpOf(s.threads[t]).l))
  {
    ReachableInv(c, s);
    hide Reachable;
    hide LockInv;
    hide CacheInv;
    hide TokenInv;
    hide GrantInv;
    var t', ch := Progress(s, t);
  }

  // ---------------------------------------------------------------- the key cache

  /** The cache is nil until the first install and then the latest one; every install is one whole served document,
      stamped no earlier than the one before. */
  lemma CacheIsSnapshot(c: Config, s: State)
    requires Reachable(c, s)
    ensures s.jwks == (if s.installs == [] then None else Some(s.installs[|s.installs| - 1]))
    ensures forall i :: 0 <= i < |s.installs| ==> FromServed(s, s.installs[i].keys)
    ensures forall i, j :: 0 <= i <= j < |s.installs| ==> s.installs[i].fetchedAt <= s.installs[j].fetchedAt <= s.clock
  {
    ReachableInv(c, s);
    hide Reachable;
    hide LockInv;
    hide TokenInv;
    hide GrantInv;
    hide FromServed;
  }

  /** Nothing that happens takes the cache away or puts an older stamp on it. */
  lemma CacheNeverForgets(c: Config, s: State, l: Label)
    requires Reachable(c, s) && Fires(s, l)
    ensures var s' := Apply(c, s, l);
            s.installs <= s'.installs
            && (s.jwks.Some? ==> s'.jwks.Some? && s.jwks.value.fetchedAt <= s'.jwks.value.fetchedAt)
  {
    ReachableInv(c, s);
    CacheEffect(c, s, l);
    hide Reachable;
    hide LockInv;
    hide TokenInv;
    hide GrantInv;
    hide Apply;
    hide FromServed;
    hide CachePc;
  }

  /** Cache refinement: when all documents served define the same keys, every answer, found or not, is what an uncached
      fetch and lookup would have said. */
  lemma CacheRefinesFetch(c: Config, s: State, t: Tid, keys: KeySet)
    requires Reachable(c, s) && t in s.threads && s.threads[t].Close?
    requires forall doc :: doc in s.served ==> Fold(doc) == keys
    ensures s.threads[t].found == Find(keys, s.threads[t].ex.jwt.header.kid)
  {
    ReachableInv(c, s);
    hide Reachable;
    hide LockInv;
    hide TokenInv;
    hide GrantInv;
    hide Fold;
    hide CachePc;
    hide FoundServed;
    ClosePc(s, s.threads[t]);
    ServedAlike(s, s.threads[t].ex.jwt.header.kid, s.threads[t].found, keys);
  }

  lemma ClosePc(s: State, pc: Pc)
    requires CachePc(s, pc) && pc.Close?
    ensures FoundServed(s, pc.ex.jwt.header.kid, pc.found)
  {
  }

  lemma ServedAlike(s: State, kid: string, found: Option<PublicKey>, keys: KeySet)
    requires FoundServed(s, kid, found) && forall doc :: doc in s.served ==> Fold(doc) == keys
    ensures found == Find(keys, kid)
  {
  }

  // ---------------------------------------------------------------- authorisation

  /** Some decision of thread t, which there can be only one of, was preceded by a timely issue of the token. */
  ghost predicate Granted(log: seq<T.Event>, t: Tid, tok: string) {
    exists i :: 0 <= i < |log| && log[i] == T.Decide(t) && T.Run(log[..i]).Some? && T.Authorised(log[..i], t, 0, tok)
  }

  /** The protected handler runs for a presented token iff it is not empty and is the API key or, at its decision,
      was last stored with a stamp no more than an hour back. */
  lemma DecidedByHistory(c: Config, s: State, t: Tid)
    requires Reachable(c, s) && t in s.threads && s.threads[t].MwDone?
    ensures var tok := s.threads[t].tok;
            s.threads[t].ok <==> tok != "" && (tok == c.apiKey || Granted(s.log, t, tok))
  {
    ReachableInv(c, s);
    hide Reachable;
    hide LockInv;
    hide CacheInv;
    hide GrantInv;
    assert TokenPc(c, s, t, s.threads[t]);
    var tok, ok := s.threads[t].tok, s.threads[t].ok;
    if tok != "" && tok != c.apiKey {
      var i: nat :| DecidedAt(s.log, t, tok, ok, i) && DecidesOnce(s.log, t, i);
      assert s.log[i] == T.Decide(t);
    }
  }

  /** Whatever was stored was minted for a grant that was deserved, under a key the issuer had served. */
  lemma StoredIsBacked(c: Config, s: State, i: nat)
    requires Reachable(c, s) && i < |s.log| && s.log[i].Put?
    ensures Backed(c, s, s.log[i].grant)
    ensures s.log[i].r == 0 && s.log[i].tok == Bearer.GenerateToken(c.mac, s.log[i].grant.nonce)
  {
    ReachableInv(c, s);
    hide Reachable;
    hide LockInv;
    hide CacheInv;
    hide TokenInv;
    assert Minted(c, s, s.log[i].grant, s.log[i].tok);
  }

  /** Decision i of thread t went by store k of the token, stamped no more than an hour before. */
  ghost predicate GrantedBy(log: seq<T.Event>, t: Tid, tok: string, i: nat, k: nat) {
    && k < i < |log| && log[i] == T.Decide(t) && T.Run(log[..i]).Some? && log[k].Put?
    && (exists j: nat :: T.LookupAt(log[..i], t, 0, tok, j) && T.PutAt(log[..i], 0, tok, k, j))
    && T.Run(log[..i]).value.clock - log[k].stamp <= HOUR
  }

  lemma GrantedByStore(log: seq<T.Event>, t: Tid, tok: string)
    ensures Granted(log, t, tok) <==> exists i: nat, k: nat :: GrantedBy(log, t, tok, i, k)
  {
    if Granted(log, t, tok) {
      var i: nat :| i < |log| && log[i] == T.Decide(t) && T.Run(log[..i]).Some? && T.Authorised(log[..i], t, 0, tok);
      var j: nat, k: nat :| T.LookupAt(log[..i], t, 0, tok, j) && T.PutAt(log[..i], 0, tok, k, j)
                            && T.Run(log[..i]).value.clock - log[..i][k].stamp <= HOUR;
      assert GrantedBy(log, t, tok, i, k);
    }
    forall i: nat, k: nat | GrantedBy(log, t, tok, i, k) ensures Granted(log, t, tok) {
      assert log[..i][k] == log[k];
    }
  }

  /** Purge transparency: every verdict the middleware gave about a stored token is also the verdict of the run in which
      nothing is ever purged. */
  lemma PurgesDoNotMatter(c: Config, s: State, t: Tid)
    requires Reachable(c, s)
    ensures T.Run(s.log).Some? && T.Run(T.Erase(s.log)).Some?
    ensures T.Run(T.Erase(s.log)).value.verdicts == T.Run(s.log).value.verdicts
    ensures t in s.threads && s.threads[t].MwDone? && s.threads[t].tok !in {"", c.apiKey}
            ==> (t, s.threads[t].ok) in T.Run(T.Erase(s.log)).value.verdicts
  {
    ReachableInv(c, s);
    hide Reachable;
    hide LockInv;
    hide CacheInv;
    hide GrantInv;
    T.PurgeTransparency(s.log);
    assert t in s.threads ==> TokenPc(c, s, t, s.threads[t]);
  }

  // ---------------------------------------------------------------- the size of the store

  /** The service logs every event of its store as that of replica 0. */
  ghost predicate AtHome(log: seq<T.Event>) {
    forall i :: 0 <= i < |log| && (log[i].Put? || log[i].Purge? || log[i].Lookup?) ==> log[i].r == 0
  }

  lemma {:induction false} RunAtHome(c: Config, ls: seq<Label>)
    requires Run(c, ls).Some?
    ensures AtHome(Run(c, ls).value.log)
  {
    hide Apply;
    hide Fires;
    if ls != [] {
      var s, l := Run(c, ls[..|ls| - 1]).value, ls[|ls| - 1];
      RunAtHome(c, ls[..|ls| - 1]);
      LogStep(c, s, l);
      EventAtHome(s, l);
    }
  }

  lemma EventAtHome(s: State, l: Label)
    requires Fires(s, l)
    ensures match EventOf(s, l)
            case None => true
            case Some(e) => e.Put? || e.Purge? || e.Lookup? ==> e.r == 0
  {
  }

  /** The size of the store, in every reachable state of the service. No matter how stamps and stores are torn apart,
      after any purge the store holds, once a purge under way is through, no more than the tokens stored before that
      purge with a stamp within the hour before its reading, and those stored since; and never more than were stored
      at all. While nobody writes, that is the map itself. */
  lemma StoreIsBounded(c: Config, s: State, p: nat)
    requires Reachable(c, s)
    ensures TokenLock in s.locks && (s.locks[TokenLock].writer.None? ==> Settled(s) == s.tokens)
    ensures |Settled(s)| <= T.Stored(s.log, 0, |s.log|, 0, None)
    ensures p < |s.log| && s.log[p].Purge? ==>
              |Settled(s)| <= T.Stored(s.log, 0, p, 0, Some(s.log[p].now - HOUR))
                              + T.Stored(s.log, p + 1, |s.log|, 0, None)
  {
    hide *;
    StoreIsLogged(c, s);
    LogBounds(s.log, p);
  }

  lemma LogBounds(log: seq<T.Event>, p: nat)
    requires T.Run(log).Some?
    ensures |T.StoreOf(T.Run(log).value, 0)| <= T.Stored(log, 0, |log|, 0, None)
    ensures p < |log| && log[p].Purge? && log[p].r == 0 ==>
              |T.StoreOf(T.Run(log).value, 0)| <= T.Stored(log, 0, p, 0, Some(log[p].now - HOUR))
                                                  + T.Stored(log, p + 1, |log|, 0, None)
  {
    hide *;
    assert log[..|log|] == log;
    T.TotalBound(log, |log|, 0);
    if p < |log| && log[p].Purge? {
      T.SizeBound(log, p, |log|);
    }
  }

  lemma StoreIsLogged(c: Config, s: State)
    requires Reachable(c, s)
    ensures TokenLock in s.locks && (s.locks[TokenLock].writer.None? ==> Settled(s) == s.tokens)
    ensures T.Run(s.log).Some? && T.StoreOf(T.Run(s.log).value, 0) == Settled(s)
    ensures forall i :: 0 <= i < |s.log| && s.log[i].Purge? ==> s.log[i].r == 0
  {
    ReachableInv(c, s);
    var ls :| Run(c, ls) == Some(s);
    RunAtHome(c, ls);
    hide Run;
    hide Reachable;
    hide LockInv;
    hide CacheInv;
    hide GrantInv;
    hide T.Run;
  }
}
