/** The service as a system of concurrent requests over two reader/writer mutexes.

    A request is a thread with a program counter. Lock operations are steps of their own, the purge loop deletes
    one entry per step, and getKey tests the age of the cache and reads the key map in separate steps, so that
    nothing is atomic that the locks do not make so. Any number of purgers and of each kind of request may run. */
module Service {
  import opened Machine
  import opened Wrappers
  import opened Jwk
  import opened Requests
  import Bearer
  import Jwt
  import T = TokenRuns

  const JWKS_TTL: int := HOUR

  type Tid = nat

  datatype LockId = TokenLock | KeyLock

  /** sync.RWMutex: Lock first announces itself, which stops new readers, and then waits for the readers there are. */
  datatype RWMutex = RWMutex(readers: nat, pending: Option<Tid>, writer: Option<Tid>)

  const UNLOCKED := RWMutex(0, None, None)

  datatype Snapshot = Snapshot(keys: KeySet, fetchedAt: int)

  /** A token exchange under way: its request, and the token it wants validated. */
  datatype Exchange = Exchange(request: Request, jwt: Jwt.Opened)

  datatype Pc =
    // BearerAuthMiddleware, with lookup inlined
    | MwStart(presented: Bearer.Credentials)
    | MwLock(tok: string)
    | MwRead(tok: string)
    | MwUnlock(tok: string, entry: Option<int>)
    | MwDecide(tok: string, entry: Option<int>)
    | MwDone(tok: string, ok: bool)
    // OAuthTokenHandler and TokenExchangeHandler up to the grant
    | OAuthStart(request: Request)
    | ExchangeStart(request: Request)
    // getKey
    | KeyLock1(ex: Exchange)
    | KeyCheck(ex: Exchange)
    | KeyLookup(ex: Exchange)
    | KeyHit(ex: Exchange, key: PublicKey)
    | KeyMiss(ex: Exchange)
    // refreshJWKS
    | Fetch(ex: Exchange)
    | InstallLock(ex: Exchange, keys: KeySet)
    | InstallPending(ex: Exchange, keys: KeySet)
    | Install(ex: Exchange, keys: KeySet)
    | InstallUnlock(ex: Exchange)
    // getKey again
    | KeyLock2(ex: Exchange)
    | KeyReread(ex: Exchange)
    | KeyUnlock2(ex: Exchange, found: Option<PublicKey>)
    // the rest of Validate
    | Close(ex: Exchange, found: Option<PublicKey>)
    // generateToken, the clock reading, store
    | MintByCredentials(request: Request)
    | MintByJwt(request: Request, key: PublicKey, at: int)
    | Stamp(grant: Grant, tok: string)
    | PutLock(grant: Grant, tok: string, stamp: int)
    | PutPending(grant: Grant, tok: string, stamp: int)
    | Put(grant: Grant, tok: string, stamp: int)
    | PutUnlock(tok: string)
    | Issued(tok: string)
    | Refused(status: nat)
    // purge
    | PurgeIdle
    | PurgeLock(now: int)
    | PurgePending(now: int)
    | PurgeLoop(now: int, todo: set<string>)
    // a nil dereference
    | Panicked

  /** What the environment contributes to a step: a nonce (None when the random source fails), the document a
      fetch yields (None when it fails), the entry the purge loop visits next. */
  datatype Choice = Choice(nonce: Option<seq<Byte>>, doc: Option<Document>, entry: string)

  datatype State = State(
    clock: int,
    tokens: T.Store,
    jwks: Option<Snapshot>,
    locks: map<LockId, RWMutex>,
    threads: map<Tid, Pc>,
    // history, which steers no step: every document the issuer has served, every snapshot installed, the token events
    served: set<Document>,
    installs: seq<Snapshot>,
    log: seq<T.Event>)

  const INITIAL := State(0, map[], None, map[TokenLock := UNLOCKED, KeyLock := UNLOCKED], map[], {}, [], [])

  // ---------------------------------------------------------------- one thread's step

  datatype LockOp =
    | Nothing
    | RLock(l: LockId)
    | RUnlock(l: LockId)
    | Announce(l: LockId)
    | Acquire(l: LockId)
    | Unlock(l: LockId)

  /** The lock operation performed by the step that leaves this point. */
  function OpOf(pc: Pc): LockOp {
    match pc
    case MwLock(_) => RLock(TokenLock)
    case MwUnlock(_, _) => RUnlock(TokenLock)
    case KeyLock1(_) => RLock(KeyLock)
    case KeyHit(_, _) => RUnlock(KeyLock)
    case KeyMiss(_) => RUnlock(KeyLock)
    case InstallLock(_, _) => Announce(KeyLock)
    case InstallPending(_, _) => Acquire(KeyLock)
    case InstallUnlock(_) => Unlock(KeyLock)
    case KeyLock2(_) => RLock(KeyLock)
    case KeyUnlock2(_, _) => RUnlock(KeyLock)
    case PutLock(_, _, _) => Announce(TokenLock)
    case PutPending(_, _, _) => Acquire(TokenLock)
    case PutUnlock(_) => Unlock(TokenLock)
    case PurgeLock(_) => Announce(TokenLock)
    case PurgePending(_) => Acquire(TokenLock)
    case PurgeLoop(_, todo) => if todo == {} then Unlock(TokenLock) else Nothing
    case _ => Nothing
  }

  predicate LockReady(m: RWMutex, op: LockOp, t: Tid) {
    match op
    case RLock(_) => m.pending.None? && m.writer.None?
    case RUnlock(_) => m.readers > 0
    case Announce(_) => m.pending.None? && m.writer.None?
    case Acquire(_) => m.pending == Some(t) && m.readers == 0
    case Unlock(_) => m.writer == Some(t)
    case Nothing => true
  }

  function LockAfter(m: RWMutex, op: LockOp, t: Tid): RWMutex
    requires LockReady(m, op, t)
  {
    match op
    case RLock(_) => m.(readers := m.readers + 1)
    case RUnlock(_) => m.(readers := m.readers - 1)
    case Announce(_) => m.(pending := Some(t))
    case Acquire(_) => m.(pending := None, writer := Some(t))
    case Unlock(_) => m.(writer := None)
    case Nothing => m
  }

  /** Where the thread goes next. */
  function Next(c: Config, s: State, pc: Pc, ch: Choice): Pc {
    match pc
    case MwStart(p) =>
      var tok := Bearer.Presented(p);
      if tok == "" then MwDone(tok, false)
      else if tok == c.apiKey then MwDone(tok, true)
      else MwLock(tok)
    case MwLock(tok) => MwRead(tok)
    case MwRead(tok) => MwUnlock(tok, if tok in s.tokens then Some(s.tokens[tok]) else None)
    case MwUnlock(tok, entry) => MwDecide(tok, entry)
    case MwDecide(tok, entry) => MwDone(tok, T.Verdict(s.clock, entry))
    case OAuthStart(r) =>
      (match RefuseOAuth(c, r)
       case Some(status) => Refused(status)
       case None => MintByCredentials(r))
    case ExchangeStart(r) =>
      (match RefuseExchange(c, r)
       case Some(status) => Refused(status)
       case None =>
         match Jwt.Open(c.wif.value.lib, r.FormValue("jwt"))
         case Failure(_) => Refused(401)
         case Success(o) => KeyLock1(Exchange(r, o)))
    case KeyLock1(ex) => KeyCheck(ex)
    case KeyCheck(ex) =>
      if s.jwks.Some? && s.clock - s.jwks.value.fetchedAt < JWKS_TTL then KeyLookup(ex)
      else KeyMiss(ex)
    case KeyLookup(ex) =>
      if s.jwks.None? then Panicked
      else (match Find(s.jwks.value.keys, ex.jwt.header.kid)
            case Some(key) => KeyHit(ex, key)
            case None => KeyMiss(ex))
    case KeyHit(ex, key) => Close(ex, Some(key))
    case KeyMiss(ex) => Fetch(ex)
    case Fetch(ex) => (match ch.doc case None => Refused(401) case Some(doc) => InstallLock(ex, Fold(doc)))
    case InstallLock(ex, keys) => InstallPending(ex, keys)
    case InstallPending(ex, keys) => Install(ex, keys)
    case Install(ex, _) => InstallUnlock(ex)
    case InstallUnlock(ex) => KeyLock2(ex)
    case KeyLock2(ex) => KeyReread(ex)
    case KeyReread(ex) =>
      if s.jwks.None? then Panicked
      else KeyUnlock2(ex, Find(s.jwks.value.keys, ex.jwt.header.kid))
    case KeyUnlock2(ex, key) => Close(ex, key)
    case Close(ex, key) =>
      if key.None? then Refused(401)
      else if c.wif.None? then Panicked
      else (match Jwt.Close(c.wif.value.lib, c.wif.value.issuer, ex.jwt, key.value, s.clock)
            case Failure(_) => Refused(401)
            case Success(_) => MintByJwt(ex.request, key.value, s.clock))
    case MintByCredentials(r) =>
      (match ch.nonce
       case None => Refused(500)
       case Some(n) => Stamp(ByCredentials(r, n), Bearer.GenerateToken(c.mac, n)))
    case MintByJwt(r, key, at) =>
      (match ch.nonce
       case None => Refused(500)
       case Some(n) => Stamp(ByJwt(r, key, at, n), Bearer.GenerateToken(c.mac, n)))
    case Stamp(g, tok) => PutLock(g, tok, s.clock)
    case PutLock(g, tok, stamp) => PutPending(g, tok, stamp)
    case PutPending(g, tok, stamp) => Put(g, tok, stamp)
    case Put(_, tok, _) => PutUnlock(tok)
    case PutUnlock(tok) => Issued(tok)
    case PurgeIdle => PurgeLock(s.clock)
    case PurgeLock(now) => PurgePending(now)
    case PurgePending(now) => PurgeLoop(now, s.tokens.Keys)
    case PurgeLoop(now, todo) => if todo == {} then PurgeIdle else PurgeLoop(now, todo - {ch.entry})
    case _ => pc
  }

  /** The stores a step changes, and the event it amounts to. */
  function Effect(s: State, t: Tid, pc: Pc, ch: Choice): State {
    match pc
    case MwRead(tok) => s.(log := s.log + [T.Lookup(t, 0, tok)])
    case MwDecide(_, _) => s.(log := s.log + [T.Decide(t)])
    case Install(_, keys) =>
      var snapshot := Snapshot(keys, s.clock);
      s.(jwks := Some(snapshot), installs := s.installs + [snapshot])
    case Put(g, tok, stamp) =>
      s.(tokens := s.tokens[tok := stamp + T.TTL], log := s.log + [T.Put(t, 0, tok, stamp, g)])
    case PurgePending(now) => s.(log := s.log + [T.Purge(0, now)])
    case PurgeLoop(now, todo) =>
      if ch.entry in todo && ch.entry in s.tokens && T.Expired(now, s.tokens[ch.entry])
      then s.(tokens := s.tokens - {ch.entry})
      else s
    case _ => s
  }

  predicate Finished(pc: Pc) {
    pc.MwDone? || pc.Issued? || pc.Refused? || pc.Panicked?
  }

  /** The lock lets the thread go on, and the choice is one the environment can make. */
  predicate Enabled(s: State, t: Tid, ch: Choice) {
    && t in s.threads && !Finished(s.threads[t])
    && (var op := OpOf(s.threads[t]);
        op != Nothing ==> op.l in s.locks && LockReady(s.locks[op.l], op, t))
    && (s.threads[t].Fetch? && ch.doc.Some? ==> ch.doc.value in s.served)
    && (s.threads[t].PurgeLoop? && s.threads[t].todo != {} ==> ch.entry in s.threads[t].todo)
  }

  function Exec(c: Config, s: State, t: Tid, ch: Choice): State
    requires Enabled(s, t, ch)
  {
    var pc := s.threads[t];
    var op := OpOf(pc);
    Effect(s, t, pc, ch).(
      threads := s.threads[t := Next(c, s, pc, ch)],
      locks := if op == Nothing then s.locks else s.locks[op.l := LockAfter(s.locks[op.l], op, t)])
  }

  /** What can happen: time passes, the issuer publishes a document, a request arrives or a purger starts, a thread
      steps. */
  datatype Label = Tick(d: nat) | Serve(doc: Document) | Spawn(t: Tid, pc: Pc) | Step(t: Tid, ch: Choice)

  predicate Starts(pc: Pc) {
    pc.MwStart? || pc.OAuthStart? || pc.ExchangeStart? || pc.PurgeIdle?
  }

  predicate Fires(s: State, l: Label) {
    match l
    case Spawn(t, pc) => t !in s.threads && Starts(pc)
    case Step(t, ch) => Enabled(s, t, ch)
    case _ => true
  }

  function Apply(c: Config, s: State, l: Label): State
    requires Fires(s, l)
  {
    match l
    case Tick(d) => s.(clock := s.clock + d, log := s.log + [T.Tick(d)])
    case Serve(doc) => s.(served := s.served + {doc})
    case Spawn(t, pc) => s.(threads := s.threads[t := pc])
    case Step(t, ch) => Exec(c, s, t, ch)
  }

  /** The state after a run, or None if some label could not happen when it was due. */
  function Run(c: Config, ls: seq<Label>): Option<State> {
    if ls == [] then Some(INITIAL)
    else match Run(c, ls[..|ls| - 1])
      case None => None
      case Some(s) => if Fires(s, ls[|ls| - 1]) then Some(Apply(c, s, ls[|ls| - 1])) else None
  }

  ghost predicate Reachable(c: Config, s: State) {
    exists ls :: Run(c, ls) == Some(s)
  }
}
