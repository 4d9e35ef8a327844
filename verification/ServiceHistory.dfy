/** What a run of the service tells about each thread: where it was when, and at which clock readings. */
module ServiceHistory {
  import opened Machine
  import opened Wrappers
  import opened Jwk
  import opened Requests
  import opened Service
  import opened ServiceLocks
  import opened ServiceCache
  import opened ServiceTokens
  import opened ServiceTheorems
  import Bearer
  import Jwt
  import T = TokenRuns

  /** The state before label n. */
  function At(c: Config, ls: seq<Label>, n: nat): State
    requires n <= |ls|
  {
    match Run(c, ls[..n]) case None => INITIAL case Some(s) => s
  }

  lemma {:induction false} RunAt(c: Config, ls: seq<Label>, n: nat)
    requires Run(c, ls).Some? && n <= |ls|
    ensures Run(c, ls[..n]) == Some(At(c, ls, n)) && Reachable(c, At(c, ls, n))
    ensures n < |ls| ==> Fires(At(c, ls, n), ls[n]) && At(c, ls, n + 1) == Apply(c, At(c, ls, n), ls[n])
    ensures n == |ls| ==> Run(c, ls) == Some(At(c, ls, n))
  {
    hide Apply;
    hide Fires;
    if n == |ls| {
      assert ls[..n] == ls;
    } else {
      var front := ls[..|ls| - 1];
      RunAt(c, front, n);
      assert front[..n] == ls[..n];
      if n == |front| {
        assert ls[..n + 1] == ls && ls[..n] == front;
      } else {
        assert front[..n + 1] == ls[..n + 1];
      }
    }
  }

  lemma LaterStep(c: Config, s: State, l: Label)
    requires Fires(s, l)
    ensures var s' := Apply(c, s, l); Later(s, s') && s.log <= s'.log
  {
    CacheEffect(c, s, l);
    LogStep(c, s, l);
  }

  /** Clock, served documents, installs and log only grow. */
  lemma {:induction false} Grows(c: Config, ls: seq<Label>, m: nat, n: nat)
    requires Run(c, ls).Some? && m <= n <= |ls|
    ensures Later(At(c, ls, m), At(c, ls, n)) && At(c, ls, m).log <= At(c, ls, n).log
    decreases n
  {
    hide Apply;
    hide Fires;
    hide At;
    if m < n {
      Grows(c, ls, m, n - 1);
      RunAt(c, ls, n - 1);
      LaterStep(c, At(c, ls, n - 1), ls[n - 1]);
    }
  }

  lemma ClockGrows(c: Config, ls: seq<Label>, m: nat, n: nat)
    requires Run(c, ls).Some? && m <= n <= |ls|
    ensures At(c, ls, m).clock <= At(c, ls, n).clock
  {
    Grows(c, ls, m, n);
  }

  // ---------------------------------------------------------------- one thread's way

  /** Label n is a step of thread t from this point. */
  ghost predicate StepsFrom(c: Config, ls: seq<Label>, n: nat, t: Tid, pc: Pc) {
    n < |ls| && ls[n].Step? && ls[n].t == t && t in At(c, ls, n).threads && At(c, ls, n).threads[t] == pc
  }

  /** Thread t stands at this point before each of the labels from lo to hi. */
  ghost predicate Stays(c: Config, ls: seq<Label>, lo: nat, hi: nat, t: Tid, pc: Pc)
    requires hi <= |ls|
  {
    forall i :: lo <= i <= hi ==> t in At(c, ls, i).threads && At(c, ls, i).threads[t] == pc
  }

  /** Label m brought thread t to this point: it arrived there or stepped there. */
  ghost predicate Brings(c: Config, ls: seq<Label>, m: nat, t: Tid, pc: Pc) {
    && m < |ls|
    && ((ls[m] == Spawn(t, pc) && Starts(pc))
        || (ls[m].Step? && ls[m].t == t && t in At(c, ls, m).threads && Enabled(At(c, ls, m), t, ls[m].ch)
            && pc == Next(c, At(c, ls, m), At(c, ls, m).threads[t], ls[m].ch)))
  }

  lemma ThreadsStep(c: Config, s: State, l: Label, t: Tid)
    requires Fires(s, l) && t in Apply(c, s, l).threads
    ensures var pc := Apply(c, s, l).threads[t];
            if l.Spawn? && l.t == t then pc == l.pc && Starts(pc)
            else t in s.threads && pc == if l.Step? && l.t == t then Next(c, s, s.threads[t], l.ch) else s.threads[t]
  {
    hide Next;
    hide OpOf;
    hide Effect;
  }

  /** Every thread was last moved by some label, and has stayed where that brought it. */
  lemma {:induction false} LastMove(c: Config, ls: seq<Label>, n: nat, t: Tid) returns (m: nat)
    requires Run(c, ls).Some? && n <= |ls| && t in At(c, ls, n).threads
    ensures m < n && Brings(c, ls, m, t, At(c, ls, n).threads[t]) && Stays(c, ls, m + 1, n, t, At(c, ls, n).threads[t])
    decreases n
  {
    hide Apply;
    hide Next;
    hide OpOf;
    hide LockReady;
    NobodyAtFirst(c, ls);
    hide At;
    hide Run;
    var l := ls[n - 1];
    RunAt(c, ls, n - 1);
    ThreadsStep(c, At(c, ls, n - 1), l, t);
    if (l.Spawn? || l.Step?) && l.t == t {
      m := n - 1;
    } else {
      m := LastMove(c, ls, n - 1, t);
    }
  }

  lemma NobodyAtFirst(c: Config, ls: seq<Label>)
    ensures At(c, ls, 0).threads == map[]
  {
    assert ls[..0] == [];
  }

  /** The step that brought thread t to where it is before label n, and where it took that step from. */
  lemma CameFrom(c: Config, ls: seq<Label>, n: nat, t: Tid) returns (m: nat, pc: Pc)
    requires Run(c, ls).Some? && n <= |ls| && t in At(c, ls, n).threads && !Starts(At(c, ls, n).threads[t])
    ensures m < n && StepsFrom(c, ls, m, t, pc) && !Finished(pc)
    ensures Next(c, At(c, ls, m), pc, ls[m].ch) == At(c, ls, n).threads[t]
    ensures Stays(c, ls, m + 1, n, t, At(c, ls, n).threads[t])
  {
    hide Run;
    hide At;
    hide Next;
    hide OpOf;
    hide LockReady;
    hide Starts;
    m := LastMove(c, ls, n, t);
    pc := At(c, ls, m).threads[t];
  }

  // ---------------------------------------------------------------- which point comes from which

  lemma KeyPoints(c: Config, s: State, pc: Pc, ch: Choice)
    ensures match Next(c, s, pc, ch)
            case Close(ex, found) => (found.Some? && pc == KeyHit(ex, found.value)) || pc == KeyUnlock2(ex, found)
            case KeyHit(ex, key) =>
              pc == KeyLookup(ex) && s.jwks.Some? && Find(s.jwks.value.keys, ex.jwt.header.kid) == Some(key)
            case KeyLookup(ex) => pc == KeyCheck(ex) && s.jwks.Some? && s.clock - s.jwks.value.fetchedAt < HOUR
            case KeyUnlock2(ex, found) =>
              pc == KeyReread(ex) && s.jwks.Some? && found == Find(s.jwks.value.keys, ex.jwt.header.kid)
            case KeyReread(ex) => pc == KeyLock2(ex)
            case KeyLock2(ex) => pc == InstallUnlock(ex)
            case InstallUnlock(ex) => pc.Install? && pc.ex == ex
            case _ => true
  {
    hide Jwt.Open;
    hide Jwt.Close;
    hide Bearer.GenerateToken;
    hide Bearer.Presented;
    hide RefuseOAuth;
    hide RefuseExchange;
    hide Fold;
    hide Find;
    hide T.Verdict;
  }

  lemma RefreshPoints(c: Config, s: State, pc: Pc, ch: Choice)
    ensures match Next(c, s, pc, ch)
            case Install(ex, keys) => pc == InstallPending(ex, keys)
            case InstallPending(ex, keys) => pc == InstallLock(ex, keys)
            case InstallLock(ex, keys) => pc == Fetch(ex) && ch.doc.Some? && keys == Fold(ch.doc.value)
            case _ => true
  {
    hide Jwt.Open;
    hide Jwt.Close;
    hide Bearer.GenerateToken;
    hide Bearer.Presented;
    hide RefuseOAuth;
    hide RefuseExchange;
    hide Fold;
    hide Find;
    hide T.Verdict;
  }

  lemma MissPoints(c: Config, s: State, pc: Pc, ch: Choice)
    ensures match Next(c, s, pc, ch)
            case Fetch(ex) => pc == KeyMiss(ex)
            case KeyMiss(ex) => LacksAt(s, pc, ex)
            case _ => true
  {
    hide Jwt.Open;
    hide Jwt.Close;
    hide Bearer.GenerateToken;
    hide Bearer.Presented;
    hide RefuseOAuth;
    hide RefuseExchange;
    hide Fold;
    hide T.Verdict;
  }

  /** From here getKey found the cache of no use: nil, an hour old or older, or without the kid. */
  predicate LacksAt(s: State, pc: Pc, ex: Exchange) {
    || (pc == KeyCheck(ex) && (s.jwks.None? || s.clock - s.jwks.value.fetchedAt >= HOUR))
    || (pc == KeyLookup(ex) && s.jwks.Some? && ex.jwt.header.kid !in s.jwks.value.keys)
  }

  lemma PurgePoints(c: Config, s: State, pc: Pc, ch: Choice)
    ensures match Next(c, s, pc, ch)
            case PurgePending(now) => pc == PurgeLock(now)
            case PurgeLock(now) => pc == PurgeIdle && now == s.clock
            case _ => true
  {
    hide Jwt.Open;
    hide Jwt.Close;
    hide Bearer.GenerateToken;
    hide Bearer.Presented;
    hide RefuseOAuth;
    hide RefuseExchange;
    hide Fold;
    hide Find;
    hide T.Verdict;
  }

  function StartOfGrant(g: Grant): Pc {
    match g case ByCredentials(r, _) => OAuthStart(r) case ByJwt(r, _, _, _) => ExchangeStart(r)
  }

  function MintOf(g: Grant): Pc {
    match g case ByCredentials(r, _) => MintByCredentials(r) case ByJwt(r, key, at, _) => MintByJwt(r, key, at)
  }

  lemma MintPoints(c: Config, s: State, pc: Pc, ch: Choice)
    requires !Finished(pc)
    ensures match Next(c, s, pc, ch)
            case Issued(tok) => pc == PutUnlock(tok)
            case PutUnlock(tok) => pc.Put? && pc.tok == tok
            case Put(g, tok, stamp) => pc == PutPending(g, tok, stamp)
            case PutPending(g, tok, stamp) => pc == PutLock(g, tok, stamp)
            case PutLock(g, tok, stamp) => pc == Stamp(g, tok) && stamp == s.clock
            case Stamp(g, tok) =>
              && ch.nonce == Some(g.nonce) && tok == Bearer.GenerateToken(c.mac, g.nonce)
              && pc == MintOf(g)
            case MintByCredentials(r) => pc == OAuthStart(r) && RefuseOAuth(c, r).None?
            case MintByJwt(r, key, at) =>
              && pc.Close? && pc.ex.request == r && pc.found == Some(key) && at == s.clock && c.wif.Some?
              && Jwt.Close(c.wif.value.lib, c.wif.value.issuer, pc.ex.jwt, key, at).Success?
            case _ => true
  {
    hide Jwt.Open;
    hide Jwt.Close;
    hide Bearer.GenerateToken;
    hide Bearer.Presented;
    hide RefuseOAuth;
    hide RefuseExchange;
    hide Fold;
    hide Find;
    hide T.Verdict;
  }

  /** Why a request is refused: by its endpoint's checks, or because the token does not open, the fetch fails, no key or
      a claim does not hold at the clock as it is, or the random source fails. */
  ghost predicate Cause(c: Config, s: State, pc: Pc, ch: Choice, status: nat) {
    match pc
    case OAuthStart(r) => RefuseOAuth(c, r) == Some(status)
    case ExchangeStart(r) =>
      if RefuseExchange(c, r).Some? then RefuseExchange(c, r) == Some(status)
      else status == 401 && c.wif.Some? && Jwt.Open(c.wif.value.lib, r.FormValue("jwt")).Failure?
    case Fetch(_) => status == 401 && ch.doc.None?
    case Close(ex, found) =>
      && status == 401
      && (found.None?
          || (c.wif.Some? && Jwt.Close(c.wif.value.lib, c.wif.value.issuer, ex.jwt, found.value, s.clock).Failure?))
    case MintByCredentials(_) => status == 500 && ch.nonce.None?
    case MintByJwt(_, _, _) => status == 500 && ch.nonce.None?
    case _ => false
  }

  lemma RefusedPoint(c: Config, s: State, pc: Pc, ch: Choice)
    requires !Finished(pc)
    ensures Next(c, s, pc, ch).Refused? ==> Cause(c, s, pc, ch, Next(c, s, pc, ch).status)
  {
    hide Jwt.Open;
    hide Jwt.Close;
    hide Bearer.GenerateToken;
    hide Bearer.Presented;
    hide RefuseOAuth;
    hide RefuseExchange;
    hide Fold;
    hide Find;
    hide T.Verdict;
    RefuseExchangeWif(c, pc);
  }

  lemma RefuseExchangeWif(c: Config, pc: Pc)
    ensures pc.ExchangeStart? && RefuseExchange(c, pc.request).None? ==> c.wif.Some?
  {
  }

  lemma MiddlewarePoints(c: Config, s: State, pc: Pc, ch: Choice)
    requires !Finished(pc)
    ensures match Next(c, s, pc, ch)
            case MwDone(tok, ok) =>
              || (pc.MwStart? && Bearer.Presented(pc.presented) == tok && (tok == "" || tok == c.apiKey))
              || (pc.MwDecide? && pc.tok == tok && ok == T.Verdict(s.clock, pc.entry))
            case MwDecide(tok, entry) => pc == MwUnlock(tok, entry)
            case MwUnlock(tok, _) => pc == MwRead(tok)
            case MwRead(tok) => pc == MwLock(tok)
            case MwLock(tok) => pc.MwStart? && Bearer.Presented(pc.presented) == tok
            case _ => true
  {
    hide Jwt.Open;
    hide Jwt.Close;
    hide Bearer.GenerateToken;
    hide Bearer.Presented;
    hide RefuseOAuth;
    hide RefuseExchange;
    hide Fold;
    hide Find;
    hide T.Verdict;
  }

  // ---------------------------------------------------------------- where the answers of getKey come from

  /** The cache then answered the kid so, from one served document installed under an hour before. */
  ghost predicate Serves(s: State, kid: string, found: Option<PublicKey>) {
    && s.jwks.Some? && s.clock - s.jwks.value.fetchedAt < HOUR && FromServed(s, s.jwks.value.keys)
    && found.Some? && found == Find(s.jwks.value.keys, kid)
  }

  /** The cache then answered the kid so, from one served document installed no earlier, by number and by stamp, than
      the install made in state p. */
  ghost predicate ServesSince(p: State, s: State, kid: string, found: Option<PublicKey>) {
    && s.installs != [] && s.jwks == Some(s.installs[|s.installs| - 1])
    && |p.installs| < |s.installs| && p.clock <= s.jwks.value.fetchedAt && FromServed(s, s.jwks.value.keys)
    && found == Find(s.jwks.value.keys, kid)
  }

  ghost predicate Installs(c: Config, ls: seq<Label>, n: nat, t: Tid, ex: Exchange) {
    && n < |ls| && ls[n].Step? && ls[n].t == t && t in At(c, ls, n).threads
    && At(c, ls, n).threads[t].Install? && At(c, ls, n).threads[t].ex == ex
  }

  /** Thread t tested the age of the cache in the run and took the answer from what it tested. */
  ghost predicate CacheHit(c: Config, ls: seq<Label>, n: nat, t: Tid, ex: Exchange, found: Option<PublicKey>) {
    exists m: nat :: m < n && StepsFrom(c, ls, m, t, KeyCheck(ex)) && Serves(At(c, ls, m), ex.jwt.header.kid, found)
  }

  /** Before label n thread t had found the cache of no use. */
  ghost predicate NeedsRefresh(c: Config, ls: seq<Label>, n: nat, t: Tid, ex: Exchange) {
    exists m: nat :: m < n && m < |ls| && ls[m].Step? && ls[m].t == t && t in At(c, ls, m).threads
                     && LacksAt(At(c, ls, m), At(c, ls, m).threads[t], ex)
  }

  /** What thread t is about to install it has fetched itself, having found the cache of no use. */
  ghost predicate FetchedIt(c: Config, ls: seq<Label>, n: nat, t: Tid, ex: Exchange, keys: KeySet) {
    exists m: nat :: m < n && StepsFrom(c, ls, m, t, Fetch(ex)) && NeedsRefresh(c, ls, m, t, ex)
                     && ls[m].ch.doc.Some? && keys == Fold(ls[m].ch.doc.value)
  }

  /** Thread t, having found the cache of no use, installed a document it had fetched, and reread the cache after
      that. */
  ghost predicate OwnRefresh(c: Config, ls: seq<Label>, n: nat, t: Tid, ex: Exchange, found: Option<PublicKey>) {
    exists m: nat, k: nat :: m < k < n && Installs(c, ls, m, t, ex) && StepsFrom(c, ls, k, t, KeyReread(ex))
                             && FetchedIt(c, ls, m, t, ex, At(c, ls, m).threads[t].keys)
                             && ServesSince(At(c, ls, m), At(c, ls, k), ex.jwt.header.kid, found)
  }

  /** getKey turns to the issuer only when the cache is of no use. */
  lemma FetchIsNeeded(c: Config, ls: seq<Label>, n: nat, t: Tid)
    requires Run(c, ls).Some? && n <= |ls| && t in At(c, ls, n).threads && At(c, ls, n).threads[t].Fetch?
    ensures NeedsRefresh(c, ls, n, t, At(c, ls, n).threads[t].ex)
  {
    hide Run;
    hide At;
    hide Next;
    var m1, pc1 := CameFrom(c, ls, n, t);
    MissPoints(c, At(c, ls, m1), pc1, ls[m1].ch);
    var m2, pc2 := CameFrom(c, ls, m1, t);
    MissPoints(c, At(c, ls, m2), pc2, ls[m2].ch);
  }

  lemma InstallIsFetched(c: Config, ls: seq<Label>, n: nat, t: Tid)
    requires Run(c, ls).Some? && n <= |ls| && t in At(c, ls, n).threads && At(c, ls, n).threads[t].Install?
    ensures var pc := At(c, ls, n).threads[t]; FetchedIt(c, ls, n, t, pc.ex, pc.keys)
  {
    hide Run;
    hide At;
    hide Next;
    hide NeedsRefresh;
    hide LacksAt;
    hide Fold;
    var m1, pc1 := CameFrom(c, ls, n, t);
    RefreshPoints(c, At(c, ls, m1), pc1, ls[m1].ch);
    var m2, pc2 := CameFrom(c, ls, m1, t);
    RefreshPoints(c, At(c, ls, m2), pc2, ls[m2].ch);
    var m3, pc3 := CameFrom(c, ls, m2, t);
    RefreshPoints(c, At(c, ls, m3), pc3, ls[m3].ch);
    FetchIsNeeded(c, ls, m3, t);
  }

  /** A purge works with the clock as it was at a step of its own before it waited for the lock. */
  lemma PurgeReadsClock(c: Config, ls: seq<Label>, n: nat, t: Tid, now: int) returns (m: nat)
    requires Run(c, ls).Some? && StepsFrom(c, ls, n, t, PurgePending(now))
    ensures m < n && StepsFrom(c, ls, m, t, PurgeIdle) && At(c, ls, m).clock == now
  {
    hide Run;
    hide At;
    hide Next;
    var m1, pc1 := CameFrom(c, ls, n, t);
    PurgePoints(c, At(c, ls, m1), pc1, ls[m1].ch);
    var m2, pc2 := CameFrom(c, ls, m1, t);
    PurgePoints(c, At(c, ls, m2), pc2, ls[m2].ch);
    m := m2;
  }

  /** While a thread sits between the age test and the lookup, the cache stays as tested. */
  lemma {:induction false} KeptWhileReading(c: Config, ls: seq<Label>, lo: nat, hi: nat, t: Tid, ex: Exchange)
    requires Run(c, ls).Some? && lo <= hi <= |ls| && Stays(c, ls, lo, hi, t, KeyLookup(ex))
    ensures At(c, ls, hi).jwks == At(c, ls, lo).jwks
    decreases hi
  {
    hide Run;
    hide At;
    hide Apply;
    hide LockInv;
    hide CacheInv;
    hide TokenInv;
    hide GrantInv;
    if lo < hi {
      var s, l := At(c, ls, hi - 1), ls[hi - 1];
      KeptWhileReading(c, ls, lo, hi - 1, t, ex);
      RunAt(c, ls, hi - 1);
      CacheEffect(c, s, l);
      ReachableInv(c, s);
      if l.Step? && l.t != t && s.threads[l.t].Install? {
        Exclusion(s, l.t, KeyLock, t);
      }
    }
  }

  lemma HitIsServed(c: Config, ls: seq<Label>, n: nat, t: Tid)
    requires Run(c, ls).Some? && n <= |ls| && t in At(c, ls, n).threads && At(c, ls, n).threads[t].KeyHit?
    ensures var pc := At(c, ls, n).threads[t]; CacheHit(c, ls, n, t, pc.ex, Some(pc.key))
  {
    hide Run;
    hide At;
    hide Next;
    hide Apply;
    hide FromServed;
    hide LockInv;
    hide TokenInv;
    hide GrantInv;
    hide Reachable;
    var pc := At(c, ls, n).threads[t];
    var m1, pc1 := CameFrom(c, ls, n, t);
    KeyPoints(c, At(c, ls, m1), pc1, ls[m1].ch);
    var m2, pc2 := CameFrom(c, ls, m1, t);
    KeyPoints(c, At(c, ls, m2), pc2, ls[m2].ch);
    RunAt(c, ls, m2);
    CacheEffect(c, At(c, ls, m2), ls[m2]);
    KeptWhileReading(c, ls, m2 + 1, m1, t, pc.ex);
    ReachableInv(c, At(c, ls, m2));
    assert Serves(At(c, ls, m2), pc.ex.jwt.header.kid, Some(pc.key));
  }

  lemma RereadIsServed(c: Config, ls: seq<Label>, n: nat, t: Tid)
    requires Run(c, ls).Some? && n <= |ls| && t in At(c, ls, n).threads && At(c, ls, n).threads[t].KeyUnlock2?
    ensures var pc := At(c, ls, n).threads[t]; OwnRefresh(c, ls, n, t, pc.ex, pc.found)
  {
    hide Run;
    hide At;
    hide Next;
    hide Apply;
    hide FromServed;
    hide LockInv;
    hide CacheInv;
    hide TokenInv;
    hide GrantInv;
    hide Reachable;
    var pc := At(c, ls, n).threads[t];
    var k, pc1 := CameFrom(c, ls, n, t);
    KeyPoints(c, At(c, ls, k), pc1, ls[k].ch);
    var m3, pc3 := CameFrom(c, ls, k, t);
    KeyPoints(c, At(c, ls, m3), pc3, ls[m3].ch);
    var m4, pc4 := CameFrom(c, ls, m3, t);
    KeyPoints(c, At(c, ls, m4), pc4, ls[m4].ch);
    var m, pc5 := CameFrom(c, ls, m4, t);
    KeyPoints(c, At(c, ls, m), pc5, ls[m].ch);
    assert Installs(c, ls, m, t, pc.ex);
    hide FetchedIt;
    InstallIsFetched(c, ls, m, t);
    InstalledSince(c, ls, m, k, t, pc.ex, pc.found);
  }

  lemma InstalledSince(c: Config, ls: seq<Label>, m: nat, k: nat, t: Tid, ex: Exchange, found: Option<PublicKey>)
    requires Run(c, ls).Some? && m < k < |ls| && Installs(c, ls, m, t, ex)
    requires At(c, ls, k).jwks.Some? && found == Find(At(c, ls, k).jwks.value.keys, ex.jwt.header.kid)
    ensures ServesSince(At(c, ls, m), At(c, ls, k), ex.jwt.header.kid, found)
  {
    hide Run;
    hide At;
    hide Apply;
    hide FromServed;
    hide LockInv;
    hide CachePc;
    hide TokenInv;
    hide GrantInv;
    hide Reachable;
    var p, s := At(c, ls, m), At(c, ls, k);
    RunAt(c, ls, m);
    CacheEffect(c, p, ls[m]);
    Grows(c, ls, m + 1, k);
    RunAt(c, ls, k);
    ReachableInv(c, s);
    assert s.installs[|p.installs|].fetchedAt == p.clock;
  }

  /** Staleness: every answer of getKey was, in the run, either taken by this thread from a cache it had found under an
      hour old, or reread by it from a cache installed no earlier than its own refresh; in both cases it is the lookup
      in one document the issuer had served, whatever was installed around it. */
  lemma AnswerIsFresh(c: Config, ls: seq<Label>, n: nat, t: Tid)
    requires Run(c, ls).Some? && n <= |ls| && t in At(c, ls, n).threads && At(c, ls, n).threads[t].Close?
    ensures var pc := At(c, ls, n).threads[t];
            CacheHit(c, ls, n, t, pc.ex, pc.found) || OwnRefresh(c, ls, n, t, pc.ex, pc.found)
  {
    hide Run;
    hide At;
    hide Next;
    hide Serves;
    hide ServesSince;
    hide Installs;
    var m, pc := CameFrom(c, ls, n, t);
    KeyPoints(c, At(c, ls, m), pc, ls[m].ch);
    if pc.KeyHit? {
      HitIsServed(c, ls, m, t);
    } else {
      RereadIsServed(c, ls, m, t);
    }
  }
}
