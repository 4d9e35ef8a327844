/** The issuing half of authorisation, over whole runs: who is handed a token, who is refused, and what a token is
    good for. */
module ServiceIssues {
  import opened Machine
  import opened Wrappers
  import opened Jwk
  import opened Requests
  import opened Service
  import opened ServiceLocks
  import opened ServiceCache
  import opened ServiceTokens
  import opened ServiceTheorems
  import opened ServiceHistory
  import Bearer
  import Jwt
  import T = TokenRuns

  // ---------------------------------------------------------------- one store for each token handed out

  ghost predicate NoPut(log: seq<T.Event>, t: Tid) {
    forall i :: 0 <= i < |log| && log[i].Put? ==> log[i].q != t
  }

  /** Entry i is the store of the token by thread t, and its only one. */
  ghost predicate OnlyPut(log: seq<T.Event>, t: Tid, tok: string, i: nat) {
    && i < |log| && log[i].Put? && log[i].q == t && log[i].tok == tok
    && forall j :: 0 <= j < |log| && log[j].Put? && log[j].q == t ==> j == i
  }

  ghost predicate OncePc(log: seq<T.Event>, t: Tid, pc: Pc) {
    match pc
    case PutUnlock(tok) => exists i: nat :: OnlyPut(log, t, tok, i)
    case Issued(tok) => exists i: nat :: OnlyPut(log, t, tok, i)
    case _ => NoPut(log, t)
  }

  ghost predicate OnceInv(s: State) {
    && (forall t :: t in s.threads ==> OncePc(s.log, t, s.threads[t]))
    && (forall i :: 0 <= i < |s.log| && s.log[i].Put? ==> s.log[i].q in s.threads)
  }

  lemma OnceAppend(log: seq<T.Event>, e: T.Event, t: Tid, pc: Pc)
    requires OncePc(log, t, pc) && (e.Put? ==> e.q != t)
    ensures OncePc(log + [e], t, pc)
  {
    var log' := log + [e];
    forall tok, i: nat | OnlyPut(log, t, tok, i) ensures OnlyPut(log', t, tok, i) {
    }
  }

  lemma OnceNow(log: seq<T.Event>, e: T.Event, t: Tid)
    requires NoPut(log, t) && e.Put? && e.q == t
    ensures OncePc(log + [e], t, PutUnlock(e.tok))
  {
    assert OnlyPut(log + [e], t, e.tok, |log|);
  }

  /** A thread gets past its store by way of it, and nowhere else. */
  lemma OncePoints(c: Config, s: State, pc: Pc, ch: Choice)
    requires !Finished(pc)
    ensures var pc' := Next(c, s, pc, ch);
            && (pc.Put? ==> pc' == PutUnlock(pc.tok))
            && (pc.PutUnlock? ==> pc' == Issued(pc.tok))
            && (!pc.Put? && !pc.PutUnlock? ==> !pc'.PutUnlock? && !pc'.Issued?)
  {
    MintPoints(c, s, pc, ch);
    hide Jwt.Open;
    hide Jwt.Close;
    hide Bearer.GenerateToken;
    hide Bearer.Presented;
    hide RefuseOAuth;
    hide RefuseExchange;
    hide Fold;
    hide Find;
    hide T.Verdict;
  }

  lemma OnceMove(c: Config, s: State, l: Label, pc: Pc)
    requires Fires(s, l) && l.Step? && pc == s.threads[l.t] && OncePc(s.log, l.t, pc)
    ensures OncePc(Append(s.log, EventOf(s, l)), l.t, Next(c, s, pc, l.ch))
  {
    OncePoints(c, s, pc, l.ch);
    hide Next;
    hide OpOf;
    hide LockReady;
    var e := EventOf(s, l);
    if pc.Put? {
      OnceNow(s.log, e.value, l.t);
    } else if e.Some? {
      OnceAppend(s.log, e.value, l.t, pc);
    }
  }

  lemma OnceThread(c: Config, s: State, l: Label, t: Tid)
    requires OnceInv(s) && Fires(s, l) && t in Apply(c, s, l).threads
    ensures OncePc(Apply(c, s, l).log, t, Apply(c, s, l).threads[t])
  {
    LogStep(c, s, l);
    ThreadsStep(c, s, l, t);
    hide Next;
    hide OpOf;
    hide Effect;
    hide LockReady;
    hide Apply;
    var e := EventOf(s, l);
    if l.Step? && l.t == t {
      hide OncePc;
      OnceMove(c, s, l, s.threads[t]);
    } else if t in s.threads && e.Some? {
      hide OncePc;
      OnceAppend(s.log, e.value, t, s.threads[t]);
    }
  }

  lemma OnceStep(c: Config, s: State, l: Label)
    requires OnceInv(s) && Fires(s, l)
    ensures OnceInv(Apply(c, s, l))
  {
    hide OncePc;
    forall t | t in Apply(c, s, l).threads ensures OncePc(Apply(c, s, l).log, t, Apply(c, s, l).threads[t]) {
      OnceThread(c, s, l, t);
    }
    hide Next;
    hide OpOf;
    hide Effect;
    hide LockReady;
    LogStep(c, s, l);
  }

  lemma {:induction false} RunOnce(c: Config, ls: seq<Label>)
    requires Run(c, ls).Some?
    ensures OnceInv(Run(c, ls).value)
  {
    if ls != [] {
      hide OnceInv;
      hide Apply;
      hide Fires;
      RunOnce(c, ls[..|ls| - 1]);
      OnceStep(c, Run(c, ls[..|ls| - 1]).value, ls[|ls| - 1]);
    }
  }

  // ---------------------------------------------------------------- how a store came about

  /** The point at which a thread that is now here must have arrived. */
  function StartOf(pc: Pc): Option<Pc> {
    match pc
    case OAuthStart(_) => Some(pc)
    case ExchangeStart(_) => Some(pc)
    case KeyLock1(ex) => Some(ExchangeStart(ex.request))
    case KeyCheck(ex) => Some(ExchangeStart(ex.request))
    case KeyLookup(ex) => Some(ExchangeStart(ex.request))
    case KeyHit(ex, _) => Some(ExchangeStart(ex.request))
    case KeyMiss(ex) => Some(ExchangeStart(ex.request))
    case Fetch(ex) => Some(ExchangeStart(ex.request))
    case InstallLock(ex, _) => Some(ExchangeStart(ex.request))
    case InstallPending(ex, _) => Some(ExchangeStart(ex.request))
    case Install(ex, _) => Some(ExchangeStart(ex.request))
    case InstallUnlock(ex) => Some(ExchangeStart(ex.request))
    case KeyLock2(ex) => Some(ExchangeStart(ex.request))
    case KeyReread(ex) => Some(ExchangeStart(ex.request))
    case KeyUnlock2(ex, _) => Some(ExchangeStart(ex.request))
    case Close(ex, _) => Some(ExchangeStart(ex.request))
    case MintByCredentials(r) => Some(OAuthStart(r))
    case MintByJwt(r, _, _) => Some(ExchangeStart(r))
    case Stamp(g, _) => Some(StartOfGrant(g))
    case PutLock(g, _, _) => Some(StartOfGrant(g))
    case PutPending(g, _, _) => Some(StartOfGrant(g))
    case Put(g, _, _) => Some(StartOfGrant(g))
    case _ => None
  }

  lemma StartKept(c: Config, s: State, pc: Pc, ch: Choice)
    requires !Finished(pc)
    ensures StartOf(Next(c, s, pc, ch)).Some? ==> StartOf(pc) == StartOf(Next(c, s, pc, ch))
  {
    hide Jwt.Open;
    hide Jwt.Close;
    hide Bearer.GenerateToken;
    hide Bearer.Presented;
    hide RefuseOAuth;
    hide RefuseExchange;
    hide Fold;
    hide Find;
    hide T.Verdict;
  }

  lemma {:induction false} Arrival(c: Config, ls: seq<Label>, n: nat, t: Tid) returns (a: nat)
    requires Run(c, ls).Some? && n <= |ls| && t in At(c, ls, n).threads && StartOf(At(c, ls, n).threads[t]).Some?
    ensures a < n && ls[a] == Spawn(t, StartOf(At(c, ls, n).threads[t]).value)
    decreases n
  {
    var pc := At(c, ls, n).threads[t];
    hide Run;
    hide At;
    hide Next;
    hide OpOf;
    hide LockReady;
    var m := LastMove(c, ls, n, t);
    if ls[m].Spawn? {
      a := m;
      assert StartOf(pc) == Some(pc);
    } else {
      StartKept(c, At(c, ls, m), At(c, ls, m).threads[t], ls[m].ch);
      a := Arrival(c, ls, m, t);
    }
  }

  /** At label m thread t found the claims in order for this grant, under the key that getKey had answered it. */
  ghost predicate Closes(c: Config, ls: seq<Label>, m: nat, t: Tid, g: Grant)
    requires g.ByJwt?
  {
    && m < |ls| && t in At(c, ls, m).threads && StepsFrom(c, ls, m, t, At(c, ls, m).threads[t])
    && At(c, ls, m).clock == g.at
    && (match At(c, ls, m).threads[t]
        case Close(ex, found) =>
          && ex.request == g.request && found == Some(g.key) && c.wif.Some?
          && "jwt" in g.request.form && Jwt.Open(c.wif.value.lib, g.request.form["jwt"]) == Success(ex.jwt)
          && (CacheHit(c, ls, m, t, ex, found) || OwnRefresh(c, ls, m, t, ex, found))
          && Jwt.Close(c.wif.value.lib, c.wif.value.issuer, ex.jwt, g.key, g.at).Success?
        case _ => false)
  }

  /** Thread t arrived with label a, minted the token from the nonce of label x, read the clock for its stamp in label k
      and stored it in label n; an exchange found its claims in order at a reading in between. */
  ghost predicate Makes(c: Config, ls: seq<Label>, t: Tid, g: Grant, tok: string, stamp: int,
                        a: nat, x: nat, k: nat, n: nat)
  {
    && a < x < k < n < |ls|
    && ls[a] == Spawn(t, StartOfGrant(g))
    && StepsFrom(c, ls, x, t, MintOf(g))
    && ls[x].ch.nonce == Some(g.nonce) && tok == Bearer.GenerateToken(c.mac, g.nonce)
    && StepsFrom(c, ls, k, t, Stamp(g, tok)) && At(c, ls, k).clock == stamp
    && StepsFrom(c, ls, n, t, Put(g, tok, stamp))
    && At(c, ls, a).clock <= stamp <= At(c, ls, n).clock
    && (g.ByJwt? ==> At(c, ls, a).clock <= g.at <= stamp && ClosesBetween(c, ls, t, g, a, x))
  }

  ghost predicate ClosesBetween(c: Config, ls: seq<Label>, t: Tid, g: Grant, a: nat, x: nat)
    requires g.ByJwt?
  {
    exists m: nat :: a < m < x && Closes(c, ls, m, t, g)
  }

  lemma PutIsMade(c: Config, ls: seq<Label>, n: nat, t: Tid, g: Grant, tok: string, stamp: int)
    returns (a: nat, x: nat, k: nat)
    requires Run(c, ls).Some? && StepsFrom(c, ls, n, t, Put(g, tok, stamp))
    ensures Makes(c, ls, t, g, tok, stamp, a, x, k, n)
  {
    hide *;
    StepsWithin(c, ls, n, t, Put(g, tok, stamp));
    k := PutWasStamped(c, ls, n, t, g, tok, stamp);
    x := StampWasMinted(c, ls, k, t, g, tok);
    a := MintStory(c, ls, x, t, g);
    ClockGrows(c, ls, a, x);
    ClockGrows(c, ls, x, k);
    ClockGrows(c, ls, k, n);
    MakesIntro(c, ls, t, g, tok, stamp, a, x, k, n);
  }

  lemma MakesIntro(c: Config, ls: seq<Label>, t: Tid, g: Grant, tok: string, stamp: int,
                   a: nat, x: nat, k: nat, n: nat)
    requires a < x < k < n < |ls| && ls[a] == Spawn(t, StartOfGrant(g)) && ls[x].Step?
    requires StepsFrom(c, ls, x, t, MintOf(g)) && ls[x].ch.nonce == Some(g.nonce)
    requires tok == Bearer.GenerateToken(c.mac, g.nonce)
    requires StepsFrom(c, ls, k, t, Stamp(g, tok)) && At(c, ls, k).clock == stamp
    requires StepsFrom(c, ls, n, t, Put(g, tok, stamp)) && At(c, ls, a).clock <= stamp <= At(c, ls, n).clock
    requires g.ByJwt? ==> At(c, ls, a).clock <= g.at <= stamp && ClosesBetween(c, ls, t, g, a, x)
    ensures Makes(c, ls, t, g, tok, stamp, a, x, k, n)
  {
    hide Run;
    hide At;
    hide ClosesBetween;
    hide Bearer.GenerateToken;
  }

  lemma StepsWithin(c: Config, ls: seq<Label>, n: nat, t: Tid, pc: Pc)
    requires StepsFrom(c, ls, n, t, pc)
    ensures n < |ls|
  {
  }

  lemma PutWasStamped(c: Config, ls: seq<Label>, n: nat, t: Tid, g: Grant, tok: string, stamp: int) returns (k: nat)
    requires Run(c, ls).Some? && StepsFrom(c, ls, n, t, Put(g, tok, stamp))
    ensures k < n && StepsFrom(c, ls, k, t, Stamp(g, tok)) && At(c, ls, k).clock == stamp
  {
    hide Run;
    hide At;
    hide Next;
    var m1, pc1 := CameFrom(c, ls, n, t);
    MintPoints(c, At(c, ls, m1), pc1, ls[m1].ch);
    var m2, pc2 := CameFrom(c, ls, m1, t);
    MintPoints(c, At(c, ls, m2), pc2, ls[m2].ch);
    var m3, pc3 := CameFrom(c, ls, m2, t);
    MintPoints(c, At(c, ls, m3), pc3, ls[m3].ch);
    k := m3;
  }

  lemma StampWasMinted(c: Config, ls: seq<Label>, k: nat, t: Tid, g: Grant, tok: string) returns (x: nat)
    requires Run(c, ls).Some? && StepsFrom(c, ls, k, t, Stamp(g, tok))
    ensures x < k && x < |ls| && ls[x].Step? && StepsFrom(c, ls, x, t, MintOf(g)) && ls[x].ch.nonce == Some(g.nonce)
    ensures tok == Bearer.GenerateToken(c.mac, g.nonce)
  {
    hide Run;
    hide At;
    hide Next;
    hide Bearer.GenerateToken;
    var m, pc := CameFrom(c, ls, k, t);
    MintPoints(c, At(c, ls, m), pc, ls[m].ch);
    x := m;
  }

  lemma MintStory(c: Config, ls: seq<Label>, x: nat, t: Tid, g: Grant) returns (a: nat)
    requires Run(c, ls).Some? && StepsFrom(c, ls, x, t, MintOf(g))
    ensures a < x && ls[a] == Spawn(t, StartOfGrant(g))
    ensures g.ByJwt? ==> At(c, ls, a).clock <= g.at <= At(c, ls, x).clock && ClosesBetween(c, ls, t, g, a, x)
  {
    hide Run;
    hide At;
    hide Next;
    hide OpOf;
    hide LockReady;
    hide CacheHit;
    hide OwnRefresh;
    hide Closes;
    if g.ByJwt? {
      var m := JwtWasClosed(c, ls, x, t, g);
      a := Arrival(c, ls, m, t);
      ClockGrows(c, ls, a, m);
      ClockGrows(c, ls, m, x);
    } else {
      a := Arrival(c, ls, x, t);
    }
  }

  lemma JwtWasClosed(c: Config, ls: seq<Label>, x: nat, t: Tid, g: Grant) returns (m: nat)
    requires Run(c, ls).Some? && g.ByJwt? && StepsFrom(c, ls, x, t, MintOf(g))
    ensures m < x && Closes(c, ls, m, t, g) && At(c, ls, m).clock == g.at
    ensures t in At(c, ls, m).threads && StartOf(At(c, ls, m).threads[t]) == Some(StartOfGrant(g))
  {
    hide Run;
    hide At;
    hide Next;
    hide CacheHit;
    hide OwnRefresh;
    hide Jwt.Close;
    hide Jwt.Open;
    var m', pc := CameFrom(c, ls, x, t);
    MintPoints(c, At(c, ls, m'), pc, ls[m'].ch);
    AnswerIsFresh(c, ls, m', t);
    RunAt(c, ls, m');
    ExchangedJwt(c, At(c, ls, m'), t);
    m := m';
  }

  /** The token under examination is the one in the request, opened. */
  lemma ExchangedJwt(c: Config, s: State, t: Tid)
    requires Reachable(c, s) && t in s.threads && s.threads[t].Close?
    ensures c.wif.Some?
    ensures var ex := s.threads[t].ex;
            "jwt" in ex.request.form && Jwt.Open(c.wif.value.lib, ex.request.form["jwt"]) == Success(ex.jwt)
  {
    ReachableInv(c, s);
    hide Reachable;
    hide LockInv;
    hide CacheInv;
    hide TokenInv;
    hide Jwt.Open;
    assert GrantPc(c, s, s.threads[t]);
  }

  // ---------------------------------------------------------------- the log and the labels

  /** Every store in the log is one label of the run, by the thread and of the token it names. */
  lemma {:induction false} StoreLabel(c: Config, ls: seq<Label>, n0: nat, i: nat) returns (n: nat)
    requires Run(c, ls).Some? && n0 <= |ls| && i < |At(c, ls, n0).log| && At(c, ls, n0).log[i].Put?
    ensures n < n0 && |At(c, ls, n).log| == i
    ensures var e := At(c, ls, n0).log[i]; StepsFrom(c, ls, n, e.q, Put(e.grant, e.tok, e.stamp))
    decreases n0
  {
    EmptyAtFirst(c, ls);
    hide Run;
    hide At;
    hide Apply;
    RunAt(c, ls, n0 - 1);
    var s := At(c, ls, n0 - 1);
    LogStep(c, s, ls[n0 - 1]);
    if i < |s.log| {
      n := StoreLabel(c, ls, n0 - 1, i);
    } else {
      n := n0 - 1;
    }
  }

  /** Every purge in the log is one label of the run, and went by the clock as its purger had read it before. */
  lemma {:induction false} PurgeLabel(c: Config, ls: seq<Label>, n0: nat, i: nat) returns (m: nat, n: nat, t: Tid)
    requires Run(c, ls).Some? && n0 <= |ls| && i < |At(c, ls, n0).log| && At(c, ls, n0).log[i].Purge?
    ensures m < n < n0 && |At(c, ls, n).log| == i
    ensures var now := At(c, ls, n0).log[i].now;
            && StepsFrom(c, ls, m, t, PurgeIdle) && At(c, ls, m).clock == now
            && StepsFrom(c, ls, n, t, PurgePending(now))
    decreases n0
  {
    EmptyAtFirst(c, ls);
    hide Run;
    hide At;
    hide Apply;
    RunAt(c, ls, n0 - 1);
    var s := At(c, ls, n0 - 1);
    LogStep(c, s, ls[n0 - 1]);
    if i < |s.log| {
      m, n, t := PurgeLabel(c, ls, n0 - 1, i);
    } else {
      n, t := n0 - 1, ls[n0 - 1].t;
      m := PurgeReadsClock(c, ls, n, t, s.threads[t].now);
    }
  }

  lemma EmptyAtFirst(c: Config, ls: seq<Label>)
    ensures At(c, ls, 0).log == []
  {
    assert ls[..0] == [];
  }

  // ---------------------------------------------------------------- what is issued and what is refused

  /** Entry i of the log stores a token that its thread made for a request of its own that deserved it. */
  ghost predicate Earned(c: Config, ls: seq<Label>, i: nat) {
    var log := At(c, ls, |ls|).log;
    && i < |log| && log[i].Put? && Deserved(c, log[i].grant)
    && exists a: nat, x: nat, k: nat, n: nat ::
         Makes(c, ls, log[i].q, log[i].grant, log[i].tok, log[i].stamp, a, x, k, n) && |At(c, ls, n).log| == i
  }

  /** Every store of every run is earned: by a request that arrived in the run and passed its endpoint's checks, an
      exchanged JWT having been found in order between arrival and stamp, under a key answered freshly. */
  lemma StoredIsEarned(c: Config, ls: seq<Label>, i: nat)
    requires Run(c, ls).Some? && i < |Run(c, ls).value.log| && Run(c, ls).value.log[i].Put?
    ensures At(c, ls, |ls|) == Run(c, ls).value && Earned(c, ls, i)
  {
    RunAt(c, ls, |ls|);
    hide Run;
    hide At;
    hide Reachable;
    hide Deserved;
    hide Makes;
    var s := At(c, ls, |ls|);
    StoredIsBacked(c, s, i);
    var n := StoreLabel(c, ls, |ls|, i);
    var a, x, k := PutIsMade(c, ls, n, s.log[i].q, s.log[i].grant, s.log[i].tok, s.log[i].stamp);
  }

  /** Whoever is handed a token has stored that token, once, and earned it. */
  lemma IssuedIsStored(c: Config, ls: seq<Label>, t: Tid)
    requires Run(c, ls).Some? && t in Run(c, ls).value.threads && Run(c, ls).value.threads[t].Issued?
    ensures var s := Run(c, ls).value;
            exists i: nat :: OnlyPut(s.log, t, s.threads[t].tok, i) && Earned(c, ls, i)
  {
    RunOnce(c, ls);
    hide Run;
    hide Earned;
    var s := Run(c, ls).value;
    assert OncePc(s.log, t, s.threads[t]);
    var i: nat :| OnlyPut(s.log, t, s.threads[t].tok, i);
    StoredIsEarned(c, ls, i);
  }

  /** Whoever is refused has stored nothing, and was refused for one of the causes there are, with its status, at a step
      after the arrival of that very request. */
  lemma RefusedForCause(c: Config, ls: seq<Label>, t: Tid)
    requires Run(c, ls).Some? && t in Run(c, ls).value.threads && Run(c, ls).value.threads[t].Refused?
    ensures var s := Run(c, ls).value;
            && NoPut(s.log, t)
            && exists a: nat, m: nat ::
                 (a < m < |ls| && ls[a].Spawn? && ls[a].t == t && t in At(c, ls, m).threads
                  && StartOf(At(c, ls, m).threads[t]) == Some(ls[a].pc)
                  && StepsFrom(c, ls, m, t, At(c, ls, m).threads[t])
                  && Cause(c, At(c, ls, m), At(c, ls, m).threads[t], ls[m].ch, s.threads[t].status)
                  && Unavoidable(c, ls, m, t, At(c, ls, m).threads[t]))
  {
    RunOnce(c, ls);
    RunAt(c, ls, |ls|);
    hide Run;
    hide At;
    hide Next;
    hide Cause;
    var s := At(c, ls, |ls|);
    assert OncePc(s.log, t, s.threads[t]);
    var m, pc := CameFrom(c, ls, |ls|, t);
    RefusedPoint(c, At(c, ls, m), pc, ls[m].ch);
    CausePoints(c, At(c, ls, m), pc, ls[m].ch, s.threads[t].status);
    CauseUnavoidable(c, ls, m, t);
    hide Unavoidable;
    var a := Arrival(c, ls, m, t);
  }

  /** A fetch that fails was needed, and a key that is not found, or does not verify, is a fresh answer. */
  ghost predicate Unavoidable(c: Config, ls: seq<Label>, m: nat, t: Tid, pc: Pc) {
    match pc
    case Fetch(ex) => NeedsRefresh(c, ls, m, t, ex)
    case Close(ex, found) => CacheHit(c, ls, m, t, ex, found) || OwnRefresh(c, ls, m, t, ex, found)
    case _ => true
  }

  lemma CauseUnavoidable(c: Config, ls: seq<Label>, m: nat, t: Tid)
    requires Run(c, ls).Some? && m < |ls| && t in At(c, ls, m).threads
    ensures Unavoidable(c, ls, m, t, At(c, ls, m).threads[t])
  {
    hide Run;
    hide At;
    hide NeedsRefresh;
    hide CacheHit;
    hide OwnRefresh;
    if At(c, ls, m).threads[t].Fetch? {
      FetchIsNeeded(c, ls, m, t);
    } else if At(c, ls, m).threads[t].Close? {
      AnswerIsFresh(c, ls, m, t);
    }
  }

  lemma CausePoints(c: Config, s: State, pc: Pc, ch: Choice, status: nat)
    ensures Cause(c, s, pc, ch, status) ==> StartOf(pc).Some?
  {
  }

  // ---------------------------------------------------------------- arrivals

  lemma {:induction false} Persists(c: Config, ls: seq<Label>, m: nat, n: nat, t: Tid)
    requires Run(c, ls).Some? && m <= n <= |ls| && t in At(c, ls, m).threads
    ensures t in At(c, ls, n).threads
    decreases n
  {
    hide Run;
    hide At;
    hide Next;
    hide Effect;
    hide OpOf;
    hide LockReady;
    if m < n {
      Persists(c, ls, m, n - 1, t);
      RunAt(c, ls, n - 1);
    }
  }

  /** A thread arrives once. */
  lemma ArrivesOnce(c: Config, ls: seq<Label>, a: nat, b: nat)
    requires Run(c, ls).Some? && a < |ls| && b < |ls| && ls[a].Spawn? && ls[b].Spawn? && ls[a].t == ls[b].t
    ensures a == b
  {
    NoSecondArrival(c, ls, a, b);
    NoSecondArrival(c, ls, b, a);
  }

  lemma NoSecondArrival(c: Config, ls: seq<Label>, a: nat, b: nat)
    requires Run(c, ls).Some? && a < |ls| && b < |ls| && ls[a].Spawn?
    ensures a < b ==> !(ls[b].Spawn? && ls[b].t == ls[a].t)
  {
    hide Run;
    hide At;
    if a < b {
      RunAt(c, ls, a);
      Persists(c, ls, a + 1, b, ls[a].t);
      RunAt(c, ls, b);
    }
  }

  /** What becomes of a request for a token by credentials: it is issued one or refused, and refused with the status
      of its endpoint's checks if these fail, with 500 and for want of a nonce if they do not. */
  lemma CredentialsOutcome(c: Config, ls: seq<Label>, a: nat, t: Tid, r: Request)
    requires Run(c, ls).Some? && a < |ls| && ls[a] == Spawn(t, OAuthStart(r))
    requires t in Run(c, ls).value.threads && Finished(Run(c, ls).value.threads[t])
    ensures match Run(c, ls).value.threads[t]
            case Issued(_) => RefuseOAuth(c, r).None?
            case Refused(status) => status == if RefuseOAuth(c, r).Some? then RefuseOAuth(c, r).value else 500
            case _ => false
  {
    RunAt(c, ls, |ls|);
    KindKept(c, ls, a, |ls|, t);
  }

  /** And of one by exchange: refused with the status of its endpoint's checks if these fail, and else issued a token,
      or refused with 401 or 500. */
  lemma ExchangeOutcome(c: Config, ls: seq<Label>, a: nat, t: Tid, r: Request)
    requires Run(c, ls).Some? && a < |ls| && ls[a] == Spawn(t, ExchangeStart(r))
    requires t in Run(c, ls).value.threads && Finished(Run(c, ls).value.threads[t])
    ensures match Run(c, ls).value.threads[t]
            case Issued(_) => RefuseExchange(c, r).None?
            case Refused(status) =>
              if RefuseExchange(c, r).Some? then status == RefuseExchange(c, r).value else status in {401, 500}
            case _ => false
  {
    RunAt(c, ls, |ls|);
    KindKept(c, ls, a, |ls|, t);
    NeverNil(c, Run(c, ls).value, t);
  }

  /** A request to the protected API ends with a verdict, and a purger never ends. */
  lemma OthersEnd(c: Config, ls: seq<Label>, a: nat, t: Tid)
    requires Run(c, ls).Some? && a < |ls| && ls[a].Spawn? && ls[a].t == t
    requires t in Run(c, ls).value.threads && Finished(Run(c, ls).value.threads[t])
    ensures ls[a].pc.MwStart? ==> Run(c, ls).value.threads[t].MwDone?
    ensures !ls[a].pc.PurgeIdle?
  {
    RunAt(c, ls, |ls|);
    KindKept(c, ls, a, |ls|, t);
    NeverNil(c, Run(c, ls).value, t);
  }

  /** The points a request by credentials passes. */
  predicate OAuthPoint(c: Config, r: Request, pc: Pc) {
    match pc
    case OAuthStart(r') => r' == r
    case MintByCredentials(r') => r' == r && RefuseOAuth(c, r).None?
    case Refused(status) => status == if RefuseOAuth(c, r).Some? then RefuseOAuth(c, r).value else 500
    case _ => MintPoint(pc) && RefuseOAuth(c, r).None?
  }

  /** The points at which there is a token to hand out. */
  predicate MintPoint(pc: Pc) {
    pc.Stamp? || pc.PutLock? || pc.PutPending? || pc.Put? || pc.PutUnlock? || pc.Issued?
  }

  predicate ExchangePoint(c: Config, r: Request, pc: Pc) {
    match pc
    case ExchangeStart(r') => r' == r
    case Panicked => true
    case Refused(status) =>
      if RefuseExchange(c, r).Some? then status == RefuseExchange(c, r).value else status in {401, 500}
    case _ =>
      RefuseExchange(c, r).None?
      && (MintPoint(pc) || (!pc.OAuthStart? && !pc.MintByCredentials? && StartOf(pc) == Some(ExchangeStart(r))))
  }

  /** A thread that arrived at the first point may be found at the second. */
  predicate OfKind(c: Config, start: Pc, pc: Pc) {
    match start
    case OAuthStart(r) => OAuthPoint(c, r, pc)
    case ExchangeStart(r) => ExchangePoint(c, r, pc)
    case MwStart(_) => pc.MwStart? || pc.MwLock? || pc.MwRead? || pc.MwUnlock? || pc.MwDecide? || pc.MwDone?
    case PurgeIdle => pc.PurgeIdle? || pc.PurgeLock? || pc.PurgePending? || pc.PurgeLoop?
    case _ => false
  }

  lemma OAuthStep(c: Config, s: State, pc: Pc, ch: Choice, r: Request)
    requires OAuthPoint(c, r, pc)
    ensures OAuthPoint(c, r, Next(c, s, pc, ch))
  {
    hide Bearer.GenerateToken;
    hide RefuseOAuth;
  }

  lemma ExchangeStep(c: Config, s: State, pc: Pc, ch: Choice, r: Request)
    requires ExchangePoint(c, r, pc)
    ensures ExchangePoint(c, r, Next(c, s, pc, ch))
  {
    hide Jwt.Open;
    hide Jwt.Close;
    hide Bearer.GenerateToken;
    hide Bearer.Presented;
    hide RefuseOAuth;
    hide RefuseExchange;
    hide Fold;
    hide Find;
    hide T.Verdict;
  }

  lemma KindStep(c: Config, s: State, start: Pc, pc: Pc, ch: Choice)
    requires OfKind(c, start, pc)
    ensures OfKind(c, start, Next(c, s, pc, ch))
  {
    hide Next;
    match start
    case OAuthStart(r) => OAuthStep(c, s, pc, ch, r);
    case ExchangeStart(r) => ExchangeStep(c, s, pc, ch, r);
    case _ => OtherStep(c, s, start, pc, ch);
  }

  lemma OtherStep(c: Config, s: State, start: Pc, pc: Pc, ch: Choice)
    requires OfKind(c, start, pc) && !start.OAuthStart? && !start.ExchangeStart?
    ensures OfKind(c, start, Next(c, s, pc, ch))
  {
    hide Bearer.Presented;
    hide T.Verdict;
  }

  lemma KindAtFirst(c: Config, start: Pc)
    requires Starts(start)
    ensures OfKind(c, start, start)
  {
  }

  lemma {:induction false} KindKept(c: Config, ls: seq<Label>, a: nat, n: nat, t: Tid)
    requires Run(c, ls).Some? && a < |ls| && ls[a].Spawn? && ls[a].t == t
    requires n <= |ls| && t in At(c, ls, n).threads
    ensures OfKind(c, ls[a].pc, At(c, ls, n).threads[t])
    decreases n
  {
    hide Run;
    hide At;
    hide Next;
    hide OpOf;
    hide LockReady;
    hide OfKind;
    hide Starts;
    var m := LastMove(c, ls, n, t);
    if ls[m].Spawn? {
      ArrivesOnce(c, ls, a, m);
      KindAtFirst(c, ls[a].pc);
    } else {
      KindKept(c, ls, a, m, t);
      KindStep(c, At(c, ls, m), ls[a].pc, At(c, ls, m).threads[t], ls[m].ch);
    }
  }

  // ---------------------------------------------------------------- issued tokens are honoured

  /** A finished request was let through iff its token is the API key, or the store its decision went by was within the
      hour and earned. */
  lemma AuthorisedIsEarned(c: Config, ls: seq<Label>, u: Tid)
    requires Run(c, ls).Some? && u in Run(c, ls).value.threads && Run(c, ls).value.threads[u].MwDone?
    ensures var s := Run(c, ls).value;
            var tok := s.threads[u].tok;
            s.threads[u].ok <==>
            && tok != ""
            && (tok == c.apiKey || exists i: nat, k: nat :: GrantedBy(s.log, u, tok, i, k) && Earned(c, ls, k))
  {
    RunAt(c, ls, |ls|);
    var s := Run(c, ls).value;
    hide Run;
    hide Reachable;
    hide Earned;
    hide Granted;
    var tok := s.threads[u].tok;
    DecidedByHistory(c, s, u);
    GrantedByStore(s.log, u, tok);
    forall i: nat, k: nat | GrantedBy(s.log, u, tok, i, k) ensures Earned(c, ls, k) {
      StoredIsEarned(c, ls, k);
    }
  }

  /** Label x draws a nonce for a token. */
  ghost predicate Draws(c: Config, ls: seq<Label>, x: nat) {
    && x < |ls| && ls[x].Step? && ls[x].t in At(c, ls, x).threads && ls[x].ch.nonce.Some?
    && (At(c, ls, x).threads[ls[x].t].MintByCredentials? || At(c, ls, x).threads[ls[x].t].MintByJwt?)
  }

  /** No nonce is drawn twice: the one assumption made about the random source, and only here. */
  ghost predicate DistinctDraws(c: Config, ls: seq<Label>) {
    forall x: nat, y: nat :: x < y && Draws(c, ls, x) && Draws(c, ls, y) ==> ls[x].ch.nonce != ls[y].ch.nonce
  }

  lemma OneStoreEach(log: seq<T.Event>, t: Tid, pc: Pc, i: nat, k: nat)
    requires OncePc(log, t, pc) && i < |log| && k < |log| && log[i].Put? && log[k].Put? && log[i].q == t == log[k].q
    ensures i == k
  {
  }

  /** Then no two stores are of the same token. */
  lemma StoresDiffer(c: Config, ls: seq<Label>, i: nat, k: nat)
    requires Run(c, ls).Some? && DistinctDraws(c, ls)
    requires var log := Run(c, ls).value.log; i < k < |log| && log[i].Put? && log[k].Put?
    ensures var log := Run(c, ls).value.log; log[i].tok != log[k].tok
  {
    var s := Run(c, ls).value;
    RunOnce(c, ls);
    StoredIsEarned(c, ls, i);
    StoredIsEarned(c, ls, k);
    var x := DrawOf(c, ls, i);
    var y := DrawOf(c, ls, k);
    hide Run;
    hide At;
    hide Earned;
    hide Draws;
    hide Bearer.GenerateToken;
    if s.log[i].q == s.log[k].q {
      OneStoreEach(s.log, s.log[i].q, s.threads[s.log[i].q], i, k);
    }
    assert x != y;
    assert x < y || y < x;
    if s.log[i].tok == s.log[k].tok {
      Bearer.GenerateTokenInjective(c.mac, s.log[i].grant.nonce, s.log[k].grant.nonce);
    }
  }

  lemma DrawOf(c: Config, ls: seq<Label>, i: nat) returns (x: nat)
    requires Earned(c, ls, i)
    ensures var e := At(c, ls, |ls|).log[i];
            && Draws(c, ls, x) && ls[x].t == e.q && ls[x].ch.nonce == Some(e.grant.nonce)
            && e.tok == Bearer.GenerateToken(c.mac, e.grant.nonce)
  {
    hide At;
    hide Deserved;
    hide Closes;
    hide Bearer.GenerateToken;
    var e := At(c, ls, |ls|).log[i];
    var a: nat, y: nat, k: nat, n: nat :| Makes(c, ls, e.q, e.grant, e.tok, e.stamp, a, y, k, n);
    x := y;
  }

  /** And any earlier store of the token within the hour is as good as the latest. */
  lemma DistinctNoncesSuffice(c: Config, ls: seq<Label>, n: nat, t: Tid, tok: string)
    requires Run(c, ls).Some? && DistinctDraws(c, ls)
    requires n <= |Run(c, ls).value.log| && T.Run(Run(c, ls).value.log[..n]).Some?
    ensures var es := Run(c, ls).value.log[..n];
            T.Authorised(es, t, 0, tok) <==>
            exists j: nat, k: nat :: T.LookupAt(es, t, 0, tok, j) && k < j && T.IsPut(es[k], 0, tok)
                                     && T.Run(es).value.clock - es[k].stamp <= HOUR
  {
    var log := Run(c, ls).value.log;
    hide Run;
    hide T.Run;
    var es := log[..n];
    forall i, k | 0 <= i < k < |es| && es[i].Put? && es[k].Put? ensures es[i].tok != es[k].tok {
      StoresDiffer(c, ls, i, k);
    }
    T.DistinctDecision(es, t, 0, tok);
  }

  /** The token a request past its start was found to present. */
  function PresentedAt(pc: Pc): Option<string> {
    match pc
    case MwStart(p) => Some(Bearer.Presented(p))
    case MwLock(tok) => Some(tok)
    case MwRead(tok) => Some(tok)
    case MwUnlock(tok, _) => Some(tok)
    case MwDecide(tok, _) => Some(tok)
    case MwDone(tok, _) => Some(tok)
    case _ => None
  }

  lemma PresentedKept(c: Config, s: State, pc: Pc, ch: Choice)
    requires !Finished(pc)
    ensures PresentedAt(Next(c, s, pc, ch)).Some? ==> PresentedAt(pc) == PresentedAt(Next(c, s, pc, ch))
  {
    MiddlewarePoints(c, s, pc, ch);
    hide Bearer.Presented;
    NoRestart(c, s, pc, ch);
    hide Next;
  }

  lemma NoRestart(c: Config, s: State, pc: Pc, ch: Choice)
    requires !Finished(pc)
    ensures !Next(c, s, pc, ch).MwStart?
  {
    hide Jwt.Open;
    hide Jwt.Close;
    hide Bearer.GenerateToken;
    hide Bearer.Presented;
    hide RefuseOAuth;
    hide RefuseExchange;
    hide Fold;
    hide Find;
    hide T.Verdict;
  }

  lemma {:induction false} PresentedOnArrival(c: Config, ls: seq<Label>, n: nat, u: Tid) returns (a: nat)
    requires Run(c, ls).Some? && n <= |ls| && u in At(c, ls, n).threads && PresentedAt(At(c, ls, n).threads[u]).Some?
    ensures a < n && ls[a].Spawn? && ls[a].t == u && PresentedAt(ls[a].pc) == PresentedAt(At(c, ls, n).threads[u])
    decreases n
  {
    hide Run;
    hide At;
    hide Next;
    hide OpOf;
    hide LockReady;
    hide PresentedAt;
    var m := LastMove(c, ls, n, u);
    if ls[m].Spawn? {
      a := m;
    } else {
      PresentedKept(c, At(c, ls, m), At(c, ls, m).threads[u], ls[m].ch);
      a := PresentedOnArrival(c, ls, m, u);
    }
  }

  /** What the thread had stored when it was handed its token is all it ever stores. */
  lemma IssuedBy(c: Config, ls: seq<Label>, n: nat, t: Tid, i: nat)
    requires Run(c, ls).Some? && n <= |ls| && t in At(c, ls, n).threads && At(c, ls, n).threads[t].Issued?
    requires var log := Run(c, ls).value.log; i < |log| && log[i].Put? && log[i].q == t
    ensures i < |At(c, ls, n).log| && Run(c, ls).value.log[i].tok == At(c, ls, n).threads[t].tok
  {
    RunAt(c, ls, n);
    RunAt(c, ls, |ls|);
    Grows(c, ls, n, |ls|);
    Persists(c, ls, n, |ls|, t);
    RunOnce(c, ls);
    RunOnce(c, ls[..n]);
    hide Run;
    hide Reachable;
    var s, s' := At(c, ls, n), At(c, ls, |ls|);
    hide At;
    assert OncePc(s.log, t, s.threads[t]) && OncePc(s'.log, t, s'.threads[t]);
    hide OnceInv;
    SameStore(s.log, s'.log, t, s.threads[t].tok, s'.threads[t], i);
  }

  lemma SameStore(log: seq<T.Event>, log': seq<T.Event>, t: Tid, tok: string, pc': Pc, i: nat)
    requires OncePc(log, t, Issued(tok)) && log <= log' && OncePc(log', t, pc')
    requires i < |log'| && log'[i].Put? && log'[i].q == t
    ensures i < |log| && log'[i].tok == tok
  {
    var i0: nat :| OnlyPut(log, t, tok, i0);
    assert log'[i0] == log[i0];
    OneStoreEach(log', t, pc', i0, i);
  }

  /** A request that decides had looked its token up after it arrived. */
  lemma LooksUpAfter(c: Config, ls: seq<Label>, d: nat, u: Tid, a: nat) returns (j: nat)
    requires Run(c, ls).Some? && d < |ls| && u in At(c, ls, d).threads && At(c, ls, d).threads[u].MwDecide?
    requires a < |ls| && ls[a].Spawn? && ls[a].t == u
    ensures var log := At(c, ls, d).log;
            |At(c, ls, a).log| <= j < |log| && log[j] == T.Lookup(u, 0, At(c, ls, d).threads[u].tok)
  {
    hide Run;
    hide At;
    hide Next;
    hide Apply;
    hide PresentedAt;
    var m1, pc1 := CameFrom(c, ls, d, u);
    MiddlewarePoints(c, At(c, ls, m1), pc1, ls[m1].ch);
    var m2, pc2 := CameFrom(c, ls, m1, u);
    MiddlewarePoints(c, At(c, ls, m2), pc2, ls[m2].ch);
    RunAt(c, ls, m2);
    LogStep(c, At(c, ls, m2), ls[m2]);
    assert PresentedAt(pc2).Some? by {
      PresentedSomewhere(pc2);
    }
    var b := PresentedOnArrival(c, ls, m2, u);
    ArrivesOnce(c, ls, a, b);
    Grows(c, ls, a, m2);
    Grows(c, ls, m2 + 1, d);
    j := |At(c, ls, m2).log|;
  }

  lemma PresentedSomewhere(pc: Pc)
    ensures pc.MwRead? || pc.MwDone? ==> PresentedAt(pc) == Some(pc.tok)
  {
  }

  /** The entry a request decides by, when its token was stored once, before it was looked up. */
  lemma SeenEntry(log: seq<T.Event>, u: Tid, tok: string, entry: Option<int>, i: nat, j: nat)
    requires Saw(log, u, tok, entry) && i < j < |log| && log[j] == T.Lookup(u, 0, tok)
    requires T.IsPut(log[i], 0, tok) && forall k :: 0 <= k < |log| && T.IsPut(log[k], 0, tok) ==> k == i
    ensures T.Verdict(T.Run(log).value.clock, entry) <==> T.Run(log).value.clock - log[i].stamp <= HOUR
  {
    hide T.Run;
    assert log[..|log|] == log;
    T.FoundIsHistory(log, |log|, u);
    var last := T.LastLookup(log, |log|, u).value;
    assert T.LastPut(log, last, 0, tok) == Some(i);
  }

  /** Label d is the decision of request u about the token. */
  ghost predicate DecidesIn(c: Config, ls: seq<Label>, d: nat, u: Tid, tok: string) {
    && d < |ls| && ls[d].Step? && ls[d].t == u && u in At(c, ls, d).threads
    && At(c, ls, d).threads[u].MwDecide? && At(c, ls, d).threads[u].tok == tok
  }

  /** A request through the middleware is done with the token it presented. */
  lemma SameToken(c: Config, ls: seq<Label>, a: nat, u: Tid)
    requires Run(c, ls).Some? && a < |ls| && ls[a].Spawn? && ls[a].t == u && ls[a].pc.MwStart?
    requires u in At(c, ls, |ls|).threads && At(c, ls, |ls|).threads[u].MwDone?
    ensures At(c, ls, |ls|).threads[u].tok == Bearer.Presented(ls[a].pc.presented)
  {
    hide Run;
    hide At;
    hide Bearer.Presented;
    var b := PresentedOnArrival(c, ls, |ls|, u);
    ArrivesOnce(c, ls, a, b);
  }

  /** The whole of authorisation. A request that arrived with credentials is let through iff the token these present,
      the bearer token or else the Basic user, is not empty and is the API key or one whose latest store before the
      request's lookup was stamped within the hour before its decision and earned. */
  lemma AuthorisationExact(c: Config, ls: seq<Label>, a: nat, u: Tid)
    requires Run(c, ls).Some? && a < |ls| && ls[a].Spawn? && ls[a].t == u && ls[a].pc.MwStart?
    requires u in Run(c, ls).value.threads && Run(c, ls).value.threads[u].MwDone?
    ensures var s, tok := Run(c, ls).value, Bearer.Presented(ls[a].pc.presented);
            s.threads[u].ok <==>
            && tok != ""
            && (tok == c.apiKey || exists i: nat, k: nat :: GrantedBy(s.log, u, tok, i, k) && Earned(c, ls, k))
  {
    RunAt(c, ls, |ls|);
    hide Run;
    hide At;
    hide Earned;
    hide GrantedBy;
    hide Bearer.Presented;
    SameToken(c, ls, a, u);
    AuthorisedIsEarned(c, ls, u);
  }

  lemma ClosedVerdict(c: Config, ls: seq<Label>, u: Tid)
    requires Run(c, ls).Some? && u in Run(c, ls).value.threads && Run(c, ls).value.threads[u].MwDone?
    ensures var pc := Run(c, ls).value.threads[u]; pc.tok != "" && pc.tok == c.apiKey ==> pc.ok
  {
    RunAt(c, ls, |ls|);
    DecidedByHistory(c, Run(c, ls).value, u);
  }

  lemma DecidedWhen(c: Config, ls: seq<Label>, u: Tid) returns (d: nat)
    requires Run(c, ls).Some? && u in At(c, ls, |ls|).threads && At(c, ls, |ls|).threads[u].MwDone?
    requires At(c, ls, |ls|).threads[u].tok !in {"", c.apiKey}
    ensures var pc := At(c, ls, |ls|).threads[u];
            d < |ls| && DecidesIn(c, ls, d, u, pc.tok)
            && pc.ok == T.Verdict(At(c, ls, d).clock, At(c, ls, d).threads[u].entry)
  {
    hide Run;
    hide At;
    hide Next;
    hide T.Verdict;
    var m, pc := CameFrom(c, ls, |ls|, u);
    MiddlewarePoints(c, At(c, ls, m), pc, ls[m].ch);
    d := m;
  }

  /** A token in hand is honoured for its hour. Thread t was issued tok; request u arrives after that and presents
      it; then, whatever runs in between, purges included, u is let through exactly if it decides no more than an
      hour after the stamp of t's store. */
  lemma IssuedIsHonoured(c: Config, ls: seq<Label>, n: nat, t: Tid, i: nat, a: nat, u: Tid)
    requires Run(c, ls).Some? && DistinctDraws(c, ls)
    requires n <= a < |ls| && t in At(c, ls, n).threads && At(c, ls, n).threads[t].Issued?
    requires ls[a].Spawn? && ls[a].t == u && ls[a].pc.MwStart?
    requires Bearer.Presented(ls[a].pc.presented) == At(c, ls, n).threads[t].tok
    requires u in Run(c, ls).value.threads && Run(c, ls).value.threads[u].MwDone?
    requires var log := Run(c, ls).value.log; i < |log| && log[i].Put? && log[i].q == t
    ensures var ok, tok := Run(c, ls).value.threads[u].ok, At(c, ls, n).threads[t].tok;
            if tok == c.apiKey then ok
            else exists d: nat :: d < |ls| && DecidesIn(c, ls, d, u, tok)
                                  && (ok <==> At(c, ls, d).clock - Run(c, ls).value.log[i].stamp <= HOUR)
  {
    RunAt(c, ls, |ls|);
    IssuedBy(c, ls, n, t, i);
    SameToken(c, ls, a, u);
    StoredIsEarned(c, ls, i);
    NonEmpty(c, ls, i);
    ClosedVerdict(c, ls, u);
    Grows(c, ls, n, a);
    hide Run;
    hide At;
    hide Earned;
    hide Bearer.Presented;
    hide DistinctDraws;
    var tok := At(c, ls, n).threads[t].tok;
    if tok != c.apiKey {
      var d := DecidedWhen(c, ls, u);
      DecisionOnStored(c, ls, d, u, i, a);
    }
  }

  lemma NonEmpty(c: Config, ls: seq<Label>, i: nat)
    requires Earned(c, ls, i)
    ensures At(c, ls, |ls|).log[i].tok != ""
  {
    var x := DrawOf(c, ls, i);
    Bearer.TokenChars(c.mac, At(c, ls, |ls|).log[i].grant.nonce);
  }

  lemma DecisionOnStored(c: Config, ls: seq<Label>, d: nat, u: Tid, i: nat, a: nat)
    requires Run(c, ls).Some? && DistinctDraws(c, ls)
    requires d < |ls| && u in At(c, ls, d).threads && At(c, ls, d).threads[u].MwDecide?
    requires a < |ls| && ls[a].Spawn? && ls[a].t == u
    requires var log := Run(c, ls).value.log;
             i < |log| && i < |At(c, ls, a).log| && log[i].Put? && log[i].tok == At(c, ls, d).threads[u].tok
    ensures var pc := At(c, ls, d).threads[u];
            T.Verdict(At(c, ls, d).clock, pc.entry) <==> At(c, ls, d).clock - Run(c, ls).value.log[i].stamp <= HOUR
  {
    RunAt(c, ls, |ls|);
    SawAtDecision(c, ls, d, u);
    OnlyStore(c, ls, i);
    LogsAgree(c, ls, d);
    var j := LooksUpAfter(c, ls, d, u, a);
    hide *;
    var log, log', pc := At(c, ls, d).log, At(c, ls, |ls|).log, At(c, ls, d).threads[u];
    assert log[i] == log'[i];
    SeenEntry(log, u, pc.tok, pc.entry, i, j);
  }

  lemma SawAtDecision(c: Config, ls: seq<Label>, d: nat, u: Tid)
    requires Run(c, ls).Some? && d < |ls| && u in At(c, ls, d).threads && At(c, ls, d).threads[u].MwDecide?
    ensures var s := At(c, ls, d);
            && T.Run(s.log).Some? && T.Run(s.log).value.clock == s.clock
            && Saw(s.log, u, s.threads[u].tok, s.threads[u].entry)
  {
    RunAt(c, ls, d);
    hide Run;
    hide At;
    hide Reachable;
    hide LockInv;
    hide CacheInv;
    hide GrantInv;
    hide Saw;
    var s := At(c, ls, d);
    ReachableInv(c, s);
    assert TokenPc(c, s, u, s.threads[u]);
  }

  lemma LogsAgree(c: Config, ls: seq<Label>, d: nat)
    requires Run(c, ls).Some? && d <= |ls|
    ensures At(c, ls, d).log <= At(c, ls, |ls|).log
  {
    Grows(c, ls, d, |ls|);
  }

  lemma OnlyStore(c: Config, ls: seq<Label>, i: nat)
    requires Run(c, ls).Some? && DistinctDraws(c, ls)
    requires var log := Run(c, ls).value.log; i < |log| && log[i].Put?
    ensures var log := Run(c, ls).value.log;
            && T.IsPut(log[i], 0, log[i].tok)
            && forall k :: 0 <= k < |log| && T.IsPut(log[k], 0, log[i].tok) ==> k == i
  {
    RunAt(c, ls, |ls|);
    StoredIsBacked(c, Run(c, ls).value, i);
    hide Run;
    hide Reachable;
    hide DistinctDraws;
    var log := Run(c, ls).value.log;
    forall k: nat | k < |log| && log[k].Put? && k != i ensures log[k].tok != log[i].tok {
      if k < i {
        StoresDiffer(c, ls, k, i);
      } else {
        StoresDiffer(c, ls, i, k);
      }
    }
  }
}
