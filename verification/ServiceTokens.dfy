/** The token store in every reachable state: the service refines the atomic token runs, and the log tells the truth. */
module ServiceTokens {
  import opened Wrappers
  import opened Jwk
  import opened Requests
  import opened Service
  import opened ServiceLocks
  import Bearer
  import Jwt
  import T = TokenRuns

  /** The token map as it will be once the purge loop that may be running under the write lock is through. */
  function Settled(s: State): T.Store
    requires TokenLock in s.locks
  {
    match s.locks[TokenLock].writer
    case None => s.tokens
    case Some(w) =>
      if w in s.threads && s.threads[w].PurgeLoop?
      then Swept(s.tokens, s.threads[w].now, s.threads[w].todo)
      else s.tokens
  }

  function Swept(m: T.Store, now: int, todo: set<string>): T.Store {
    map tok | tok in m && !(tok in todo && T.Expired(now, m[tok])) :: m[tok]
  }

  /** Thread t looked tok up and saw entry. */
  ghost predicate Saw(log: seq<T.Event>, t: Tid, tok: string, entry: Option<int>) {
    && T.Run(log).Some? && t in T.Run(log).value.found && T.Run(log).value.found[t] == entry
    && (var j := T.LastLookup(log, |log|, t); j.Some? && log[j.value] == T.Lookup(t, 0, tok))
  }

  /** Thread t decided about tok in event i, as the history up to there called for. */
  ghost predicate DecidedAt(log: seq<T.Event>, t: Tid, tok: string, ok: bool, i: nat) {
    && i < |log| && log[i] == T.Decide(t)
    && T.Run(log[..i]).Some? && ok == T.Authorised(log[..i], t, 0, tok)
  }

  ghost predicate DecidesOnce(log: seq<T.Event>, t: Tid, i: nat) {
    forall j :: 0 <= j < |log| && log[j] == T.Decide(t) ==> j == i
  }

  /** It did so once, and the run of the atomic store recorded the verdict. */
  ghost predicate Decided(log: seq<T.Event>, t: Tid, tok: string, ok: bool) {
    && (exists i :: DecidedAt(log, t, tok, ok, i) && DecidesOnce(log, t, i))
    && T.Run(log).Some? && (t, ok) in T.Run(log).value.verdicts
  }

  ghost predicate TokenPc(c: Config, s: State, t: Tid, pc: Pc) {
    match pc
    case MwLock(tok) => tok != "" && tok != c.apiKey
    case MwRead(tok) => tok != "" && tok != c.apiKey
    case MwUnlock(tok, entry) => tok != "" && tok != c.apiKey && Saw(s.log, t, tok, entry)
    case MwDecide(tok, entry) => tok != "" && tok != c.apiKey && Saw(s.log, t, tok, entry)
    case MwDone(tok, ok) => if tok == "" then !ok else if tok == c.apiKey then ok else Decided(s.log, t, tok, ok)
    case PutLock(_, _, stamp) => stamp <= s.clock
    case PutPending(_, _, stamp) => stamp <= s.clock
    case Put(_, _, stamp) => stamp <= s.clock
    case PurgeLock(now) => now <= s.clock
    case PurgePending(now) => now <= s.clock
    case _ => true
  }

  ghost predicate TokenInv(c: Config, s: State) {
    && TokenLock in s.locks
    && T.Run(s.log).Some?
    && T.Run(s.log).value.clock == s.clock
    && T.StoreOf(T.Run(s.log).value, 0) == Settled(s)
    && (forall t :: t in s.threads ==> TokenPc(c, s, t, s.threads[t]))
    && (forall i :: 0 <= i < |s.log| && s.log[i].Decide? ==> s.log[i].q in s.threads && s.threads[s.log[i].q].MwDone?)
  }

  /** The atomic event a label amounts to; the other steps, all lock operations and single deletions among them, are
      silent. */
  function EventOf(s: State, l: Label): Option<T.Event>
    requires Fires(s, l)
  {
    match l
    case Tick(d) => Some(T.Tick(d))
    case Step(t, _) =>
      (match s.threads[t]
       case MwRead(tok) => Some(T.Lookup(t, 0, tok))
       case MwDecide(_, _) => Some(T.Decide(t))
       case Put(g, tok, stamp) => Some(T.Put(t, 0, tok, stamp, g))
       case PurgePending(now) => Some(T.Purge(0, now))
       case _ => None)
    case _ => None
  }

  function Append(log: seq<T.Event>, e: Option<T.Event>): seq<T.Event> {
    match e case None => log case Some(x) => log + [x]
  }

  lemma LogStep(c: Config, s: State, l: Label)
    requires Fires(s, l)
    ensures Apply(c, s, l).log == Append(s.log, EventOf(s, l))
    ensures Apply(c, s, l).clock == s.clock + if l.Tick? then l.d else 0
  {
    hide Next;
    hide OpOf;
  }

  // ---------------------------------------------------------------- refinement of one step

  lemma WriterIs(s: State, t: Tid)
    requires LockInv(s) && t in s.threads
    ensures TokenLock in s.locks
    ensures HoldOf(s.threads[t]) == Writes(TokenLock) <==> s.locks[TokenLock].writer == Some(t)
    ensures HoldOf(s.threads[t]) == Reads(TokenLock) ==> s.locks[TokenLock].writer.None?
    ensures s.locks[TokenLock].pending.Some? ==> s.locks[TokenLock].writer.None?
  {
    hide HoldOf;
    assert Tallies(s.threads, TokenLock, s.locks[TokenLock]);
    assert t in Readers(s.threads, TokenLock) <==> HoldOf(s.threads[t]) == Reads(TokenLock);
  }

  /** Where the writer of the token map stands, seen from a thread about to step. */
  lemma WriterPoints(c: Config, s: State, t: Tid, ch: Choice)
    requires LockInv(s) && Enabled(s, t, ch)
    ensures TokenLock in s.locks
    ensures var pc, w := s.threads[t], s.locks[TokenLock].writer;
            && (pc.Put? || pc.PurgeLoop? || OpOf(pc) == Unlock(TokenLock) ==> w == Some(t))
            && (pc.PurgePending? || pc.MwRead? || OpOf(pc) == Acquire(TokenLock) ==> w.None?)
  {
    WriterIs(s, t);
  }

  lemma SweptFirst(m: T.Store, now: int)
    ensures Swept(m, now, m.Keys) == T.Purged(m, now)
  {
  }

  lemma SweptLast(m: T.Store, now: int)
    ensures Swept(m, now, {}) == m
  {
  }

  lemma SweptNext(m: T.Store, now: int, todo: set<string>, entry: string)
    requires entry in todo
    ensures entry in m && T.Expired(now, m[entry]) ==> Swept(m - {entry}, now, todo - {entry}) == Swept(m, now, todo)
    ensures !(entry in m && T.Expired(now, m[entry])) ==> Swept(m, now, todo - {entry}) == Swept(m, now, todo)
  {
  }

  /** What a step does to the token map and to the write lock over it. */
  lemma TokensStep(c: Config, s: State, t: Tid, ch: Choice)
    requires Enabled(s, t, ch)
    ensures var pc, s' := s.threads[t], Apply(c, s, Step(t, ch));
            && s'.threads == s.threads[t := Next(c, s, pc, ch)]
            && s'.locks.Keys == s.locks.Keys
            && s'.tokens == (if pc.Put? then s.tokens[pc.tok := pc.stamp + T.TTL]
                             else if pc.PurgeLoop? && ch.entry in pc.todo && ch.entry in s.tokens
                                     && T.Expired(pc.now, s.tokens[ch.entry]) then s.tokens - {ch.entry}
                             else s.tokens)
            && (TokenLock in s.locks ==>
                s'.locks[TokenLock].writer ==
                (if OpOf(pc) == Acquire(TokenLock) then Some(t)
                 else if OpOf(pc) == Unlock(TokenLock) then None
                 else s.locks[TokenLock].writer))
  {
    hide Next;
    hide OpOf;
  }

  /** The points at which the write lock over the tokens changes hands or the purge loop runs. */
  lemma PurgeNext(c: Config, s: State, pc: Pc, ch: Choice)
    ensures var pc' := Next(c, s, pc, ch);
            && (pc.PurgePending? ==> pc' == PurgeLoop(pc.now, s.tokens.Keys) && OpOf(pc) == Acquire(TokenLock))
            && (pc.PurgeLoop? ==> if pc.todo == {} then pc' == PurgeIdle && OpOf(pc) == Unlock(TokenLock)
                                  else pc' == PurgeLoop(pc.now, pc.todo - {ch.entry}) && OpOf(pc) == Nothing)
            && (!pc.PurgePending? && !pc.PurgeLoop? ==> !pc'.PurgeLoop?)
            && (pc.Put? ==> OpOf(pc) == Nothing)
  {
    hide Jwt.Open;
    hide Jwt.Close;
    hide Bearer.GenerateToken;
    hide Bearer.Presented;
    hide RefuseOAuth;
    hide RefuseExchange;
    hide Fold;
    hide Find;
    hide T.Verdict;
  }

  /** While another thread is the writer, a step touches neither the map nor the lock. */
  lemma SettledElsewhere(c: Config, s: State, t: Tid, ch: Choice, w: Tid)
    requires LockInv(s) && Enabled(s, t, ch) && s.locks[TokenLock].writer == Some(w) && w != t
    ensures TokenLock in Apply(c, s, Step(t, ch)).locks
    ensures Settled(Apply(c, s, Step(t, ch))) == Settled(s)
    ensures !s.threads[t].Put? && !s.threads[t].PurgePending? && !s.threads[t].MwRead?
  {
    assert TokenLock in s.locks;
    hide Next;
    hide OpOf;
    hide HoldOf;
    hide Apply;
    hide LockInv;
    hide LockReady;
    WriterPoints(c, s, t, ch);
    TokensStep(c, s, t, ch);
  }

  /** While it is the writer itself, or there is none. */
  lemma SettledHere(c: Config, s: State, t: Tid, ch: Choice)
    requires LockInv(s) && Enabled(s, t, ch)
    requires s.locks[TokenLock].writer.None? || s.locks[TokenLock].writer == Some(t)
    ensures TokenLock in Apply(c, s, Step(t, ch)).locks
    ensures var m, m' := Settled(s), Settled(Apply(c, s, Step(t, ch)));
            match s.threads[t]
            case Put(_, tok, stamp) => m' == m[tok := stamp + T.TTL]
            case PurgePending(now) => m' == T.Purged(m, now)
            case _ => m' == m
    ensures s.threads[t].MwRead? ==> Settled(s) == s.tokens
  {
    assert TokenLock in s.locks;
    hide Next;
    hide OpOf;
    hide HoldOf;
    hide Apply;
    hide LockInv;
    hide LockReady;
    hide Swept;
    hide T.Purged;
    WriterPoints(c, s, t, ch);
    TokensStep(c, s, t, ch);
    PurgeNext(c, s, s.threads[t], ch);
    match s.threads[t]
    case PurgePending(now) => SweptFirst(s.tokens, now);
    case PurgeLoop(now, todo) =>
      if todo != {} {
        SweptNext(s.tokens, now, todo, ch.entry);
      } else {
        SweptLast(s.tokens, now);
      }
    case _ =>
  }

  /** The settled map changes only with the event a step logs, and as that event says. */
  lemma SettledStep(c: Config, s: State, t: Tid, ch: Choice)
    requires LockInv(s) && Enabled(s, t, ch)
    ensures TokenLock in Apply(c, s, Step(t, ch)).locks
    ensures var m, m' := Settled(s), Settled(Apply(c, s, Step(t, ch)));
            match s.threads[t]
            case Put(_, tok, stamp) => m' == m[tok := stamp + T.TTL]
            case PurgePending(now) => m' == T.Purged(m, now)
            case _ => m' == m
    ensures s.threads[t].MwRead? ==> Settled(s) == s.tokens
  {
    hide Next;
    hide OpOf;
    hide Apply;
    hide Settled;
    TokensStep(c, s, t, ch);
    if s.locks[TokenLock].writer.None? || s.locks[TokenLock].writer == Some(t) {
      SettledHere(c, s, t, ch);
    } else {
      SettledElsewhere(c, s, t, ch, s.locks[TokenLock].writer.value);
    }
  }

  /** The event of a step can happen in the atomic store, which then stays in step with the settled map. */
  lemma AtomicStep(c: Config, s: State, t: Tid, ch: Choice, e: T.Event)
    requires LockInv(s) && TokenInv(c, s) && Enabled(s, t, ch) && EventOf(s, Step(t, ch)) == Some(e)
    ensures var a, s' := T.Run(s.log).value, Apply(c, s, Step(t, ch));
            && TokenLock in s'.locks
            && T.Fires(a, e) && T.Apply(a, e).clock == s.clock && T.StoreOf(T.Apply(a, e), 0) == Settled(s')
  {
    hide Next;
    hide OpOf;
    hide LockInv;
    hide Apply;
    hide LockReady;
    SettledStep(c, s, t, ch);
    assert TokenPc(c, s, t, s.threads[t]);
    hide Settled;
  }

  /** The run of the atomic store is in step with the service. */
  ghost predicate InStep(s: State) {
    && TokenLock in s.locks && T.Run(s.log).Some? && T.Run(s.log).value.clock == s.clock
    && T.StoreOf(T.Run(s.log).value, 0) == Settled(s)
  }

  lemma RefinesStep(c: Config, s: State, t: Tid, ch: Choice)
    requires LockInv(s) && TokenInv(c, s) && Enabled(s, t, ch)
    ensures InStep(Apply(c, s, Step(t, ch)))
  {
    hide Apply;
    hide Settled;
    hide LockInv;
    hide LockReady;
    hide OpOf;
    hide EventOf;
    hide TokenPc;
    hide T.Run;
    hide T.StoreOf;
    hide T.Fires;
    hide T.Apply;
    LogStep(c, s, Step(t, ch));
    SettledStep(c, s, t, ch);
    SilentEvents(s, t, ch);
    var e := EventOf(s, Step(t, ch));
    if e.Some? {
      AtomicStep(c, s, t, ch, e.value);
      T.RunSnoc(s.log, e.value);
    }
  }

  /** Without an event neither a store nor a purge is due. */
  lemma SilentEvents(s: State, t: Tid, ch: Choice)
    requires Enabled(s, t, ch)
    ensures EventOf(s, Step(t, ch)).None? ==> !s.threads[t].Put? && !s.threads[t].PurgePending?
  {
  }

  lemma RefinesElsewhere(c: Config, s: State, l: Label)
    requires TokenInv(c, s) && Fires(s, l) && !l.Step?
    requires LockInv(s)
    ensures InStep(Apply(c, s, l))
  {
    LogStep(c, s, l);
    if l.Tick? {
      T.RunSnoc(s.log, T.Tick(l.d));
    }
    WriterStays(s);
    hide T.Run;
  }

  /** A thread that arrives is not the writer. */
  lemma WriterStays(s: State)
    requires LockInv(s)
    ensures TokenLock in s.locks
    ensures s.locks[TokenLock].writer.Some? ==> s.locks[TokenLock].writer.value in s.threads
  {
    assert Tallies(s.threads, TokenLock, s.locks[TokenLock]);
  }

  /** Refinement: the run of the atomic store stays in step with the service. */
  lemma Refines(c: Config, s: State, l: Label)
    requires LockInv(s) && TokenInv(c, s) && Fires(s, l)
    ensures InStep(Apply(c, s, l))
  {
    hide Apply;
    hide LockInv;
    hide TokenInv;
    hide InStep;
    match l
    case Step(t, ch) => RefinesStep(c, s, t, ch);
    case _ => RefinesElsewhere(c, s, l);
  }

  // ---------------------------------------------------------------- what the threads know

  lemma {:induction false} LastLookupAppend(es: seq<T.Event>, e: T.Event, n: nat, q: nat)
    requires n <= |es|
    ensures T.LastLookup(es + [e], n, q) == T.LastLookup(es, n, q)
  {
    if n > 0 {
      LastLookupAppend(es, e, n - 1, q);
    }
  }

  lemma SawAppend(log: seq<T.Event>, e: T.Event, t: Tid, tok: string, entry: Option<int>)
    requires T.Run(log + [e]).Some?
    ensures e == T.Lookup(t, 0, tok) && entry == T.Get(T.Run(log).value, 0, tok) ==> Saw(log + [e], t, tok, entry)
    ensures !T.IsLookup(e, t) && Saw(log, t, tok, entry) ==> Saw(log + [e], t, tok, entry)
  {
  }

  lemma DecidedAppend(log: seq<T.Event>, e: T.Event, t: Tid, tok: string, ok: bool)
    requires T.Run(log + [e]).Some? && Decided(log, t, tok, ok) && e != T.Decide(t)
    ensures Decided(log + [e], t, tok, ok)
  {
    T.RunSnoc(log, e);
    var i: nat :| DecidedAt(log, t, tok, ok, i) && DecidesOnce(log, t, i);
    assert (log + [e])[..i] == log[..i];
    assert DecidedAt(log + [e], t, tok, ok, i) && DecidesOnce(log + [e], t, i);
  }

  lemma DecidedNow(log: seq<T.Event>, t: Tid, tok: string, entry: Option<int>)
    requires Saw(log, t, tok, entry) && forall i :: 0 <= i < |log| ==> log[i] != T.Decide(t)
    ensures Decided(log + [T.Decide(t)], t, tok, T.Verdict(T.Run(log).value.clock, entry))
  {
    hide T.Run;
    hide T.Authorised;
    hide T.LastLookup;
    var log' := log + [T.Decide(t)];
    T.RunSnoc(log, T.Decide(t));
    T.DecisionExact(log, t);
    var ok := T.Verdict(T.Run(log).value.clock, entry);
    var vs := T.Run(log').value.verdicts;
    assert vs[|vs| - 1] == (t, ok);
    assert log'[..|log|] == log;
    assert DecidedAt(log', t, tok, ok, |log|) && DecidesOnce(log', t, |log|);
  }

  /** The logged events of other threads leave what a thread knows as it was. */
  lemma TokenPcStable(c: Config, s: State, s': State, e: Option<T.Event>, t: Tid, pc: Pc)
    requires TokenPc(c, s, t, pc) && s'.log == Append(s.log, e) && T.Run(s'.log).Some? && s.clock <= s'.clock
    requires e.Some? ==> !T.IsLookup(e.value, t) && e.value != T.Decide(t)
    ensures TokenPc(c, s', t, pc)
  {
    if e.Some? {
      match pc
      case MwUnlock(tok, entry) => SawAppend(s.log, e.value, t, tok, entry);
      case MwDecide(tok, entry) => SawAppend(s.log, e.value, t, tok, entry);
      case MwDone(tok, ok) => if tok != "" && tok != c.apiKey { DecidedAppend(s.log, e.value, t, tok, ok); }
      case _ =>
    }
  }

  /** Steps without an event: what the next point promises follows from the present one. */
  lemma TokenNextSilent(c: Config, s: State, t: Tid, pc: Pc, ch: Choice, s': State)
    requires TokenPc(c, s, t, pc) && s'.clock == s.clock && s'.log == s.log
    requires !pc.MwRead? && !pc.MwDecide?
    ensures TokenPc(c, s', t, Next(c, s, pc, ch))
  {
    hide Jwt.Open;
    hide Jwt.Close;
    hide Bearer.GenerateToken;
    hide Bearer.Presented;
    hide RefuseOAuth;
    hide RefuseExchange;
    hide Fold;
    hide Find;
    hide Saw;
    hide Decided;
    hide T.Verdict;
  }

  lemma TokenNextPut(c: Config, s: State, t: Tid, pc: Pc, ch: Choice, s': State)
    requires pc.Put? || pc.PurgePending?
    ensures TokenPc(c, s', t, Next(c, s, pc, ch))
  {
  }

  lemma TokenNext(c: Config, s: State, t: Tid, ch: Choice, s': State)
    requires TokenInv(c, s) && Enabled(s, t, ch) && s'.clock == s.clock && T.Run(s'.log).Some?
    requires s'.log == Append(s.log, EventOf(s, Step(t, ch)))
    requires s.threads[t].MwRead? ==> Settled(s) == s.tokens
    ensures TokenPc(c, s', t, Next(c, s, s.threads[t], ch))
  {
    assert TokenPc(c, s, t, s.threads[t]);
    hide OpOf;
    hide LockReady;
    hide Next;
    hide TokenPc;
    hide T.Run;
    var pc := s.threads[t];
    match pc
    case MwRead(_) => TokenNextRead(c, s, t, ch, s');
    case MwDecide(_, _) => TokenNextDecide(c, s, t, pc, ch, s');
    case Put(_, _, _) => TokenNextPut(c, s, t, pc, ch, s');
    case PurgePending(_) => TokenNextPut(c, s, t, pc, ch, s');
    case _ => TokenNextSilent(c, s, t, pc, ch, s');
  }

  lemma TokenNextRead(c: Config, s: State, t: Tid, ch: Choice, s': State)
    requires TokenInv(c, s) && t in s.threads && s.threads[t].MwRead? && Settled(s) == s.tokens
    requires s'.log == s.log + [T.Lookup(t, 0, s.threads[t].tok)] && T.Run(s'.log).Some?
    ensures TokenPc(c, s', t, Next(c, s, s.threads[t], ch))
  {
    assert TokenPc(c, s, t, s.threads[t]);
    MwNext(c, s, s.threads[t], ch);
    hide Next;
    hide Saw;
    hide T.Run;
    NowSaw(s, s'.log, t, s.threads[t].tok);
  }

  lemma TokenNextDecide(c: Config, s: State, t: Tid, pc: Pc, ch: Choice, s': State)
    requires TokenInv(c, s) && t in s.threads && s.threads[t] == pc && pc.MwDecide? && s'.clock == s.clock
    requires s'.log == s.log + [T.Decide(t)]
    ensures TokenPc(c, s', t, Next(c, s, pc, ch))
  {
    assert TokenPc(c, s, t, pc);
    MwNext(c, s, pc, ch);
    hide Next;
    hide Decided;
    hide Saw;
    hide Settled;
    hide T.Run;
    DecidedNow(s.log, t, pc.tok, pc.entry);
  }

  lemma NowSaw(s: State, log': seq<T.Event>, t: Tid, tok: string)
    requires TokenLock in s.locks && T.Run(s.log).Some? && T.StoreOf(T.Run(s.log).value, 0) == Settled(s) == s.tokens
    requires log' == s.log + [T.Lookup(t, 0, tok)] && T.Run(log').Some?
    ensures Saw(log', t, tok, if tok in s.tokens then Some(s.tokens[tok]) else None)
  {
    hide T.Run;
    SawAppend(s.log, T.Lookup(t, 0, tok), t, tok, if tok in s.tokens then Some(s.tokens[tok]) else None);
  }

  lemma MwNext(c: Config, s: State, pc: Pc, ch: Choice)
    ensures pc.MwRead? ==>
            Next(c, s, pc, ch) == MwUnlock(pc.tok, if pc.tok in s.tokens then Some(s.tokens[pc.tok]) else None)
    ensures pc.MwDecide? ==> Next(c, s, pc, ch) == MwDone(pc.tok, T.Verdict(s.clock, pc.entry))
  {
  }

  /** Only a thread that is through has decided. */
  lemma DecidersDone(c: Config, s: State, l: Label)
    requires TokenInv(c, s) && Fires(s, l)
    ensures var s' := Apply(c, s, l);
            forall i :: 0 <= i < |s'.log| && s'.log[i].Decide? ==>
              s'.log[i].q in s'.threads && s'.threads[s'.log[i].q].MwDone?
  {
    LogStep(c, s, l);
    hide Effect;
    hide OpOf;
    hide LockReady;
    if l.Step? {
      MwNext(c, s, s.threads[l.t], l.ch);
    }
    hide Next;
  }

  lemma TokenInvStep(c: Config, s: State, l: Label)
    requires LockInv(s) && TokenInv(c, s) && Fires(s, l)
    ensures TokenInv(c, Apply(c, s, l))
  {
    Refines(c, s, l);
    LogStep(c, s, l);
    DecidersDone(c, s, l);
    var s' := Apply(c, s, l);
    hide Apply;
    hide TokenPc;
    forall u | u in s'.threads ensures TokenPc(c, s', u, s'.threads[u]) {
      TokenThreads(c, s, l, u);
    }
  }

  lemma TokenThreads(c: Config, s: State, l: Label, u: Tid)
    requires LockInv(s) && TokenInv(c, s) && Fires(s, l) && u in Apply(c, s, l).threads
    ensures TokenPc(c, Apply(c, s, l), u, Apply(c, s, l).threads[u])
  {
    hide Next;
    hide OpOf;
    hide LockInv;
    hide Effect;
    hide LockReady;
    hide Settled;
    hide TokenPc;
    hide T.Run;
    hide T.Fires;
    var s' := Apply(c, s, l);
    Refines(c, s, l);
    LogStep(c, s, l);
    if l.Step? && u == l.t {
      SettledStep(c, s, u, l.ch);
      TokenNext(c, s, u, l.ch, s');
    } else if l.Spawn? && u == l.t {
      TokenStart(c, s', u, l.pc);
    } else {
      TokenPcStable(c, s, s', EventOf(s, l), u, s.threads[u]);
    }
  }

  lemma TokenStart(c: Config, s: State, t: Tid, pc: Pc)
    requires Starts(pc)
    ensures TokenPc(c, s, t, pc)
  {
  }
}
