/** Lock discipline of the service: what the mutexes record is what the threads hold, and nobody gets stuck. */
module ServiceLocks {
  import opened Wrappers
  import opened Requests
  import opened Service
  import opened Jwk
  import Bearer
  import Jwt
  import T = TokenRuns

  datatype Hold = Free | Reads(l: LockId) | Awaits(l: LockId) | Writes(l: LockId)

  /** What a thread at this point holds; there is no room here for two locks at once. */
  function HoldOf(pc: Pc): Hold {
    match pc
    case MwRead(_) => Reads(TokenLock)
    case MwUnlock(_, _) => Reads(TokenLock)
    case KeyCheck(_) => Reads(KeyLock)
    case KeyLookup(_) => Reads(KeyLock)
    case KeyHit(_, _) => Reads(KeyLock)
    case KeyMiss(_) => Reads(KeyLock)
    case InstallPending(_, _) => Awaits(KeyLock)
    case Install(_, _) => Writes(KeyLock)
    case InstallUnlock(_) => Writes(KeyLock)
    case KeyReread(_) => Reads(KeyLock)
    case KeyUnlock2(_, _) => Reads(KeyLock)
    case PutPending(_, _, _) => Awaits(TokenLock)
    case Put(_, _, _) => Writes(TokenLock)
    case PutUnlock(_) => Writes(TokenLock)
    case PurgePending(_) => Awaits(TokenLock)
    case PurgeLoop(_, _) => Writes(TokenLock)
    case _ => Free
  }

  ghost function Readers(threads: map<Tid, Pc>, l: LockId): set<Tid> {
    set t | t in threads && HoldOf(threads[t]) == Reads(l)
  }

  /** The reader count is the number of threads at read-holding points; the writer and the announced writer are the
      threads at the points that say so; a writer excludes everyone else. */
  ghost predicate Tallies(threads: map<Tid, Pc>, l: LockId, m: RWMutex) {
    && m.readers == |Readers(threads, l)|
    && (m.writer.Some? ==> m.readers == 0 && m.pending.None? && m.writer.value in threads)
    && (m.pending.Some? ==> m.pending.value in threads)
    && (forall t :: t in threads ==> (HoldOf(threads[t]) == Writes(l) <==> m.writer == Some(t)))
    && (forall t :: t in threads ==> (HoldOf(threads[t]) == Awaits(l) <==> m.pending == Some(t)))
  }

  ghost predicate LockInv(s: State) {
    && s.locks.Keys == {TokenLock, KeyLock}
    && forall l :: l in s.locks ==> Tallies(s.threads, l, s.locks[l])
  }

  /** What a thread holds after a lock operation. */
  ghost function HoldAfter(op: LockOp, before: Hold): Hold {
    match op
    case Nothing => before
    case RLock(l) => Reads(l)
    case RUnlock(_) => Free
    case Announce(l) => Awaits(l)
    case Acquire(l) => Writes(l)
    case Unlock(_) => Free
  }

  /** A lock is asked for by a thread that holds nothing, and taken or given up by one at the stage before. */
  ghost predicate Proper(op: LockOp, before: Hold) {
    match op
    case Nothing => true
    case RLock(l) => before == Free
    case RUnlock(l) => before == Reads(l)
    case Announce(l) => before == Free
    case Acquire(l) => before == Awaits(l)
    case Unlock(l) => before == Writes(l)
  }

  /** Every step of every handler respects this; so no thread ever holds one lock while acquiring another. */
  lemma OpMatchesHold(c: Config, s: State, pc: Pc, ch: Choice)
    requires !Finished(pc)
    ensures Proper(OpOf(pc), HoldOf(pc))
    ensures HoldOf(Next(c, s, pc, ch)) == HoldAfter(OpOf(pc), HoldOf(pc)) || Next(c, s, pc, ch).Panicked?
  {
    hide Jwt.Open;
    hide Jwt.Close;
    hide Bearer.GenerateToken;
    hide Bearer.Presented;
    hide RefuseOAuth;
    hide RefuseExchange;
    hide Fold;
    hide Find;
    hide T.Verdict;
  }

  lemma ReadersStep(threads: map<Tid, Pc>, t: Tid, pc': Pc, l: LockId)
    requires t in threads
    ensures |Readers(threads[t := pc'], l)| ==
            |Readers(threads, l)| + (if HoldOf(pc') == Reads(l) then 1 else 0)
            - (if HoldOf(threads[t]) == Reads(l) then 1 else 0)
  {
    hide HoldOf;
    var now, next := Readers(threads, l), Readers(threads[t := pc'], l);
    if HoldOf(pc') == Reads(l) {
      assert next == now + {t};
    } else {
      assert next == now - {t};
    }
  }

  lemma TalliesStep(threads: map<Tid, Pc>, t: Tid, pc': Pc, op: LockOp, l: LockId, m: RWMutex)
    requires Tallies(threads, l, m) && t in threads
    requires Proper(op, HoldOf(threads[t])) && HoldOf(pc') == HoldAfter(op, HoldOf(threads[t]))
    requires op != Nothing && op.l == l ==> LockReady(m, op, t)
    ensures Tallies(threads[t := pc'], l, if op != Nothing && op.l == l then LockAfter(m, op, t) else m)
  {
    hide HoldOf;
    hide Readers;
    var threads' := threads[t := pc'];
    var m' := if op != Nothing && op.l == l then LockAfter(m, op, t) else m;
    ReadersStep(threads, t, pc', l);
    forall u | u in threads'
      ensures HoldOf(threads'[u]) == Writes(l) <==> m'.writer == Some(u)
      ensures HoldOf(threads'[u]) == Awaits(l) <==> m'.pending == Some(u)
    {
      assert u in threads;
      if u != t {
        assert threads'[u] == threads[u];
      }
    }
  }

  lemma SpawnTallies(threads: map<Tid, Pc>, t: Tid, pc: Pc, l: LockId, m: RWMutex)
    requires Tallies(threads, l, m) && t !in threads && HoldOf(pc) == Free
    ensures Tallies(threads[t := pc], l, m)
  {
    assert Readers(threads[t := pc], l) == Readers(threads, l);
  }

  lemma LockInvStep(c: Config, s: State, l: Label)
    requires LockInv(s) && Fires(s, l)
    requires l.Step? ==> !Next(c, s, s.threads[l.t], l.ch).Panicked?
    ensures LockInv(Apply(c, s, l))
  {
    var s' := Apply(c, s, l);
    match l
    case Spawn(t, pc) =>
      forall k | k in s'.locks ensures Tallies(s'.threads, k, s'.locks[k]) {
        SpawnTallies(s.threads, t, pc, k, s.locks[k]);
      }
    case Step(t, ch) =>
      var pc := s.threads[t];
      OpMatchesHold(c, s, pc, ch);
      forall k | k in s'.locks ensures Tallies(s'.threads, k, s'.locks[k]) {
        TalliesStep(s.threads, t, Next(c, s, pc, ch), OpOf(pc), k, s.locks[k]);
      }
    case _ =>
  }

  /** A thread at a write-holding point has the lock to itself. */
  lemma Exclusion(s: State, w: Tid, l: LockId, t: Tid)
    requires LockInv(s) && w in s.threads && t in s.threads && w != t && HoldOf(s.threads[w]) == Writes(l)
    ensures HoldOf(s.threads[t]) == Free || HoldOf(s.threads[t]).l != l
  {
    var m := s.locks[l];
    assert Tallies(s.threads, l, m);
    assert t in Readers(s.threads, l) <==> HoldOf(s.threads[t]) == Reads(l);
  }

  /** A thread that is not waiting for a lock can step. */
  lemma CanStep(s: State, t: Tid) returns (ch: Choice)
    requires LockInv(s) && t in s.threads && !Finished(s.threads[t])
    requires OpOf(s.threads[t]) == Nothing || LockReady(s.locks[OpOf(s.threads[t]).l], OpOf(s.threads[t]), t)
    ensures Enabled(s, t, ch)
  {
    var pc := s.threads[t];
    ch := Choice(None, None, "");
    if pc.PurgeLoop? && pc.todo != {} {
      var entry :| entry in pc.todo;
      ch := Choice(None, None, entry);
    }
  }

  /** A thread that holds a lock can step. */
  lemma HolderCanStep(s: State, t: Tid) returns (ch: Choice)
    requires LockInv(s) && t in s.threads && !Finished(s.threads[t])
    requires HoldOf(s.threads[t]).Reads? || HoldOf(s.threads[t]).Writes?
    ensures Enabled(s, t, ch)
  {
    var l := HoldOf(s.threads[t]).l;
    assert Tallies(s.threads, l, s.locks[l]);
    if HoldOf(s.threads[t]).Reads? {
      assert t in Readers(s.threads, l);
    }
    ch := CanStep(s, t);
  }

  /** The thread holds the lock or has announced itself to it. */
  predicate Engaged(pc: Pc, l: LockId) {
    HoldOf(pc) != Free && HoldOf(pc).l == l
  }

  /** An unfinished thread can step, or is kept from its lock by a thread that can. */
  lemma Progress(s: State, t: Tid) returns (t': Tid, ch: Choice)
    requires LockInv(s) && t in s.threads && !Finished(s.threads[t])
    ensures Enabled(s, t', ch)
    ensures t' == t || (OpOf(s.threads[t]) != Nothing && Engaged(s.threads[t'], OpOf(s.threads[t]).l))
  {
    t' := t;
    var pc := s.threads[t];
    var op := OpOf(pc);
    if op == Nothing || LockReady(s.locks[op.l], op, t) {
      ch := CanStep(s, t);
    } else if HoldOf(pc).Reads? || HoldOf(pc).Writes? {
      ch := HolderCanStep(s, t);
    } else {
      t', ch := BlockerCanStep(s, t, op.l);
    }
  }

  /** How many steps at most until the thread gives its lock up, counting a waiting writer's acquisition out. */
  function StepsHeld(pc: Pc): nat {
    match pc
    case MwRead(_) => 2
    case MwUnlock(_, _) => 1
    case KeyCheck(_) => 3
    case KeyLookup(_) => 2
    case KeyHit(_, _) => 1
    case KeyMiss(_) => 1
    case Install(_, _) => 2
    case InstallUnlock(_) => 1
    case KeyReread(_) => 2
    case KeyUnlock2(_, _) => 1
    case Put(_, _, _) => 2
    case PutUnlock(_) => 1
    case PurgeLoop(_, todo) => |todo| + 1
    case _ => 0
  }

  /** No critical section lasts for ever: every step inside brings its end closer, and the last one gives the lock
      up. */
  lemma SectionsEnd(c: Config, s: State, pc: Pc, ch: Choice)
    requires HoldOf(pc).Reads? || HoldOf(pc).Writes?
    requires pc.PurgeLoop? && pc.todo != {} ==> ch.entry in pc.todo
    ensures var pc' := Next(c, s, pc, ch);
            StepsHeld(pc') < StepsHeld(pc) && (StepsHeld(pc') == 0 <==> HoldOf(pc') == Free)
  {
    hide Jwt.Open;
    hide Jwt.Close;
    hide Bearer.GenerateToken;
    hide Bearer.Presented;
    hide RefuseOAuth;
    hide RefuseExchange;
    hide Fold;
    hide Find;
    hide T.Verdict;
    match pc
    case PurgeLoop(now, todo) => if todo != {} { assert |todo - {ch.entry}| == |todo| - 1; }
    case _ =>
  }

  lemma HoldersGoOn(pc: Pc)
    ensures HoldOf(pc) != Free ==> !Finished(pc)
    ensures forall l :: HoldOf(pc) == Awaits(l) <==> OpOf(pc) == Acquire(l)
  {
  }

  /** Whoever keeps a thread from its lock can step: the writer, or a reader an announced writer waits for, or that
      writer. */
  lemma BlockerCanStep(s: State, t: Tid, l: LockId) returns (t': Tid, ch: Choice)
    requires LockInv(s) && t in s.threads && !Finished(s.threads[t])
    requires var op := OpOf(s.threads[t]); op == RLock(l) || op == Announce(l) || op == Acquire(l)
    requires !LockReady(s.locks[l], OpOf(s.threads[t]), t)
    ensures Enabled(s, t', ch) && Engaged(s.threads[t'], l)
  {
    hide HoldOf;
    hide OpOf;
    hide Finished;
    var m := s.locks[l];
    assert Tallies(s.threads, l, m);
    if m.writer.Some? {
      t' := m.writer.value;
      HoldersGoOn(s.threads[t']);
      ch := HolderCanStep(s, t');
    } else if m.readers > 0 {
      t' :| t' in Readers(s.threads, l);
      HoldersGoOn(s.threads[t']);
      ch := HolderCanStep(s, t');
    } else {
      HoldersGoOn(s.threads[t]);
      t' := m.pending.value;
      HoldersGoOn(s.threads[t']);
      ch := CanStep(s, t');
    }
  }
}
