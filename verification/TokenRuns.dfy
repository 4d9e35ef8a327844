/** Whole runs of the token store, at the level of its atomic operations.

    The clock is read outside the lock, so each event carries the reading it works with, which may be stale:
    the stamp of a new token, or purge's notion of now. The check of the middleware is two events: the lookup,
    and later the decision, which reads the clock as it then is. Replicas have stores of their own. */
module TokenRuns {
  import opened Machine
  import opened Wrappers
  import opened Requests

  const TTL: int := HOUR

  /** From token to expiry. */
  type Store = map<string, int>

  /** now.After(expiry). */
  predicate Expired(now: int, expiry: int) {
    now > expiry
  }

  function Purged(m: Store, now: int): Store {
    map tok | tok in m && !Expired(now, m[tok]) :: m[tok]
  }

  datatype Event =
    | Tick(d: nat)
    | Put(q: nat, r: nat, tok: string, stamp: int, grant: Grant)
    | Purge(r: nat, now: int)
    | Lookup(q: nat, r: nat, tok: string)
    | Decide(q: nat)

  /** found holds, for each request that looked a token up, the expiry it saw; verdicts lists the decisions. */
  datatype State = State(clock: int, stores: map<nat, Store>, found: map<nat, Option<int>>, verdicts: seq<(nat, bool)>)

  const START := State(0, map[], map[], [])

  function StoreOf(s: State, r: nat): Store {
    if r in s.stores then s.stores[r] else map[]
  }

  function Get(s: State, r: nat, tok: string): Option<int> {
    if tok in StoreOf(s, r) then Some(StoreOf(s, r)[tok]) else None
  }

  function Verdict(clock: int, found: Option<int>): bool {
    found.Some? && !Expired(clock, found.value)
  }

  predicate Fires(s: State, e: Event) {
    match e
    case Put(_, _, _, stamp, _) => stamp <= s.clock
    case Purge(_, now) => now <= s.clock
    case Decide(q) => q in s.found
    case _ => true
  }

  function Apply(s: State, e: Event): State
    requires Fires(s, e)
  {
    match e
    case Tick(d) => s.(clock := s.clock + d)
    case Put(_, r, tok, stamp, _) => s.(stores := s.stores[r := StoreOf(s, r)[tok := stamp + TTL]])
    case Purge(r, now) => s.(stores := s.stores[r := Purged(StoreOf(s, r), now)])
    case Lookup(q, r, tok) => s.(found := s.found[q := Get(s, r, tok)])
    case Decide(q) => s.(verdicts := s.verdicts + [(q, Verdict(s.clock, s.found[q]))])
  }

  function Front<T>(es: seq<T>): seq<T>
    requires es != []
  {
    es[..|es| - 1]
  }

  /** The state after a run, or None if some event could not happen when it was due. */
  function Run(es: seq<Event>): Option<State> {
    if es == [] then Some(START)
    else match Run(Front(es))
      case None => None
      case Some(s) => if Fires(s, es[|es| - 1]) then Some(Apply(s, es[|es| - 1])) else None
  }

  lemma RunSnoc(es: seq<Event>, e: Event)
    ensures Run(es + [e]) ==
            match Run(es) case None => None case Some(s) => if Fires(s, e) then Some(Apply(s, e)) else None
  {
  }

  lemma {:induction false} RunPrefix(es: seq<Event>, n: nat)
    requires n <= |es| && Run(es).Some?
    ensures Run(es[..n]).Some? && Run(es[..n]).value.clock <= Run(es).value.clock
  {
    if n < |es| {
      RunPrefix(Front(es), n);
      assert Front(es)[..n] == es[..n];
    } else {
      assert es[..n] == es;
    }
  }

  // ---------------------------------------------------------------- purge transparency

  /** What a purging store answers against one that never purges: the same, or nothing for something already expired. */
  predicate Lags(clock: int, x: Option<int>, y: Option<int>) {
    x == y || (x.None? && Expired(clock, y.value))
  }

  ghost predicate StateLags(a: State, b: State) {
    && a.clock == b.clock && a.verdicts == b.verdicts
    && a.found.Keys == b.found.Keys
    && (forall q :: q in a.found ==> Lags(a.clock, a.found[q], b.found[q]))
    && (forall r, tok :: Lags(a.clock, Get(a, r, tok), Get(b, r, tok)))
  }

  function Erase(es: seq<Event>): (r: seq<Event>)
    ensures forall e :: e in r <==> e in es && !e.Purge?
  {
    assert es != [] ==> es == Front(es) + [es[|es| - 1]];
    if es == [] then []
    else if es[|es| - 1].Purge? then Erase(Front(es))
    else Erase(Front(es)) + [es[|es| - 1]]
  }

  lemma StateLagsStep(a: State, b: State, e: Event)
    requires StateLags(a, b) && Fires(a, e)
    ensures e.Purge? ==> StateLags(Apply(a, e), b)
    ensures !e.Purge? ==> Fires(b, e) && StateLags(Apply(a, e), Apply(b, e))
  {
    if !e.Purge? {
      var a', b' := Apply(a, e), Apply(b, e);
      forall r, tok ensures Lags(a'.clock, Get(a', r, tok), Get(b', r, tok)) {
        assert Lags(a.clock, Get(a, r, tok), Get(b, r, tok));
      }
    } else {
      var a' := Apply(a, e);
      forall r, tok ensures Lags(a'.clock, Get(a', r, tok), Get(b, r, tok)) {
        assert Lags(a.clock, Get(a, r, tok), Get(b, r, tok));
      }
    }
  }

  lemma {:induction false} EraseLags(es: seq<Event>)
    requires Run(es).Some?
    ensures Run(Erase(es)).Some? && StateLags(Run(es).value, Run(Erase(es)).value)
  {
    if es != [] {
      var e := es[|es| - 1];
      EraseLags(Front(es));
      StateLagsStep(Run(Front(es)).value, Run(Erase(Front(es))).value, e);
      RunSnoc(Erase(Front(es)), e);
    }
  }

  /** Striking every purge from a run leaves every accept and reject decision as it was. */
  lemma PurgeTransparency(es: seq<Event>)
    requires Run(es).Some?
    ensures Run(Erase(es)).Some? && Run(Erase(es)).value.verdicts == Run(es).value.verdicts
  {
    EraseLags(es);
  }

  // ---------------------------------------------------------------- decisions from history alone

  predicate IsPut(e: Event, r: nat, tok: string) {
    e.Put? && e.r == r && e.tok == tok
  }

  predicate IsLookup(e: Event, q: nat) {
    e.Lookup? && e.q == q
  }

  /** The last of the first n events that stored the token at the replica. */
  function LastPut(es: seq<Event>, n: nat, r: nat, tok: string): (k: Option<nat>)
    requires n <= |es|
    ensures k.None? ==> forall i :: 0 <= i < n ==> !IsPut(es[i], r, tok)
    ensures k.Some? ==> k.value < n && IsPut(es[k.value], r, tok)
                        && forall i :: k.value < i < n ==> !IsPut(es[i], r, tok)
  {
    if n == 0 then None else if IsPut(es[n - 1], r, tok) then Some(n - 1) else LastPut(es, n - 1, r, tok)
  }

  /** The last of the first n events in which request q looked its token up. */
  function LastLookup(es: seq<Event>, n: nat, q: nat): (k: Option<nat>)
    requires n <= |es|
    ensures k.None? ==> forall i :: 0 <= i < n ==> !IsLookup(es[i], q)
    ensures k.Some? ==> k.value < n && IsLookup(es[k.value], q) && forall i :: k.value < i < n ==> !IsLookup(es[i], q)
  {
    if n == 0 then None else if IsLookup(es[n - 1], q) then Some(n - 1) else LastLookup(es, n - 1, q)
  }

  function Expiry(es: seq<Event>, k: Option<nat>): Option<int>
    requires k.Some? ==> k.value < |es| && es[k.value].Put?
  {
    match k case None => None case Some(i) => Some(es[i].stamp + HOUR)
  }

  lemma {:induction false} StoreIsHistory(es: seq<Event>, n: nat, r: nat, tok: string)
    requires n <= |es| && Run(es[..n]).Some?
    ensures Lags(Run(es[..n]).value.clock, Get(Run(es[..n]).value, r, tok), Expiry(es, LastPut(es, n, r, tok)))
  {
    if n > 0 {
      assert Front(es[..n]) == es[..n - 1];
      StoreIsHistory(es, n - 1, r, tok);
    }
  }

  lemma {:induction false} FoundIsHistory(es: seq<Event>, n: nat, q: nat)
    requires n <= |es| && Run(es[..n]).Some?
    ensures var s, j := Run(es[..n]).value, LastLookup(es, n, q);
            && (q in s.found <==> j.Some?)
            && (j.Some? ==> var e := es[j.value];
                            Lags(s.clock, s.found[q], Expiry(es, LastPut(es, j.value, e.r, e.tok))))
  {
    if n > 0 {
      assert Front(es[..n]) == es[..n - 1];
      FoundIsHistory(es, n - 1, q);
      var e := es[n - 1];
      if e.Lookup? {
        StoreIsHistory(es, n - 1, e.r, e.tok);
      }
    }
  }

  /** Event j is the latest lookup of request q, and is for this token at this replica. */
  ghost predicate LookupAt(es: seq<Event>, q: nat, r: nat, tok: string, j: nat) {
    j < |es| && es[j] == Lookup(q, r, tok) && forall i :: j < i < |es| ==> !IsLookup(es[i], q)
  }

  /** Event k is the latest to store the token at the replica before event j. */
  ghost predicate PutAt(es: seq<Event>, r: nat, tok: string, k: nat, j: nat) {
    k < j <= |es| && IsPut(es[k], r, tok) && forall i :: k < i < j ==> !IsPut(es[i], r, tok)
  }

  /** Request q, deciding after the run es about a token it looked up, goes by the latest time that token
      was stored before the lookup: it is accepted iff that stamp is no more than an hour in the past. */
  ghost predicate Authorised(es: seq<Event>, q: nat, r: nat, tok: string)
    requires Run(es).Some?
  {
    exists j: nat, k: nat ::
      LookupAt(es, q, r, tok, j) && PutAt(es, r, tok, k, j) && Run(es).value.clock - es[k].stamp <= HOUR
  }

  lemma LookupUnique(es: seq<Event>, q: nat, r: nat, tok: string, j: nat)
    requires LookupAt(es, q, r, tok, j)
    ensures LastLookup(es, |es|, q) == Some(j)
  {
  }

  lemma PutUnique(es: seq<Event>, r: nat, tok: string, k: nat, j: nat)
    requires PutAt(es, r, tok, k, j)
    ensures LastPut(es, j, r, tok) == Some(k)
  {
  }

  /** Every decision is the one the history of stores, lookups and clock readings calls for; purges do not enter it. */
  lemma DecisionExact(es: seq<Event>, q: nat)
    requires Run(es + [Decide(q)]).Some?
    ensures Run(es).Some? && LastLookup(es, |es|, q).Some?
    ensures var e := es[LastLookup(es, |es|, q).value];
            Run(es + [Decide(q)]).value.verdicts == Run(es).value.verdicts + [(q, Authorised(es, q, e.r, e.tok))]
  {
    RunSnoc(es, Decide(q));
    assert es[..|es|] == es;
    FoundIsHistory(es, |es|, q);
    var s, j := Run(es).value, LastLookup(es, |es|, q).value;
    var r, tok := es[j].r, es[j].tok;
    AuthorisedLast(es, q, r, tok, j);
    assert Verdict(s.clock, s.found[q]) == Verdict(s.clock, Expiry(es, LastPut(es, j, r, tok)));
  }

  lemma AuthorisedLast(es: seq<Event>, q: nat, r: nat, tok: string, j: nat)
    requires Run(es).Some? && LastLookup(es, |es|, q) == Some(j) && es[j].r == r && es[j].tok == tok
    ensures Authorised(es, q, r, tok) <==> Verdict(Run(es).value.clock, Expiry(es, LastPut(es, j, r, tok)))
  {
    assert LookupAt(es, q, r, tok, j);
    var k := LastPut(es, j, r, tok);
    if k.Some? {
      assert PutAt(es, r, tok, k.value, j);
    }
    forall j': nat, k': nat | LookupAt(es, q, r, tok, j') && PutAt(es, r, tok, k', j')
      ensures j' == j && k == Some(k')
    {
      LookupUnique(es, q, r, tok, j');
      PutUnique(es, r, tok, k', j');
    }
  }

  /** No token is stored twice at a replica, as holds when no two issues drew the same nonce. */
  ghost predicate DistinctPuts(es: seq<Event>) {
    forall i, k :: 0 <= i < k < |es| && es[i].Put? && es[k].Put? ==> es[i].r != es[k].r || es[i].tok != es[k].tok
  }

  /** Then "the latest time" may be dropped: some earlier issue stamped within the hour is what it takes. */
  lemma DistinctDecision(es: seq<Event>, q: nat, r: nat, tok: string)
    requires Run(es).Some? && DistinctPuts(es)
    ensures Authorised(es, q, r, tok) <==>
            exists j: nat, k: nat :: LookupAt(es, q, r, tok, j) && k < j && IsPut(es[k], r, tok)
                           && Run(es).value.clock - es[k].stamp <= HOUR
  {
  }

  // ---------------------------------------------------------------- replicas

  function MergeEvent(e: Event): Event {
    match e
    case Put(q, _, tok, stamp, g) => Put(q, 0, tok, stamp, g)
    case Purge(_, now) => Purge(0, now)
    case Lookup(q, _, tok) => Lookup(q, 0, tok)
    case _ => e
  }

  /** The same run served by a single store. */
  function Merge(es: seq<Event>): seq<Event> {
    seq(|es|, i requires 0 <= i < |es| => MergeEvent(es[i]))
  }

  /** A token is only ever presented where it was issued. */
  ghost predicate Sticky(es: seq<Event>) {
    forall i, j :: 0 <= i < j < |es| && es[i].Put? && es[j].Lookup? && es[i].tok == es[j].tok ==> es[i].r == es[j].r
  }

  /** For runs without purges: a token stored at replica r alone reads the same there and in the single store. */
  ghost predicate Agrees(es: seq<Event>, a: State, b: State) {
    && a.clock == b.clock && a.found == b.found && a.verdicts == b.verdicts
    && forall r, tok :: OnlyAt(es, r, tok) ==> Get(a, r, tok) == Get(b, 0, tok)
  }

  ghost predicate OnlyAt(es: seq<Event>, r: nat, tok: string) {
    forall i :: 0 <= i < |es| && es[i].Put? && es[i].tok == tok ==> es[i].r == r
  }

  lemma {:induction false} MergeAgrees(es: seq<Event>)
    requires Run(es).Some? && Sticky(es) && forall e :: e in es ==> !e.Purge?
    ensures Run(Merge(es)).Some? && Agrees(es, Run(es).value, Run(Merge(es)).value)
  {
    if es != [] {
      var front, e := Front(es), es[|es| - 1];
      assert es == front + [e];
      MergeAgrees(front);
      assert Merge(es) == Merge(front) + [MergeEvent(e)];
      RunSnoc(Merge(front), MergeEvent(e));
      var a, b := Run(front).value, Run(Merge(front)).value;
      MergeStep(es, front, e, a, b);
    }
  }

  lemma MergeStep(es: seq<Event>, front: seq<Event>, e: Event, a: State, b: State)
    requires es == front + [e] && Sticky(es) && !e.Purge? && Agrees(front, a, b) && Fires(a, e)
    ensures Fires(b, MergeEvent(e)) && Agrees(es, Apply(a, e), Apply(b, MergeEvent(e)))
  {
    var a', b' := Apply(a, e), Apply(b, MergeEvent(e));
    if e.Lookup? {
      assert OnlyAt(front, e.r, e.tok) by {
        forall i | 0 <= i < |front| && front[i].Put? && front[i].tok == e.tok ensures front[i].r == e.r {
          assert front[i] == es[i] && es[|front|] == e;
        }
      }
    }
    forall r, tok | OnlyAt(es, r, tok) ensures Get(a', r, tok) == Get(b', 0, tok) {
      assert OnlyAt(front, r, tok) by {
        forall i | 0 <= i < |front| && front[i].Put? && front[i].tok == tok ensures front[i].r == r {
          assert front[i] == es[i];
        }
      }
      assert es[|front|] == e;
    }
  }

  lemma EraseSnoc(es: seq<Event>, e: Event)
    ensures Erase(es + [e]) == Erase(es) + if e.Purge? then [] else [e]
  {
    assert Front(es + [e]) == es;
    assert Erase(es) + [] == Erase(es);
  }

  lemma MergeSnoc(front: seq<Event>, e: Event)
    ensures Merge(front + [e]) == Merge(front) + [MergeEvent(e)]
  {
  }

  lemma {:induction false} EraseMerge(es: seq<Event>)
    ensures Erase(Merge(es)) == Merge(Erase(es))
  {
    if es == [] {
    } else {
      hide *;
      var front, e := es[..|es| - 1], es[|es| - 1];
      assert es == front + [e];
      EraseMerge(front);
      EraseSnoc(front, e);
      MergeSnoc(front, e);
      EraseSnoc(Merge(front), MergeEvent(e));
      MergeSnoc(Erase(front), e);
      MergeKind(e);
      if e.Purge? {
        assert Erase(front) + [] == Erase(front) && Erase(Merge(front)) + [] == Erase(Merge(front));
      }
    }
  }

  lemma MergeKind(e: Event)
    ensures MergeEvent(e).Purge? <==> e.Purge?
  {
  }

  lemma {:induction false} EraseSticky(es: seq<Event>)
    requires Sticky(es)
    ensures Sticky(Erase(es))
  {
    if es != [] {
      var front, e := Front(es), es[|es| - 1];
      assert es == front + [e];
      assert Sticky(front) by {
        forall i, j | 0 <= i < j < |front| && front[i].Put? && front[j].Lookup? && front[i].tok == front[j].tok
          ensures front[i].r == front[j].r
        {
          assert front[i] == es[i] && front[j] == es[j];
        }
      }
      EraseSticky(front);
      StickySnoc(es, front, e);
    }
  }

  lemma StickySnoc(es: seq<Event>, front: seq<Event>, e: Event)
    requires es == front + [e] && Sticky(es) && Sticky(Erase(front)) && forall x :: x in Erase(front) ==> x in front
    ensures Sticky(Erase(front) + [e])
  {
    var kept := Erase(front) + [e];
    forall i, j | 0 <= i < j < |kept| && kept[i].Put? && kept[j].Lookup? && kept[i].tok == kept[j].tok
      ensures kept[i].r == kept[j].r
    {
      if j == |kept| - 1 {
        assert kept[i] in front;
        var i' :| 0 <= i' < |front| && front[i'] == kept[i];
        assert es[i'] == kept[i] && es[|front|] == e;
      }
    }
  }

  /** With sticky routing, replicas that each purge their own store decide every request as one store would,
      whatever purges that store performs. */
  lemma ReplicaRefinement(es: seq<Event>)
    requires Run(es).Some? && Sticky(es)
    ensures Run(Merge(es)).Some? && Run(Merge(es)).value.verdicts == Run(es).value.verdicts
  {
    EraseMerge(es);
    EraseSticky(es);
    PurgeTransparency(es);
    MergeAgrees(Erase(es));
    MergeFires(es);
    PurgeTransparency(Merge(es));
  }

  /** Which events can happen depends on the clock and on who looked something up, not on what the stores hold. */
  lemma {:induction false} MergeFires(es: seq<Event>)
    requires Run(es).Some?
    ensures Run(Merge(es)).Some?
    ensures Run(Merge(es)).value.clock == Run(es).value.clock
    ensures Run(Merge(es)).value.found.Keys == Run(es).value.found.Keys
  {
    if es != [] {
      var front, e := Front(es), es[|es| - 1];
      MergeFires(front);
      assert Merge(es) == Merge(front) + [MergeEvent(e)];
      RunSnoc(Merge(front), MergeEvent(e));
    }
  }

  /** No token is stored twice, at whichever replica. */
  ghost predicate DistinctTokens(es: seq<Event>) {
    forall i, k :: 0 <= i < k < |es| && es[i].Put? && es[k].Put? ==> es[i].tok != es[k].tok
  }

  /** Before event j another replica than r stored the token, less than an hour before the end of the run. */
  ghost predicate LiveElsewhere(es: seq<Event>, r: nat, tok: string, j: nat)
    requires j <= |es| && Run(es).Some?
  {
    exists k: nat :: k < j && es[k].Put? && es[k].tok == tok && es[k].r != r
                     && Run(es).value.clock - es[k].stamp <= HOUR
  }

  /** Exactly which decisions replicas get wrong: those about a token that is alive at another replica. */
  lemma ReplicaExact(es: seq<Event>, q: nat, r: nat, tok: string, j: nat)
    requires Run(es).Some? && DistinctTokens(es) && LookupAt(es, q, r, tok, j)
    ensures Run(Merge(es)).Some?
    ensures (Authorised(es, q, r, tok) <==> Authorised(Merge(es), q, 0, tok)) <==> !LiveElsewhere(es, r, tok, j)
  {
    MergeFires(es);
    hide Run;
    var m := Merge(es);
    MergedLookup(es, q, r, tok, j);
    OnlyLookup(es, q, r, tok, j);
    OnlyLookup(m, q, 0, tok, j);
    forall k: nat | k < j && es[k].Put? && es[k].tok == tok
      ensures PutAt(m, 0, tok, k, j) && (es[k].r == r ==> PutAt(es, r, tok, k, j))
    {
      MergedPut(es, tok, k, j);
    }
  }

  /** A request goes by one lookup only, its latest. */
  lemma OnlyLookup(es: seq<Event>, q: nat, r: nat, tok: string, j: nat)
    requires Run(es).Some? && LookupAt(es, q, r, tok, j)
    ensures Authorised(es, q, r, tok) <==>
            exists k: nat :: PutAt(es, r, tok, k, j) && Run(es).value.clock - es[k].stamp <= HOUR
  {
    forall j': nat | LookupAt(es, q, r, tok, j') ensures j' == j {
      LookupUnique(es, q, r, tok, j);
      LookupUnique(es, q, r, tok, j');
    }
  }

  /** Event d decides about a token that is then alive at another replica than the one that looked it up. */
  ghost predicate StrayDecision(es: seq<Event>, d: nat) {
    && d < |es| && es[d].Decide? && Run(es[..d]).Some?
    && exists r, tok, j: nat :: LookupAt(es[..d], es[d].q, r, tok, j) && LiveElsewhere(es[..d], r, tok, j)
  }

  /** And over the whole run: the replicas' verdicts are those of the single store exactly if no decision is of that
      kind. */
  lemma {:induction false} ReplicaRunExact(es: seq<Event>)
    requires Run(es).Some? && DistinctTokens(es)
    ensures Run(Merge(es)).Some?
    ensures Run(Merge(es)).value.verdicts == Run(es).value.verdicts <==> forall d: nat :: !StrayDecision(es, d)
  {
    MergeFires(es);
    if es != [] {
      var front, e := Front(es), es[|es| - 1];
      assert es == front + [e];
      ReplicaRunExact(front);
      ReplicaRunStep(front, e);
    }
  }

  ghost predicate SameVerdicts(es: seq<Event>)
    requires Run(es).Some? && Run(Merge(es)).Some?
  {
    Run(Merge(es)).value.verdicts == Run(es).value.verdicts
  }

  lemma ReplicaRunStep(front: seq<Event>, e: Event)
    requires var es := front + [e]; Run(es).Some? && DistinctTokens(es) && Run(Merge(es)).Some?
    requires Run(front).Some? && Run(Merge(front)).Some?
    requires SameVerdicts(front) <==> forall d: nat :: !StrayDecision(front, d)
    ensures SameVerdicts(front + [e]) <==> forall d: nat :: !StrayDecision(front + [e], d)
  {
    hide DistinctTokens;
    StrayFront(front, e);
    if e.Decide? {
      DecisionsAgree(front, e.q);
    } else {
      OthersSilent(front, e);
    }
    hide StrayDecision;
    hide SameVerdicts;
    assert forall d: nat :: StrayDecision(front + [e], d) ==> d < |front| || d == |front| by {
      StrayBound(front + [e]);
    }
    assert forall d: nat :: StrayDecision(front, d) ==> d < |front| by {
      StrayBound(front);
    }
  }

  lemma StrayBound(es: seq<Event>)
    ensures forall d: nat :: StrayDecision(es, d) ==> d < |es|
  {
  }

  lemma StrayFront(front: seq<Event>, e: Event)
    ensures forall d: nat :: d < |front| ==> (StrayDecision(front + [e], d) <==> StrayDecision(front, d))
    ensures !e.Decide? ==> !StrayDecision(front + [e], |front|)
  {
    var es := front + [e];
    forall d: nat | d < |front| ensures StrayDecision(es, d) <==> StrayDecision(front, d) {
      assert es[..d] == front[..d] && es[d] == front[d];
    }
  }

  lemma OthersSilent(front: seq<Event>, e: Event)
    requires Run(front + [e]).Some? && Run(Merge(front + [e])).Some? && Run(front).Some? && Run(Merge(front)).Some?
    requires !e.Decide?
    ensures SameVerdicts(front + [e]) <==> SameVerdicts(front)
  {
    assert Merge(front + [e]) == Merge(front) + [MergeEvent(e)];
    RunSnoc(front, e);
    RunSnoc(Merge(front), MergeEvent(e));
  }

  /** A decision adds the same verdict on both sides unless it is a stray one. */
  lemma DecisionsAgree(front: seq<Event>, q: nat)
    requires var es := front + [Decide(q)]; Run(es).Some? && DistinctTokens(es) && Run(Merge(es)).Some?
    requires Run(front).Some? && Run(Merge(front)).Some?
    ensures SameVerdicts(front + [Decide(q)]) <==> SameVerdicts(front) && !StrayDecision(front + [Decide(q)], |front|)
  {
    hide Run;
    hide Authorised;
    hide LiveElsewhere;
    hide StrayDecision;
    hide Merge;
    hide LookupAt;
    hide DistinctTokens;
    var m, es := Merge(front), front + [Decide(q)];
    MergeSnoc(front, Decide(q));
    var r, tok, j := DecidedBy(front, q);
    MergedLookup(front, q, r, tok, j);
    VerdictOf(front, q, r, tok, j);
    VerdictOf(m, q, 0, tok, j);
    DistinctFront(front, Decide(q));
    ReplicaExact(front, q, r, tok, j);
    StrayHere(front, q, r, tok, j);
    SnocEqual(Run(m).value.verdicts, Run(front).value.verdicts,
              (q, Authorised(m, q, 0, tok)), (q, Authorised(front, q, r, tok)));
  }

  lemma DecidedBy(es: seq<Event>, q: nat) returns (r: nat, tok: string, j: nat)
    requires Run(es + [Decide(q)]).Some?
    ensures LookupAt(es, q, r, tok, j)
  {
    DecisionExact(es, q);
    j := LastLookup(es, |es|, q).value;
    r, tok := es[j].r, es[j].tok;
  }

  lemma VerdictOf(es: seq<Event>, q: nat, r: nat, tok: string, j: nat)
    requires Run(es + [Decide(q)]).Some? && LookupAt(es, q, r, tok, j)
    ensures Run(es).Some?
    ensures Run(es + [Decide(q)]).value.verdicts == Run(es).value.verdicts + [(q, Authorised(es, q, r, tok))]
  {
    DecisionExact(es, q);
    LookupUnique(es, q, r, tok, j);
  }

  lemma DistinctFront(front: seq<Event>, e: Event)
    requires DistinctTokens(front + [e])
    ensures DistinctTokens(front)
  {
    assert forall i :: 0 <= i < |front| ==> (front + [e])[i] == front[i];
  }

  lemma StrayHere(front: seq<Event>, q: nat, r: nat, tok: string, j: nat)
    requires Run(front).Some? && LookupAt(front, q, r, tok, j)
    ensures StrayDecision(front + [Decide(q)], |front|) <==> LiveElsewhere(front, r, tok, j)
  {
    var es := front + [Decide(q)];
    assert es[..|front|] == front;
    hide Run;
    hide LiveElsewhere;
    forall r', tok', j': nat | LookupAt(front, q, r', tok', j') ensures r' == r && tok' == tok && j' == j {
      LookupUnique(front, q, r', tok', j');
      LookupUnique(front, q, r, tok, j);
    }
  }

  lemma SnocEqual(a: seq<(nat, bool)>, b: seq<(nat, bool)>, x: (nat, bool), y: (nat, bool))
    ensures a + [x] == b + [y] <==> a == b && x == y
  {
    if a + [x] == b + [y] {
      assert a == (a + [x])[..|a|] && b == (b + [y])[..|b|];
      assert (a + [x])[|a|] == x && (b + [y])[|b|] == y;
    }
  }

  /** In particular a live token presented at a replica that never stored it is turned away there, while the single
      store lets it in. */
  lemma StrayTokenRejected(es: seq<Event>, q: nat, r: nat, tok: string, j: nat)
    requires Run(es).Some? && DistinctTokens(es) && LookupAt(es, q, r, tok, j) && LiveElsewhere(es, r, tok, j)
    ensures Run(Merge(es)).Some? && !Authorised(es, q, r, tok) && Authorised(Merge(es), q, 0, tok)
  {
    ReplicaExact(es, q, r, tok, j);
    forall k: nat, j': nat ensures !PutAt(es, r, tok, k, j') {
      assert k < |es| ==> !IsPut(es[k], r, tok);
    }
  }

  lemma MergedLookup(es: seq<Event>, q: nat, r: nat, tok: string, j: nat)
    requires LookupAt(es, q, r, tok, j)
    ensures LookupAt(Merge(es), q, 0, tok, j)
  {
    forall i | j < i < |es| ensures !IsLookup(Merge(es)[i], q) {
      assert !IsLookup(es[i], q);
    }
  }

  lemma MergedPut(es: seq<Event>, tok: string, k: nat, j: nat)
    requires DistinctTokens(es) && k < j <= |es| && es[k].Put? && es[k].tok == tok
    ensures PutAt(Merge(es), 0, tok, k, j) && PutAt(es, es[k].r, tok, k, j)
  {
    forall i | k < i < j ensures !IsPut(Merge(es)[i], 0, tok) && !IsPut(es[i], es[k].r, tok) {
      assert !(es[i].Put? && es[i].tok == tok);
    }
  }

  // ---------------------------------------------------------------- size of the store

  /** How many tokens the events from lo to hi stored at r, counting stamps no older than since, or all of them. */
  function Stored(es: seq<Event>, lo: nat, hi: nat, r: nat, since: Option<int>): nat
    requires lo <= hi <= |es|
  {
    if lo == hi then 0
    else
      var e := es[hi - 1];
      Stored(es, lo, hi - 1, r, since) + if e.Put? && e.r == r && (since.None? || e.stamp >= since.value) then 1 else 0
  }

  lemma PutGrows(m: Store, tok: string, expiry: int, now: int)
    ensures |m[tok := expiry]| <= |m| + 1
    ensures |Purged(m[tok := expiry], now)| <= |Purged(m, now)| + if Expired(now, expiry) then 0 else 1
  {
    Smaller(m[tok := expiry].Keys, m.Keys + {tok});
    var more, less := Purged(m[tok := expiry], now), Purged(m, now);
    if Expired(now, expiry) {
      Smaller(more.Keys, less.Keys);
    } else {
      Smaller(more.Keys, less.Keys + {tok});
    }
  }

  lemma Smaller<T>(a: set<T>, b: set<T>)
    requires a <= b
    ensures |a| <= |b|
  {
    assert b == a + (b - a);
  }

  lemma PurgeShrinks(m: Store, now: int, now': int)
    ensures |Purged(m, now)| <= |m|
    ensures |Purged(Purged(m, now), now')| <= |Purged(m, now')|
  {
    Smaller(Purged(m, now).Keys, m.Keys);
    Smaller(Purged(Purged(m, now), now').Keys, Purged(m, now').Keys);
  }

  lemma SizeStep(s: State, e: Event, r: nat, now: int)
    requires Fires(s, e)
    ensures var m, m' := StoreOf(s, r), StoreOf(Apply(s, e), r);
            && |m'| <= |m| + (if e.Put? && e.r == r then 1 else 0)
            && |Purged(m', now)| <= |Purged(m, now)| + (if e.Put? && e.r == r && e.stamp >= now - HOUR then 1 else 0)
  {
    var m := StoreOf(s, r);
    match e
    case Put(_, _, tok, stamp, _) => PutGrows(m, tok, stamp + HOUR, now);
    case Purge(_, now') => PurgeShrinks(m, now', now);
    case _ =>
  }

  /** What a purge at time now would spare was stored with a stamp no older than an hour before now. */
  lemma {:induction false} SparedCount(es: seq<Event>, n: nat, r: nat, now: int)
    requires n <= |es| && Run(es[..n]).Some?
    ensures |Purged(StoreOf(Run(es[..n]).value, r), now)| <= Stored(es, 0, n, r, Some(now - HOUR))
  {
    if n > 0 {
      assert Front(es[..n]) == es[..n - 1];
      SparedCount(es, n - 1, r, now);
      SizeStep(Run(es[..n - 1]).value, es[n - 1], r, now);
    }
  }

  /** After any purge p the store holds no more than the tokens p spared and those stored since. */
  lemma {:induction false} SizeBound(es: seq<Event>, p: nat, n: nat)
    requires p < n <= |es| && es[p].Purge? && Run(es[..n]).Some?
    ensures var r := es[p].r;
            |StoreOf(Run(es[..n]).value, r)|
              <= Stored(es, 0, p, r, Some(es[p].now - HOUR)) + Stored(es, p + 1, n, r, None)
    decreases n
  {
    var r := es[p].r;
    assert Front(es[..n]) == es[..n - 1];
    if n == p + 1 {
      SparedCount(es, p, r, es[p].now);
    } else {
      SizeBound(es, p, n - 1);
      SizeStep(Run(es[..n - 1]).value, es[n - 1], r, 0);
    }
  }

  /** And at any time no more than were ever stored. */
  lemma {:induction false} TotalBound(es: seq<Event>, n: nat, r: nat)
    requires n <= |es| && Run(es[..n]).Some?
    ensures |StoreOf(Run(es[..n]).value, r)| <= Stored(es, 0, n, r, None)
  {
    if n > 0 {
      assert Front(es[..n]) == es[..n - 1];
      TotalBound(es, n - 1, r);
      SizeStep(Run(es[..n - 1]).value, es[n - 1], r, 0);
    }
  }

  /** Stamping and storing happen at the same instant. */
  ghost predicate AtomicIssues(es: seq<Event>) {
    forall i :: 0 <= i < |es| && es[i].Put? && Run(es[..i]).Some? ==> es[i].stamp == Run(es[..i]).value.clock
  }

  /** Then the store never outgrows the tokens issued no earlier than one hour before the purge's clock reading. */
  lemma AtomicSizeBound(es: seq<Event>, p: nat)
    requires p < |es| && es[p].Purge? && Run(es).Some? && AtomicIssues(es)
    ensures var r := es[p].r;
            |StoreOf(Run(es).value, r)| <= Stored(es, 0, |es|, r, Some(es[p].now - HOUR))
  {
    assert es[..|es|] == es;
    SizeBound(es, p, |es|);
    RecentSinceStored(es, p, |es|);
  }

  /** What is stored after a purge is stamped no earlier than the purge's reading. */
  lemma StampAfterPurge(es: seq<Event>, p: nat, i: nat)
    requires p < i < |es| && es[p].Purge? && es[i].Put? && Run(es).Some? && AtomicIssues(es)
    ensures es[p].now <= es[i].stamp
  {
    RunPrefix(es, i);
    RunPrefix(es[..i], p + 1);
    assert es[..i][..p + 1] == es[..p + 1] && Front(es[..p + 1]) == es[..p];
  }

  lemma {:induction false} RecentSinceStored(es: seq<Event>, p: nat, n: nat)
    requires p < n <= |es| && es[p].Purge? && Run(es).Some? && AtomicIssues(es)
    ensures var r, since := es[p].r, Some(es[p].now - HOUR);
            Stored(es, 0, p, r, since) + Stored(es, p + 1, n, r, None) == Stored(es, 0, n, r, since)
    decreases n
  {
    hide Run;
    hide AtomicIssues;
    if n > p + 1 {
      RecentSinceStored(es, p, n - 1);
      if es[n - 1].Put? {
        StampAfterPurge(es, p, n - 1);
      }
    }
  }
}
