/** Several copies of the service, locks and all, behind one load balancer: each has a token store of its own. */
module ServiceReplicas {
  import opened Wrappers
  import opened Requests
  import opened Service
  import opened ServiceLocks
  import opened ServiceCache
  import opened ServiceTokens
  import opened ServiceTheorems
  import ServiceHistory
  import ServiceIssues
  import Bearer
  import T = TokenRuns

  /** The sites by number, and the token events of all of them in the order in which they happened. */
  datatype Cluster = Cluster(sites: map<nat, State>, log: seq<T.Event>)

  /** Time passes everywhere at once; anything else happens at one site. */
  datatype ClusterLabel = Everywhere(d: nat) | Local(r: nat, l: Label)

  function Fresh(sites: set<nat>): Cluster {
    Cluster(map r | r in sites :: INITIAL, [])
  }

  /** The event as that of site r. */
  function Sited(e: T.Event, r: nat): T.Event {
    match e
    case Put(q, _, tok, stamp, g) => T.Put(q, r, tok, stamp, g)
    case Purge(_, now) => T.Purge(r, now)
    case Lookup(q, _, tok) => T.Lookup(q, r, tok)
    case _ => e
  }

  /** Thread numbers are not shared between sites. */
  predicate ClusterFires(k: Cluster, l: ClusterLabel) {
    match l
    case Everywhere(_) => true
    case Local(r, l) =>
      && r in k.sites && !l.Tick? && Fires(k.sites[r], l)
      && (l.Spawn? ==> forall r' :: r' in k.sites ==> l.t !in k.sites[r'].threads)
  }

  function ClusterApply(c: Config, k: Cluster, l: ClusterLabel): Cluster
    requires ClusterFires(k, l)
  {
    match l
    case Everywhere(d) => Cluster(map r | r in k.sites :: Apply(c, k.sites[r], Tick(d)), k.log + [T.Tick(d)])
    case Local(r, l) =>
      Cluster(k.sites[r := Apply(c, k.sites[r], l)],
              match EventOf(k.sites[r], l) case None => k.log case Some(e) => k.log + [Sited(e, r)])
  }

  function ClusterRun(c: Config, sites: set<nat>, ls: seq<ClusterLabel>): Option<Cluster> {
    if ls == [] then Some(Fresh(sites))
    else match ClusterRun(c, sites, ls[..|ls| - 1])
      case None => None
      case Some(k) =>
        if ClusterFires(k, ls[|ls| - 1]) then Some(ClusterApply(c, k, ls[|ls| - 1])) else None
  }

  // ---------------------------------------------------------------- the cluster refines the replicas' atomic run

  /** The atomic state g holds, as replica r and for these threads, what the one-store state a holds. */
  ghost predicate Mirrors(g: T.State, r: nat, a: T.State, threads: set<Tid>) {
    && g.clock == a.clock && T.StoreOf(g, r) == T.StoreOf(a, 0)
    && forall q :: q in a.found ==> q in threads && q in g.found && g.found[q] == a.found[q]
  }

  ghost predicate Follows(g: T.State, r: nat, s: State) {
    T.Run(s.log).Some? && Mirrors(g, r, T.Run(s.log).value, s.threads.Keys)
  }

  predicate OfOneStore(e: T.Event) {
    e.Put? || e.Purge? || e.Lookup? ==> e.r == 0
  }

  /** An event keeps the replica in step with its site. */
  lemma MirrorsHere(g: T.State, r: nat, a: T.State, threads: set<Tid>, e: T.Event)
    requires Mirrors(g, r, a, threads) && T.Fires(a, e) && OfOneStore(e) && (e.Lookup? ==> e.q in threads)
    ensures T.Fires(g, Sited(e, r)) && Mirrors(T.Apply(g, Sited(e, r)), r, T.Apply(a, e), threads)
  {
  }

  /** And leaves the other replicas as they are. */
  lemma MirrorsElsewhere(g: T.State, r: nat, r': nat, a: T.State, threads: set<Tid>, e: T.Event)
    requires Mirrors(g, r', a, threads) && r != r' && T.Fires(g, Sited(e, r))
    requires !e.Tick? && (e.Lookup? ==> e.q !in threads)
    ensures Mirrors(T.Apply(g, Sited(e, r)), r', a, threads)
  {
  }

  lemma ThreadsKept(c: Config, s: State, l: Label)
    requires Fires(s, l)
    ensures Apply(c, s, l).threads.Keys == s.threads.Keys + (if l.Spawn? then {l.t} else {})
    ensures EventOf(s, l).Some? && !l.Tick? ==>
              var e := EventOf(s, l).value;
              && l.Step? && OfOneStore(e) && !e.Tick?
              && (e.Put? || e.Lookup? || e.Decide? ==> e.q == l.t && e.q in s.threads)
  {
    hide Next;
    hide OpOf;
    hide Effect;
  }

  lemma EventFires(c: Config, s: State, l: Label)
    requires Inv(c, s) && Fires(s, l) && !l.Tick?
    ensures T.Run(s.log).Some?
    ensures EventOf(s, l).Some? ==> T.Fires(T.Run(s.log).value, EventOf(s, l).value)
  {
    hide Apply;
    hide LockInv;
    hide CacheInv;
    hide GrantInv;
    hide LockReady;
    hide T.Fires;
    if EventOf(s, l).Some? {
      AtomicStep(c, s, l.t, l.ch, EventOf(s, l).value);
    }
  }

  lemma FollowsLocal(c: Config, g: T.State, r: nat, s: State, l: Label)
    requires Inv(c, s) && Fires(s, l) && !l.Tick? && Follows(g, r, s)
    ensures var s' := Apply(c, s, l);
            match EventOf(s, l)
            case None => Follows(g, r, s')
            case Some(e) => T.Fires(g, Sited(e, r)) && Follows(T.Apply(g, Sited(e, r)), r, s')
  {
    hide Apply;
    hide Fires;
    hide EventOf;
    hide Inv;
    hide T.Run;
    hide T.Fires;
    hide T.Apply;
    hide Mirrors;
    hide Sited;
    LogStep(c, s, l);
    ThreadsKept(c, s, l);
    EventFires(c, s, l);
    var a, threads, threads' := T.Run(s.log).value, s.threads.Keys, Apply(c, s, l).threads.Keys;
    match EventOf(s, l)
    case None => MirrorsMore(g, r, a, threads, threads');
    case Some(e) =>
      T.RunSnoc(s.log, e);
      MirrorsHere(g, r, a, threads, e);
      MirrorsMore(T.Apply(g, Sited(e, r)), r, T.Apply(a, e), threads, threads');
  }

  lemma MirrorsMore(g: T.State, r: nat, a: T.State, threads: set<Tid>, threads': set<Tid>)
    requires Mirrors(g, r, a, threads) && threads <= threads'
    ensures Mirrors(g, r, a, threads')
  {
  }

  lemma FollowsTick(c: Config, g: T.State, r: nat, s: State, d: nat)
    requires Follows(g, r, s)
    ensures Follows(T.Apply(g, T.Tick(d)), r, Apply(c, s, Tick(d)))
  {
    TickedService(c, s, d);
    hide Apply;
    hide T.Run;
    hide T.Apply;
    hide Mirrors;
    T.RunSnoc(s.log, T.Tick(d));
    MirrorsTick(g, r, T.Run(s.log).value, s.threads.Keys, d);
  }

  lemma TickedService(c: Config, s: State, d: nat)
    ensures Apply(c, s, Tick(d)).log == s.log + [T.Tick(d)] && Apply(c, s, Tick(d)).threads == s.threads
  {
    hide Exec;
  }

  lemma MirrorsTick(g: T.State, r: nat, a: T.State, threads: set<Tid>, d: nat)
    requires Mirrors(g, r, a, threads)
    ensures Mirrors(T.Apply(g, T.Tick(d)), r, T.Apply(a, T.Tick(d)), threads)
  {
  }

  /** The request went through the store and is done with this verdict. */
  predicate Judged(c: Config, s: State, u: Tid, ok: bool) {
    u in s.threads && s.threads[u].MwDone? && s.threads[u].ok == ok && s.threads[u].tok !in {"", c.apiKey}
  }

  ghost predicate JudgedIn(c: Config, k: Cluster, u: Tid, ok: bool) {
    exists r :: r in k.sites && Judged(c, k.sites[r], u, ok)
  }

  ghost predicate Apart(k: Cluster) {
    forall r, r' :: r in k.sites && r' in k.sites && r != r' ==> k.sites[r].threads.Keys !! k.sites[r'].threads.Keys
  }

  ghost predicate SiteOk(c: Config, g: T.State, r: nat, s: State) {
    Inv(c, s) && Follows(g, r, s)
  }

  ghost predicate SitesOk(c: Config, k: Cluster) {
    T.Run(k.log).Some? && forall r :: r in k.sites ==> SiteOk(c, T.Run(k.log).value, r, k.sites[r])
  }

  /** The verdicts of the replicas' atomic run are those of the finished requests, no more and no less. */
  ghost predicate VerdictsTrue(c: Config, k: Cluster) {
    T.Run(k.log).Some? && forall u: Tid, ok: bool :: (u, ok) in T.Run(k.log).value.verdicts <==> JudgedIn(c, k, u, ok)
  }

  ghost predicate ClusterInv(c: Config, k: Cluster) {
    Apart(k) && SitesOk(c, k) && VerdictsTrue(c, k)
  }

  /** A step judges a request exactly by its decision, and as the entry it saw and the clock call for. */
  lemma JudgedStep(c: Config, s: State, l: Label, u: Tid, ok: bool)
    requires Inv(c, s) && Fires(s, l) && T.Run(s.log).Some?
    ensures EventOf(s, l) == Some(T.Decide(u)) ==> u in T.Run(s.log).value.found
    ensures Judged(c, s, u, ok) ==> Judged(c, Apply(c, s, l), u, ok)
    ensures Judged(c, Apply(c, s, l), u, ok) <==>
            || Judged(c, s, u, ok)
            || (EventOf(s, l) == Some(T.Decide(u)) && ok == T.Verdict(s.clock, T.Run(s.log).value.found[u]))
  {
    JudgedMove(c, s, l, u, ok);
    if l.Step? && s.threads[l.t].MwDecide? {
      assert TokenPc(c, s, l.t, s.threads[l.t]);
    }
    hide Apply;
    hide LockInv;
    hide CacheInv;
    hide TokenInv;
    hide GrantInv;
    hide T.Run;
  }

  lemma JudgedMove(c: Config, s: State, l: Label, u: Tid, ok: bool)
    requires Fires(s, l)
    ensures Judged(c, Apply(c, s, l), u, ok) <==>
            || Judged(c, s, u, ok)
            || (l.Step? && l.t == u && s.threads[u].MwDecide? && s.threads[u].tok !in {"", c.apiKey}
                && ok == T.Verdict(s.clock, s.threads[u].entry))
  {
    ThreadsKept(c, s, l);
    if u in Apply(c, s, l).threads {
      ServiceHistory.ThreadsStep(c, s, l, u);
    }
    if l.Step? && l.t == u {
      ServiceHistory.MiddlewarePoints(c, s, s.threads[u], l.ch);
      MwNext(c, s, s.threads[u], l.ch);
    }
    hide Apply;
    hide Next;
    hide OpOf;
    hide LockReady;
  }

  /** What an event at site r, if the step amounts to one, makes of the atomic state. */
  ghost predicate After(g: T.State, g': T.State, e: Option<T.Event>, r: nat) {
    match e case None => g' == g case Some(x) => T.Fires(g, Sited(x, r)) && g' == T.Apply(g, Sited(x, r))
  }

  lemma SiteTick(c: Config, g: T.State, r: nat, s: State, d: nat)
    requires SiteOk(c, g, r, s)
    ensures SiteOk(c, T.Apply(g, T.Tick(d)), r, Apply(c, s, Tick(d)))
  {
    hide Apply;
    hide T.Apply;
    hide Inv;
    hide Follows;
    InvStep(c, s, Tick(d));
    FollowsTick(c, g, r, s, d);
  }

  lemma SiteHere(c: Config, g: T.State, r: nat, s: State, l: Label) returns (g': T.State)
    requires SiteOk(c, g, r, s) && Fires(s, l) && !l.Tick?
    ensures After(g, g', EventOf(s, l), r) && SiteOk(c, g', r, Apply(c, s, l))
  {
    hide Inv;
    hide Follows;
    hide Apply;
    hide Fires;
    hide EventOf;
    hide T.Fires;
    hide T.Apply;
    InvStep(c, s, l);
    FollowsLocal(c, g, r, s, l);
    g' := match EventOf(s, l) case None => g case Some(x) => T.Apply(g, Sited(x, r));
  }

  lemma SiteElsewhere(c: Config, g: T.State, g': T.State, e: Option<T.Event>, r: nat, r': nat, s': State)
    requires SiteOk(c, g, r', s') && r != r' && After(g, g', e, r)
    requires e.Some? ==> !e.value.Tick? && (e.value.Lookup? ==> e.value.q !in s'.threads)
    ensures SiteOk(c, g', r', s')
  {
    hide Inv;
    hide T.Run;
    hide T.Fires;
    hide T.Apply;
    hide Mirrors;
    if e.Some? {
      MirrorsElsewhere(g, r, r', T.Run(s'.log).value, s'.threads.Keys, e.value);
    }
  }

  lemma SitesIntro(c: Config, k: Cluster, g: T.State)
    requires T.Run(k.log) == Some(g) && forall r :: r in k.sites ==> SiteOk(c, g, r, k.sites[r])
    ensures SitesOk(c, k)
  {
    hide T.Run;
    hide SiteOk;
  }

  lemma SiteOf(c: Config, k: Cluster, r: nat)
    requires SitesOk(c, k) && r in k.sites
    ensures T.Run(k.log).Some? && SiteOk(c, T.Run(k.log).value, r, k.sites[r])
  {
    hide T.Run;
    hide SiteOk;
  }

  lemma TickShape(c: Config, k: Cluster, d: nat)
    requires T.Run(k.log).Some?
    ensures var k', g := ClusterApply(c, k, Everywhere(d)), T.Run(k.log).value;
            && k'.sites.Keys == k.sites.Keys
            && (forall r :: r in k.sites ==>
                  k'.sites[r] == Apply(c, k.sites[r], Tick(d)) && k'.sites[r].threads == k.sites[r].threads)
            && T.Fires(g, T.Tick(d)) && T.Run(k'.log) == Some(T.Apply(g, T.Tick(d)))
            && T.Apply(g, T.Tick(d)).verdicts == g.verdicts
  {
    T.RunSnoc(k.log, T.Tick(d));
  }

  lemma TickSites(c: Config, k: Cluster, d: nat)
    requires SitesOk(c, k)
    ensures SitesOk(c, ClusterApply(c, k, Everywhere(d)))
  {
    SomeRun(c, k);
    TickShape(c, k, d);
    hide T.Run;
    hide T.Fires;
    hide T.Apply;
    hide SitesOk;
    hide SiteOk;
    hide Apply;
    hide ClusterApply;
    var k', g := ClusterApply(c, k, Everywhere(d)), T.Run(k.log).value;
    forall r | r in k'.sites ensures SiteOk(c, T.Apply(g, T.Tick(d)), r, k'.sites[r]) {
      SiteOf(c, k, r);
      SiteTick(c, g, r, k.sites[r], d);
    }
    SitesIntro(c, k', T.Apply(g, T.Tick(d)));
  }

  lemma TickApart(c: Config, k: Cluster, d: nat)
    requires Apart(k)
    ensures Apart(ClusterApply(c, k, Everywhere(d)))
  {
  }

  lemma TickVerdicts(c: Config, k: Cluster, d: nat)
    requires VerdictsTrue(c, k)
    ensures VerdictsTrue(c, ClusterApply(c, k, Everywhere(d)))
  {
    TickShape(c, k, d);
    SameJudged(c, k, ClusterApply(c, k, Everywhere(d)));
    hide T.Run;
    hide T.Apply;
    hide JudgedIn;
    hide ClusterApply;
  }

  lemma SameJudged(c: Config, k: Cluster, k': Cluster)
    requires k'.sites.Keys == k.sites.Keys && forall r :: r in k.sites ==> k'.sites[r].threads == k.sites[r].threads
    ensures forall u: Tid, ok: bool :: JudgedIn(c, k', u, ok) <==> JudgedIn(c, k, u, ok)
  {
    assert forall r, u, ok :: r in k.sites ==> (Judged(c, k'.sites[r], u, ok) <==> Judged(c, k.sites[r], u, ok));
  }

  lemma LocalLog(c: Config, k: Cluster, r: nat, l: Label)
    requires T.Run(k.log).Some? && ClusterFires(k, Local(r, l))
    requires EventOf(k.sites[r], l).Some? ==> T.Fires(T.Run(k.log).value, Sited(EventOf(k.sites[r], l).value, r))
    ensures var k' := ClusterApply(c, k, Local(r, l));
            && T.Run(k'.log).Some? && After(T.Run(k.log).value, T.Run(k'.log).value, EventOf(k.sites[r], l), r)
            && k'.sites == k.sites[r := Apply(c, k.sites[r], l)]
  {
    var e := EventOf(k.sites[r], l);
    hide EventOf;
    hide Apply;
    hide Fires;
    hide T.Fires;
    hide T.Apply;
    if e.Some? {
      T.RunSnoc(k.log, Sited(e.value, r));
    }
  }

  /** The event of a step at site r is none of another site's threads'. */
  lemma EventsApart(c: Config, k: Cluster, r: nat, r': nat, l: Label)
    requires Apart(k) && ClusterFires(k, Local(r, l)) && r' in k.sites && r' != r
    ensures EventOf(k.sites[r], l).Some? ==>
              var e := EventOf(k.sites[r], l).value; !e.Tick? && (e.Lookup? ==> e.q !in k.sites[r'].threads)
  {
    ThreadsKept(c, k.sites[r], l);
    hide EventOf;
    hide Fires;
  }

  lemma LocalSites(c: Config, k: Cluster, r: nat, l: Label)
    requires SitesOk(c, k) && Apart(k) && ClusterFires(k, Local(r, l))
    ensures SitesOk(c, ClusterApply(c, k, Local(r, l)))
    ensures After(T.Run(k.log).value, T.Run(ClusterApply(c, k, Local(r, l)).log).value, EventOf(k.sites[r], l), r)
  {
    hide T.Run;
    hide T.Fires;
    hide T.Apply;
    hide SitesOk;
    hide SiteOk;
    hide Apart;
    hide Apply;
    hide EventOf;
    hide Fires;
    hide Sited;
    hide ClusterApply;
    SiteOf(c, k, r);
    var s, e, g, k' := k.sites[r], EventOf(k.sites[r], l), T.Run(k.log).value, ClusterApply(c, k, Local(r, l));
    var g' := SiteHere(c, g, r, s, l);
    LocalLog(c, k, r, l);
    assert T.Run(k'.log) == Some(g');
    forall r' | r' in k'.sites ensures SiteOk(c, g', r', k'.sites[r']) {
      if r' != r {
        SiteOf(c, k, r');
        EventsApart(c, k, r, r', l);
        SiteElsewhere(c, g, g', e, r, r', k.sites[r']);
      }
    }
    SitesIntro(c, k', g');
  }

  lemma LocalApart(c: Config, k: Cluster, r: nat, l: Label)
    requires Apart(k) && ClusterFires(k, Local(r, l))
    ensures Apart(ClusterApply(c, k, Local(r, l)))
  {
    ThreadsKept(c, k.sites[r], l);
    hide Apply;
    hide Fires;
  }

  lemma LocalVerdicts(c: Config, k: Cluster, r: nat, l: Label)
    requires ClusterInv(c, k) && ClusterFires(k, Local(r, l))
    ensures VerdictsTrue(c, ClusterApply(c, k, Local(r, l)))
  {
    hide T.Run;
    hide SitesOk;
    hide Apart;
    hide Apply;
    hide EventOf;
    hide Fires;
    hide JudgedIn;
    hide After;
    LocalSites(c, k, r, l);
    LocalShape(c, k, r, l);
    hide ClusterApply;
    var k' := ClusterApply(c, k, Local(r, l));
    SomeRun(c, k');
    forall u: Tid, ok: bool ensures (u, ok) in T.Run(k'.log).value.verdicts <==> JudgedIn(c, k', u, ok) {
      OneVerdict(c, k, k', r, l, T.Run(k'.log).value, u, ok);
    }
  }

  lemma SomeRun(c: Config, k: Cluster)
    requires SitesOk(c, k)
    ensures T.Run(k.log).Some?
  {
  }

  lemma LocalShape(c: Config, k: Cluster, r: nat, l: Label)
    requires ClusterFires(k, Local(r, l))
    ensures ClusterApply(c, k, Local(r, l)).sites == k.sites[r := Apply(c, k.sites[r], l)]
  {
  }

  lemma SiteFacts(c: Config, k: Cluster, r: nat, u: Tid)
    requires SitesOk(c, k) && r in k.sites
    ensures T.Run(k.log).Some? && Inv(c, k.sites[r]) && T.Run(k.sites[r].log).Some?
    ensures var g, a := T.Run(k.log).value, T.Run(k.sites[r].log).value;
            g.clock == k.sites[r].clock && (u in a.found ==> u in g.found && g.found[u] == a.found[u])
  {
    hide T.Run;
    hide LockInv;
    hide CacheInv;
    hide GrantInv;
    assert SiteOk(c, T.Run(k.log).value, r, k.sites[r]);
  }

  lemma TrueVerdict(c: Config, k: Cluster, u: Tid, ok: bool)
    requires VerdictsTrue(c, k)
    ensures T.Run(k.log).Some? && ((u, ok) in T.Run(k.log).value.verdicts <==> JudgedIn(c, k, u, ok))
  {
    hide T.Run;
    hide JudgedIn;
  }

  lemma OneVerdict(c: Config, k: Cluster, k': Cluster, r: nat, l: Label, g': T.State, u: Tid, ok: bool)
    requires SitesOk(c, k) && VerdictsTrue(c, k) && r in k.sites && Fires(k.sites[r], l)
    requires k'.sites == k.sites[r := Apply(c, k.sites[r], l)]
    requires After(T.Run(k.log).value, g', EventOf(k.sites[r], l), r)
    ensures (u, ok) in g'.verdicts <==> JudgedIn(c, k', u, ok)
  {
    hide *;
    SiteFacts(c, k, r, u);
    TrueVerdict(c, k, u, ok);
    var s, g, e := k.sites[r], T.Run(k.log).value, EventOf(k.sites[r], l);
    JudgedStep(c, s, l, u, ok);
    JudgedElsewhere(c, k, k', r, u, ok);
    NewVerdict(g, g', e, r, u, ok);
  }

  lemma JudgedElsewhere(c: Config, k: Cluster, k': Cluster, r: nat, u: Tid, ok: bool)
    requires r in k.sites && k'.sites.Keys == k.sites.Keys
    requires forall r' :: r' in k.sites && r' != r ==> k'.sites[r'] == k.sites[r']
    requires Judged(c, k.sites[r], u, ok) ==> Judged(c, k'.sites[r], u, ok)
    ensures JudgedIn(c, k', u, ok) <==> JudgedIn(c, k, u, ok) || Judged(c, k'.sites[r], u, ok)
    ensures Judged(c, k.sites[r], u, ok) ==> JudgedIn(c, k, u, ok)
  {
    hide Judged;
    if JudgedIn(c, k', u, ok) {
      var r' :| r' in k'.sites && Judged(c, k'.sites[r'], u, ok);
      assert r' != r ==> Judged(c, k.sites[r'], u, ok);
    }
    if JudgedIn(c, k, u, ok) {
      var r' :| r' in k.sites && Judged(c, k.sites[r'], u, ok);
      assert Judged(c, k'.sites[r'], u, ok);
    }
  }

  lemma NewVerdict(g: T.State, g': T.State, e: Option<T.Event>, r: nat, u: Tid, ok: bool)
    requires After(g, g', e, r)
    ensures (u, ok) in g'.verdicts <==>
            (u, ok) in g.verdicts
            || (e == Some(T.Decide(u)) && u in g.found && ok == T.Verdict(g.clock, g.found[u]))
  {
    if e.Some? && e.value.Decide? {
      var q := e.value.q;
      assert g'.verdicts == g.verdicts + [(q, T.Verdict(g.clock, g.found[q]))];
    }
  }

  lemma {:induction false} ClusterRunInv(c: Config, sites: set<nat>, ls: seq<ClusterLabel>)
    requires ClusterRun(c, sites, ls).Some?
    ensures ClusterInv(c, ClusterRun(c, sites, ls).value)
  {
    if ls == [] {
      FreshInv(c, sites);
    } else {
      ClusterRunInv(c, sites, ls[..|ls| - 1]);
      var k, l := ClusterRun(c, sites, ls[..|ls| - 1]).value, ls[|ls| - 1];
      hide ClusterInv;
      hide ClusterApply;
      hide ClusterFires;
      ClusterStep(c, k, l);
    }
  }

  lemma ClusterStep(c: Config, k: Cluster, l: ClusterLabel)
    requires ClusterInv(c, k) && ClusterFires(k, l)
    ensures ClusterInv(c, ClusterApply(c, k, l))
  {
    hide Apart;
    hide SitesOk;
    hide VerdictsTrue;
    match l
    case Everywhere(d) =>
      TickSites(c, k, d);
      TickApart(c, k, d);
      TickVerdicts(c, k, d);
    case Local(r, l) =>
      LocalSites(c, k, r, l);
      LocalApart(c, k, r, l);
      LocalVerdicts(c, k, r, l);
  }

  lemma FreshInv(c: Config, sites: set<nat>)
    ensures ClusterInv(c, Fresh(sites))
  {
    InitialInv(c);
    hide Inv;
  }

  // ---------------------------------------------------------------- many sites as one store

  /** With sticky routing every request at every site gets the verdict of one store over the merged run, and that
      only. */
  lemma SitesAsOne(c: Config, sites: set<nat>, ls: seq<ClusterLabel>, r: nat, u: Tid)
    requires ClusterRun(c, sites, ls).Some? && T.Sticky(ClusterRun(c, sites, ls).value.log)
    requires r in ClusterRun(c, sites, ls).value.sites
    requires var s := ClusterRun(c, sites, ls).value.sites[r];
             u in s.threads && s.threads[u].MwDone? && s.threads[u].tok !in {"", c.apiKey}
    ensures var k := ClusterRun(c, sites, ls).value;
            && T.Run(T.Merge(k.log)).Some?
            && forall ok :: (u, ok) in T.Run(T.Merge(k.log)).value.verdicts <==> ok == k.sites[r].threads[u].ok
  {
    ClusterRunInv(c, sites, ls);
    var k := ClusterRun(c, sites, ls).value;
    hide ClusterRun;
    T.ReplicaRefinement(k.log);
    hide SitesOk;
    hide T.Run;
    assert Judged(c, k.sites[r], u, k.sites[r].threads[u].ok);
    forall ok | JudgedIn(c, k, u, ok) ensures ok == k.sites[r].threads[u].ok {
      var r' :| r' in k.sites && Judged(c, k.sites[r'], u, ok);
      assert r' == r;
    }
  }

  /** And with tokens that never collide, all sites together judge as one store exactly if none ever decides about a
      token alive at another. */
  lemma SitesAsOneExactly(c: Config, sites: set<nat>, ls: seq<ClusterLabel>)
    requires ClusterRun(c, sites, ls).Some? && T.DistinctTokens(ClusterRun(c, sites, ls).value.log)
    ensures var k := ClusterRun(c, sites, ls).value;
            && T.Run(k.log).Some? && T.Run(T.Merge(k.log)).Some?
            && (forall u: Tid, ok :: (u, ok) in T.Run(k.log).value.verdicts <==> JudgedIn(c, k, u, ok))
            && (T.Run(T.Merge(k.log)).value.verdicts == T.Run(k.log).value.verdicts <==>
                forall d: nat :: !T.StrayDecision(k.log, d))
  {
    ClusterRunInv(c, sites, ls);
    var k := ClusterRun(c, sites, ls).value;
    T.ReplicaRunExact(k.log);
  }

  // ---------------------------------------------------------------- one site by itself

  /** What happened at site r: its own labels, and the passing of time. */
  function OwnLabels(ls: seq<ClusterLabel>, r: nat): seq<Label> {
    if ls == [] then []
    else
      OwnLabels(ls[..|ls| - 1], r)
      + (match ls[|ls| - 1]
         case Everywhere(d) => [Tick(d)]
         case Local(r', l) => if r' == r then [l] else [])
  }

  /** Each site is a service that has run on its own labels: whatever holds of runs of the service holds at every
      site. */
  lemma {:induction false} SiteRuns(c: Config, sites: set<nat>, ls: seq<ClusterLabel>, r: nat)
    requires ClusterRun(c, sites, ls).Some? && r in sites
    ensures r in ClusterRun(c, sites, ls).value.sites
    ensures Run(c, OwnLabels(ls, r)) == Some(ClusterRun(c, sites, ls).value.sites[r])
  {
    hide Apply;
    hide Fires;
    hide EventOf;
    if ls != [] {
      var front, l := ls[..|ls| - 1], ls[|ls| - 1];
      SiteRuns(c, sites, front, r);
      var k := ClusterRun(c, sites, front).value;
      match l
      case Everywhere(d) =>
        RunSnoc(c, OwnLabels(front, r), Tick(d));
        AlwaysTicks(k.sites[r], d);
      case Local(r', x) =>
        if r' == r {
          RunSnoc(c, OwnLabels(front, r), x);
        } else {
          assert OwnLabels(front, r) + [] == OwnLabels(front, r);
        }
    }
  }

  lemma RunSnoc(c: Config, ls: seq<Label>, l: Label)
    ensures Run(c, ls + [l]) ==
            match Run(c, ls) case None => None case Some(s) => if Fires(s, l) then Some(Apply(c, s, l)) else None
  {
    hide Apply;
    hide Fires;
    assert (ls + [l])[..|ls|] == ls;
  }

  lemma AlwaysTicks(s: State, d: nat)
    ensures Fires(s, Tick(d))
  {
  }

  lemma {:induction false} OwnLabelsHold(ls: seq<ClusterLabel>, r: nat, n: nat)
    requires n < |ls| && ls[n].Local? && ls[n].r == r
    ensures ls[n].l in OwnLabels(ls, r)
  {
    if n < |ls| - 1 {
      OwnLabelsHold(ls[..|ls| - 1], r, n);
    }
  }

  /** So a request that arrived at a site is let through iff it presents the API key, or a token whose store, at that
      site, was within the hour before its decision and earned there. */
  lemma AuthorisationAtSite(c: Config, sites: set<nat>, ls: seq<ClusterLabel>, r: nat, n: nat, u: Tid)
    requires ClusterRun(c, sites, ls).Some? && r in sites
    requires n < |ls| && ls[n].Local? && ls[n].r == r && ls[n].l.Spawn? && ls[n].l.t == u && ls[n].l.pc.MwStart?
    requires r in ClusterRun(c, sites, ls).value.sites
    requires var s := ClusterRun(c, sites, ls).value.sites[r]; u in s.threads && s.threads[u].MwDone?
    ensures var s, tok := ClusterRun(c, sites, ls).value.sites[r], Bearer.Presented(ls[n].l.pc.presented);
            s.threads[u].ok <==>
            && tok != ""
            && (tok == c.apiKey
                || exists i: nat, k: nat ::
                     (GrantedBy(s.log, u, tok, i, k) && ServiceIssues.Earned(c, OwnLabels(ls, r), k)))
  {
    SiteRuns(c, sites, ls, r);
    OwnLabelsHold(ls, r, n);
    hide ClusterRun;
    hide Run;
    hide OwnLabels;
    hide GrantedBy;
    hide ServiceIssues.Earned;
    hide Bearer.Presented;
    var own := OwnLabels(ls, r);
    var a: nat :| a < |own| && own[a] == ls[n].l;
    ServiceIssues.AuthorisationExact(c, own, a, u);
  }
}
