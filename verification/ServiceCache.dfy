/** The key cache in every reachable state: whole snapshots of served documents, never nil where it is dereferenced. */
module ServiceCache {
  import opened Wrappers
  import opened Jwk
  import opened Requests
  import opened Service
  import Bearer
  import Jwt

  ghost predicate FromServed(s: State, keys: KeySet) {
    exists doc :: doc in s.served && keys == Fold(doc)
  }

  /** The answer for the kid is the lookup in one document the issuer has served. */
  ghost predicate FoundServed(s: State, kid: string, found: Option<PublicKey>) {
    exists doc :: doc in s.served && found == Find(Fold(doc), kid)
  }

  ghost predicate CachePc(s: State, pc: Pc) {
    match pc
    case KeyLookup(_) => s.jwks.Some?
    case KeyHit(ex, key) => FoundServed(s, ex.jwt.header.kid, Some(key))
    case InstallLock(_, keys) => FromServed(s, keys)
    case InstallPending(_, keys) => FromServed(s, keys)
    case Install(_, keys) => FromServed(s, keys)
    case InstallUnlock(_) => s.jwks.Some?
    case KeyLock2(_) => s.jwks.Some?
    case KeyReread(_) => s.jwks.Some?
    case KeyUnlock2(ex, found) => FoundServed(s, ex.jwt.header.kid, found)
    case Close(ex, found) => FoundServed(s, ex.jwt.header.kid, found)
    case _ => true
  }

  /** The cache is nil exactly until the first install and then the latest snapshot; each snapshot is the fold of one
      document the issuer served; install stamps never decrease. */
  ghost predicate CacheInv(s: State) {
    && s.jwks == (if s.installs == [] then None else Some(s.installs[|s.installs| - 1]))
    && (forall i :: 0 <= i < |s.installs| ==> s.installs[i].fetchedAt <= s.clock && FromServed(s, s.installs[i].keys))
    && (forall i, j :: 0 <= i < j < |s.installs| ==> s.installs[i].fetchedAt <= s.installs[j].fetchedAt)
    && (forall t :: t in s.threads ==> CachePc(s, s.threads[t]))
  }

  ghost predicate Later(s: State, s': State) {
    && s.served <= s'.served && s.installs <= s'.installs && s.clock <= s'.clock
    && (s.jwks.Some? ==> s'.jwks.Some?)
  }

  lemma CachePcStable(s: State, s': State, pc: Pc)
    requires Later(s, s') && CachePc(s, pc)
    ensures CachePc(s', pc)
  {
  }

  /** What a step does to the cache. */
  lemma CacheEffect(c: Config, s: State, l: Label)
    requires Fires(s, l)
    ensures var s' := Apply(c, s, l);
            && Later(s, s')
            && (if l.Step? && s.threads[l.t].Install?
                then s'.installs == s.installs + [Snapshot(s.threads[l.t].keys, s.clock)]
                     && s'.jwks == Some(Snapshot(s.threads[l.t].keys, s.clock)) && s'.clock == s.clock
                else s'.installs == s.installs && s'.jwks == s.jwks)
  {
    hide Next;
    hide OpOf;
  }

  /** The stepping thread arrives where the invariant allows. */
  lemma CacheNext(c: Config, s: State, pc: Pc, ch: Choice, s': State)
    requires CacheInv(s) && CachePc(s, pc) && Later(s, s')
    requires pc.Fetch? && ch.doc.Some? ==> ch.doc.value in s.served
    requires pc.Install? ==> s'.jwks.Some?
    ensures CachePc(s', Next(c, s, pc, ch))
  {
    hide Jwt.Open;
    hide Jwt.Close;
    hide Bearer.GenerateToken;
    hide Bearer.Presented;
    hide RefuseOAuth;
    hide RefuseExchange;
    hide Fold;
    CachedServed(s);
    hide FromServed;
    hide FoundServed;
    hide CacheInv;
    FetchedServed(s', ch);
    CachePcStable(s, s', pc);
    CachedLater(s, s', pc);
  }

  /** Looking a kid up in the cache answers from a served document. */
  lemma CachedServed(s: State)
    requires CacheInv(s)
    ensures s.jwks.Some? ==> forall kid :: FoundServed(s, kid, Find(s.jwks.value.keys, kid))
  {
    hide Find;
    hide Fold;
    if s.jwks.Some? {
      assert FromServed(s, s.jwks.value.keys);
    }
  }

  lemma CachedLater(s: State, s': State, pc: Pc)
    requires Later(s, s') && (s.jwks.Some? ==> forall kid :: FoundServed(s, kid, Find(s.jwks.value.keys, kid)))
    ensures s.jwks.Some? ==> forall kid :: FoundServed(s', kid, Find(s.jwks.value.keys, kid))
  {
  }

  lemma FetchedServed(s: State, ch: Choice)
    ensures ch.doc.Some? && ch.doc.value in s.served ==> FromServed(s, Fold(ch.doc.value))
  {
  }

  lemma CacheThreads(c: Config, s: State, l: Label, u: Tid)
    requires CacheInv(s) && Fires(s, l) && u in Apply(c, s, l).threads
    ensures CachePc(Apply(c, s, l), Apply(c, s, l).threads[u])
  {
    hide Next;
    hide OpOf;
    hide Effect;
    var s' := Apply(c, s, l);
    CacheEffect(c, s, l);
    if l.Step? && u == l.t {
      CacheNext(c, s, s.threads[u], l.ch, s');
    } else if !(l.Spawn? && u == l.t) {
      CachePcStable(s, s', s.threads[u]);
    }
  }

  lemma CacheInvStep(c: Config, s: State, l: Label)
    requires CacheInv(s) && Fires(s, l)
    ensures CacheInv(Apply(c, s, l))
  {
    hide Next;
    hide OpOf;
    hide Effect;
    hide Fold;
    hide Apply;
    var s' := Apply(c, s, l);
    CacheEffect(c, s, l);
    if l.Step? && s.threads[l.t].Install? {
      assert CachePc(s, s.threads[l.t]);
    }
    forall u | u in s'.threads ensures CachePc(s', s'.threads[u]) {
      CacheThreads(c, s, l, u);
    }
  }
}
