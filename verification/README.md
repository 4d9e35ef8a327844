# headtotails, modelled and proved

headtotails is a gateway that answers a part of the Tailscale API out of a headscale server. Most of it translates
records. This project models the parts with state, concurrency, parsing or arithmetic, and proves what they keep:

- **Bearer tokens.** Two endpoints hand out tokens good for an hour, a background loop purges expired ones, a middleware
  decides requests. All share one map and read the clock outside its lock.
- **The signing-key cache.** `getKey` checks a cache under a read lock, lets go, fetches, installs under the write lock
  and reads again, while others do the same.
- **Auth keys.** Each request is a row of calls to headscale: list users, resolve the tailnet, list and filter keys,
  find by id, create, expire, delete. Any call may fail, before or after it took effect, and requests interleave.
- **What these stand on.** Unpadded base64url, compact JWTs, bearer headers, decimal ids, the RSA exponent loop, the fold
  of a key-set document and the expiry product on 64 bits.

`dafny verify dfyconfig.toml` checks everything.

## How it is laid out

| files | contents |
|---|---|
| `Wrappers`, `Machine`, `Text`, `Base64Url`, `Decimal` | result types, integer widths, Go's string functions, the two codecs |
| `Bearer`, `Jwk`, `Jwt`, `Requests` | tokens and headers, key documents, token validation, what an endpoint demands |
| `TokenRuns` | runs of atomic token-store events, over any number of replicas |
| `Service`, `ServiceLocks`, `ServiceCache`, `ServiceTokens`, `ServiceTheorems` | the concurrent service: threads with program counters over two reader/writer mutexes, its invariants, and what holds in every reachable state |
| `ServiceHistory`, `ServiceIssues` | what a run tells of each thread: at which labels and clock readings it passed which point; answers of `getKey`, tokens issued, requests refused, issued tokens honoured |
| `ServiceReplicas` | several such services behind one load balancer |
| `AuthHandlers` | the token store, the validator and the endpoints as classes and methods |
| `Upstream`, `Translate`, `KeyRequests`, `KeyRuns` | headscale as its clients see it, a request as an automaton of calls, and all interleavings of requests |
| `KeyAnswers` | what each request is answered, over all interleavings, from its own calls |
| `KeysHandlers`, `LifeCycle` | the key endpoints as methods that equal the automaton, whole requests that meet no fault, and one key from create to delete |
| `Devices`, `Users` | ids shown and ids taken back |

Instants and durations are integers counting nanoseconds. `TokenRuns` treats each store operation as one event that
carries a possibly stale clock reading. `Service` takes nothing as atomic: a lock operation, a single deletion by the
purge loop, the age check and the map read of `getKey` are steps of their own, a writer first announces itself and then
waits, and `Service` is proved to refine `TokenRuns`, one event per locked operation (`ServiceTokens.Refines`).
Statements about when something happened are not made about data that the model notes down: they are made about the
labels of the run, the points at which threads stood before them, and the clock as it was then.

## Where a promise fails

- **Expiry.** The product of seconds and nanoseconds wraps above 9223372036 seconds. One second more and the key is dead
  when it is made (`Translate.ExpiryWraps`); the exact condition is `Translate.ExpiryExact`, seen end to end in
  `LifeCycle.CreatedLives`.
- **Ids with superfluous zeros.** `GET /users/007` finds nobody while `POST /users/007/delete` removes user 7, because one
  compares texts and the other numbers (`Users.PaddedId`). They agree exactly when the text names no user's number or is
  written as ids are shown (`Users.GetDeleteAgree`).
- **A user with an empty name.** `ListPreAuthKeys` reads the empty name as "everybody", so with an empty configured tailnet
  and such a user, listing "-" shows alice's key (`LifeCycle.EmptyNameServed`). A listing is one user's only if the
  name is not empty or every key belongs to a user of the empty name (`KeyRequests.FilterIsolates`).
- **Replicas.** A replica judges a request otherwise than one store would exactly if the token is alive at another replica,
  one lookup at a time (`TokenRuns.ReplicaExact`) and over whole runs (`TokenRuns.ReplicaRunExact`), for replicas with locks
  of their own too (`ServiceReplicas.SitesAsOneExactly`). Sticky routing, which the repository's documentation asks for,
  excludes it.
- **Wide RSA exponents.** From 2^63 on the loop no longer yields the encoded value (`Jwk.RsaExponent`).

## Assumptions

- HMAC, JSON decoding and the two signature checks are uninterpreted functions. That no nonce is drawn twice is assumed in
  `ServiceIssues.DistinctNoncesSuffice` and `ServiceIssues.IssuedIsHonoured`; that no token is stored twice, in
  `TokenRuns.DistinctDecision`, `TokenRuns.ReplicaExact`, `TokenRuns.ReplicaRunExact`, `TokenRuns.StrayTokenRejected` and
  `ServiceReplicas.SitesAsOneExactly`; and neither elsewhere.
- The clock does not run backwards, and replicas share it. An issuer serves any documents in any order; a fetch yields one
  served so far, or fails.
- headscale keeps user names unique and non-empty, never reuses an id, does not rename users, and refuses to create a key
  for an unknown user. Removing a user leaves its keys without an owner. Expiring a key again changes nothing.
  Between any two calls nodes may use keys up, and an administrator may create, expire and delete keys and add and
  remove users.
- The gateway's clock is the server's clock where a key's expiry is stamped, except in `Translate.AliveAtCreation`, where the
  two readings are apart. Go's `int` has 64 bits.

## Model

| member | source | states |
|---|---|---|
| `Text.SplitN` | internal/api/wif.go:87-90 | At most n parts come out, only the n-th may still hold the separator, and joined they are the text again. |
| `Text.SplitNJoin` | internal/api/wif.go:87-90 | Conversely, parts of which only the n-th may hold the separator are recovered by splitting their join. |
| `Text.TrimSpaceExact` | internal/api/auth.go:197 | Trimming takes white space off both ends, however much, and nothing else. |
| `Text.TrimSpaceCovers` | internal/api/auth.go:197 | Every text is what trimming leaves of it with blank texts around it, and that neither begins nor ends with white space. |
| `Text.IsSpaceExact` | internal/api/auth.go:197 | A character counts as space iff it has the Unicode property White_Space. |
| `Text.EqualFoldBearer` | internal/api/auth.go:194 | A scheme is "bearer" iff it has six letters, each that of the word in small or in capital form. |
| `Base64Url.DecodeEncode` | internal/api/auth.go:143-147 | Unpadded base64url (section 5 of RFC 4648) decodes to the bytes that were encoded. |
| `Base64Url.DecodeRejects` | internal/api/wif.go:92-125 | A text with any character outside the alphabet, line breaks aside, does not decode; no dot and no space ever passes. |
| `Base64Url.LetterExact` | internal/api/auth.go:143-147 | The 64 letters are A to Z, a to z, 0 to 9, minus and underscore, in this order (section 5 of RFC 4648). |
| `Base64Url.EncodeBits` | internal/api/auth.go:143-147 | Each group of four letters stands for the bits of the three bytes it encodes, in order, zero bits filling up a short last group. |
| `Base64Url.DecodeBits` | internal/api/wif.go:92-125 | Each group of bytes decoded holds the bits of its letters, in order, line breaks skipped and the leftover bits of a short last group ignored. |
| `Base64Url.DecodeAccepts` | internal/api/wif.go:92-125 | A text decodes iff it consists of letters of the alphabet and line breaks, the letters not one more than a multiple of four. |
| `Jwt.PrintParse` | internal/api/wif.go:87-125 | For all header, claims and signature bytes, splitting and decoding the compact serialization (section 7.1 of RFC 7515) gives back exactly these bytes, and the signed text is the first two parts joined. |
| `Jwt.ValidateExact` | internal/api/wif.go:85-144 | A token is accepted with given claims iff some cut of it into three decodes to that header and those claims, the key for its kid verifies the signature over the first two parts, it names no expiry or the clock has not reached the end of the second it names, and issuer and audience are as configured; the order of the checks and the splitting do not show. |
| `Jwt.AcceptedHasTwoDots` | internal/api/wif.go:87-125 | Whatever is accepted has exactly two dots, although splitting leaves further dots in the third part. |
| `Bearer.GenerateTokenInjective` | internal/api/auth.go:138-150 | Distinct nonces give distinct tokens, whatever the signature function does. |
| `Bearer.GenerateTokenParts` | internal/api/auth.go:138-150 | A token is two halves around one dot: they decode to the nonce and to the signature of the first half. |
| `Bearer.ExtractAfterScheme` | internal/api/auth.go:188-198 | From scheme, space, text the trimmed text is extracted iff the scheme spells "bearer", letter by letter in either case, and nothing otherwise. |
| `Bearer.NoSchemeNoToken` | internal/api/auth.go:188-198 | A header without a space yields no token. |
| `Bearer.ExtractText` | internal/api/auth.go:188-198 | A text survives the Bearer header unchanged iff no space surrounds it. |
| `Bearer.ExtractIssued` | internal/api/auth.go:138-198 | Every token the gateway issues is extracted from "Bearer " plus the token exactly as issued. |
| `Bearer.PresentedAfterScheme` | internal/api/auth.go:153-163 | With a header of scheme, space, text: a text that is not blank under a scheme spelling "bearer" is presented, trimmed; with any other the Basic user, and nothing where there is none. |
| `Bearer.PresentedNoScheme` | internal/api/auth.go:153-163 | With a header without a space the Basic user is presented, and nothing where there is none. |
| `Requests.DeservedByCredentials` | internal/api/auth.go:77-135 | The credentials endpoint grants a token iff the grant type is right and the configured pair came in Basic form or, the Basic user missing or empty, in a body that parses, with neither half empty there. |
| `Requests.DeservedByJwt` | internal/api/wif.go:345-382 | An exchange is deserved iff federation is on, the grant type is right, the configured non-empty client came in Basic form or, the Basic user missing or empty, in the form, and the JWT is not empty and acceptable under the key by the rule on its text. |
| `Requests.RefuseOAuthStatus` | internal/api/auth.go:77-105 | The statuses of the credentials endpoint: 400 without complete credentials or with another grant type, 401 for any pair but the configured one, and no refusal for that. |
| `Requests.RefuseExchangeStatus` | internal/api/wif.go:345-376 | The statuses of the exchange endpoint before the JWT is looked at: 501 without federation, 400 for what is missing or another grant type, 401 for another client, the client looked at before the token. |
| `Decimal.ParseFormat` | internal/api/devices.go:206-209 | A formatted number parses back to itself below 2^64 and is refused from there on. |
| `Decimal.FormatInjective` | internal/translate/key.go:15 | Two ids are shown alike iff they are equal. |
| `Decimal.FormatDigits` | internal/translate/key.go:15 | Ids are shown in base ten: one digit by itself, and after a positive number one more digit for ten times as much. |
| `Decimal.ParseExact` | internal/api/devices.go:206-209 | A path text parses to a number below 2^64 iff it is the number as shown, with any number of zeros in front. |
| `Decimal.ParseIsFormat` | internal/api/users.go:54-61 | A text parses to a number without being the shown form of that number iff it has superfluous leading zeros. |
| `Decimal.FindTextIsFindId` | internal/api/keys.go:130-137 | Searching ids by text and searching by parsed number give the same position iff the number is absent or the text canonical. |
| `Jwk.BigEndianValue` | internal/api/wif.go:298-314 | Octets are read big-endian: one more byte is 256 times as much plus the byte. |
| `Jwk.RsaExponent` | internal/api/wif.go:308-313 | The accumulation loop on wrapping 64-bit ints yields the big-endian value of the bytes iff that value is below 2^63, and its two's-complement residue in every case. |
| `Jwk.ExponentRoundTrip` | internal/api/wif.go:308-313 | For every number below 2^63 the loop on its minimal big-endian octets (section 2 of RFC 7518) wraps at no prefix, gives the number back, and does so too with a zero octet in front. |
| `Jwk.RsaRoundTrip` | internal/api/wif.go:298-314 | Modulus and exponent, each written as base64url of big-endian octets with any leading zeros, come back in their places; the exponent iff it is below 2^63. |
| `Jwk.EcRoundTrip` | internal/api/wif.go:316-340 | Curve and coordinates so written come back in their places for P-256 and P-384, and no other curve name is taken. |
| `Jwk.FoldIsLast` | internal/api/wif.go:205-235 | The map built from a document (section 5 of RFC 7517) holds a kid iff some entry with that kid parses under a supported key type, and then with the key of the last such entry. |
| `Jwk.FoldExact` | internal/api/wif.go:205-235 | In terms of the entries' fields: the map holds a key under a kid iff the last entry with that kid that parses (an "RSA" whose modulus and exponent decode, an "EC" of a supported curve whose coordinates decode) describes it, modulus, exponent, curve and coordinates each from its own field; and no key for any other type. |
| `Jwk.FoldFindsRsa` | internal/api/wif.go:205-235 | An RSA entry as an issuer writes it, replaced by no later one, is found under its kid with modulus and exponent in their places, for every exponent below 2^63. |
| `Jwk.FoldFindsEc` | internal/api/wif.go:205-235 | Likewise an elliptic-curve entry with its curve and coordinates. |
| `Jwk.FoldIgnores` | internal/api/wif.go:218-234 | An entry that does not parse or is of another type neither adds nor erases, wherever in the document it stands. |
| `Jwk.FoldKeys` | internal/api/wif.go:205-235 | The loop with its switch and its skips computes that map. |
| `TokenRuns.PurgeTransparency` | internal/api/auth.go:56-65 | In every run of ticks, issues, purges, lookups and decisions, with stale clock readings anywhere, striking all purges leaves every accept and reject decision as it was. |
| `TokenRuns.DecisionExact` | internal/api/auth.go:176-181 | A decision accepts iff the latest store of the token before the request's lookup was stamped no more than an hour before the decision's own clock reading; the store itself and the purges do not enter. |
| `TokenRuns.DistinctDecision` | internal/api/auth.go:176-181 | When no token is stored twice, "the latest" may be dropped: accepted iff some earlier store of it is within the hour. |
| `TokenRuns.ReplicaRefinement` | README.md:80-93 | With tokens presented only where they were issued, any number of replicas purging on their own decide every request as one store over the merged run would. |
| `TokenRuns.ReplicaExact` | README.md:80-93 | With tokens never stored twice, a replica and the single store over the merged run judge a lookup alike iff the token was not stored at another replica before it, within the hour before the decision. |
| `TokenRuns.ReplicaRunExact` | README.md:80-93 | Over whole runs: all verdicts of the replicas are those of the single store iff no decision is about a token then alive at another replica. |
| `TokenRuns.StrayTokenRejected` | README.md:80-85 | In that case the replica rejects and the single store accepts. |
| `ServiceReplicas.SitesAsOne` | README.md:86-93 | For any number of services, each with its own locks, purgers and store: with sticky routing every finished request has the verdict of one store over the merged run, and no other. |
| `ServiceReplicas.SitesAsOneExactly` | README.md:80-93 | For the same, with tokens that never collide and without assuming any routing: the finished requests' verdicts are those of one store iff none was about a token then alive at another site. |
| `ServiceReplicas.SiteRuns` | internal/api/router.go:42-50 | Each of several services behind a load balancer is in the state that its own labels, time included, run to: all results about runs of the service hold at every one. |
| `ServiceReplicas.AuthorisationAtSite` | internal/api/router.go:72-90 | A request that arrived at one of them is let through iff it presents the API key, or a token stored there within the hour and earned there. |
| `TokenRuns.SizeBound` | internal/api/auth.go:48-65 | After any purge the store holds at most the tokens stored before it with a stamp within the hour before its reading, plus those stored since. |
| `TokenRuns.AtomicSizeBound` | internal/api/auth.go:48-65 | When stamping and storing are one instant, the store never outgrows the tokens issued no earlier than an hour before the last purge's reading. |
| `ServiceTheorems.StoreIsBounded` | internal/api/auth.go:48-65 | In every reachable state of the concurrent service, issues not being atomic: after any purge the map, once a purge under way is through, holds at most the tokens stored before that purge with a stamp within the hour before its reading, and those stored since; and never more than were stored at all. |
| `ServiceLocks.OpMatchesHold` | internal/api/wif.go:146-169 | Every step of every handler asks for a lock only while holding none, and takes and gives locks in the order idle, announced, writing or idle, reading; so no thread holds one lock while acquiring another. |
| `ServiceTheorems.LocksTally` | internal/api/auth.go:35-46 | In every reachable state each mutex counts exactly the threads at read-holding points and names exactly the thread at a write-holding point, and never both. |
| `ServiceTheorems.WritersExclude` | internal/api/auth.go:35-65 | A thread at a write-holding point has its mutex to itself. |
| `ServiceTheorems.AccessesAreLocked` | internal/api/auth.go:35-65 | No data races: in every reachable state a step that reads a map holds its mutex for reading with no writer there, and a step that changes one holds it for writing with no reader there. |
| `ServiceTheorems.DeadlockFree` | internal/api/wif.go:146-169 | In every reachable state every unfinished thread can take its next step, or some thread that can holds, or is announced to, the very lock it waits for. |
| `ServiceLocks.SectionsEnd` | internal/api/auth.go:56-65 | Every step inside a critical section, the purge loop's included, brings its end closer, and the last one gives the lock up. |
| `ServiceTheorems.NeverNil` | internal/api/wif.go:162-164 | The reread after a refresh, like every other access to the cache, never meets nil. |
| `ServiceTheorems.CacheIsSnapshot` | internal/api/wif.go:237-239 | The cache is nil until the first install and then the latest; every install is the complete fold of one served document, never a mix; install stamps never decrease. |
| `ServiceTheorems.CacheNeverForgets` | internal/api/wif.go:237-239 | No step takes the cache away or lowers its stamp. |
| `ServiceHistory.AnswerIsFresh` | internal/api/wif.go:146-169 | Every answer of getKey was, in the run, either taken by this thread from a cache that it found under an hour old and holding the kid, or reread by it from a cache installed, by number and by stamp, no earlier than its own refresh, which installed what it had itself fetched because the cache was of no use; in both cases it is the lookup of the kid in the token's header in one served document, whatever others install in between. |
| `ServiceHistory.FetchIsNeeded` | internal/api/wif.go:146-160 | A thread turns to the issuer only after a step of its own at which the cache was nil, an hour old or older, or without the kid of its token. |
| `ServiceHistory.InstallIsFetched` | internal/api/wif.go:171-239 | What a thread installs is the fold of the document that it fetched itself at an earlier step, the fetch having been needed. |
| `ServiceTheorems.CacheRefinesFetch` | internal/api/wif.go:146-169 | When all documents served define the same keys, every getKey that is not stopped by a fetch error answers, hit or not found, as an uncached fetch and lookup would. |
| `ServiceTokens.Refines` | internal/api/auth.go:35-65 | The service with its locks and one-entry-at-a-time purge refines the atomic store: after every step the logged events run, to the same clock and to the map as it will be once a purge under way is through. |
| `ServiceTheorems.PurgesDoNotMatter` | internal/api/auth.go:48-65 | The verdicts of the concurrent service are those of the run in which nothing is ever purged. |
| `ServiceIssues.PurgeLabel` | internal/api/auth.go:56-60 | Every purge in the log is one label of the run, and went by the clock as its purger read it at an earlier step of its own. |
| `ServiceIssues.StoredIsEarned` | internal/api/wif.go:345-399 | Every store in every run is of a token that its thread made, from a nonce it drew, for the request it arrived with, which deserved it; it was stamped with the clock read between arrival and store; and the very JWT in the request was found in order, unexpired by the clock, between arrival and stamp, under a key that getKey had answered freshly for the kid in that JWT's header. |
| `ServiceIssues.IssuedIsStored` | internal/api/auth.go:107-114 | A thread that was handed a token has exactly one store in the log, of that token, and earned it. |
| `ServiceIssues.RefusedForCause` | internal/api/auth.go:77-105 | A thread that was refused has no store in the log, and was refused with the status of a cause that held at that step: its endpoint's checks, a token that does not open, a failed fetch that was needed, a fresh answer that is no key or under which claim or signature does not hold by the clock then, no nonce. |
| `ServiceIssues.CredentialsOutcome` | internal/api/auth.go:77-116 | A finished request for a token by credentials was issued one only if its checks passed, and refused with their status, or with 500 if they passed. |
| `ServiceIssues.ExchangeOutcome` | internal/api/wif.go:345-400 | A finished exchange was refused with the status of its endpoint's checks if these fail; otherwise it was issued a token or refused with 401 or 500. |
| `ServiceIssues.OthersEnd` | internal/api/auth.go:48-65 | A finished request to the protected API ends with a verdict; a purger never ends. |
| `ServiceIssues.AuthorisationExact` | internal/api/router.go:72-90 | In every run a request that arrived with given credentials, once finished, was let through iff the token these present is not empty and is the API key or one whose latest store before the request's lookup was within the hour before its decision and earned in that sense. |
| `ServiceIssues.DistinctNoncesSuffice` | internal/api/auth.go:138-186 | When no nonce is drawn twice, a decision accepts iff some earlier store of the token is within the hour, latest or not. |
| `ServiceIssues.IssuedIsHonoured` | internal/api/auth.go:77-186 | End to end, under every interleaving and with purges: a request that arrives after a thread was issued a token, and presents it, is let through iff it decides within an hour of the stamp of that thread's store (or the token is the API key). |
| `AuthHandlers.TokenStore.Purge` | internal/api/auth.go:56-65 | Whatever order the iteration takes, exactly the entries whose expiry lies before the reading are gone; ties stay. |
| `AuthHandlers.OAuthToken` | internal/api/auth.go:77-116 | A token is issued iff the request deserves one and the random source delivers; it is stored an hour ahead of the stamp; a refusal has its status and leaves the store as it was. |
| `AuthHandlers.TrimSlashes` | internal/api/wif.go:72-82 | What is left of the issuer address is a prefix that ends in no slash, and only slashes were cut. |
| `AuthHandlers.OIDCValidator.RefreshJWKS` | internal/api/wif.go:171-241 | A failed fetch leaves the cache as it was; otherwise the whole fold replaces it, stamped at the install. |
| `AuthHandlers.OIDCValidator.GetKey` | internal/api/wif.go:146-169 | Run alone: a kid the cache serves under an hour is answered from it, any other from a document fetched now, and the cache changes only with a fetch that went through. |
| `AuthHandlers.OIDCValidator.Validate` | internal/api/wif.go:85-144 | The verdict is that of the acceptance rule for the key that the cache serves or the document fetched now has; the cache afterwards is exactly the old one, or that document's fold if it had to be fetched. |
| `AuthHandlers.TokenExchange` | internal/api/wif.go:345-400 | A token is issued iff the exchange deserves one under the key that the cache serves or the document fetched now has, and the random source delivers; status of every refusal, store and cache afterwards. |
| `AuthHandlers.Authenticate` | internal/api/auth.go:153-186 | Let through iff what is presented is non-empty and is the API key or stored with an expiry not yet past. |
| `AuthHandlers.IssueThenPresent` | internal/api/auth.go:56-186 | A token issued, then purged around, then presented in a Bearer header is accepted iff no more than an hour has passed. |
| `Translate.ExpiryExact` | internal/translate/key.go:57-65 | A positive number of seconds yields that duration iff it is at most 9223372036, and is right modulo 2^64 beyond; zero and below yield an hour. |
| `Translate.ExpiryWraps` | internal/translate/key.go:64 | At 9223372037 seconds the product wraps and the key expires before it is made. |
| `Translate.AliveAtCreation` | internal/translate/key.go:47-68 | Up to the bound, a key made from a request is alive when headscale makes it iff the call took less than the key's life, and strictly outlives its creation when it took no time. |
| `KeyRequests.ResolveExact` | internal/api/keys.go:155-199 | Which user a request addresses: under "-" twice over the only user there is, otherwise the user of that name, where "-" stands for the configured name and, if one is configured, no other is admitted. |
| `KeyRequests.ResolveRefusal` | internal/api/keys.go:155-199 | Resolving fails iff there is no such user, with 400 where "-" stands for one of several and with 404 otherwise. |
| `KeyRequests.FilterInOrder` | internal/headscale/client.go:134-151 | A listing takes, once each and in order, exactly the keys of the named user, or all for the empty name. |
| `KeyRequests.FilterIsolates` | internal/headscale/client.go:139-148 | A listing shows one user's keys only, iff the name is not empty or every key belongs to a user of the empty name. |
| `LifeCycle.EmptyNameServed` | internal/headscale/client.go:139-141 | With an empty configured name and a user of that name, listing "-" shows alice's key. |
| `KeyRequests.FindKeyByIDFirst` | internal/api/keys.go:130-137 | A key is found iff it is the first listed that is shown under the id. |
| `KeyRequests.DashIsOwnNameSolo` | internal/api/keys.go:155-199 | With a tailnet configured, "-" and its name give the same answer and leave the same server, for every operation and every pattern of faults. |
| `KeyRuns.DashIsOwnNameRun` | internal/api/keys.go:155-199 | The same for interleaved runs: writing the configured name wherever a path says "-" changes neither what can happen, nor server, calls, points or responses. |
| `KeyRuns.DeletionProtocol` | internal/api/keys.go:95-128 | In every run, a delete goes out only for the id in the path of its own delete request, after that request's own successful expire of it, itself after the request's own listing showed that id as owned by the user it had come to act for from its own listing of the users. |
| `KeyRuns.ExpireIsFinal` | internal/api/keys.go:116-125 | Once a request's expire went through, the key is expired or gone in every later state, whatever fails or interferes; once its delete did, gone. |
| `KeyRuns.OneStageAtATime` | internal/api/keys.go:95-128 | Every step of every request leaves each key where it is, or moves it from live to expired by an expire call for that id, or from expired to gone by a delete call for that id. |
| `KeyRuns.TailnetIsolation` | internal/api/keys.go:155-199 | In every run, for every configuration and path: listings show only keys owned by the user the request acts for, creations are for that user, and only ids so listed are expired or deleted; and that user is, among the users the request itself listed, the one the path names (no other than the configured one if one is configured), under "-" the configured one, and under "-" with none configured the only one there is. |
| `KeyRuns.ResponsesAreTrue` | internal/api/keys.go:23-128 | Every success reports what a call of the request's own established: a get shows the id in its path, a created key carries what the body asked for, a reported deletion is of the id in the path, and that key is gone. |
| `KeyAnswers.AnswerFollows` | internal/api/keys.go:23-128 | Over all interleavings and faults, the response of a finished request follows from its own calls, and these are the ones it had to make: the status of the first that failed; 404 or 400 where nobody is to act for, 400 for a body that does not decode; for a list all keys listed, rendered field by field and in order; for a get the first shown under the id or 404; for a delete 404 where none is, and else expire and delete of that id. |
| `KeyAnswers.ListingIsAnswered` | internal/api/keys.go:23-92 | Once a request's listing of the keys went through, a list has ended in a list of just these, were there none; a get in the first of them under its id or 404; a delete that finds none in 404. |
| `KeyAnswers.CallsTell` | internal/headscale/client.go:134-151 | A listing that went through showed all users, or every key of the name asked for in order, as the server had them then, and changed nothing; a call that was lost changed nothing; an error that a call met is the one logged. |
| `KeyRuns.ListedThenGet` | internal/api/keys.go:23-92 | Whole requests on the same server: every listed key is got by the id it is listed under, and shown just as it was listed. |
| `KeyRuns.CreatedStaysVisible` | internal/api/keys.go:23-92 | A created key is, after any further run, shown by get and contained in list, by the id the create answered and with the capabilities its body asked for, in every tailnet that then resolves to a user of that name, as long as it is there and owned. |
| `KeyRuns.DeletedIsNotFound` | internal/api/keys.go:70-92 | After a successful delete, get of that id answers 404 in every tailnet that resolves, at any time after, and the error of resolving where none does. |
| `KeysHandlers.GRPCClient.ListPreAuthKeys` | internal/headscale/client.go:134-151 | The filter loop computes the listing, in order, errors passed on. |
| `KeysHandlers.FindListed` | internal/api/keys.go:130-137 | The search loop answers the first listed key whose id is shown so. |
| `KeysHandlers.KeysHandler.ResolveTailnetUser` | internal/api/keys.go:155-199 | The loop and its early exits resolve as specified, errors of the user listing mapped to their status. |
| `KeysHandlers.KeysHandler.ListKeys` | internal/api/keys.go:23-42 | Run alone under any faults, the handler answers as the request automaton and leaves the server as it was. |
| `KeysHandlers.KeysHandler.CreateKey` | internal/api/keys.go:45-67 | Likewise; server and answer are the automaton's. |
| `KeysHandlers.KeysHandler.GetKey` | internal/api/keys.go:70-92 | Likewise, the server unchanged. |
| `KeysHandlers.KeysHandler.DeleteKey` | internal/api/keys.go:95-128 | Likewise; a failing expire stops before the delete. |
| `LifeCycle.CreateServed` | internal/api/keys.go:45-67 | A create succeeds iff the tailnet resolves, the body decodes and ids are left; exactly the key it adds, which is the one shown, field by field, and which error it answers otherwise. |
| `LifeCycle.ListServed` | internal/api/keys.go:23-42 | A list leaves the server alone and shows, rendered field by field and in the server's order, exactly the keys of the user acted for (all for the empty name); where there are none it is an empty list, no error. |
| `LifeCycle.GetServed` | internal/api/keys.go:70-92 | A get leaves the server alone and shows the key of the user acted for that is shown under the id, and answers 404 iff there is none. |
| `LifeCycle.DeleteServed` | internal/api/keys.go:95-128 | A delete takes out just the key of the user acted for that is shown under the id, and every other stays in its place; if there is none it answers 404 and changes nothing. |
| `LifeCycle.NobodyServed` | internal/api/keys.go:140-199 | Where there is nobody to act for, every operation answers the status of that and changes nothing. |
| `LifeCycle.CreatedLives` | internal/api/keys.go:58-66 | A created key has exactly the life asked for iff that is at most 9223372036 seconds, and is live then; it is live at all iff nothing or less was asked for or the product's remainder modulo 2^64 lies strictly in the lower half. |
| `LifeCycle.LifeCycle` | internal/api/keys.go:23-128 | Create, then get by the answered id answers the same, list contains it, with the capabilities asked for; delete, then get answers 404 and the server's keys are those from before the create. |
| `Devices.ListedIsAddressed` | internal/api/devices.go:20-65 | Every id in a device list addresses exactly that device in get, delete and rename, and nothing else changes. |
| `Devices.OthersUntouched` | internal/api/devices.go:206-209 | No request, however its path is written and however its call fails, touches or shows a device whose id its path does not parse to. |
| `Devices.Refused` | internal/api/devices.go:36-66 | What a request that does not get through is answered and leaves behind: 400 for a path that is no number and then for a body that does not decode, the status of an error of the call, 404 for a number that is no device's; only where the reply alone was lost is anything changed. |
| `Devices.DevicesHandler.ListDevices` | internal/api/devices.go:20-33 | The list shows the nodes in order, each under its id. |
| `Devices.DevicesHandler.GetDevice` | internal/api/devices.go:36-50 | Refuses a path that is no 64-bit number, passes on errors, and shows the device of that id; nothing changes. |
| `Devices.DevicesHandler.DeleteDevice` | internal/api/devices.go:53-66 | Likewise; the node of that id is gone unless the call was lost. |
| `Devices.DevicesHandler.RenameDevice` | internal/api/devices.go:121-141 | Likewise, the path refused before the body; only the node of that id is renamed. |
| `Devices.DevicesHandler.ListThenDelete` | internal/api/devices.go:20-66 | Deleting by an id taken from the list removes that device and no other. |
| `Users.ListedIsAddressed` | internal/api/users.go:35-69 | Every id in a user list gets exactly that user and deletes exactly that user. |
| `Users.GetDeleteAgree` | internal/api/users.go:35-69 | Delete removes iff the text parses to a user's id, get finds iff it is also written as shown; so the two agree iff the text names no user's number or has no superfluous zeros. Where they do not succeed get answers 404, and delete 400 to what is no number and else 404. |
| `Users.Refused` | internal/api/users.go:35-69 | Under a failing call get reports its status and so does delete, which looks at its path first; only where the reply alone was lost is the user gone all the same. |
| `Users.PaddedId` | internal/api/users.go:44-57 | 007 is not found by get and removes user 7 by delete. |
| `Users.FindUserByID` | internal/translate/user.go:34-41 | The search loop answers the first user whose id is shown so. |

## Left out

- HTTP, routing, JSON and gRPC transport: requests and responses are datatypes, a body is given decoded or as undecodable, and error responses keep their status but not their text.
- Cryptography: HMAC, SHA-256, RSA and ECDSA verification and curve membership are uninterpreted or unchecked, as is the random source.
- headscale itself is not part of this model; `Upstream` is a contract for it, stated under "Assumptions".
- `Base64Url.DecodeEncode`: encoding after decoding is not claimed, because the decoder skips line breaks and ignores the leftover bits of the last letter.
- `AuthHandlers.OIDCValidator.RefreshJWKS`: discovery and fetch are one step that delivers a document or fails.
- `ServiceHistory.AnswerIsFresh`: that a caller reads the document it fetched itself is not claimed, since a slower refresh may install an older document afterwards; staleness is stated by install.
- `TokenRuns.AtomicSizeBound`: assumes stamping and storing at one instant; `TokenRuns.SizeBound` is what holds without.
- `ServiceTheorems.DeadlockFree`: what a fair scheduler would add, that every request ends, is not stated; `ServiceLocks.SectionsEnd` bounds each critical section.
- `KeyRuns.OneStageAtATime`: is about the gateway's own steps; the administrator may delete a live key.
- `KeyRuns.CreatedStaysVisible`: the later get and list meet no fault and are not interleaved; the run before them may be anything.
- `KeyRuns.ResponsesAreTrue`: of the clock reading in a created key's expiry only that it is not in the future is stated there; `KeysHandlers.KeysHandler.CreateKey` and `LifeCycle.CreatedLives` state it exactly for a request run alone.
- `AuthHandlers.IssueThenPresent`: is for a token that is not by chance the API key, which is accepted for ever.
- `Devices.ListedIsAddressed`: authorize, expire, tags and routes on a device address it the same way and are not modelled, nor is the rest of a device's rendering.
- RFC 3339 texts of timestamps: instants stay integers. Strings are sequences of characters, so invalid UTF-8 is not represented.
- The description and the preauthorized flag of a key request are dropped by the gateway, and so by the model.
- Policy, metrics, logging, configuration, stub routes, manifests and scripts: tables and records without further logic.
