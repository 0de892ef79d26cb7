# A verified model of the SAML identity provider

A SAML 2.0 identity provider whose correctness rests on protocols over a database: UNIQUE keys,
single-use tokens, clocks, and processes that run at once and may be lost between any two database
calls. This project models those protocols as state machines and proves what holds of every run, and
models the algorithms beside them (a scanner, codecs, escaping, an encoder, caches) and proves what
they compute. `dafny verify dfyconfig.toml` checks all of it.

Code that changes things step by step is a method of a class with the fields it changes, proved
against a function of the state; the theorems are about that function and the runs made of it.

**Signing keys.** A key goes from `next` to `active` to `previous` to `retired`, one row write at a
time. `KeyRotation` has the handlers on a database that may stop answering after any write, each
proved to apply a prefix of a plan. `KeySafety` says what any prefix leaves, `KeyRuns` what holds of
whole runs, `KeyGuards` exactly which runs keep an own key. `KeyFallback` and `KeyHidden` are two ways
of losing it. `KeyPublished` is which certificates metadata shows and who signs, from the rows alone, and
`KeyRows` which requests are refused and which rows go. `FirstKey` is the race of isolates for an owner's
first key, with and without the UNIQUE index; `FirstKeyAnswers` what each was told and why;
`FirstKeyStore` is the procedure of one isolate, amid the others.

**AuthnRequest to Response.** `Issuance` is the decision about one request, with its guards and
step-up. `SsoRun` is the life of requests from arrival to Response over all interleavings;
`SsoAnswers` is what each is answered, exactly, and where it came from, told from what happened;
`SsoLimits` and `SsoWindows` show how tight its theorems are and exactly which sweeps break them;
`SsoEndpoints` has the handlers, each proved to be a sequence of steps of such a run.

**Single Logout.** `Logout`, `LogoutRuns`, `LogoutTokens` and `LogoutEndpoints` are the chain of hops;
`LogoutRequests` is which session a request ends; `Participants` and `SessionEnds` the rows, the
marker, and how every end of a session is accounted for; `SessionRows` is what a row says.

**XML scanner.** `XmlText` is how the scanner splits a text, `XmlNames` what it means for names to be
unique as they are spelt, `XmlScanner` the imperative scanner with its stacks and step count.
`XmlWritten` is the markup a text can be written from, in every way it can be, against what is read;
`XmlInForce` which declarations are in force where, with no stack; `XmlDocuments` the trees the scanner
accepts, `XmlCost` the texts that cost it most. `XmlReading` is how a parser reads a value, and
`XmlReadNames` sets the scanner against names as they are read (section 6.3 of Namespaces in XML 1.0).

**HTTP-Redirect binding.** `Uri` is percent-encoding and `UriSpelling` every way to write a text in it,
`RedirectBinding` the parser of a signed query (section 3.4.4.1 of SAML 2.0 Bindings), `RedirectQueries`
which queries it accepts and how it reads them, `RedirectLaws` its laws and the builder. `MessageShape`
is the cap on what a parsed message may hold.

**Response, encryption and exchange.** `XmlEscape`, `XmlCleaned`, `XmlMarkup`, `ResponseXml`, `ResponseSays`
and `AssertionEncryption` are what is written, what it says, and that its one Assertion is found; `ExchangeShape`,
`ExchangeLimits`, `Exchange` and `ExchangeApi` what is read back, within which limits, recorded and
vouched for once; `ExchangeForm` is the one form a presented assertion may have, `ExchangeSizes` what the
limits count, and `ExchangeRuns` exactly which are vouched for.

**The rest.** `TenantRetirement`: a tenant's key is never used again; `RetiredRows`: when a row with a
retired key is left; `TenantHistory`: why each row is there or gone. `Der`: the encoder behind generated
certificates. `TimedCache`, `SpDirectory`, `TenantDirectory`, `Registry`: cached lookups against direct
reads, and who may change what. `MetadataRefresh` and `MetadataFetches`: certificates learned in the
background, and when they are fetched. `Optional`: values that may be missing.

Hashes (SHA-256, HMAC) are taken as injective and written as the tuple they hash; random identifiers
as fresh numbers; consuming a stored value as one atomic step; ciphers and signatures as functions
nothing is known of. Clocks, randomness, hosts' callbacks and what other services answer are
parameters of the steps.

Some results are about what the protocols do not give, each with the exact condition:

- A tenant that has a key of its own can be signed for with the shared key, although signing is meant
  never to fall back: where keys are retired while an activation between own keys is cut short
  (`KeyFallback.UnguardedRetireFallsBack`), and where the own key is under more rows of the shared one
  than signing reads (`KeyHidden.HiddenBehindShared`). `KeyGuards.OwnKeyStaysExactly` says exactly which
  runs keep an own key where signing looks; never retiring inside a cut-short activation is enough
  (`KeyGuards.WaitingToRetireIsEnough`). Under as many rows a key can also come to sign that metadata has
  not shown (`KeyHidden.SignsUnseen`).
- A row with a retired key can be left, by a create lost between its insert and its second look
  (`TenantRetirement.LostCreateKeepsItsRow`), or with nothing lost by a delete whose row was undone
  and its key taken meanwhile (`RetiredRows.StaleDeleteRetiresALiveKey`). `RetiredRows.OwedThroughout`
  and `RetiredRows.LeftExactly` say exactly when. No two tenants whose creation was answered with
  success ever share a key.
- An assertion of more than 64 KiB, 200 elements or 1000 attributes is issued, and can't be exchanged
  (`Exchange.ManyValuesAreRefused`, `ExchangeLimits.WithinLimitsIff`).
- A tenant administrator's update can put back a token exchange that a host manager removed between its
  read and its write (`Registry.PutBack`, `Registry.DelegatedGiveNone`).
- A session's end goes unreported where the delete hook fails, where a logout of it is cut off after its
  delete, or at its marker less than a minute before (`SessionEnds.MarkerHidesExactly`); and partly where a
  row that was not extended with its session has been swept (`SessionEnds.AccountedExactly`).
- A cached lookup answers from before this isolate's own last write exactly when a read was overtaken
  at the invalidation (`TimedCache.OwnWritesAreSeen`).
- The scanner compares namespaces by the text between the quotes, and passes over declarations. So it
  lets through two attributes of one expanded name where one namespace is spelt in two ways
  (`XmlReadNames.ReferenceIsAccepted`, `XmlReadNames.TabIsAccepted`), and a declaration given twice
  (`XmlReadNames.RepeatedIsAccepted`), though its comment (`src/saml/xml.ts:13-17`) and
  `docs/guide/security.md:38` say no two attributes of one expanded name pass.
  `XmlReadNames.AcceptedIsUniqueAsRead` says exactly what it lets through, and `XmlReadNames.PlainIsEnough`
  what to check to be rid of it. What a parser behind it then makes of such a text is not modelled.
- It takes a plain name and one in an empty namespace for the same, and refuses a document with both
  (`XmlReadNames.LawfulAsReadYetRefused`; exactly when is `XmlReadNames.AcceptsTheLawfulAsRead`).
- Another comment (`src/saml/xml.ts:19`) and `docs/guide/security.md:38` say the scan is linear. It is but
  for the URIs: each prefixed attribute costs its namespace's length again (`XmlCost.NotLinear`).

## Model

| member | source | states |
|---|---|---|
| `KeyRotation.HavingIs` | src/endpoints/tenants.ts:319-320 | The rows a handler picks by state are exactly the rows it read that are in that state |
| `KeyRotation.KeyTable.WriteEach` | src/endpoints/key-rows.ts:63-71 | A loop of row writes, on a database that may stop answering and refuses what its UNIQUE state key forbids, leaves exactly the prefix that got through |
| `KeyRotation.KeyTable.PruneRetired` | src/endpoints/key-rows.ts:68-71 | Pruning deletes the retired rows past the newest five, or a prefix of them when cut short |
| `KeyRotation.KeyTable.FreeActive` | src/endpoints/tenants.ts:321-348 | Freeing the active slot writes what its plan says: older previous keys retired, then the active one made previous; or the shared certificate recorded; or nothing |
| `KeyRotation.KeyTable.MakeActive` | src/endpoints/tenants.ts:349-350 | The next key becomes the active one and surplus retired rows go, in that order |
| `KeyRotation.KeyTable.Rotate` | src/endpoints/tenants.ts:285-289 | Run with any number of writes answered: refuses, finishes or stops as its plan says, and never writes anything else |
| `KeyRotation.KeyTable.Activate` | src/endpoints/tenants.ts:312-350 | The same for an activation, whose writes are decided by one read and made one by one |
| `KeyRotation.KeyTable.Retire` | src/endpoints/tenants.ts:366-370 | The same for a retirement |
| `KeyRotation.CutShortConcat` | src/endpoints/signing-keys.ts:92-99 | A handler cut short anywhere is cut short in its first part, or finished that and cut short in its second |
| `KeyRotation.LeavesConcat` | src/endpoints/key-rows.ts:63-71 | The same of a handler that may be stopped by a refused write |
| `KeySafety.ReadsAll` | src/saml/tenant-keys.ts:254-256 | A reading of so many rows shows the next, the active and the previous rows that are among the newest so many, and no others |
| `KeySafety.ActivateKeeps` | src/endpoints/tenants.ts:316-350 | An activation cut short anywhere: either the next key still waits and nothing has changed about who signed last, or it has taken over and what signed before is the previous key; where signing looks for it, if and only if it is not a tenant's first key under too many rows |
| `KeySafety.RotateKeeps` | src/endpoints/tenants.ts:285-295 | A rotation adds exactly one next row, and only if there is none, seen or not; the own key stays where signing looks exactly if it was not the last row read |
| `KeySafety.RetireKeeps` | src/endpoints/tenants.ts:366-370 | A retirement while a key is active, or before there is an own one, takes the previous row and keeps the next and the active one, whatever is cut short |
| `KeySafety.HadOwnIs` | src/saml/tenant-keys.ts:277-280 | An owner has had a key of its own exactly when its active or its last previous row is one |
| `KeySafety.SigningIs` | src/saml/tenant-keys.ts:269-302 | Who signs: the active key; nobody while an activation between own keys is cut short; the shared key only for a tenant that never had its own |
| `KeyPublished.PublishedExactly` | src/saml/tenant-keys.ts:273-300 | The certificates in metadata are exactly those of the rows read that are not retired and, where the shared key signs, its own; the signing one is among them |
| `KeyPublished.RetiredForGood` | src/endpoints/key-rows.ts:63-71 | On any run a retired key stays retired: no handler, cut short or not, moves it anywhere |
| `KeyPublished.RetiredIsUnpublished` | src/endpoints/tenants.ts:356-370 | Once a retirement has completed, whatever comes after, the certificate it retired is in metadata if and only if another row read that is not retired, or the shared key that signs, has the same one |
| `KeyPublished.ReplacedIsOut` | src/endpoints/tenants.ts:321-323 | A completed activation that replaces an active key leaves every older previous key retired and its private key erased |
| `KeyPublished.SignsExactly` | src/saml/tenant-keys.ts:269-283 | Of any rows there might be: an own key signs exactly if its row is the only active one read and has its private key; the shared one exactly if no row read is active and none but next ones are the owner's own |
| `KeyRows.RefusedExactly` | src/endpoints/tenants.ts:281-370 | Of the newest hundred rows: a rotation is refused exactly if one is `next`, an activation exactly if none is, or the first that is has not been there for the minimum time and it is not forced, a retirement exactly if none is `previous` |
| `KeyRows.PrunedExactly` | src/endpoints/key-rows.ts:68-71 | Pruning leaves every row but the retired ones among those read that have five newer retired ones |
| `KeyRuns.StepKeeps` | src/endpoints/tenants.ts:271-376 | Every step of every guarded run keeps the table legal, and an owner that has had its own key keeps having had it |
| `KeyRuns.NeverFallsBack` | src/saml/tenant-keys.ts:276-280 | On every guarded run, with a crash after any write: an owner that ever had an active key of its own keeps an own active or previous row among those signing reads, and is never signed for with the shared key |
| `KeyGuards.OwnKeyStaysExactly` | src/saml/tenant-keys.ts:254-280 | Over every run: from when an owner has a key of its own, signing finds an own active or previous row, if and only if every request was allowed: no `retire` writing inside an activation between own keys, no rotation pushing the own key past the rows read, no first activation leaving more rows than that |
| `KeyGuards.UnallowedHides` | src/endpoints/tenants.ts:312-370 | Any other request, in any state such a run gets to, leaves an owner that has had a key of its own with no own row where signing looks |
| `KeyGuards.WaitingToRetireIsEnough` | src/endpoints/tenants.ts:366-370 | Over every run: if no `retire` writes while an activation is cut short, every request is allowed |
| `KeyRuns.TakesOverOrWaits` | src/endpoints/tenants.ts:321-349 | However many activations are cut short and whatever else a guarded run does, the next key waits unchanged until one takes over, and what signed before is then the previous key |
| `KeyRuns.StillPublished` | src/endpoints/tenants.ts:324-349 | After cut-short activations and one that completes, guarded retirements among them, the new key takes over with the old certificate still published |
| `KeyRuns.ContinuityOverRuns` | src/endpoints/signing-keys.ts:91-99 | The same after any guarded run from an owner's first state |
| `KeyRuns.NextSince` | src/endpoints/tenants.ts:316-318 | A row that is next now was inserted at its createdAt and has been next ever since |
| `KeyRuns.PublishedBeforeSigning` | src/endpoints/tenants.ts:315-318 | A key becomes the active one only by an activation, after being the next key since its createdAt, for the minimum time or forced; metadata shows it at each moment of that time if and only if the owner has had an own key or has at most as many rows as are read |
| `KeyRuns.PlansArePermitted` | src/endpoints/key-rows.ts:62-65 | A write of a handler, at whatever point of its plan, breaks the UNIQUE state key if and only if it is a rotation's that does not see the next key there is |
| `KeyGuards.RetireExactly` | src/endpoints/tenants.ts:366-369 | A retirement that runs to its end leaves an own key live if and only if a key was active when it began |
| `KeyFallback.UnguardedRetireFallsBack` | src/endpoints/tenants.ts:366-370 | Why the guard is needed: a concrete run of cut-short activations and retirements after which a tenant with its own key is signed for with the shared one |
| `KeyHidden.HiddenBehindShared` | src/saml/tenant-keys.ts:254-280 | For any 49 to 99 activations cut short, each followed by a `retire` cut short: a run after which a tenant whose own key is active is signed for with the shared one |
| `KeyHidden.SignsUnseen` | src/endpoints/tenants.ts:315-318 | A guarded run after which a key signs, unforced and after the minimum time, that metadata did not show all that time |
| `FirstKey.StepKeeps` | src/saml/tenant-keys.ts:193-243 | Every read, write, deletion and loss of every writer keeps the least first key in the table |
| `FirstKey.LeastSurvives` | src/saml/tenant-keys.ts:231-241 | At every moment of every run, with or without the UNIQUE index, the row least by (createdAt, kid) of all ever written is in the table |
| `FirstKey.OneKeyIsLeft` | src/saml/tenant-keys.ts:234-243 | With no writer lost, once all have finished exactly one first key is left: that least one |
| `FirstKey.IndexedWritesOne` | src/saml/tenant-keys.ts:207-229 | With the UNIQUE index at most one first key is ever written |
| `FirstKey.StoredMayBeDeleted` | src/saml/tenant-keys.ts:237-243 | `true` does not promise that the row stays: a run in which a writer is told so and loses it |
| `FirstKeyStore.FindLeast` | src/saml/tenant-keys.ts:234-236 | The row the sort puts first is the least by (createdAt, kid) |
| `FirstKeyStore.Database.Await` | src/saml/tenant-keys.ts:198-243 | Whatever the other isolates do between two calls of one leaves that one where it was, and the run a run |
| `FirstKeyStore.KeyStore.Load` | src/saml/tenant-keys.ts:251-262 | Rows are reported only if some were ever stored; without a cached read, exactly if there are some now |
| `FirstKeyStore.KeyStore.CreateRow` | src/saml/tenant-keys.ts:207-223 | The write succeeds or is refused as a step of the run |
| `FirstKeyStore.KeyStore.DeleteExtras` | src/saml/tenant-keys.ts:238 | The loop deletes every extra row amid the others' steps, then is told what its read decided |
| `FirstKeyStore.KeyStore.KeepLeast` | src/saml/tenant-keys.ts:230-243 | True exactly if the run says this writer's row was the one kept |
| `FirstKeyStore.KeyStore.LookAfterFailing` | src/saml/tenant-keys.ts:223-229 | A failed write uses another's key if there is one, and is remembered for a minute if not |
| `FirstKeyStore.KeyStore.StoreFirst` | src/saml/tenant-keys.ts:202-243 | From generating the key to the answer, a continuation of the run |
| `FirstKeyStore.KeyStore.EnsureFirstKey` | src/saml/tenant-keys.ts:186-248 | The whole procedure, whatever the others do between its calls, continues the run and returns what the run says of this writer |
| `FirstKeyAnswers.LookedBeforeStoring` | src/saml/tenant-keys.ts:198-210 | On any run a writer about to store its row found none earlier, and took its time stamp after that |
| `FirstKeyAnswers.ToldTrue` | src/saml/tenant-keys.ts:230-243 | A writer told `true` stored its row, and then saw it as the only one or as the least |
| `FirstKeyAnswers.ToldFalse` | src/saml/tenant-keys.ts:198-243 | A writer told `false` was shown that there were rows, at first or after its write failed, or stored its own and saw one before it |
| `FirstKeyAnswers.FailedThen` | src/saml/tenant-keys.ts:223-229 | A writer fails only where its write failed and it then found no row |
| `FirstKeyAnswers.DeletedWasBeaten` | src/saml/tenant-keys.ts:234-241 | Every row a writer deletes was one it had seen beaten; the least row ever written is none of them |
| `Issuance.FirstSatisfying` | src/saml/request.ts:410-412 | The step-up target satisfies the request; there is none exactly when no level does |
| `Issuance.SatisfiedExactly` | src/saml/request.ts:380-407 | What an SP's list asks of a level, by where the listed classes stand: one at or below it for `minimum`, below it for `better`, at or above it for `maximum`, itself for `exact`; class references only |
| `Issuance.UnknownSatisfiesItself` | src/saml/request.ts:397-407 | A class outside the levels satisfies only a list that names it, by any comparison but `better` |
| `Issuance.LevelsAreOrdered` | src/saml/request.ts:397-407 | A stronger class satisfies what a weaker one does, and for `maximum` the other way round |
| `Issuance.StepUpIsWeakest` | src/saml/request.ts:409-412 | No level weaker than the step-up target satisfies the request |
| `SsoRun.StepKeeps` | src/endpoints/sso.ts:146-227 | Every step keeps each accepted message in one place, and its seen row for as long as a copy could be fresh |
| `SsoRun.AtMostOneResponse` | src/endpoints/sso.ts:199-227 | On every run whose sweeps take no row from under a checked copy it covers, one SP's request ID with one IssueInstant gets at most one Response, whatever is replayed, re-entered, resumed, swept or lost |
| `SsoRun.OnePlace` | src/storage/pending.ts:73-114 | At any moment an accepted request is with one process, in one live token, or answered: never in two places |
| `SsoRun.ParkedAtMostTwice` | src/endpoints/issue.ts:324-367 | On any run a request is parked for login at most twice, and the second time with authentication forced |
| `SsoAnswers.HandledSo` | src/endpoints/issue.ts:258-470 | What one handling sends and parks, from the verdicts: for each status, the assertion and each kind of parking exactly when it is due, and nothing otherwise |
| `SsoAnswers.AnsweredExactly` | src/endpoints/issue.ts:258-470 | Over any run: a request is answered in such a way if and only if a step was due to answer it so, in that order |
| `SsoAnswers.AssertionsAreEarned` | src/endpoints/issue.ts:284-460 | Every assertion of every run is for a user known in the request's tenant, not refused, allowed, at a level that satisfies the request, the subject asked for, issuable and recorded for logout; after a resume to an SP still there; and for a forced request from a session no older than it |
| `SsoAnswers.StepTakes` | src/endpoints/sso.ts:158-201 | What a process comes to carry, exactly: a message inside the window, the first of its ID, or what a live token of the right kind holds, for the SP as it was or the browser it was parked for |
| `SsoAnswers.StepStores` | src/endpoints/sso.ts:108-226 | What a token comes to hold, exactly: an HTTP-POST request for two minutes, or what is parked, for as long as pending requests are kept; a token taken is gone |
| `SsoAnswers.StepSpends` | src/storage/pending.ts:73-114 | A token goes only by being taken while it is live, or by a sweep after its time |
| `SsoAnswers.StepSees` | src/endpoints/sso.ts:199-202 | An ID is seen from its record on, for the whole window with the clocks apart, until a sweep after that |
| `SsoAnswers.CarriedCameIn` | src/endpoints/sso.ts:146-227 | Whatever a process carries on with arrived while fresh and was recorded as the first of its ID; in between it was only in tokens |
| `SsoAnswers.AnsweredCameIn` | src/endpoints/sso.ts:199-202 | So did the message of every Response, of whatever kind |
| `SsoLimits.ReplayWindow` | src/endpoints/sso.ts:199-202 | Two messages with one SP and ID can both be answered on some guarded run if and only if their IssueInstants differ |
| `SsoLimits.ReusedLater` | src/storage/sweep.ts:22-30 | A run in which an ID is accepted again with a later IssueInstant, once its row is swept |
| `SsoLimits.SweptLetsInATwin` | src/storage/sweep.ts:22-30 | Why the guard is needed, from any state: once a message is answered and a twin of it is checked, a sweep that takes the row lets the twin be answered too |
| `SsoLimits.SweptInBetween` | src/endpoints/sso.ts:158-201 | From that: a run for any message in which a sweep between the clock reading and the record lets it be answered twice |
| `SsoWindows.RowsCoverExactly` | src/endpoints/sso.ts:199-202 | Over any run: at no moment is a copy about to get in that an accepted ID's row was to cover, if and only if no sweep took a row from under a checked copy it covers |
| `SsoWindows.AcceptedAgainIsLater` | src/storage/seen.ts:24-33 | On a guarded run an ID is accepted a second time only in a message fresh after the first row was to expire, with a later IssueInstant |
| `SsoEndpoints.ArrivedRuns` | src/endpoints/sso.ts:131-227 | An arrival handled by one host is a guarded continuation of its run by exactly the events it stands for, so the run theorems hold of it |
| `SsoEndpoints.ContinuedRuns` | src/endpoints/sso.ts:147-156 | The same for the second leg of an HTTP-POST request |
| `SsoEndpoints.ResumptionRuns` | src/endpoints/resume.ts:23-53 | The same for a resume |
| `SsoEndpoints.Endpoints.SweepExpired` | src/storage/sweep.ts:22-30 | At most once a minute, expired seen rows and tokens go, and nothing else |
| `SsoEndpoints.Endpoints.RecordRequestId` | src/storage/seen.ts:24-33 | True exactly for the first sight of the key; a replay changes nothing |
| `SsoEndpoints.Endpoints.StoreValue` | src/storage/pending.ts:93-101 | A token is stored with its request and expiry, no other changed |
| `SsoEndpoints.Endpoints.ConsumeValue` | src/storage/pending.ts:81-114 | A live token is returned and gone; anything else returns nothing and changes nothing |
| `SsoEndpoints.Endpoints.ParkForLogin` | src/endpoints/sso.ts:108-123 | The request is in one new pending token and counted as parked |
| `SsoEndpoints.Endpoints.SignInAgain` | src/endpoints/issue.ts:328-330 | A refused session's request is parked with authentication forced and the time of now |
| `SsoEndpoints.Endpoints.StepUpRound` | src/endpoints/issue.ts:355-368 | What a session whose class is not enough leads to: no context, no passive, or one more login |
| `SsoEndpoints.Endpoints.IssueResponse` | src/endpoints/issue.ts:258-470 | Its outcome, and what it leaves behind, are those of the run's issuance step |
| `SsoEndpoints.Endpoints.ProceedWith` | src/endpoints/sso.ts:82-89 | The same for the session check before it |
| `SsoEndpoints.Endpoints.Admit` | src/endpoints/sso.ts:199-202 | A request passes exactly when it is fresh and its ID was not seen, and is then remembered for the whole window |
| `SsoEndpoints.Endpoints.HandleFirst` | src/endpoints/sso.ts:204-226 | The first copy is refused, kept for the same-site GET, or handled |
| `SsoEndpoints.Endpoints.HandleSso` | src/endpoints/sso.ts:131-227 | The whole handler leaves exactly what its steps in the run leave |
| `SsoEndpoints.Endpoints.HandleContinuation` | src/endpoints/sso.ts:147-156 | The same for the re-entry |
| `SsoEndpoints.Endpoints.ResumeConsumed` | src/endpoints/resume.ts:41-52 | The same for a consumed pending request |
| `SsoEndpoints.Endpoints.HandleResume` | src/endpoints/resume.ts:23-53 | The same for the resume endpoint |
| `Logout.Unreached` | src/endpoints/slo.ts:139-146 | How many of the remaining participants are passed over: up to the first reachable one |
| `Logout.Others` | src/endpoints/slo.ts:223 | Everyone but the originator is to be told |
| `LogoutRuns.StepKeeps` | src/endpoints/slo.ts:138-226 | Every end of a session and every answer to a hop keeps every chain's books |
| `LogoutRuns.ParticipantsAreConserved` | src/endpoints/slo.ts:138-164 | While a chain waits, its starting list is visited ++ current ++ remaining, and `partial` says exactly whether someone was not reached or answered badly |
| `LogoutRuns.AskedOnce` | src/endpoints/slo.ts:147-161 | In one chain each SP is sent at most one LogoutRequest |
| `LogoutRuns.AskedAsListed` | src/endpoints/slo.ts:147-155 | Every LogoutRequest is for an SP of the chain's list, with the NameID and SessionIndex listed for it |
| `LogoutRuns.OneLastWord` | src/endpoints/slo.ts:166-186 | A chain ends at most once: one answer, one return or one refusal |
| `LogoutRuns.ChainBegan` | src/endpoints/slo.ts:221-226 | Every chain of every run began with the end of a session |
| `LogoutRuns.WellExactly` | src/endpoints/slo.ts:272-296 | An SP counts as having answered well exactly from a reply on its live hop, to the ID it was asked with, acceptable, from an SP still known, with top status Success and no second status PartialLogout |
| `LogoutRuns.PlainSuccess` | src/endpoints/slo.ts:179-296 | Over any run: the answer goes to the SP whose request ended the session, and is plain Success if and only if the list was complete and every other SP on it sent such a reply |
| `LogoutRuns.HopSends` | src/endpoints/slo.ts:138-161 | A hop sends one LogoutRequest, to the first of the remaining participants that can be reached, and ends the chain exactly if there is none |
| `LogoutRuns.BeganWith` | src/endpoints/slo.ts:221-226 | What a chain began with, its originator and its list, is in its books ever after |
| `LogoutTokens.StepToken` | src/endpoints/slo.ts:57-72 | A state is stored by the event that asks someone, with whom it waits for and who is left, for five minutes; it goes when it is taken or swept after its time, and nothing changes it in between |
| `LogoutTokens.StoredExactly` | src/endpoints/slo.ts:57-72 | Over any run: a state is there exactly if some event stored it and none has taken it since, and it is what that event stored |
| `LogoutTokens.LiveExactly` | src/endpoints/slo.ts:57-72 | So it can be taken exactly within five minutes of when it was stored, once |
| `LogoutRuns.HopsAreBounded` | src/endpoints/slo.ts:139-164 | A chain sends no more LogoutRequests than its list is long |
| `LogoutRuns.RepeatedReply` | src/endpoints/slo.ts:274-275 | A reply that comes again, at any later moment of a run and whatever it says, changes nothing |
| `LogoutEndpoints.SloEndpoint.Consume` | src/endpoints/slo.ts:63-72 | A live state is returned and gone; anything else returns nothing |
| `LogoutEndpoints.SloEndpoint.Finish` | src/endpoints/slo.ts:167-186 | One last message, the one the chain's books call for |
| `LogoutEndpoints.SloEndpoint.Advance` | src/endpoints/slo.ts:138-164 | The loop over the remaining participants leaves exactly what the hop of the run leaves |
| `LogoutEndpoints.SloEndpoint.EndAndNotify` | src/endpoints/slo.ts:221-226 | Ending a session and starting its chain is that step of the run |
| `LogoutEndpoints.SloEndpoint.HandleResponse` | src/endpoints/slo.ts:272-296 | A LogoutResponse, good or bad, is that step of the run |
| `LogoutRequests.SessionByIndex` | src/endpoints/slo.ts:120-131 | The loop over at most three indexes finds what the first of them to name a session names |
| `LogoutRequests.OfIndexIff` | src/storage/participants.ts:119-131 | A SessionIndex finds a session if and only if it is the one this SP was given for a live session that has not ended for it; two rows read are enough |
| `LogoutRequests.FoundIff` | src/endpoints/slo.ts:120-131 | Of several indexes the first that names a session decides; none is found exactly when none of the three looked at names one |
| `LogoutRequests.HandleLogoutRequest` | src/endpoints/slo.ts:197-219 | The handler chooses this browser's session, another, or none, as specified |
| `LogoutRequests.EndsOnlyItsOwn` | src/endpoints/slo.ts:188-207 | An SP ends only a session it was given the SessionIndex of, or (signed, naming none) this browser's, in which it was given that NameID |
| `LogoutRequests.ThisBrowsersExactly` | src/endpoints/slo.ts:196-204 | Where its participants can be listed whole, this browser's session ends if and only if its cookie came and the request has the index this SP was given for it, or is signed, has no index at all and names the user as this SP was given it there |
| `LogoutRequests.OthersExactly` | src/endpoints/slo.ts:197-219 | Otherwise the session ends that the first of three indexes to name one names, and none exactly if none of them does; with participants that can't be listed, this browser's ends by its index only |
| `LogoutRequests.OthersIndexesEndNothing` | src/storage/participants.ts:30-36 | SessionIndexes given to other SPs end nothing |
| `LogoutRequests.ItsIndexEndsIt` | src/endpoints/slo.ts:205-216 | The one index an SP was given for a live session ends it, with its cookie or without |
| `Participants.RecordKeeps` | src/storage/participants.ts:42-51 | An upsert adds or refreshes exactly one SP of one session; every other session's rows stay complete |
| `Participants.RecordedExactly` | src/storage/participants.ts:42-51 | The row an upsert is about gets the user, the participant and the expiry as told and stays ended if it was; no other row changes |
| `Participants.ExtendKeeps` | src/storage/participants.ts:24-26 | A refreshed session takes its rows along, and only its own |
| `Participants.EndKeeps` | src/storage/participants.ts:75-80 | Ending one session's rows leaves every other session's as they were |
| `Participants.ListAccounts` | src/storage/participants.ts:61-69 | A listing holds every SP of the session once, or exactly 200 of them and says so |
| `SessionEnds.StepKeeps` | src/index.ts:158-195 | Every sign-in, assertion, refresh, logout, other end and sweep, failing or cut off at any of its steps, keeps the books where it is allowed |
| `SessionEnds.AccountedOnce` | src/endpoints/slo.ts:97-113 | Over any guarded run: a session that ended before its expiry, and in which an SP got an assertion, has exactly one account: a chain's list or one `session.ended` event, complete or saying it is not |
| `SessionEnds.AccountedExactly` | src/index.ts:158-193 | Over any run: at every moment each session that ended in time is accounted for once and each live one's rows are complete, if and only if, wherever there was something to tell in time, no logout was cut off after its delete and the hook got through with no marker in its way, and no sweep took a row of a session still there |
| `SessionEnds.WorkingHooksAreEnough` | src/index.ts:158-193 | That is so of every run in which rows are extended with their sessions, the delete hook gets through and no logout is cut off, whatever logouts fail |
| `SessionEnds.LiveSessionsAreSilent` | src/index.ts:173-189 | Nothing is reported of a session that is still live |
| `SessionEnds.MarkedExactly` | src/storage/participants.ts:133-150 | A marker that a live session has was set by the last logout of it tried, cut off there; and such a marker is there for a minute |
| `SessionEnds.MarkerHidesExactly` | src/storage/participants.ts:133-150 | On every guarded run, the end of a live session with participants by other means than Single Logout is reported where the hook gets through, unless the last logout of it was cut off at its marker within the last minute; and then it is not |
| `SessionRows.StepRow` | src/storage/participants.ts:24-85 | What each event does to the row of one SP in one session, and that no other event does anything to it |
| `SessionRows.StepSession` | src/endpoints/slo.ts:97-113 | A session is there from its sign-in to its end, and ends but once |
| `SessionRows.StepAccounts` | src/index.ts:173-189 | An account is given by a logout that deletes the session, and by a hook that has something to report and can; by nothing else |
| `SessionRows.RowSays` | src/storage/participants.ts:24-51 | Over any run: a row is of the last assertion for its SP in its session, with that user and participant, and kept until the session's expiry then or as it was last extended |
| `SessionRows.RowIsThere` | src/storage/participants.ts:42-80 | Over any run: a row is there if and only if there was an assertion, and no logout dropped its session's rows since, nor a sweep after its expiry |
| `SessionRows.EndedExactly` | src/storage/participants.ts:75-85 | Over any run: a row is marked as ended exactly if the session's end by other means was reported, and then |
| `SessionEnds.SuccessMeansEveryone` | src/endpoints/slo.ts:179-226 | Over a run of sessions and the run of chains: where a logout of an unexpired session began the chain, its originator is told plain Success if and only if the rows could be read, the session had at most 200 SPs, and each but the originator was asked and sent a full Success in reply |
| `SessionEnds.Sessions.MarkEndingBySlo` | src/storage/participants.ts:140-144 | The session is marked now and exactly the markers over a minute old are gone |
| `SessionEnds.Sessions.ConsumeEndingBySlo` | src/storage/participants.ts:146-150 | True only for a fresh marker, and the marker is gone either way |
| `SessionEnds.Sessions.RecordParticipant` | src/storage/participants.ts:42-51 | The upsert is the issuing step of the run |
| `SessionEnds.Sessions.EndParticipants` | src/storage/participants.ts:75-85 | Rows are marked ended exactly if some were not and the database answers, and what is returned is the listing before |
| `SessionEnds.Sessions.EndOtherwise` | src/index.ts:173-193 | A delete with its hook, failing at any of its calls, is that step of the run |
| `SessionEnds.Sessions.EndSession` | src/endpoints/slo.ts:97-113 | Single Logout's end of a session, with any of its calls failing, is that step of the run |
| `XmlNames.KeysTellNames` | src/saml/xml.ts:91 | Two names, with URIs as spelt, have one key exactly when they are one, or one is plain and the other in an empty namespace, or one's prefix is bound to nothing and the other is in the namespace `?` with that prefix |
| `XmlNames.UniqueKeysIff` | src/saml/xml.ts:86-95 | An element's keys are unique if and only if its names, declarations aside, are unique as spelt and none of them are confused |
| `XmlNames.AcceptedIsUnique` | src/saml/xml.ts:86-98 | No accepted text has an element with two attributes, declarations aside, spelt to one expanded name, or nests past a hundred |
| `XmlNames.AcceptanceIsExact` | src/saml/xml.ts:34-107 | A text that can be read is accepted if and only if each element's names, declarations aside, are unique as spelt, none are confused, and its depth is within the limit |
| `XmlScanner.TopIsInnermost` | src/saml/xml.ts:80-85 | The top of a prefix's stack of bindings is what a search from the innermost scope outwards finds |
| `XmlScanner.Namespaces.Resolve` | src/saml/xml.ts:80-85 | The constant-time lookup answers as innermost-scope search does |
| `XmlScanner.Namespaces.Push` | src/saml/xml.ts:97-103 | Opening an element keeps each prefix's stack equal to the URIs the open scopes declare for it, outermost first |
| `XmlScanner.Namespaces.Pop` | src/saml/xml.ts:51 | So does closing one, an end tag with none open included, in steps paid for by the declarations that go |
| `XmlScanner.ScanAttribute` | src/saml/xml.ts:66-82 | One attribute: name, equals, quoted value and what may follow, in a bounded number of steps per character |
| `XmlScanner.ScanAttributes` | src/saml/xml.ts:58-83 | The attributes of a tag up to its end, likewise |
| `XmlScanner.TakeKey` | src/saml/xml.ts:88-94 | One attribute: its key is built and looked up, at the cost of the URI it repeats and its name |
| `XmlScanner.KeysAreUnique` | src/saml/xml.ts:86-95 | The set of seen keys finds a duplicate key exactly when there is one, in steps linear in the names and the URIs the keys repeat |
| `XmlScanner.Enter` | src/saml/xml.ts:77-104 | A start tag is entered exactly when its keys are unique and its depth allowed, and its declarations are then in force; the steps are linear in its text and the URIs its keys repeat |
| `XmlScanner.AssertUniqueExpandedAttributes` | src/saml/xml.ts:18-108 | On every text: ends, accepts exactly the texts whose markup reads and fits, and takes at most 20 steps a character and one for each character of the URIs its keys repeat, which an accepted text does cost |
| `XmlCost.DocumentCosts` | src/saml/xml.ts:86-95 | A document that binds a prefix to a long URI and uses it n times is accepted, and costs the URI n times |
| `XmlCost.NotLinear` | src/saml/xml.ts:19 | No multiple of the text's length bounds the steps: for each, an accepted text that takes more |
| `XmlWritten.ReadExactly` | src/saml/xml.ts:43-84 | A text can be read, and as which markup, exactly if it can be written so: any blanks, either quote, comments, CDATA sections, instructions and declarations |
| `XmlWritten.ReadsWritten` | src/saml/xml.ts:43-84 | What the scanner reads in a written text is the text's own markup, in order, in whichever way it is written |
| `XmlDocuments.AcceptedExactly` | src/saml/xml.ts:21-108 | Of all texts, exactly those are accepted that can be written as markup that is in order |
| `XmlInForce.NamedExactly` | src/saml/xml.ts:77-92 | What the scanner resolves an attribute's name to is what it is named by the innermost declaration of its prefix on an element still open there, the last one in its tag |
| `XmlInForce.AcceptedExactly` | src/saml/xml.ts:21-108 | Of all texts, exactly those are accepted that can be written as markup in which no element has two attributes, declarations aside, of one such name or of two that are mistaken for one, and none with content is inside a hundred others |
| `XmlDocuments.AllFitConcat` | src/saml/xml.ts:50-104 | The stack of scopes at any point of a tree is the environment of its element |
| `XmlDocuments.AcceptsTheLawful` | src/saml/xml.ts:12-108 | A tree's text is accepted if and only if every element's names, declarations aside, are unique as spelt, told from the declarations on and around it, none are confused, and none is inside a hundred others |
| `XmlReadNames.LawfulAsReadYetRefused` | src/saml/xml.ts:91-92 | A document whose names as read are unique, and that is refused: one in an empty namespace and one in none |
| `XmlReading.SpellingIsRead` | src/saml/xml.ts:12-17 | A value spelt out by character references is read as the text (sections 3.3.3 and 4.1 of XML 1.0) |
| `XmlReadNames.UniqueAsReadIff` | src/saml/xml.ts:12-17 | An element's names as read, declarations included, are unique if and only if they are as spelt, no declaration is repeated, and no two are in namespaces spelt apart and read alike with one local name |
| `XmlReadNames.AcceptedIsUniqueAsRead` | src/saml/xml.ts:12-108 | Every element of an accepted text has unique names as read, declarations included, if and only if none repeats a declaration or has two names spelt apart and read alike |
| `XmlReadNames.AcceptanceAsRead` | src/saml/xml.ts:12-108 | Of the texts that can be read, those accepted with no such element are those with unique names as read, within the depth limit, and none confused |
| `XmlReadNames.PlainIsEnough` | src/saml/xml.ts:12-108 | A text whose tags each declare a namespace once, in values with no `&`, tab or line end, is accepted if and only if its names as read are unique, within the depth limit, and none confused |
| `XmlReadNames.AcceptsTheLawfulAsRead` | src/saml/xml.ts:12-108 | A tree's text is accepted with no such element if and only if the names as read are unique in every element, none inside a hundred others, and none confused |
| `XmlReadNames.SpeltApartIsAccepted` | src/saml/xml.ts:78-95 | For any two spellings of one namespace: a document with one name twice, accepted |
| `XmlReadNames.AnyNamespaceSpeltApart` | src/saml/xml.ts:78-95 | There is such a document for every namespace with a plain name |
| `XmlReadNames.ReferenceIsAccepted` | src/saml/xml.ts:78-95 | One by `&#117;` for `u` |
| `XmlReadNames.TabIsAccepted` | src/saml/xml.ts:78-95 | One by a tab for a blank |
| `XmlReadNames.RepeatedIsAccepted` | src/saml/xml.ts:88-90 | For any two values: a document that declares one prefix twice in a tag, accepted |
| `Uri.Utf8RoundTrip` | src/saml/request.ts:87-93 | Decoding reads back the UTF-8 octets of every character |
| `Uri.RoundTrip` | src/saml/logout.ts:141-145 | decodeURIComponent(encodeURIComponent(s)) is s |
| `Uri.EncodedIsSafe` | src/saml/logout.ts:141-145 | Encoded text holds no character that splits a query, a `+` among them |
| `UriSpelling.DecodesExactly` | src/saml/request.ts:87-93 | A text decodes to another if and only if it spells it: each character as itself or as the escaped octets of its UTF-8 form, with digits of either case |
| `RedirectBinding.Take` | src/saml/request.ts:104-114 | One segment: malformed, unknown, a duplicate, or recorded under its canonical name |
| `RedirectBinding.Collect` | src/saml/request.ts:102-115 | The loop keeps exactly the parameters sent once, or refuses a query no such set of rules accepts |
| `RedirectBinding.HasPlainName` | src/saml/request.ts:128-130 | Whether some segment is spelled exactly as the parameter |
| `RedirectBinding.NamesArePlain` | src/saml/request.ts:128-130 | Whether every parameter the signature covers was sent under its canonical name |
| `RedirectBinding.ParseRedirectQuery` | src/saml/request.ts:101-133 | The loops compute the declarative reading of the query, and refuse exactly the queries it refuses |
| `RedirectQueries.AcceptedExactly` | src/saml/request.ts:101-133 | A query is accepted if and only if every name decodes, each of the five parameters is there once at most and decodes, exactly one message is, Signature and SigAlg come together, and what a signature covers is sent under its plain names |
| `RedirectQueries.ReadAs` | src/saml/request.ts:79-133 | And it is read as what its segments say, `+` a blank in RelayState and SigAlg only |
| `RedirectLaws.OrderIsOfNoAccount` | src/saml/request.ts:101-133 | Segments in any order parse to the same result |
| `RedirectLaws.QueryOrderIsOfNoAccount` | src/saml/request.ts:103-115 | The same of whole query strings |
| `RedirectLaws.UnknownIsIgnored` | src/saml/request.ts:109 | A parameter that is not one of SAML's changes nothing wherever it stands |
| `RedirectLaws.OctetsWereSent` | src/saml/request.ts:122-130 | The signed octets are the canonical order of segments that were sent under exactly those names, each sent once |
| `RedirectLaws.RedirectBindingQuery` | src/saml/logout.ts:140-147 | The builder signs message, RelayState and SigAlg joined in order, and appends the signature |
| `RedirectLaws.BuiltIsParsed` | src/saml/logout.ts:140-147 | Parsing what the builder builds gives the message, RelayState, algorithm and signature back, with octets equal to those that were signed |
| `MessageShape.CheckMessageShape` | src/saml/request.ts:24-35 | The walk accepts exactly the messages of at most 200 elements and 1000 attributes, and looks at no more than 201 elements |
| `TenantRetirement.StepKeeps` | src/endpoints/tenants.ts:175-244 | Every database call of every create and delete keeps the books on rows and retired keys |
| `TenantRetirement.KeysAreNeverReused` | src/endpoints/tenants.ts:192-197 | Under any interleaving and loss, no two successful creates ever hold one tenant key |
| `TenantRetirement.CreatedUntilRetired` | src/endpoints/tenants.ts:240-244 | A created tenant is there as it was created, or its key is retired |
| `TenantHistory.SuccessAfterChecks` | src/endpoints/tenants.ts:175-206 | On any run a create succeeds only after it found its key not retired, inserted its row with none of that organization or key there, and found the key not retired again |
| `TenantHistory.RetiredUnused` | src/endpoints/tenants.ts:235-240 | A key is retired only for a tenant found with no service provider in it |
| `TenantHistory.DeletedRetired` | src/endpoints/tenants.ts:240-244 | A tenant is deleted only with its key retired |
| `TenantHistory.UndoneFor` | src/endpoints/tenants.ts:192-204 | A create's row is undone only where its key was retired meanwhile, or storing its signing key failed |
| `TenantHistory.OneEach` | src/endpoints/tenants.ts:183-191 | At no moment are there two tenants of one organization, or of one key |
| `TenantRetirement.LostCreateKeepsItsRow` | src/endpoints/tenants.ts:185-197 | A create lost before its second look can leave a row with a retired key: a run for any two tenants of one key |
| `RetiredRows.OwedExactly` | src/endpoints/tenants.ts:192-197 | From where a request under way owes the removal of each row with a retired key, a step keeps it so exactly if it loses no request that alone owes one, and retires no key from under a row that none owes |
| `RetiredRows.OwedThroughout` | src/endpoints/tenants.ts:185-244 | Over any run: it is so at every moment if and only if every loss and every retirement was such |
| `RetiredRows.NoneIsLeft` | src/endpoints/tenants.ts:192-197 | So once the requests of a run allowed throughout are done, no row with a retired key is left |
| `RetiredRows.LeftExactly` | src/endpoints/tenants.ts:185-244 | Once the requests of any run are done, a row with a retired key is left if and only if some loss or retirement stranded it and no later request took it up |
| `RetiredRows.LeftForGood` | src/endpoints/tenants.ts:227-244 | A row with a retired key that no request under way has to do with stays, on any run, until a later delete finds it |
| `RetiredRows.StaleDeleteRetiresALiveKey` | src/endpoints/tenants.ts:227-240 | With no request lost: a run after which a tenant answered with success is there under a retired key |
| `TenantRetirement.CreatedAloneSteps` | src/endpoints/tenants.ts:175-206 | A create with nobody else about is a continuation of the run |
| `TenantRetirement.DeletedAloneSteps` | src/endpoints/tenants.ts:235-244 | So is a delete |
| `TenantRetirement.TenantRows.InsertTenant` | src/endpoints/tenants.ts:183-191 | The UNIQUE columns decide |
| `TenantRetirement.TenantRows.CreateTenant` | src/endpoints/tenants.ts:175-206 | The handler leaves what those steps leave; success means the tenant is there and its key not retired |
| `TenantRetirement.TenantRows.DeleteTenant` | src/endpoints/tenants.ts:235-244 | The handler deletes a tenant without SPs, with its key retired first |
| `XmlEscape.CleanedIsClean` | src/saml/response.ts:26-55 | What is left of any UTF-16 string is well formed and holds nothing XML can't carry and no line ending parsers rewrite |
| `XmlCleaned.EscapedExactly` | src/saml/response.ts:26-55 | What escaping does to each unit: kept exactly if XML carries it where it stands, dropped as the second of CR LF or CR NEL, read as LF if it begins a line ending, and spelt as an entity if it is one of five |
| `XmlCleaned.RefusedExactly` | src/saml/response.ts:40-44 | A string is refused as an identifier exactly if some unit of it would be dropped or read as another |
| `XmlEscape.CleanIsUnchanged` | src/saml/response.ts:40-44 | A string without such characters is left as it is |
| `XmlEscape.EntitiesRoundTrip` | src/saml/response.ts:17 | Unescaping undoes the five entities |
| `XmlEscape.EscapeRoundTrip` | src/saml/response.ts:53-55 | An XML parser reads back what escaping cleaned, and the string itself if it was clean |
| `XmlEscape.EscapedIsClean` | src/saml/response.ts:46-55 | For every UTF-16 string the result is clean, well formed and without raw markup characters |
| `XmlMarkup.OnlyThere` | src/saml/encrypt.ts:152-154 | A tag that one written piece begins with, and no other, is found there and nowhere else |
| `ResponseXml.OpensOnly` | src/saml/encrypt.ts:140-152 | Only the Assertion's start tag is found as its opening |
| `ResponseXml.ClosesOnly` | src/saml/encrypt.ts:141-153 | Only its end tag is found as its closing |
| `ResponseXml.ResponseChunks` | src/saml/response.ts:111-132 | The document in the order it is written, its Assertion whole in the middle |
| `ResponseSays.DocumentSays` | src/saml/response.ts:111-135 | What the built Response says, found by name as a reader finds it: where it goes, whose it is, which request it answers, that it is a success, and the one Assertion in it |
| `ResponseSays.AssertionSays` | src/saml/response.ts:115-132 | What the Assertion has in it, in order, and nothing else; its signature after the Issuer |
| `ResponseSays.SubjectSays` | src/saml/response.ts:117-122 | The NameID and its format; the bearer confirmation at this SP, until when and for which request, with no InResponseTo where none was made |
| `ResponseSays.ConditionsSay` | src/saml/response.ts:123-125 | From when until when it holds, and for which SP |
| `ResponseSays.AuthnSays` | src/saml/response.ts:126-129 | When, in which session, how and until when the user is signed in |
| `ResponseSays.AttributesSay` | src/saml/response.ts:79-98 | Each attribute once and in order, each of its values in order |
| `AssertionEncryption.ExactlyOneAssertion` | src/saml/response.ts:103-135 | For all inputs the built document has exactly one opening and one closing of an Assertion |
| `AssertionEncryption.StandaloneIs` | src/saml/encrypt.ts:157 | The plaintext is the Assertion with its namespace declared on it, nothing else changed |
| `AssertionEncryption.EncryptionReplacesTheAssertion` | src/saml/encrypt.ts:151-160 | Encryption never refuses a built document and puts the encrypted Assertion exactly where the plain one was |
| `ExchangeForm.FormIsChecked` | src/exchange.ts:222-241 | The shape check accepts exactly one form, given as a table of elements, the attributes they may have and the elements in them, and reads from it what it says |
| `ExchangeRuns.RefusedEarly` | src/exchange.ts:177-220 | Before the form is looked at: which presentations are refused for want of a client, as malformed, as not ours, and for their signature |
| `ExchangeRuns.CheckedThen` | src/exchange.ts:241-255 | Then, for a document of that form: which are refused for their dates, at either end of the window, for their SP and for their client, and that all others pass |
| `ExchangeRuns.PassedThen` | src/exchange.ts:257-276 | What happens to one that passes: vouched for exactly if its record is unused and agrees in every field and the account is in order; otherwise which refusal it gets, and whether the record is used up |
| `ExchangeRuns.UnsignedLeaves` | src/exchange.ts:216-220 | A presentation without our good signature is refused and leaves everything as it was |
| `ExchangeRuns.StepUses` | src/storage/exchange-record.ts:36-54 | A record is used up exactly by a presentation that passes while it is unused, is what was issued, and lasts by the clock; no other event changes any of that |
| `ExchangeRuns.VouchedExactly` | src/exchange.ts:177-276 | Over any run: an assertion is vouched for if and only if a presentation was due it: a named client, a document of the one form within the limits, an Issuer of ours, our signature, both ends of the window, the audience's SP in that tenant and this client's, a record unused and as at issuance, an account in order |
| `Exchange.StepKeeps` | src/exchange.ts:257-276 | Every issue, presentation, sweep and tick keeps records, uses and window in step |
| `Exchange.VouchedOnce` | src/exchange.ts:257-260 | On any run each assertion is vouched for at most once |
| `Exchange.RecordOutlivesTheWindow` | src/storage/exchange-record.ts:36-39 | A record not used can be consumed at every moment the time check still accepts its assertion |
| `Exchange.MatchesIff` | src/exchange.ts:261-272 | An issued assertion matches its record field by field if and only if its configuration strings are ones XML carries whole |
| `Exchange.IssuedIsVouchedFor` | src/exchange.ts:177-276 | An issued signed assertion presented in its window is vouched for if and only if it is within the limits and those strings are carried whole; past a limit it is malformed and its record kept, otherwise the record is used |
| `Exchange.ManyValuesAreRefused` | src/exchange.ts:184-189 | An assertion in order in every way but for 200 values in one attribute is issued, and refused with its record kept |
| `ExchangeLimits.IssuedNodes` | src/saml/response.ts:60-135 | How many elements and attributes an issued assertion takes, from its attributes and their values |
| `ExchangeLimits.WrittenDeclaresNothing` | src/saml/validator.ts:15-23 | No written document declares a document type or an entity, whatever its texts |
| `ExchangeLimits.WithinLimitsIff` | src/exchange.ts:184-189 | An issued assertion is within the limits if and only if it takes 64 KiB, 200 elements and 1000 attributes at the most |
| `ExchangeSizes.LimitsExactly` | src/exchange.ts:184-189 | A document is within the limits exactly if it takes 64 KiB in UTF-8 at the most, has no `<!DOCTYPE` or `<!ENTITY` in it in letters of either case, and at most 200 start tags with 1000 attributes |
| `ExchangeSizes.TextOfIs` | src/exchange.ts:135 | The text of an element is all the text in it, in the order it is written |
| `ExchangeSizes.BlankExactly` | src/exchange.ts:94-102 | Between elements exactly the characters may stand that `\s` matches in a JavaScript regular expression |
| `ExchangeShape.ReadIsCleaned` | src/exchange.ts:135 | What a parser reads of a written text is the cleaned text |
| `ExchangeShape.IssuedShapeIsAccepted` | src/exchange.ts:222-246 | The strict shape check reads exactly the issued fields from what issuance writes |
| `ExchangeApi.CollectElements` | src/exchange.ts:94-102 | The walk over child nodes collects the elements in order, or refuses text between them |
| `ExchangeApi.IssuedAssertions.RecordExchangeable` | src/storage/exchange-record.ts:36-39 | Recording is that step of the run |
| `ExchangeApi.IssuedAssertions.ConsumeExchangeable` | src/storage/exchange-record.ts:42-54 | A live record is returned and gone; anything else returns nothing |
| `ExchangeApi.IssuedAssertions.CheckWindow` | src/exchange.ts:243-255 | The window, audience and client checks, in the source's order |
| `ExchangeApi.IssuedAssertions.CheckLimits` | src/exchange.ts:184-189 | Size, declarations, and the walk that counts elements and attributes |
| `ExchangeApi.IssuedAssertions.CheckPresented` | src/exchange.ts:177-255 | The checks before the record, limits, ID and the Issuer's format included, in the source's order |
| `ExchangeApi.IssuedAssertions.VerifyIssuedAssertion` | src/exchange.ts:177-276 | The whole verification leaves what its step in the run leaves |
| `Der.EncodeLength` | src/saml/certificate.ts:8-13 | The loop writes the specified length octets |
| `Der.LengthRoundTrip` | src/saml/certificate.ts:8-13 | A length decodes to itself, whatever follows (section 8.1.3 of ITU-T X.690) |
| `Der.LengthIsCanonical` | src/saml/certificate.ts:8-13 | It is the only accepted form of that length (section 10.1) |
| `Der.TlvRoundTrip` | src/saml/certificate.ts:14 | An encoded value decodes to its tag and body, whatever follows |
| `Der.AllRoundTrip` | src/saml/certificate.ts:15 | A sequence of values decodes to those values |
| `Der.WrittenOneWay` | src/saml/certificate.ts:14-15 | No two lists of values are written alike |
| `Der.EncodeInteger` | src/saml/certificate.ts:24-29 | The loop and the prepended zero write the specified integer octets |
| `Der.IntegerKept` | src/saml/certificate.ts:24-29 | They are the minimal form, with the sign bit clear, and have the value of the bytes given (section 8.3) |
| `Der.IntegerNeedsAnOctet` | src/saml/certificate.ts:27 | No octets are written exactly when none were given |
| `Der.EncodeArc` | src/saml/certificate.ts:35-36 | The loop writes one arc in base 128 |
| `Der.EncodeObjectId` | src/saml/certificate.ts:31-40 | The loops write the specified object identifier |
| `Der.ArcsRoundTrip` | src/saml/certificate.ts:34-38 | Arcs decode to themselves |
| `Der.ArcsAreCanonical` | src/saml/certificate.ts:34-38 | Accepted arc octets are the ones written: no other form (section 8.19) |
| `Der.ObjectIdRoundTrip` | src/saml/certificate.ts:31-40 | An object identifier decodes to itself if and only if its first two arcs fit one octet as the standard bounds them |
| `Der.CertificateRoundTrip` | src/saml/certificate.ts:66-76 | A certificate decodes to its to-be-signed part, its algorithm and its signature, and the signed octets are in it as they were signed |
| `TimedCache.AnswersAreRecent` | src/saml/sp-directory.ts:120-154 | Every answer on every run is what a direct read gave at a moment within the cache's lifetime, plus the time that read took |
| `TimedCache.RememberedExactly` | src/saml/sp-directory.ts:120-154 | Over any run: a lookup is answered from the cache if and only if one of the same query was done less than a lifetime ago, and the cache neither dropped since nor emptied for being full |
| `TimedCache.AskedThen` | src/saml/sp-directory.ts:120-133 | Then it is answered at once; otherwise it reads the database as it is |
| `TimedCache.AskedOrAnswered` | src/saml/sp-directory.ts:120-148 | Every lookup ever made is under way or answered once |
| `TimedCache.OwnWritesAreSeen` | src/saml/sp-directory.ts:86-89 | At no moment of a run can a lookup be answered from before this isolate's last write and invalidation, if and only if no read under way at an invalidation had been overtaken by a write |
| `TimedCache.OvertakenAnswersStale` | src/saml/tenant-directory.ts:69-79 | From any state: a read that is overtaken at an invalidation answers from before it, as soon as it is done |
| `TimedCache.OvertakenRead` | src/saml/tenant-directory.ts:69-79 | A run in which that answer is cached, and served for a whole lifetime |
| `SpDirectory.DirectExactly` | src/saml/sp-directory.ts:92-148 | A direct read gives an SP if and only if the row found is enabled and valid, agrees with its configuration and with what was asked, and code has none with its ID, or its entity ID in its tenant |
| `SpDirectory.LookUpExactly` | src/saml/sp-directory.ts:65-78 | The SP found is the first one in code that is asked for, or else the stored one; none exactly if there is neither |
| `SpDirectory.DirectReadsFit` | src/saml/sp-directory.ts:120-148 | Whatever row the database finds, a direct read gives an SP of the asked ID, entity ID and tenant or none |
| `SpDirectory.NeverAnotherTenants` | src/saml/sp-directory.ts:134-148 | Nor does any answer from the cache, over any run |
| `SpDirectory.Directory.Remember` | src/saml/sp-directory.ts:150-154 | An entry is kept for the cache's lifetime, a full cache emptied first |
| `SpDirectory.Directory.Stored` | src/saml/sp-directory.ts:120-148 | A live entry, or a direct read that is then kept |
| `SpDirectory.Directory.ByEntityId` | src/saml/sp-directory.ts:73-78 | Code first; the SP found has the asked entity ID and, with tenants on, the asked tenant |
| `SpDirectory.Directory.Invalidate` | src/saml/sp-directory.ts:87-89 | Nothing cached is left |
| `TenantDirectory.FoundIff` | src/saml/tenant-directory.ts:68-92 | A tenant is found if and only if its row, as it was at the first read, has exactly the asked value and is enabled, and its organization, as it is at the second, is the one it was made for |
| `TenantDirectory.KeysAre` | src/saml/tenant-directory.ts:14 | A key is 1 to 64 ASCII letters, digits, hyphens and underscores |
| `TenantDirectory.Directory.Find` | src/saml/tenant-directory.ts:68-80 | A live entry, or two reads of the database at different moments, whose result is then kept; what is found matches the query |
| `TenantDirectory.Directory.FindByKey` | src/saml/tenant-directory.ts:48-51 | A malformed key finds nothing and leaves the cache alone |
| `Registry.IdAndTenantAreFixed` | src/endpoints/registry.ts:421-425 | No step of any interleaving of handlers changes a row's SP ID or tenant |
| `Registry.DelegatedStayInScope` | src/endpoints/registry.ts:299-310 | What an administrator's write changes was, and is, in that administrator's tenants, whatever was written since it read |
| `Registry.DelegatedGiveNoExchange` | src/endpoints/registry.ts:304-310 | An administrator's write gives a row no token exchange it did not have, if and only if it does not put back one that was changed since the handler read it |
| `Registry.DelegatedGiveNone` | src/endpoints/registry.ts:304-310 | Over any run: no administrator's write gives a row a token exchange if and only if none puts one back |
| `Registry.ManagersGiveExchanges` | src/endpoints/registry.ts:304-310 | Over any run: each token exchange a row has was written into that row by a host manager |
| `Registry.AskedExactly` | src/endpoints/registry.ts:293-449 | Exactly which requests are let through, by row, scope, fixed ID and tenant, code's IDs, tenants there are and what is delegated; and what each is to write |
| `Registry.WritesExactly` | src/endpoints/registry.ts:383-460 | What a write changes, row by row: the one it is about, unless its ID or its entity ID in its tenant is another row's; no other |
| `Registry.DelegatedAsChecked` | src/endpoints/registry.ts:293-310 | Over any run of interleaved handlers: every row has an ID that code does not take and a tenant there is; and what an administrator writes is within that administrator's tenants and delegation |
| `Registry.PutBack` | src/endpoints/registry.ts:409-433 | A run in which it does: a host manager removes the token exchange between the read and the write |
| `Registry.StepKeeps` | src/endpoints/registry.ts:374-463 | Every read, write and loss keeps the UNIQUE columns, and what each handler checked of the row it read true of the row it will write |
| `Registry.TenantIsFixed` | src/endpoints/registry.ts:406-462 | Over any run of interleaved handlers: a row there at two moments was there throughout, with one ID in one tenant |
| `Registry.RanIsSteps` | src/endpoints/registry.ts:406-463 | A handler with no other about is two steps of a run, or one if it refuses |
| `Registry.Endpoints.FindRow` | src/endpoints/registry.ts:409 | The row with exactly this ID, or none exactly when no row has it |
| `Registry.Endpoints.CreateServiceProvider` | src/endpoints/registry.ts:374-393 | The handler answers and leaves exactly what its read and its write in the run do |
| `Registry.Endpoints.ToggleServiceProvider` | src/endpoints/registry.ts:413-420 | So does switching on and off: let through exactly for a row in scope |
| `Registry.Endpoints.UpdateServiceProvider` | src/endpoints/registry.ts:406-449 | So does an update: let through exactly by the rules, with the new row they give |
| `Registry.Endpoints.DeleteServiceProvider` | src/endpoints/registry.ts:455-463 | So does a delete, after which no row has the ID |
| `MetadataRefresh.Entry.Prepare` | src/saml/sp-metadata-refresh.ts:111-121 | A fetch starts exactly when one is due and none is under way that is not stuck |
| `MetadataRefresh.Entry.Succeed` | src/saml/sp-metadata-refresh.ts:116-164 | A success replaces what was learned and resets the backoff; a later fetch stays under way |
| `MetadataRefresh.Entry.Fail` | src/saml/sp-metadata-refresh.ts:165-170 | A failure moves the next attempt by the backoff and doubles it up to the interval |
| `MetadataRefresh.FailedBacksOff` | src/saml/sp-metadata-refresh.ts:167-168 | After k failures in a row the next attempt is min(5 min * 2^k, interval) away |
| `MetadataRefresh.BackoffFollowsFailures` | src/saml/sp-metadata-refresh.ts:102-171 | So it is of every entry at every moment of every run |
| `MetadataRefresh.LearnedForThisConfiguration` | src/saml/sp-metadata-refresh.ts:85-110 | What an entry has learned was learned for exactly the configuration it is used for, on every run |
| `MetadataRefresh.FailureKeepsTheLastGood` | src/saml/sp-metadata-refresh.ts:165-170 | Nothing but a success changes what was learned |
| `MetadataRefresh.StuckIsPassedOver` | src/saml/sp-metadata-refresh.ts:111-121 | A fetch abandoned for over half a minute does not stop the next one, and that one is given its own half minute |
| `MetadataFetches.KeysTell` | src/saml/sp-metadata-refresh.ts:85-87 | Two SPs share an entry exactly if they agree in all that learned certificates depend on |
| `MetadataFetches.UseStarts` | src/saml/sp-metadata-refresh.ts:93-121 | A use of an SP starts a fetch for its entry exactly when one is due, keeps what was learned, and touches no other entry |
| `MetadataFetches.FetchEnds` | src/saml/sp-metadata-refresh.ts:143-171 | What the end of a fetch changes: only the entry it was for |
| `MetadataFetches.TimePasses` | src/saml/sp-metadata-refresh.ts:90-96 | Time passes by itself only, and passing changes nothing else |
| `MetadataFetches.FetchesAreSpaced` | src/saml/sp-metadata-refresh.ts:111-121 | Over any run: while a fetch of an entry is under way, another of it begins only half a minute after it |
| `MetadataRefresh.Merge` | src/saml/sp-metadata-refresh.ts:143-152 | The merged certificates begin with the configured ones and hold exactly those and the learned ones, none added twice; encryption is only ever replaced, never switched on |

## Left out

- KeyRuns.NeverFallsBack: of runs whose requests are allowed, which `KeyGuards.OwnKeyStaysExactly` shows to be exact; handlers of one owner do not overlap.
- KeyRuns.ContinuityOverRuns: the root's key does not change during a run, whose requests are those of `KeyRuns.NeverFallsBack`.
- SsoRun.AtMostOneResponse: speaks of copies with one IssueInstant, and of runs whose sweeps take no row from under a checked copy; `SsoLimits.ReplayWindow` and `SsoWindows.RowsCoverExactly` show both to be exact.
- FirstKey.OneKeyIsLeft: at most 50 writers, the number of rows a read returns, and none of them lost.
- SessionEnds.AccountedOnce: the steps of one session's end run one after another, with no other end of the same session between them; runs are guarded, which `SessionEnds.AccountedExactly` shows to be exact.
- SpDirectory.Directory.Stored: one read at a time in this form; overlapping reads are in `TimedCache`.
- Two handlers of one owner's keys at once: each reads and writes with only crashes and refused writes, not other handlers, in between.
- Row fields that decide nothing (activatedAt, updatedBy, notAfter, the sealed private key's text); rows are in the order of their createdAt, and a kid is a number.
- Different hosts' clocks: one clock that never goes back, exact instants, exact equality of strings in the database.
- IdP-initiated requests, which have no request ID to replay; the account checks before issuance other than as one verdict; how long an SP's session may last; attribute mapping; organizations.
- The parsing of logout messages other than the verdict on a reply; participant rows without a user; a failing lookup of a session by its index.
- Names and URLs of identities (`src/saml/identity.ts`): which identity signs is one verdict of issuance, and how it gets its key is `KeyRotation.SigningOf`.
- `forgetUserParticipants`, `listUserParticipants`, the text of reasons in `session.ended`, events and the audit log.
- The parsers, schemas and signature checks behind the scanner and the exchange: what a parser reads of written XML is a function here, with attribute values normalised as section 3.3.3 of XML 1.0 says, and every issued document passes the schema.
- The scanner's text as UTF-16: its characters are Unicode scalar values here. In a value as read an `&` that begins no reference stands for itself, where a parser refuses the document.
- Error codes and messages of the query parser and the scanner: a refusal is a refusal.
- DEFLATE, base64, dates as text (an abstract calendar), the time the exchange's caller may pass in, and for which of several reasons a presented document is malformed.
- Validation of a stored SP's configuration beyond the fields that decide its scope, its reads at other moments than the row's; an update that toggles and names no configuration beside others; listing and reading endpoints; warnings.
- The fetching and reading of metadata; the refresh interval of one SP is fixed during a run for the backoff formula.
- HTTP, cookies, pages, the client plugin, the command line, options, and the backfill of lookup keys.
