# Eden platform: a verified model

A Dafny model of eight parts of the Eden Go platform, with proofs about every input, every run and every
interleaving of what they do.

| part | files |
|---|---|
| signed-audit delivery buffer and its two pumps | `AuditBuffer`, `AuditSafety`, `AuditCapWitness`, `AuditEffects`, `AuditForwarder`, `AuditProgress`, `AuditResign` |
| canonical audit payloads | `CanonicalTree`, `CanonicalEvent`, `CanonicalFields`, `CanonicalDepth` |
| company closure table and inherited settings | `CompanyForest`, `CompanyService`, `CompanyRuns` |
| cross-domain handoff codes | `HandoffSubject`, `HandoffStore`, `HandoffRuns` |
| household membership | `Household`, `HouseholdService`, `HouseholdTransactions`, `HouseholdStatus`, `HouseholdAlone`, `HouseholdRace` |
| experience contract: store, resolution, content hash, negotiation, compatibility | `ExperienceSpec`, `SpecStore`, `ContentHash`, `Resolution`, `NavCoherence`, `Versions`, `Negotiation`, `ContractChange`, `ExperienceHandler` |
| consent ledger | `ConsentLedger`, `ConsentRuns`, `ConsentRepeats` |
| feature flags | `FeatureFlags` |

`Options`, `Sets`, `Text` and `Numerals` hold what several parts share: optional values, set sizes, byte-wise string
order and sorted key lists, trimming, splitting and joining, decimal numerals. `dafny verify dfyconfig.toml` checks everything.

## How it is modelled

Protocols are transition systems. The audit buffer has writers that check the depth and then insert, workers that
dequeue under row locks, act, and commit or lose their transaction, a sink that may deliver and then fail, and
Vacuum; `Run` is any sequence of enabled steps from the empty table. The household tables have transactions that
pass the service's unlocked checks, lock the household row, re-read, re-check, write and commit, with unlocked
inserts in between. The handoff store has mints and the two store calls of a redemption, in any interleaving. A consent
revocation reads its original, reads the newest row and inserts, with other calls in between, and so does a company
creation after the store's part of it. Classes
(`Forwarder`, `Backend`, `InMemoryHandoffStore`, the two `Service` classes, `MemorySpecStore`, `Handler`) carry the
fields their sources update in place, and each method is proved against a specification on values. Loops of the source
are loops here, with a map's iteration order left open.

Clock readings, generated ids, database outcomes, sink and signer outcomes are inputs. SHA-256, protobuf marshalling,
rollout bucketing and the entitlements service are function parameters. A Go string is a sequence of characters; where
bytes matter (handoff subjects, hash preimages) a character stands for a byte.

Assumptions, each written in the contract that needs it: new ids and jtis are fresh; lower-casing is idempotent; clock
readings of handoff store calls never decrease (`SingleUse` alone has them strictly increase), and ledger times strictly
increase; a presented handoff code that validates was issued by the service; tenant and org of authenticated scopes are
NUL-free; hash and marshaller do not confuse the two values compared (only for `CacheKeyNamesOneSpec` and `HashIdentifiesResolution`).

## Where the code does not do what is promised

The members named show each failure on a concrete run or input and say when the promise does hold.

- The re-sign pump is meant to leave a row whose re-sign failed for a later pass, but a committed release clears
  `signing_error` on the whole batch, so such a row ends in neither pump's query, for good: `FailedResignParks`,
  `BecomesParkedIff`, `ParkedForever`, `NoRowIsStranded`.
- A consent query "as of T" answers no as soon as the pair has any entry after T, even a renewed grant:
  `RenewalRewritesHistory`, `AgreesIff`. And it does not say whether a grant is outstanding once a revocation, first or
  repeated, names a grant that is not the only one outstanding: `RevokingTheOlderHidesTheNewer`,
  `SecondRevocationHidesNewGrant`. Revoking the only outstanding grant each time is exactly what makes it so:
  `RevocationAgreesIff` for one call, `QueryMeansOutstandingIff` for whole runs.
- A second revocation of a grant is meant to be refused while the first is the pair's newest entry. Two calls that both
  check before either inserts get past that: `RacingRevocationsRepeat`; `NoRepeatIff` has the exact condition.
- A Minor bump of a version whose minor number is the largest 64-bit integer ranks lower: `OverflowExample`,
  `MinorBumpRanksHigher`.
- `IsEnabled` promises to be true exactly when the resolved variant is a non-empty `Default`. It is not when a rollout
  admits a subject while the default is unset or names no variant, when a default without rollout names no variant, and
  when the best override's value is no variant: `PromiseBreaks`; `PromiseKeptIff` has the exact condition for every
  variant flag, `EnabledMeansDefault` the special case of existing variants.
- A details value nested 9,999 or 10,000 levels is stored and cannot be read back, so its row cannot be re-signed:
  `TooDeepToRead`, `DecodeEncode`, `UnparsableIffTooDeep`.
- Effective settings of a company whose own document is JSON `null` panic when an ancestor contributes a key, and only
  then: `NullSettingsCrash`, `GetEffectiveSettings` (outcome `Crash`).
- Length framing truncates to 32 bits, so it separates outputs of N bytes exactly below N = 2^32 + 4:
  `EveryLongLengthCollides`, `SeparatesIff`.
- A token pair can be returned twice when clock readings repeat, and only if it was put with a full TTL, first claimed at
  the very reading of its put and claimed again at the very reading of its expiry: `InstantClaimReturnsTwice`,
  `TwoReturnsForce`, `SingleUseUnlessInstant`.
- `flag.go` says the first matching override wins; the code takes the most specific. The first match wins exactly when no
  later match is strictly more specific, or has the same value: `FirstMatchLoses`, `FirstMatchWinsIff`.

One more comment differs from the code: `handoff.go` says the oldest entry is dropped when the store is full; the code
returns an error, and so does `PutEntry`.

## Model

| member | source | states |
|---|---|---|
| `AuditSafety.StepKeepsInv` | platform/audit/postgres_buffer.go:107-436 | every step of writers, pumps, sink, lost transactions and Vacuum keeps: distinct rows, disjoint batches, workers' rows in their class, sent only after acknowledgement with a JWS, deliveries final, nothing lost |
| `AuditSafety.EveryRunIsSafe` | platform/audit/postgres_buffer.go:174-436 | that invariant in every state of every run from the empty table |
| `AuditEffects.EveryState` | platform/audit/postgres_buffer.go:107-436 | the same spelled out: jtis unique, no row held twice, sent rows acknowledged with their JWS, deliveries are the rows as they stand, every inserted jti is in the table or acknowledged |
| `AuditSafety.StepOnRow` | platform/audit/postgres_buffer.go:227-289 | a row leaves only by Vacuum after being sent; jti, payload and time never change; a JWS, a sent row and a parked row are final |
| `AuditSafety.NoRevival` | platform/audit/postgres_buffer.go:408-436 | a deleted row id never comes back |
| `AuditEffects.VacuumEffect` | platform/audit/postgres_buffer.go:408-417 | Vacuum deletes exactly the rows sent more than `days` times 86400 seconds before now, records their jtis and changes nothing else; it runs exactly for a positive retention |
| `AuditEffects.RetainedIff` | platform/audit/postgres_buffer.go:408-417 | over runs: a row sent at t is in a later state, unchanged, exactly when every Vacuum since had now at most t plus its retention |
| `AuditSafety.SentNeverReverts` | platform/audit/postgres_buffer.go:227-256 | in every continuation a sent row is unchanged, or deleted with its jti acknowledged |
| `AuditSafety.UnsentRowsFallInOneClass` | platform/audit/postgres_buffer.go:168-188 | every unsent row is exactly one of forwardable, re-signable, parked |
| `AuditSafety.BecomesParkedIff` | platform/audit/postgres_buffer.go:258-289 | a row becomes parked exactly by a bare insert or by a committed re-sign batch holding no JWS for it |
| `AuditSafety.ParkedForever` | platform/audit/postgres_buffer.go:298-347 | a parked row stays as it is and never reaches the sink |
| `AuditSafety.NoRowIsStranded` | platform/audit/signed.go:142-151 | with SignedStore inserts and fully signed committed batches every unsent row of every state is eligible for a pump |
| `AuditSafety.NoRowIsStrandedIff` | platform/audit/postgres_buffer.go:107-347 | no state of a run has a parked row exactly when no action of it is a bare insert or commits a row of a re-sign batch unsigned |
| `AuditSafety.FailedResignParks` | platform/audit/forwarder.go:262-313 | a run from one SignedStore event to a parked row |
| `AuditSafety.UnsignedBatchParks` | platform/audit/postgres_buffer.go:258-289 | committing a re-sign batch in which nothing was signed parks its row |
| `AuditSafety.DepthOnlyGrowsByInsert` | platform/audit/postgres_buffer.go:376-383 | only an insert adds an unsent row |
| `AuditSafety.StepKeepsCap` | platform/audit/postgres_buffer.go:107-138 | depth plus writers past the check stays within hardCap + N - 1 |
| `AuditSafety.CapHolds` | platform/audit/postgres_buffer.go:107-138 | the unsent rows of every state number at most hardCap + N - 1 when depth queries succeed |
| `AuditCapWitness.CapIsReached` | platform/audit/postgres_buffer.go:107-138 | for every cap and N some run reaches exactly hardCap + N - 1 |
| `AuditForwarder.OthersRespectLocks` | platform/audit/postgres_buffer.go:174-196 | no step of another party changes a worker's transaction or the rows it locked |
| `AuditEffects.InsertEffect` | platform/audit/postgres_buffer.go:107-138 | nothing without a jti or under a known one; else one row with the JWS and signing error given, empty ones as NULL, unsent, unattempted |
| `AuditEffects.DepthCheck` | platform/audit/postgres_buffer.go:107-117 | an insert is refused exactly when the depth is known and has reached a positive cap |
| `AuditEffects.DequeueEffect` | platform/audit/postgres_buffer.go:174-196 | a dequeue locks the oldest rows of its class that nobody holds, as many as there are up to the batch size |
| `AuditEffects.ReleaseSentEffect` | platform/audit/postgres_buffer.go:227-256 | the commit stamps the whole batch sent, or counts an attempt on it with the error, column by column |
| `AuditEffects.ReleaseResignEffect` | platform/audit/postgres_buffer.go:258-289 | the commit writes the JWSes set, and clears the signing error of the whole batch or counts an attempt on it |
| `AuditEffects.StatementEffect` | platform/audit/postgres_buffer.go:333-347 | setting a JWS notes it for one row of the batch; a failing statement aborts |
| `AuditEffects.AbortedIsLost` | platform/audit/postgres_buffer.go:333-347 | whatever happens next, an aborted transaction stays as it is until it is lost, and never writes a row |
| `AuditEffects.SinkEffect` | platform/audit/forwarder.go:208-219 | the sink receives the events of the rows as they stand, all of them acknowledged, or some of them and none |
| `AuditForwarder.CommittedRows` | platform/audit/postgres_buffer.go:258-289 | a committed batch gives each row its JWS if it was signed and clears the signing error of all |
| `AuditForwarder.Forwarder.Safe` | platform/audit/forwarder.go:157-190 | a forwarder's buffer is the end of a system run, hence safe |
| `AuditForwarder.Forwarder.Interfere` | platform/audit/postgres_buffer.go:168-196 | whatever others do in between, the locked rows and the transaction are unchanged |
| `AuditForwarder.Forwarder.Dequeue` | platform/audit/postgres_buffer.go:174-196 | dequeuing locks the batch and changes no row |
| `AuditForwarder.Forwarder.Send` | platform/audit/forwarder.go:208-219 | an accepted send acknowledges exactly the batch's events |
| `AuditForwarder.Forwarder.Release` | platform/audit/postgres_buffer.go:227-256 | success marks the batch sent, failure counts an attempt with its error, a lost commit changes nothing |
| `AuditForwarder.Forwarder.DrainOnce` | platform/audit/forwarder.go:194-236 | a failed dequeue changes nothing; else each dequeued row ends as the sink and the release decide, an accepted batch was acknowledged as dequeued, the failure counter follows, and the sleep is 1 s, 5 s, 30 s, 5 min, 30 min, then 1 h |
| `AuditForwarder.Forwarder.TryRow` | platform/audit/postgres_buffer.go:333-347 | a failed statement aborts the transaction; after that no write takes effect |
| `AuditForwarder.Forwarder.ReleaseResigned` | platform/audit/postgres_buffer.go:258-289 | a commit writes the JWSes and clears the signing error of the whole batch |
| `AuditForwarder.Forwarder.ResignOnce` | platform/audit/forwarder.go:262-313 | a failed dequeue changes nothing; a committed pass leaves exactly the signed rows with a JWS and none with a signing error; otherwise no row changed, whatever others do between any two statements |
| `AuditProgress.OldestBatchExists` | platform/audit/postgres_buffer.go:179-188 | whatever rows are eligible, a dequeue has an oldest batch to select |
| `AuditProgress.PassIsThreeSteps` | platform/audit/forwarder.go:194-236 | dequeue, accepted send and committed release are three enabled steps, with this combined effect |
| `AuditProgress.PassDrains` | platform/audit/forwarder.go:194-236 | such a pass takes exactly min(batchSize, n) of the n unlocked forwardable rows away |
| `AuditProgress.PassesDrain` | platform/audit/forwarder.go:178-236 | k such passes of one worker in a row take k times batchSize rows away, until none is left |
| `AuditProgress.BufferDrains` | platform/audit/forwarder.go:178-236 | from any state an idle worker can make the passes that leave no unlocked forwardable row |
| `AuditProgress.StepBalance` | platform/audit/postgres_buffer.go:107-289 | whatever party acts, the forwardable rows, locked or not, change by exactly the batch of a committed accepted send and the rows an insert or a re-sign commit signs |
| `AuditProgress.RunBalance` | platform/audit/forwarder.go:178-313 | over every stretch of every run what was ready plus what was gained is what is ready plus what was released |
| `AuditProgress.DrainedIff` | platform/audit/forwarder.go:178-236 | nothing forwardable is left exactly when the releases add up to what was ready and gained |
| `AuditResign.RunKeepsPayloads` | platform/audit/postgres_buffer.go:118-138 | in every run of such inserts each row keeps the canonical payload of an event with its jti |
| `AuditResign.EveryRowResignsAsOriginal` | platform/audit/forwarder.go:273-283 | every row of every such run reads back exactly when its event nests no deeper than the decoder allows, and then a re-sign at any issuer and time signs the bytes of the original event |
| `AuditResign.UnparsableIffTooDeep` | platform/audit/forwarder.go:276-280 | the loop skips a row for an unreadable payload exactly when its event nests too deep |
| `CanonicalTree.StrRoundTrip` | platform/audit/canonical_json.go:196-206 | an escaped string reads back, whatever follows it |
| `CanonicalTree.EscapeCharIs` | platform/audit/canonical_json.go:196-206 | which characters are escaped, and how |
| `CanonicalTree.PrintIs` | platform/audit/canonical_json.go:144-190 | the text of every kind of document, with no white space |
| `CanonicalTree.PrintThenParse` | platform/audit/canonical_json.go:122-190 | a printed document followed by any delimiter parses back to its value and leaves the rest (sections 4 and 5 of RFC 8259) |
| `CanonicalTree.ParsePrint` | platform/audit/canonical_json.go:122-142 | every printed document parses to the value it denotes |
| `CanonicalTree.TrailingText` | platform/audit/canonical_json.go:122-142 | after a document only the four white-space characters may follow (section 2 of RFC 8259) |
| `CanonicalTree.UnicodeRead` | platform/audit/canonical_json.go:122-142 | a `\u` escape is read in either case of its digits |
| `CanonicalTree.OrderedDecodes` | platform/audit/canonical_json.go:144-190 | ordering every object's members by key loses nothing |
| `CanonicalTree.CanonicalIsInvertible` | platform/audit/canonical_json.go:144-190 | parsing the canonical form returns the tree |
| `CanonicalTree.CanonicalIsInjective` | platform/audit/canonical_json.go:144-190 | equal bytes mean equal trees |
| `CanonicalTree.RecanonicalizeIsIdentity` | platform/audit/canonical_json.go:122-142 | re-canonicalizing canonical bytes is the identity |
| `CanonicalTree.CanonicalizeDecoded` | platform/audit/canonical_json.go:144-190 | the buffer-writing recursion emits the canonical form whatever order the map yields its keys in |
| `CanonicalTree.WriteInOrder` | platform/audit/canonical_json.go:146-171 | the member loop writes the sorted members with commas between |
| `CanonicalTree.WriteItems` | platform/audit/canonical_json.go:172-186 | the item loop writes the items in order |
| `CanonicalEvent.UnmarshalMarshal` | platform/audit/canonical_json.go:57-113 | decoding a marshalled event gives its normal form, the issuer and iat |
| `CanonicalEvent.NormalIs` | platform/audit/canonical_json.go:214-258 | the normal form lower-cases the three ids and drops an empty risk attestation; every other field stays |
| `CanonicalFields.TextFields` | platform/audit/canonical_json.go:57-113 | in the payload, as JSON, each text field stands under its name: the jti twice, the issuer, three ids lower-cased; empty ones are left out |
| `CanonicalFields.OtherFieldsByName` | platform/audit/canonical_json.go:57-113 | likewise times and scores as numbers, the attestations as objects and lists with their own fields, the details as they are |
| `CanonicalFields.PayloadIsObject` | platform/audit/canonical_json.go:57-113 | the payload parses as one object with no other fields |
| `CanonicalFields.FieldOrder` | platform/audit/canonical_json.go:18-38 | the order in which the fields are written |
| `CanonicalFields.JtiIs` | platform/audit/canonical_json.go:263-273 | the jti is the string `details["jti"]`, else empty |
| `CanonicalFields.UnmarshalNeedsTypes` | platform/audit/canonical_json.go:214-258 | a field of the wrong type, or a number with a fraction or out of range, makes a payload unreadable |
| `CanonicalFields.PartsNeedTypes` | platform/audit/canonical_json.go:214-258 | so does one inside an attestation, a link or a signal |
| `CanonicalEvent.MarshalNormal` | platform/audit/canonical_json.go:57-113 | marshalling the normal form reproduces the bytes |
| `CanonicalEvent.MarshalIdentifies` | platform/audit/canonical_json.go:214-258 | equal payloads mean equal normal forms, issuers and iats |
| `CanonicalEvent.ResignSignsOriginalBytes` | platform/audit/forwarder.go:274-283 | re-parsing a stored payload and marshalling it anew gives the bytes of the original event, with the same jti |
| `CanonicalDepth.PrintWithin` | platform/audit/canonical_json.go:144-190 | the decoder's nesting scan accepts a printed document exactly when it nests no deeper than allowed |
| `CanonicalDepth.PayloadWithin` | platform/audit/canonical_json.go:57-113 | a payload passes it exactly when every details value leaves two levels free |
| `CanonicalDepth.DecodeEncode` | platform/audit/canonical_json.go:214-258 | an event encodes exactly when no details value exceeds 10,000 levels, and then decodes to its normal form exactly when none exceeds 9,998 |
| `CanonicalDepth.TooDeepToRead` | platform/audit/canonical_json.go:122-142 | a value of 9,999 or 10,000 levels is encoded and does not decode |
| `CompanyForest.ClosureGrows` | platform/devstore/memory_store.go:454-485 | appending a new company's rows to a closure table gives the closure table of the new forest |
| `CompanyForest.ChildRowsAreRow` | platform/company/service.go:56-74 | the parent's rows shifted by a generation, plus the self row, are the new company's rows |
| `CompanyForest.SortedEntriesAreRow` | platform/devstore/memory_store.go:592-601 | any generation-sorted listing of a company's entries is its parent chain, nearest first |
| `CompanyForest.FillIsOverlay` | platform/company/service.go:128-168 | filling missing keys up the chain equals own settings overlaid on the parent's effective settings |
| `CompanyForest.EffectiveIsNearest` | platform/company/service.go:126-168 | a key has a value in the effective settings exactly when the nearest company up the chain that has the key has that value |
| `CompanyService.Backend.InsertHierarchy` | platform/devstore/memory_store.go:603-612 | appends unless the very entry is there |
| `CompanyService.Backend.InsertHierarchyEntries` | platform/devstore/memory_store.go:537-544 | each entry in turn is appended unless it is there |
| `CompanyService.Backend.GetAncestorEntries` | platform/devstore/memory_store.go:592-601 | the entries of a descendant, sorted by generations |
| `CompanyService.Backend.StoreCompany` | platform/devstore/memory_store.go:454-485 | the table stays the closure and grows by exactly the new company's chain |
| `CompanyService.Backend.SignUpCompany` | platform/devstore/memory_store.go:229-252 | a new root with default settings; the table stays the closure |
| `CompanyService.Backend.UpdateCompany` | platform/devstore/memory_store.go:498-523 | empty fields keep the old value, the parent never moves, the table stays the closure |
| `CompanyService.Backend.BuildEntries` | platform/company/service.go:56-74 | the entries the service computes are the self row and the parent's chain shifted |
| `CompanyService.Backend.CreateCompany` | platform/company/service.go:25-81 | in one piece: although service and store both insert, the table grows by the chain once; defaults and a generated slug; refused, changing nothing, exactly for a name of white space only (`CompanyRuns` has other calls in between) |
| `CompanyService.GenerateSlug` | platform/company/service.go:184-198 | trimmed, lower-cased, spaces to dashes, other characters dropped, "company" if nothing is left, then the time |
| `CompanyService.SlugBodyNext` | platform/company/service.go:184-193 | character by character: a lower-case letter, a digit or a dash stays, a space becomes a dash, the rest goes |
| `CompanyService.SlugBodyIsClean` | platform/company/service.go:184-193 | the generated part is always in the slug alphabet |
| `CompanyService.Backend.InsertClosure` | platform/company/service.go:56-78 | the service's own inserts leave the table as the store made it |
| `CompanyService.AlreadyThere` | platform/company/service.go:56-78 | every entry the service inserts is already in the table |
| `CompanyRuns.StoreKeepsClosure` | platform/devstore/memory_store.go:454-485 | the store's create, entry by entry, turns a closure table into that of the grown forest |
| `CompanyRuns.StepKeepsInv` | platform/company/service.go:25-81 | creations in three critical sections, sign-ups and updates keep the table the closure and every entry a call has built in it |
| `CompanyRuns.EveryRunIsClosure` | platform/company/service.go:25-81 | so in every interleaving of them, and the service's own inserts never change the table |
| `CompanyRuns.CreateAlone` | platform/company/service.go:25-81 | from any reachable state the three sections of a creation can run in a row, and then the table has grown by exactly the parent chain |
| `CompanyRuns.OtherSteps` | platform/devstore/memory_store.go:229-252 | when a sign-up and an update can run, and the whole of what they change |
| `CompanyService.Backend.GetAncestors` | platform/company/service.go:100-119 | exactly the proper ancestors, nearest first |
| `CompanyService.Backend.GetDescendants` | platform/devstore/memory_store.go:552-564 | exactly the entries of every company whose g-fold parent this is |
| `CompanyService.Backend.IsDescendantOf` | platform/company/service.go:171-182 | exactly reflexive reachability along parent links |
| `CompanyService.Backend.GetEffectiveSettings` | platform/company/service.go:128-168 | the recursive overlay, and the outcomes for unknown companies, undecodable and null documents |
| `CompanyService.NullSettingsCrash` | platform/company/service.go:135-161 | a child with a null document under a parent with any key ends in the panic |
| `CompanyService.FillMissing` | platform/company/service.go:148-161 | merging one ancestor's keys never overrides, in any iteration order |
| `HandoffSubject.EscapeRoundTrip` | platform/auth/handoff.go:125-138 | every byte string survives query escaping, which leaves no separator (section 2.1 of RFC 3986) |
| `HandoffSubject.EscapeText` | platform/auth/handoff.go:125-129 | letters, digits and "-_.~" stay, a space becomes "+", any other byte a percent triplet in upper case |
| `HandoffSubject.UnescapeTriplet` | platform/auth/handoff.go:272-278 | a triplet is read in either case of its digits |
| `HandoffSubject.UnescapeRefuses` | platform/auth/handoff.go:272-278 | a triplet that is cut short or has another digit is refused |
| `HandoffSubject.SubjectRoundTrip` | platform/auth/handoff.go:266-279 | the subject parses back for every non-empty separator-free jti and every audience |
| `HandoffSubject.SubjectText` | platform/auth/handoff.go:121-129 | the subject is "edenhandoff.v1", the jti and the escaped audience with bars between |
| `HandoffSubject.ParsesIff` | platform/auth/handoff.go:266-279 | a subject parses to a jti and an audience exactly when it is that tag, the jti, non-empty and bar-free, and a bar-free escape of the audience |
| `HandoffSubject.ParsedShape` | platform/auth/handoff.go:266-279 | what parses is the tag, a jti and an escaped audience |
| `HandoffSubject.StateNeverParses` | platform/auth/sso.go:156-203 | no SSO state subject, in either form, parses as a handoff |
| `HandoffStore.InMemoryHandoffStore.SweepLocked` | platform/auth/handoff.go:247-260 | deletes exactly the entries and marks that have expired |
| `HandoffStore.InMemoryHandoffStore.PutEntry` | platform/auth/handoff.go:210-220 | sweeps, refuses when full, else stores the pair with its expiry |
| `HandoffStore.InMemoryHandoffStore.LoadEntry` | platform/auth/handoff.go:222-233 | returns an unexpired pair and deletes nothing |
| `HandoffStore.InMemoryHandoffStore.MarkRedeemed` | platform/auth/handoff.go:235-245 | sweeps, refuses while a live mark exists, else marks |
| `HandoffRuns.StepKeepsInv` | platform/auth/handoff.go:103-260 | mints, redemptions and loads, with readings that never decrease, keep: entries are what was minted, a claimed jti stays marked for one TTL, two claims on a jti are a TTL apart |
| `HandoffRuns.ReturnsAreDue` | platform/auth/handoff.go:148-179 | in every run what is returned is the minted pair, to its audience, and the store stays within its cap |
| `HandoffRuns.TwoReturnsForce` | platform/auth/handoff.go:225-245 | a pair returned twice had the full TTL, was claimed at the reading of its put and again at that of its expiry |
| `HandoffRuns.SingleUseUnlessInstant` | platform/auth/handoff.go:148-179 | each pair is returned at most once in every run whose pairs have a shorter TTL or are claimed after their put |
| `HandoffRuns.SingleUse` | platform/auth/handoff.go:148-179 | under strictly increasing readings each pair is returned at most once, even after its mark was swept |
| `HandoffRuns.MintEffect` | platform/auth/handoff.go:109-138 | a mint is refused at ten thousand live entries, else stores the pair until ttl after the put and issues its code, which expires at a whole second by ttl after the signing |
| `HandoffRuns.RedeemEffect` | platform/auth/handoff.go:148-179 | a redemption claims, and marks for a minute, exactly when its code was issued, has not expired when validated, is a handoff bound to the non-empty audience that presents it, and no later mark stands; any other code changes nothing |
| `HandoffRuns.ExpiredCodeIsHarmless` | platform/auth/handoff.go:153-161 | a code that is expired or no handoff changes nothing |
| `HandoffRuns.OtherCodes` | platform/auth/handoff.go:153-161 | codes issued for other purposes are never accepted |
| `HandoffRuns.CollectEffect` | platform/auth/handoff.go:174-178 | a claim returns the minted pair exactly when its entry has not expired |
| `HandoffRuns.ClaimHasCode` | platform/auth/handoff.go:148-172 | over runs: every claim comes from a redemption whose code was good, so unexpired, when it was validated |
| `HandoffRuns.FirstRedemptionClaims` | platform/auth/handoff.go:148-179 | the first right-audience redemption of an unexpired code passes the gate |
| `HandoffRuns.WrongAudienceIsHarmless` | platform/auth/handoff.go:158-164 | a wrong-audience attempt changes nothing |
| `HandoffRuns.ClaimPaysOut` | platform/auth/handoff.go:174-178 | a claim collected by the entry's expiry returns the minted pair |
| `HandoffRuns.FirstRedemptionSucceeds` | platform/auth/handoff.go:148-179 | the first right-audience redemption before both expiries returns the pair, whatever ran before and between |
| `HandoffRuns.InstantClaimReturnsTwice` | platform/auth/handoff.go:109-179 | for every jti, audience, pair and time a run of mint, two redemptions past validation and two loads returns the pair twice |
| `Household.TheOwner` | platform/household/service.go:117-128 | a household in the invariant has one present owner, never a child, and a present manager |
| `Household.CountedIff` | internal/db/households.sql.go:77-80 | who counts as manager and as owner of a household: its members with the flag whose status is not removed |
| `Household.CreateKeepsGood` | platform/pgstore/household_store.go:68-124 | the founding transaction establishes the invariant for the new household |
| `Household.InsertKeepsGood` | platform/pgstore/household_store.go:165-191 | an insert the table accepts keeps the invariant |
| `Household.GuardedWriteKeepsGood` | platform/pgstore/household_store.go:223-239 | a write that passes the re-check, with a manager count no larger than the present one, keeps the invariant |
| `Household.GuardIsExact` | platform/pgstore/household_store.go:223-239 | the re-check passes exactly when the write keeps the invariant |
| `Household.TransferRow` | internal/db/households.sql.go:64-75 | a transfer changes only owner flags: cleared on the rows found, set on the target |
| `Household.TransferKeepsGood` | platform/pgstore/household_store.go:391-428 | demote-then-promote keeps the invariant and leaves the target as the one owner |
| `HouseholdService.Service.CreateHouseholdWithOwner` | platform/household/service.go:135-174 | succeeds exactly for a non-child known role, founding a household with that active owner and manager, every column stated |
| `HouseholdService.Service.AddMember` | platform/household/service.go:214-242 | the exact condition of success and the error otherwise; the new row is the one asked for, active when no status is given; no other change |
| `HouseholdService.Service.Mutate` | platform/pgstore/household_store.go:245-328 | lock, read, re-check, write: what is written or which check fails |
| `HouseholdService.Service.UpdateMemberRole` | platform/household/service.go:252-293 | succeeds exactly when ownership neither leaves nor arrives, a manager remains and the role is allowed; nothing else changes |
| `HouseholdService.Service.RemoveMember` | platform/household/service.go:325-350 | succeeds exactly for a present non-owner who is not the last manager; the errors' conditions |
| `HouseholdService.Service.SetAccountOwner` | platform/household/service.go:298-320 | succeeds exactly for a present non-child member of the household, who becomes the one owner |
| `HouseholdService.TransferSucceeds` | internal/db/households.sql.go:442-455 | after the demotion the promotion never collides with the one-owner index |
| `HouseholdTransactions.StepKeepsInv` | platform/pgstore/household_store.go:223-328 | each step of interleaved transactions keeps the invariant, the locks exclusive, and what every open transaction has read true |
| `HouseholdTransactions.EveryRunIsSafe` | internal/db/households.sql.go:406-418 | that holds in every state of every interleaving |
| `HouseholdTransactions.NoRevival` | internal/db/households.sql.go:420-429 | no member leaves the table, changes household, identity or birthdate, or comes back from removed |
| `HouseholdTransactions.CommittedStates` | platform/household/service.go:135-350 | every committed state has one present owner, never a child, a present manager, and no child with a capability or without a birthdate |
| `HouseholdStatus.NewRowEffect` | platform/household/service.go:135-242 | the founder's and an added member's row, column by column |
| `HouseholdStatus.CommitEffect` | platform/pgstore/household_store.go:245-328 | a guarded commit writes exactly what was asked for, on one row |
| `HouseholdStatus.TransferEffect` | platform/pgstore/household_store.go:391-428 | a transfer commit moves the owner flag within one household and touches nothing else |
| `HouseholdStatus.EveryStatusIsReal` | platform/household/service.go:214-242 | over runs: every committed row is pending, active or removed |
| `HouseholdStatus.StatusMovesOnlyByRemoval` | internal/db/households.sql.go:420-429 | over runs: a status changes only to removed, by a committed removal of that member |
| `HouseholdStatus.ActiveUntilRemoved` | platform/household/service.go:214-242 | over runs: a member added without a status is active until such a removal |
| `HouseholdAlone.ChangeAlone` | platform/household/service.go:252-293 | the steps of a role change, run in a row from any reachable state with the household unlocked, go through exactly under the conditions of `UpdateMemberRole`, with its effect |
| `HouseholdAlone.RemoveAlone` | platform/household/service.go:325-350 | likewise for a removal |
| `HouseholdAlone.TransferAlone` | platform/household/service.go:298-320 | likewise for a transfer of ownership |
| `HouseholdAlone.CreateIff` | platform/household/service.go:135-174 | a household can be founded exactly by an adult or a guardian |
| `HouseholdAlone.AddIff` | platform/household/service.go:214-242 | a member can be added exactly when household, identity, role, status, birthdate and owner flag allow it |
| `HouseholdRace.WithoutTheLock` | internal/db/households.sql.go:406-418 | the same protocol, with the lock taken whether or not it is held, has a run in which one manager leaves, another steps down and none is left |
| `SpecStore.StoreKeyIsInjective` | platform/experience/spec_store.go:64-69 | keys of NUL-free scopes are equal only for equal scope and app id, whatever the app id contains |
| `SpecStore.KeyText` | platform/experience/spec_store.go:64-69 | the key is tenant, org and app id with a zero byte between |
| `SpecStore.NulInTenantCollides` | platform/experience/spec_store.go:64-69 | with a NUL in a tenant keys of different scopes are equal |
| `SpecStore.NulInOrgCollides` | platform/experience/spec_store.go:64-69 | likewise with a NUL in an org |
| `SpecStore.MemorySpecStore.Put` | platform/experience/spec_store.go:46-51 | overwrites this scope's definition and no other scope's |
| `SpecStore.MemorySpecStore.Get` | platform/experience/spec_store.go:53-62 | the definition under exactly this scope and id |
| `ContentHash.FramesAreInjective` | platform/experience/content_hash.go:110-116 | equal framed concatenations come from equal lists of segments below 2^32 bytes |
| `ContentHash.HeaderSpells` | platform/experience/content_hash.go:110-116 | the header spells the length as four bytes, most significant first |
| `ContentHash.LongSegmentsCollide` | platform/experience/content_hash.go:110-116 | a segment whose length exceeds its padding by a multiple of 2^32 frames like two segments |
| `ContentHash.EveryLongLengthCollides` | platform/experience/content_hash.go:107-116 | every length from 2^32 bytes on has a segment that frames like another list |
| `ContentHash.SeparatesIff` | platform/experience/content_hash.go:107-116 | framing is injective on outputs of N bytes exactly when N is below 2^32 + 4 |
| `ContentHash.TuplePreimage` | platform/experience/content_hash.go:88-105 | the bytes are a function of the tuple, whatever order the granted map is iterated in |
| `ContentHash.TupleText` | platform/experience/content_hash.go:88-105 | the tuple's bytes frame its five axes, tagged and in order, then the granted surfaces in byte order |
| `ContentHash.SegmentsAreInjective` | platform/experience/content_hash.go:88-105 | the tagged segments determine role, entitlement, form factor, tenant, org and granted set |
| `ContentHash.ComputeHash` | platform/experience/content_hash.go:54-66 | hashes the framed spec bytes, with the hash field cleared, and tuple bytes |
| `ContentHash.PreimageIsInjective` | platform/experience/content_hash.go:54-116 | equal preimages force equal spec bytes and equal tuples |
| `ContentHash.CacheKeyNamesOneSpec` | platform/experience/content_hash.go:45-66 | without collisions a cache key names one tuple and one spec |
| `Resolution.Resolve` | platform/experience/resolve.go:66-126 | denied exactly on a missing spec or a diverging scope; else the stored spec with only surfaces, locks, provenance and hash replaced |
| `Resolution.ResolvedIsSound` | platform/experience/resolve.go:84-125 | kept and locked surfaces split the referenced list in order, nothing ungranted or unrequested is kept, and the stamped hash is a fixed point |
| `Resolution.ResolvedKeepsTheRest` | platform/experience/resolve.go:84-125 | every other field is the stored one, provenance is tenant, org, stamp and version tag or its default; the floor blocks the same binaries before and after |
| `Resolution.LockText` | platform/experience/resolve.go:40-41 | what a locked surface tells the user |
| `Resolution.HashIdentifiesResolution` | platform/experience/resolve.go:120-125 | two resolutions have one hash exactly when tuple and resolved spec are the same |
| `NavCoherence.ValidateNavGraph` | platform/experience/navgraph.go:78-144 | reports every violation of every rule, in order |
| `NavCoherence.CoherentIff` | platform/experience/navgraph.go:66-77 | reports nothing exactly when the four rules hold |
| `NavCoherence.ReportedIff` | platform/experience/navgraph.go:78-144 | each finding by itself: too many primary slots with their number, a landing or a named endpoint not placed, a placed surface not entitled; nothing else |
| `ExperienceHandler.Handler.HandleStore` | platform/experience/handler.go:85-114 | the store and response of the StoreSpec step, with the principal's scope stamped on |
| `ExperienceHandler.Handler.HandleResolve` | platform/experience/handler.go:122-155 | the response of the ResolveSpec step; nothing changes |
| `ExperienceHandler.Handler.HandleValidate` | platform/experience/handler.go:162-225 | the response of the ValidateSpec step, all findings accumulated |
| `ExperienceHandler.StoreEffect` | platform/experience/handler.go:85-114 | refusals in order, changing nothing; else only tenant and org of the spec are replaced, and the answer has the id, the content hash and the schema version of the body |
| `ExperienceHandler.ReadEffect` | platform/experience/handler.go:122-210 | resolving and validating change nothing, and what they answer without a principal or a spec |
| `ExperienceHandler.ValidationLists` | platform/experience/handler.go:162-210 | the findings are those of the graph, then one for the first ungranted surface under a blocking policy |
| `ExperienceHandler.FloorIsMet` | platform/experience/handler.go:198-204 | negotiating at the spec's own floor finds only an ungranted surface under a blocking policy |
| `ExperienceHandler.ValidIff` | platform/experience/handler.go:162-210 | valid exactly when the graph is coherent and no ungranted surface meets a blocking policy |
| `ExperienceHandler.LookupIsLastStored` | platform/experience/spec_store.go:46-62 | in every run the store answers a scope with the last definition that scope itself stored |
| `ExperienceHandler.AnsweredAsIfAlone` | platform/experience/handler.go:85-210 | a scope's responses in any run are those of the run of its own calls |
| `ExperienceHandler.NonInterference` | platform/experience/handler.go:85-210 | two runs that agree on a scope's calls and stamps answer it alike |
| `ExperienceHandler.NulFreeIsNeeded` | platform/experience/spec_store.go:64-69 | with a NUL in a tenant two scopes share a row |
| `ExperienceHandler.ResolveAnswersFromOwnSpec` | platform/experience/handler.go:122-155 | denied exactly when the scope stored no such app or its tuple diverges, in the same way; else its own last spec, filtered by its grants |
| `Versions.CompareVersions` | platform/experience/version_negotiation.go:133-162 | -1, 0 or 1 as the first differing component of the zero-padded versions says |
| `Versions.TotalPreorder` | platform/experience/version_negotiation.go:133-151 | the comparison is total, transitive, and equal both ways exactly on equal components |
| `Versions.ZeroPadding` | platform/experience/version_negotiation.go:122-126 | appending ".0" to any version changes nothing |
| `Versions.ComponentIs` | platform/experience/version_negotiation.go:153-162 | a component is its trimmed number, or 0 when absent or malformed |
| `Versions.MalformedIsZero` | platform/experience/version_negotiation.go:153-162 | a version with a malformed component compares like the same version with 0 there |
| `Versions.TrimThenSplit` | platform/experience/contract_version.go:184-191 | trimming the whole string first does not change its trimmed parts |
| `Negotiation.Negotiate` | platform/experience/version_negotiation.go:64-120 | blocked below the floor, stopped at the first unknown surface, or split by what the binary knows; `Negotiation.Deterministic` shows that this fixes the outcome |
| `Negotiation.BlockedIff` | platform/experience/version_negotiation.go:54-63 | blocked exactly below the floor or on an unknown surface under an intolerant policy; the scope is carried through |
| `Negotiation.ReasonIs` | platform/experience/version_negotiation.go:64-120 | the reason names the binary and the floor, or the first unknown surface and the policy |
| `Negotiation.PolicyDecides` | platform/experience/version_negotiation.go:92-119 | unknown surfaces are dropped under one policy and degraded under the other |
| `Negotiation.UnblockedSplits` | platform/experience/version_negotiation.go:92-119 | rendered and dropped or degraded surfaces merge, in order, to the referenced list |
| `Negotiation.Monotone` | platform/experience/version_negotiation.go:64-120 | a newer binary or larger manifest keeps an unblocked result unblocked and every rendered surface |
| `ContractChange.IndexByNumber` | platform/experience/contract_version.go:174-180 | the last field of each number |
| `ContractChange.ClassifyChange` | platform/experience/contract_version.go:108-136 | Breaking exactly when an old number is gone or its name or kind changed, else Minor exactly when a number is new, in any iteration order |
| `ContractChange.ClassIs` | platform/experience/contract_version.go:108-136 | the same of the class that the chain laws are about |
| `ContractChange.IndexIsLast` | platform/experience/contract_version.go:174-180 | a number is indexed exactly when listed, to its last field |
| `ContractChange.BumpIs` | platform/experience/contract_version.go:150-202 | a breaking change and a malformed version are refused, no change keeps the version |
| `ContractChange.MinorBumpIs` | platform/experience/contract_version.go:150-167 | the major number stays, the minor grows by one, the patch is 0 |
| `ContractChange.ChainClass` | platform/experience/contract_version.go:92-136 | over non-breaking chains the whole's class is the worst step's and every field survives |
| `ContractChange.BreakingCanBeUndone` | platform/experience/contract_version.go:108-136 | a removal put back is no change, so the bound needs non-breaking steps |
| `ContractChange.ParsedComponents` | platform/experience/contract_version.go:184-202 | comparison sees the components that parsing sees |
| `ContractChange.DottedParses` | platform/experience/contract_version.go:150-167 | the printed version parses back |
| `ContractChange.MinorBumpRanksHigher` | platform/experience/contract_version.go:150-167 | a Minor bump of a well-formed version ranks strictly higher exactly when the minor number does not overflow, else strictly lower |
| `ContractChange.OverflowExample` | platform/experience/contract_version.go:150-167 | bumping the largest minor number gives the smallest one, which ranks lower |
| `ContractChange.ReleasesMoveForward` | platform/experience/contract_version.go:108-167 | over a whole release history nothing breaks and the version moves up exactly when fields were added |
| `ConsentLedger.AppendKeepsWellFormed` | platform/consent/service.go:72-153 | a fresh grant, or a fresh revocation that copies a recorded grant, keeps the ledger well formed |
| `ConsentLedger.RevocationIsAppendable` | platform/consent/service.go:137-147 | a revocation built from a grant read earlier names that grant and copies its household, principal, purpose, scope and text version, however stale the read |
| `ConsentRuns.StepKeepsInv` | platform/consent/service.go:72-153 | each step of interleaved calls keeps the ledger well formed, what each call has read in it, and only appends |
| `ConsentRuns.EveryRunIsWellFormed` | platform/consent/service.go:72-153 | in every run of Grant and Revoke calls the ledger only grows, and each revocation points at an earlier grant with the same household, principal, purpose, scope and text version |
| `ConsentRuns.EveryRevocationCopies` | platform/consent/service.go:137-147 | each revocation of every run, field by field |
| `ConsentLedger.ReplayEndsAt` | platform/consent/service.go:155-163 | the replay as of a time ends with the verdict of the last entry that counts |
| `ConsentLedger.PastIsFixed` | platform/consent/service.go:155-163 | the replay as of a past time never changes as the ledger grows |
| `ConsentLedger.RenewalRewritesHistory` | platform/consent/service.go:180-184 | a renewed grant turns the answer about an earlier time from yes to no |
| `ConsentLedger.AgreesIff` | platform/consent/service.go:155-187 | query and replay agree exactly when the pair is settled by then or the last entry that counts is no grant |
| `ConsentLedger.ValidNeedsAnOutstandingGrant` | platform/consent/service.go:164-187 | a yes rests on a grant no revocation names |
| `ConsentLedger.RevocationAgreesIff` | platform/consent/service.go:115-153 | after a revocation the query says whether a grant is outstanding exactly when the grant it names was the only one outstanding |
| `ConsentLedger.AppendAgreesIff` | platform/consent/service.go:72-153 | for each entry appended, when the query means "some grant is outstanding" afterwards, pair by pair |
| `ConsentRuns.QueryMeansOutstandingIff` | platform/consent/service.go:115-187 | in every world of a run the query means that, exactly when each revocation of the run named the only outstanding grant |
| `ConsentRepeats.CheckPassesIff` | platform/consent/service.go:124-132 | the check passes exactly when the newest row of the pair is no revocation of the grant |
| `ConsentRepeats.NoRepeatIff` | platform/consent/service.go:106-153 | over runs: no grant is ever revoked twice in a row exactly when no insert comes after its grant was, by then, named last |
| `ConsentRepeats.PromptNeverRepeats` | platform/consent/service.go:106-153 | so never in a run in which each insert directly follows its own check, whatever else happens |
| `ConsentRepeats.RacingRevocationsRepeat` | platform/consent/service.go:124-149 | two calls that check before either inserts both record the revocation |
| `ConsentRepeats.GrantAlone` | platform/consent/service.go:72-104 | a grant is recorded exactly when it names a purpose; its row, field by field |
| `ConsentRepeats.RevokeAlone` | platform/consent/service.go:115-153 | the steps of a revocation run in a row go through exactly when its grant is not named last; the row, field by field |
| `ConsentRuns.RevokingTheOlderHidesTheNewer` | platform/consent/service.go:115-153 | a run of two grants and one revocation of the older, after which the query answers no |
| `ConsentLedger.SecondRevocationHidesNewGrant` | platform/consent/service.go:124-132 | revoking an old grant again makes the query answer no although a newer grant is outstanding |
| `ConsentLedger.Service.LatestForPurpose` | internal/db/consent_ledger.sql.go:88-93 | the newest row of the pair, if any |
| `ConsentLedger.Service.Grant` | platform/consent/service.go:72-104 | appends exactly the grant, every field stated; from then on the query answers yes |
| `ConsentLedger.Service.Revoke` | platform/consent/service.go:115-153 | appends the revocation built from the grant it names unless that grant is already the last revoked, or says why not; from then on the query answers no |
| `ConsentLedger.Service.IsValid` | platform/consent/service.go:164-187 | yes exactly when the replay says valid and nothing about the pair is later; the entry returned is the newest of the pair |
| `FeatureFlags.BestOverride` | platform/feature-flags/client.go:135-160 | the most specific matching override, the earliest on a tie; none exactly when nothing matches |
| `FeatureFlags.MatchesIff` | platform/feature-flags/flag.go:99-115 | an override applies exactly when every axis it pins is the call's |
| `FeatureFlags.SpecificityRanks` | platform/feature-flags/flag.go:117-134 | subject over household over tenant over environment, one axis over all those below it together |
| `FeatureFlags.TiesHaveTheSameAxes` | platform/feature-flags/flag.go:101-134 | two overrides matching one call with equal specificity pin the same axes |
| `FeatureFlags.OrderDoesNotMatter` | platform/feature-flags/client.go:135-160 | with distinct axes every permutation chooses the same override |
| `FeatureFlags.RivalsDependOnOrder` | platform/feature-flags/client.go:150-159 | overrides with the same axes do depend on order |
| `FeatureFlags.FirstMatchWinsIff` | platform/feature-flags/flag.go:66-68 | the first match is chosen exactly when no later match is strictly more specific; its value, also when the best has the same |
| `FeatureFlags.FirstMatchLoses` | platform/feature-flags/flag.go:66-68 | an environment-wide override declared first loses to the subject's own |
| `FeatureFlags.AnswersIgnoreOrder` | platform/feature-flags/client.go:95-160 | re-ordering overrides with distinct axes changes neither evaluation |
| `FeatureFlags.IsEnabled` | platform/feature-flags/client.go:95-111 | computes the reading that `BooleanFlagIsOnIff`, `PromiseKeptIff`, `EnabledMeansDefault` and `AnswersIgnoreOrder` are about, over the best override |
| `FeatureFlags.BooleanFlagIsOnIff` | platform/feature-flags/client.go:95-111 | a flag without variants is on exactly when enabled and either the best override is true, or nothing matches and the rollout is absent or admits the subject |
| `FeatureFlags.Variant` | platform/feature-flags/client.go:54-132 | computes the variant those lemmas are about, always an existing one with its value |
| `FeatureFlags.VariantIs` | platform/feature-flags/client.go:54-132 | the variant resolved, exactly: the existing one the best override names, else a non-empty existing default the rollout admits |
| `FeatureFlags.PromiseKeptIff` | platform/feature-flags/client.go:36-48 | for every variant flag, enabled means that a non-empty default resolves, except exactly under a condition on the best override, the rollout and the default |
| `FeatureFlags.PromiseBreaks` | platform/feature-flags/client.go:95-132 | five flags, one for each way of breaking it |
| `FeatureFlags.EnabledMeansDefault` | platform/feature-flags/client.go:36-48 | when default and matching override values are existing variants, enabled means the variant is the default, except exactly when an empty default fires |
| `FeatureFlags.EmptyDefaultDisagrees` | platform/feature-flags/client.go:95-132 | both exceptions of that special case occur; only the rollout breaks the documented promise |

## Left out

- AuditProgress.PassesDrain: passes of one worker with no other party acting; `RunBalance` and `DrainedIff` have others.
- AuditProgress.BufferDrains: likewise; that some worker keeps passing is scheduling, which is not modelled.
- Postgres itself: only the meaning of the quoted statements, row locks, constraints and transaction abort.
- Cryptography, JWT encoding, HTTP and Connect transport, OTLP export, metrics loops, goroutine scheduling and tickers.
- SignedStore over a plain inner store (the embedded-details fallback) and jti generation.
- `DequeueUnsignedForResigning` and `SetJWS` through the pool, which the re-sign loop does not use.
- Marshalling of arbitrary Go values into details: details are decoded JSON trees; numbers are kept as their text.
- Decoding of texts no encoder here writes: `\u` escapes of surrogate halves are rejected by the model's parser, field
  names are matched exactly and not case-insensitively, and number tokens are not checked for JSON's number grammar.
- Household deletion, the empty-household constructor, parent-of-record links, capability documents, household metadata,
  audit emission and statement failures other than constraint violations.
- Company timestamps, activity flags, deletion of hierarchy entries and listing.
- How a principal's scope is read from its claims, and protobuf fields no operation reads.
- Formatted messages of errors, problems and block reasons: they are constructors with their arguments.
- Flag lookup through a source (an error or an unknown key answers false or nothing) and the bucketing hash.
- Store failures in the consent service, consent listing and audit emission.
