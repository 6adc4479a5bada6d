# Verified model of the attestation SDK

The SDK takes evidence from NVIDIA GPUs and switches (signed SPDM measurement reports and
certificate chains), asks about the revocation status of every certificate, compares the
reported measurements with the golden values of reference integrity manifests, and turns the
outcome into signed claims and a verdict. This project models that logic in Dafny and proves
what it promises, for every input and every sequence of calls. `dafny verify dfyconfig.toml`
checks all of it.

OpenSSL, the JWT library, curl, the Rego engine, the clock, random bytes and the environment
are parameters: functions about which nothing is known beyond what a theorem states.

| file | what it models |
|---|---|
| `Calendar.dfy` | `gmtime_r` and `timegm` by era arithmetic, against a naive count of days |
| `StatusBundle.dfy` | the strict DER status-proof bundle (ITU-T X.690, sections 8.1.3 and 10.1), decoder against encoder |
| `RawProof.dfy` | the client that judges raw OCSP responses by signed age (RFC 6960, section 4.2.2.1) |
| `ChainStatus.dfy`, `StatusDeadline.dfy` | the fold of the answers over a chain, and the exact deadline of an offline chain |
| `Policy.dfy`, `PolicyJson.dfy` | the built-in overall-result policy, over typed claims and over the JSON it reads |
| `NvCache.dfy`, `CacheRuns.dfy`, `OcspCache.dfy` | the cache with its two linked lists, its behaviour over whole runs, the caching OCSP client |
| `Bytes.dfy`, `SpdmRecords.dfy`, `SpdmMessages.dfy`, `Report.dfy` | SPDM 1.1 parsing (DMTF DSP0274), from bytes to an authentic report |
| `Measurements.dfy` | golden values against runtime measurements |
| `LocalVerification.dfy` | the local verifiers as a whole, from report bytes, chains and manifests to claims, overall result and detached EAT |
| `Json.dfy`, `DetachedEat.dfy`, `EatValidation.dfy` | detached EAT (RFC 9711, section 5): issuing, validating and the way from one to the other |
| `Context.dfy` | `AttestationContext`: settings, components built on first use, attestation |
| `Witness.dfy` | a concrete switch with a wrong measurement, and its attestation |
| `HttpRetry.dfy` | the retry and backoff loop |
| `Common.dfy` | bytes, options, results and error codes |

Objects that the SDK updates in place are classes whose methods are proved to do what a function
on values says; what is promised over whole runs is proved about that function. A few properties
turn out to hold only under a condition, and the condition is exact:

- **Cache budget.** The byte counter and the sum it is compared with are 64-bit. The budget holds
  in every run when twice the maximum fits 64 bits (`BudgetHolds`) and is broken by two puts
  whenever it does not (`BudgetBroken`).
- **Earliest expiration.** In the claims of a chain zero stands for "no expiration yet", so the
  reported expiration is the earliest nextUpdate if and only if that is not zero or the last
  answer's is zero (`ExpirationIsEarliest`, `ExpirationLost`). Offline chains always report it
  (`OfflineExpiration`).
- **Revocation reason.** It is missing exactly when the revoked certificate is the first one
  asked about, the one next to the root (`RevokedWithoutReason`).
- **Nonces of a detached EAT.** A claim without a nonce is accepted in front of the first claim
  that has one and refused behind it (`NoncesAgree`); without any claim or any nonce the issued
  document cannot be validated (`IssuedOpens`).
- **HTTP options of a context.** Changing them drops nothing that was built with the old ones
  (`StaleHttpOptions`). A run stays current throughout if and only if no call changes them while
  something built is held (`RunCurrentIff`).
- **Overall result.** A local verifier looks at it only when a detached EAT is asked for
  (`VerifyEvidence`, `LocalAttestationMeans`), so a wrong measurement can come with a successful
  attestation (`MismatchGoesUnnoticed`).
- **Retry loop.** Status and body may come from different attempts (`BodyAndStatus`, `BodyLost`),
  and the first delay is not limited by the configured maximum (`MaximumHoldsIff`), against the
  description of that option in `nv-attestation-sdk-cpp/include/nv_attestation/nv_http.h:87-88`.
- **`gmtime_r`.** Against the comment above it, which names every year of a 64-bit `time_t`, it
  refuses times whose year does not fit `tm_year` (`GmTimeAccepts`); all others
  are inverted by `timegm`.

## Model

| member | source | states |
|---|---|---|
| `Calendar.GmTimeThenTimeGm` | nv-attestation-sdk-cpp/include/nv_attestation/windows_compat.h:86-139 | For every time `gmtime_r` accepts, before the epoch too, the fields are a valid civil date-time with the right weekday and day of the year, and `timegm` gives the time back |
| `Calendar.TimeGmThenGmTime` | nv-attestation-sdk-cpp/include/nv_attestation/windows_compat.h:86-139 | Every valid civil date-time whose year fits `tm_year` comes back unchanged from `timegm` and `gmtime_r` |
| `Calendar.GmTimeAccepts` | nv-attestation-sdk-cpp/include/nv_attestation/windows_compat.h:86-105 | `gmtime_r` refuses a time exactly when its civil year, counted from 1900, does not fit an `int` |
| `Calendar.CivilDateExact` | nv-attestation-sdk-cpp/include/nv_attestation/windows_compat.h:93-101 | The date the era arithmetic gives for a day number is valid, and counting the days of years and months up to it gives that number |
| `Calendar.YearOfEraExact` | nv-attestation-sdk-cpp/include/nv_attestation/windows_compat.h:95-97 | The year-of-era formula inverts the count of days before a year within all 146097 days of an era |
| `Calendar.TimeGmCounts` | nv-attestation-sdk-cpp/include/nv_attestation/windows_compat.h:125-139 | `timegm` equals a naive count: whole years, whole months, days, hours, minutes and seconds |
| `Calendar.TimeGmStrictlyIncreasing` | nv-attestation-sdk-cpp/include/nv_attestation/windows_compat.h:125-139 | A lexicographically earlier civil date-time has a smaller `timegm` |
| `Calendar.TimeGmFits` | nv-attestation-sdk-cpp/include/nv_attestation/windows_compat.h:125-139 | `timegm` of every valid date with an `int` year stays inside 64 bits |
| `Calendar.FourDigitYears` | nv-attestation-sdk-cpp/include/nv_attestation/nv_ocsp.h:181-184 | 9999-12-31T23:59:59 and no other date up to then maps to `MAX_VERIFICATION_TIME`, and the tolerance and the signed age can be taken off and added for every year 0 to 9999 without leaving 64 bits |
| `StatusBundle.ReadDerLength` | nv-attestation-sdk-cpp/src/nv_ocsp.cpp:410-433 | Accepts exactly the minimal DER lengths below 65536 at the offset, and moves past the octets of that length |
| `StatusBundle.ReadDerTlv` | nv-attestation-sdk-cpp/src/nv_ocsp.cpp:435-450 | Accepts exactly when one whole element with the tag and a minimal length lies before the limit, and returns its contents |
| `StatusBundle.ReadHeaders` | nv-attestation-sdk-cpp/src/nv_ocsp.cpp:458-482 | The outer sequence, the version and the list header frame the bundle to its last byte, or no list encodes to these bytes |
| `StatusBundle.DecodeList` | nv-attestation-sdk-cpp/src/nv_ocsp.cpp:483-504 | The list loop takes 1 to 2048 byte octet strings, 16 at most, to the end of the list; any list that encodes to the bundle is the one returned |
| `StatusBundle.DecodeBundle` | nv-attestation-sdk-cpp/src/nv_ocsp.cpp:452-505 | `decode_bundle` returns a list if and only if it has 1 to 16 items of 1 to 2048 bytes, the bundle has at most 16384 bytes and is exactly what the encoder makes of that list |
| `StatusBundle.BundleInjective` | sol/test-fixtures/capture_nvidia_status_proofs.py:46-59 | The encoder gives different bundles to different acceptable lists |
| `StatusBundle.WithinLimits` | nv-attestation-sdk-cpp/src/nv_ocsp.cpp:452-457 | Every list of 1 to 16 items of 1 to 2048 bytes is encoded by its bundle if that has at most 16384 bytes |
| `StatusBundle.LengthForms` | sol/test-fixtures/capture_nvidia_status_proofs.py:46-50 | One octet below 128, then 0x81 and one, then 0x82 and two |
| `StatusBundle.SmallestBundle` | sol/test-fixtures/capture_nvidia_status_proofs.py:53-59 | The bundle of one response of one byte, octet by octet |
| `StatusBundle.LengthUnique` | sol/test-fixtures/capture_nvidia_status_proofs.py:46-50 | No two lengths share an encoding at the same place |
| `RawProof.CountSingleResponses` | nv-attestation-sdk-cpp/src/nv_ocsp.cpp:172-189 | The loop counts the single responses for a CertID |
| `RawProof.GetOcspResponse` | nv-attestation-sdk-cpp/src/nv_ocsp.cpp:553-629 | The raw-proof client answers if and only if exactly one entry in all supplied responses covers the CertID, its signature is valid, its status and both times are readable, thisUpdate is before nextUpdate and at most 60 seconds ahead, and the time is before nextUpdate and within 86400 seconds of thisUpdate; status, reason, times and deadline are those of that entry |
| `RawProof.VerdictMeans` | nv-attestation-sdk-cpp/src/nv_ocsp.cpp:570-629 | The same of the verdict the deadline theorems speak of |
| `RawProof.SuccessCoversOnce` | nv-attestation-sdk-cpp/src/nv_ocsp.cpp:570-599 | Success means that exactly one entry of exactly one supplied response covers the CertID |
| `RawProof.VerdictPermuted` | nv-attestation-sdk-cpp/src/nv_ocsp.cpp:570-599 | Reordering the supplied responses never changes the answer |
| `RawProof.VerdictIgnoresOthers` | nv-attestation-sdk-cpp/src/nv_ocsp.cpp:570-599 | Adding or removing responses that do not cover the CertID never changes the answer |
| `RawProof.CoveragePermuted` | nv-attestation-sdk-cpp/src/nv_ocsp.cpp:570-583 | The coverage count does not depend on the order of the responses |
| `RawProof.CreateClient` | nv-attestation-sdk-cpp/src/nv_ocsp.cpp:507-538 | A client is made exactly from 1 to 16 responses of 1 to 2048 bytes that all parse, at a time from 1 to 253402300799, and holds them in order; otherwise the first failing check decides the error |
| `RawProof.CreateFromBundle` | nv-attestation-sdk-cpp/src/nv_ocsp.cpp:540-551 | From bytes that encode a list the client is the one for that list; from other bytes there is none |
| `ChainStatus.GenerateOcspClaims` | nv-attestation-sdk-cpp/src/nv_x509.cpp:516-650 | The loop asks about every certificate from the first (0 for RIM chains, 1 for device chains) up to the one below the root, with its issuer; it succeeds exactly when all answers are Ok and judged one way; the status is decided by the code, 1 revoked, 2 unknown, of the first answer from the root that is not 0; flags are conjunctions, deadline and thisUpdate minima, the count is that of the certificates |
| `ChainStatus.ClaimsSay` | nv-attestation-sdk-cpp/src/nv_x509.cpp:528-650 | The same of the outcome the policy theorems speak of |
| `ChainStatus.Absorb` | nv-attestation-sdk-cpp/src/nv_x509.cpp:556-637 | One round turns the summary of the answers so far into the summary with one more, or refuses a change of status mode or verification time |
| `ChainStatus.FirstNotGood` | nv-attestation-sdk-cpp/src/nv_x509.cpp:593-603 | The chain status is that of the first answer from the root that is not good |
| `ChainStatus.FirstFault` | nv-attestation-sdk-cpp/src/nv_x509.cpp:551-630 | There is no fault exactly when every answer is Ok and all are judged one way at one time |
| `ChainStatus.MixedModesFail` | nv-attestation-sdk-cpp/src/nv_x509.cpp:605-630 | Two answers of different status mode, or of different verification times, anywhere in a path make it fail |
| `ChainStatus.ExpirationIsEarliest` | nv-attestation-sdk-cpp/src/nv_x509.cpp:632-637 | The running expiration is the earliest nextUpdate if and only if that is not zero or the last answer's is zero, because zero also stands for not yet set |
| `ChainStatus.RevokedWithoutReason` | nv-attestation-sdk-cpp/src/nv_x509.cpp:593-603 | A revoked chain lacks its reason exactly when the certificate next to the root is the revoked one |
| `ChainStatus.ExpirationLost` | nv-attestation-sdk-cpp/src/nv_x509.cpp:632-637 | A first nextUpdate of zero is lost to any later one |
| `ChainStatus.VerifyPath` | nv-attestation-sdk-cpp/src/nv_x509.cpp:316-409 | Succeeds exactly when the presented chain is not empty and is the path the library builds, certificate by certificate, and returns it |
| `StatusDeadline.SucceedsWhenFresh` | nv-attestation-sdk-cpp/src/nv_x509.cpp:543-648 | A chain succeeds from raw proofs at a time exactly when each covered certificate has evidence that is fresh at that time |
| `StatusDeadline.AcceptanceWindow` | nv-attestation-sdk-cpp/src/nv_ocsp.cpp:570-629 | Once a chain is accepted, it is accepted at any other time if and only if that time is usable, no proof is from its future, and the deadline is not reached |
| `StatusDeadline.OfflineExpiration` | nv-attestation-sdk-cpp/src/nv_x509.cpp:632-637 | A chain accepted from raw proofs always reports the earliest nextUpdate of its proofs |
| `StatusDeadline.DeadlineExact` | nv-attestation-sdk-cpp/src/nv_ocsp.cpp:570-629 | From an accepted time on, the same run succeeds with the same claims, verification time aside, before `status_deadline`, and fails from the deadline on |
| `Policy.ChainAcceptedMeans` | nv-attestation-sdk-cpp/src/claims_evaluator.cpp:117-173 | A chain passes the built-in policy if and only if it is valid, some certificate was covered, all answers are good and valid, and all are fresh by nonce or all by signed age |
| `Policy.SerializeCarries` | nv-attestation-sdk-cpp/include/nv_attestation/claims.h:80-95 | Serialized claims carry the status in its own word, the flags and the signed-age fields each in its place |
| `Policy.OfflineChains` | nv-attestation-sdk-cpp/src/claims_evaluator.cpp:158-173 | A chain that succeeds through the raw-proof client never passes the nonce rule, passes the signed-age rule exactly when a certificate is covered, and is accepted exactly when valid and good |
| `Policy.OnlineChains` | nv-attestation-sdk-cpp/src/claims_evaluator.cpp:158-173 | A chain answered online can only pass the nonce rule, and does so exactly when every nonce came back |
| `Policy.NoCoverageNoResult` | nv-attestation-sdk-cpp/src/claims_evaluator.cpp:76-176 | A chain without a covered certificate, a skipped RIM chain included, keeps the overall result from holding |
| `Policy.ChainShelfLife` | nv-attestation-sdk-cpp/src/claims_evaluator.cpp:158-173 | An accepted offline chain is accepted again until its deadline and not at all after it |
| `Policy.DeviceShelfLife` | nv-attestation-sdk-cpp/src/claims_evaluator.cpp:100-111 | The claims of an accepted offline device can be made again, and are accepted again, exactly before the deadline of each of its chains |
| `Policy.OverallResultShelfLife` | nv-attestation-sdk-cpp/src/claims_evaluator.cpp:76-176 | A positive offline result over any number of GPUs and switches holds again exactly until the smallest deadline of all chains of all devices; from it on there are no claims |
| `NvCache.Put` | nv-attestation-sdk-cpp/src/nv_cache.cpp:36-74 | A put keeps map, both lists, node positions and byte counter consistent; an accepted one holds the value, a refused one changes nothing |
| `NvCache.Get` | nv-attestation-sdk-cpp/src/nv_cache.cpp:76-91 | A get changes no entry, moves exactly a live one to the front of the use list, and keeps the cache consistent |
| `NvCache.Remove` | nv-attestation-sdk-cpp/src/nv_cache.cpp:93-103 | A remove takes exactly the key out and keeps the cache consistent |
| `NvCache.EvictExpired` | nv-attestation-sdk-cpp/src/nv_cache.cpp:49-55 | The first eviction loop ends and keeps the cache consistent |
| `NvCache.EvictLru` | nv-attestation-sdk-cpp/src/nv_cache.cpp:57-60 | The second eviction loop ends, with room made or nothing left, and keeps the cache consistent |
| `NvCache.RemovedConsistent` | nv-attestation-sdk-cpp/src/nv_cache.cpp:105-111 | Erasing an entry by its node positions takes it out of both lists and takes its size off the total |
| `NvCache.InsertedConsistent` | nv-attestation-sdk-cpp/src/nv_cache.cpp:62-72 | A new entry is at the front of both lists and adds its size |
| `NvCache.ExpiredShrinks` | nv-attestation-sdk-cpp/src/nv_cache.cpp:49-55 | The first loop only takes entries away and leaves the others as they are |
| `NvCache.LruShrinks` | nv-attestation-sdk-cpp/src/nv_cache.cpp:57-60 | The second loop only takes entries away and leaves the others as they are |
| `CacheRuns.RunLists` | nv-attestation-sdk-cpp/src/nv_cache.cpp:36-119 | After every sequence of operations both lists hold each key of the map once, and stored node positions point at their own key |
| `CacheRuns.BudgetHolds` | nv-attestation-sdk-cpp/src/nv_cache.cpp:36-119 | If twice the maximum fits 64 bits, the byte counter is the sum of the entry sizes and never exceeds the maximum |
| `CacheRuns.BudgetBroken` | nv-attestation-sdk-cpp/src/nv_cache.cpp:36-74 | If it does not, two puts of maximal size leave the cache holding twice the maximum, because the sum wraps |
| `CacheRuns.RunOrdered` | nv-attestation-sdk-cpp/src/nv_cache.cpp:36-91 | Under a clock that does not go back, the insertion list stays sorted by expiry and the use list by last successful get or put |
| `CacheRuns.ExpiredAllGone` | nv-attestation-sdk-cpp/src/nv_cache.cpp:49-55 | If the first loop stops with the cache still too full, no entry left has expired |
| `CacheRuns.EvictionOrder` | nv-attestation-sdk-cpp/src/nv_cache.cpp:49-60 | The second loop discards entries only when none has expired, and always the least recently used ones |
| `CacheRuns.NextPutEvicts` | nv-attestation-sdk-cpp/src/nv_cache.cpp:36-91 | The same for the next put after any sequence of operations under a clock that does not go back |
| `CacheRuns.EntrySurvives` | nv-attestation-sdk-cpp/src/nv_cache.cpp:36-91 | As long as an entry is there and its key is not put again, it holds the value put and expires a time to live after the reading of that put, whatever the run in between |
| `CacheRuns.EntryStays` | nv-attestation-sdk-cpp/src/nv_cache.cpp:36-119 | It is there after any run of gets, operations on other keys and puts that find room |
| `CacheRuns.RoomKeepsAll` | nv-attestation-sdk-cpp/src/nv_cache.cpp:45-60 | A put whose sizes fit the budget gives up nothing but the entry it replaces |
| `CacheRuns.ExpiredOnly` | nv-attestation-sdk-cpp/src/nv_cache.cpp:49-55 | The first loop gives up only what had expired at one of its readings |
| `CacheRuns.EvictLruMinimal` | nv-attestation-sdk-cpp/src/nv_cache.cpp:57-60 | The second loop gives up no more than it must |
| `CacheRuns.Cache.constructor` | nv-attestation-sdk-cpp/src/nv_cache.cpp:28-34 | A new cache is empty |
| `CacheRuns.Cache.Put` | nv-attestation-sdk-cpp/src/nv_cache.cpp:36-74 | The object's put is the specified one, refused exactly for an item above the maximum; an accepted one holds the value until a time to live after the clock reading |
| `CacheRuns.Cache.Get` | nv-attestation-sdk-cpp/src/nv_cache.cpp:76-91 | Returns the value exactly when the key is there and its expiry is above the clock reading; no entry changes |
| `CacheRuns.Cache.Remove` | nv-attestation-sdk-cpp/src/nv_cache.cpp:93-103 | Exactly the key is gone |
| `CacheRuns.Cache.Clear` | nv-attestation-sdk-cpp/src/nv_cache.cpp:113-119 | Everything is gone |
| `CacheRuns.Cache.RemoveHelper` | nv-attestation-sdk-cpp/src/nv_cache.cpp:105-111 | Takes the entry out of map, lists and counter |
| `CacheRuns.Cache.EvictExpiredEntries` | nv-attestation-sdk-cpp/src/nv_cache.cpp:49-55 | The loop with its clock readings is the specified one |
| `CacheRuns.Cache.EvictLeastRecentlyUsed` | nv-attestation-sdk-cpp/src/nv_cache.cpp:57-60 | The loop is the specified one |
| `CacheRuns.Cache.AddEntry` | nv-attestation-sdk-cpp/src/nv_cache.cpp:62-72 | The insertion is the specified one |
| `OcspCache.CachingClient.GetOcspResponse` | nv-attestation-sdk-cpp/src/nv_ocsp.cpp:644-690 | The caching client serves, refreshes and stores as specified |
| `OcspCache.RunSound` | nv-attestation-sdk-cpp/src/nv_ocsp.cpp:644-690 | After any sequence of requests every cache entry is an answer the inner client gave for its key, stored at the time its expiry says |
| `OcspCache.AnswersAreGenuine` | nv-attestation-sdk-cpp/src/nv_ocsp.cpp:644-690 | Each Ok answer is one the inner client gave for the same CertID key, in this call or earlier, and then within the TTL and with nextUpdate not passed |
| `OcspCache.AskedOnlyWhenNeeded` | nv-attestation-sdk-cpp/src/nv_ocsp.cpp:657-689 | The wrapped client is asked once for each request with a key, unless an entry inside its TTL and nextUpdate is there, and then that answer is given |
| `OcspCache.SecondRequestServed` | nv-attestation-sdk-cpp/src/nv_ocsp.cpp:657-689 | A second request for what has just been fetched, in time, is answered without another call |
| `Bytes.ReadLittleEndian` | nv-attestation-sdk-cpp/include/nv_attestation/utils.h:313-328 | Reads a little-endian number exactly when it lies inside the buffer |
| `Bytes.LeRoundTrip` | nv-attestation-sdk-cpp/include/nv_attestation/utils.h:313-328 | Writing and reading a number of fitting width gives it back |
| `Bytes.LeBytes` | nv-attestation-sdk-cpp/include/nv_attestation/utils.h:313-328 | Reading and writing bytes gives them back |
| `Bytes.LeDigits` | nv-attestation-sdk-cpp/include/nv_attestation/utils.h:313-328 | The first byte is the lowest |
| `Bytes.ToHexString` | nv-attestation-sdk-cpp/include/nv_attestation/utils.h:199-206 | Two lower-case digits for each byte, in order |
| `Bytes.HexStringToBytes` | nv-attestation-sdk-cpp/include/nv_attestation/utils.h:183-191 | One byte for each pair of characters, the way `strtol` reads it |
| `Bytes.HexRoundTrip` | nv-attestation-sdk-cpp/include/nv_attestation/utils.h:183-206 | Reading back what `to_hex_string` writes gives the bytes again |
| `Bytes.HexAt` | nv-attestation-sdk-cpp/include/nv_attestation/utils.h:199-206 | Which two lower-case digits stand for each byte, and where |
| `Bytes.FromHexAt` | nv-attestation-sdk-cpp/include/nv_attestation/utils.h:183-191 | Each pair of digits is one byte, the higher digit first |
| `Bytes.DigitTable` | nv-attestation-sdk-cpp/include/nv_attestation/utils.h:183-191 | The digits, letters in either case |
| `SpdmRecords.ParseDmtf` | nv-attestation-sdk-cpp/src/spdm/spdm_measurement_records.cpp:32-54 | A DMTF value is taken exactly when its own length fits the measurement; bytes after it are allowed |
| `SpdmRecords.RecordParser.ParseBlock` | nv-attestation-sdk-cpp/src/spdm/spdm_measurement_records.cpp:83-133 | One block is taken off the front, or the map is left alone |
| `SpdmRecords.RecordParser.Parse` | nv-attestation-sdk-cpp/src/spdm/spdm_measurement_records.cpp:135-169 | A record is accepted if and only if its blocks tile it exactly, and the map is then that of the blocks |
| `SpdmRecords.TilingExact` | nv-attestation-sdk-cpp/src/spdm/spdm_measurement_records.cpp:83-169 | A record is tiled by at most one list of blocks, the one read from the front |
| `SpdmRecords.BlockMapHoldsLast` | nv-attestation-sdk-cpp/src/spdm/spdm_measurement_records.cpp:131 | An index maps to the last block that carries it |
| `SpdmRecords.DistinctIndicesKept` | nv-attestation-sdk-cpp/src/spdm/spdm_measurement_records.cpp:131 | With distinct indices the map holds every block and no other |
| `SpdmRecords.GetMeasurements` | nv-attestation-sdk-cpp/src/gpu/evidence.cpp:591-604 | The runtime map, in whatever order the blocks are visited |
| `SpdmRecords.RuntimeHoldsLast` | nv-attestation-sdk-cpp/src/gpu/evidence.cpp:591-604 | The runtime map sends i - 1 to the value of the last block with index i and has no other keys |
| `SpdmRecords.OpaqueParser.Parse` | nv-attestation-sdk-cpp/src/spdm/spdm_opaque_data_parser.cpp:69-116 | Accepts exactly the bytes that fields tile; the fields in front of the first bad one, or all, are appended either way |
| `SpdmRecords.LeadingExact` | nv-attestation-sdk-cpp/src/spdm/spdm_opaque_data_parser.cpp:69-116 | Those fields stand at the front of the bytes, and no whole field follows them |
| `SpdmRecords.OpaqueExact` | nv-attestation-sdk-cpp/src/spdm/spdm_opaque_data_parser.cpp:69-116 | Opaque data stands for at most one list of fields, and serializing it gives the bytes back |
| `SpdmMessages.RequestMessage.Parse` | nv-attestation-sdk-cpp/src/spdm/spdm_req.cpp:29-77 | Accepts exactly the 37 bytes of a GET_MEASUREMENTS request; its fields serialize to those bytes |
| `SpdmMessages.ResponseMessage.ParseHead` | nv-attestation-sdk-cpp/src/spdm/spdm_resp.cpp:67-140 | Version, code, parameters and a measurement record that its blocks tile |
| `SpdmMessages.ResponseMessage.ParseTail` | nv-attestation-sdk-cpp/src/spdm/spdm_resp.cpp:142-188 | Nonce, non-empty opaque data and a signature that ends with the last byte |
| `SpdmMessages.ResponseMessage.Parse` | nv-attestation-sdk-cpp/src/spdm/spdm_resp.cpp:64-189 | Accepts exactly the bytes of a valid response; its fields serialize to those bytes, its opaque fields standing behind those of earlier calls |
| `SpdmMessages.ResponseSlices` | nv-attestation-sdk-cpp/src/spdm/spdm_resp.cpp:64-189 | Where each field of a response lies in its bytes |
| `SpdmMessages.SlicesJoin` | nv-attestation-sdk-cpp/src/spdm/spdm_resp.cpp:64-189 | The slices leave no gap and do not overlap: together they are the response |
| `Report.AttestationReport.Create` | nv-attestation-sdk-cpp/src/gpu/evidence.cpp:321-382 | A report is accepted if and only if it is a request, response fields and a signature without gap or overlap, that signature verifies over all bytes before it and the opaque field types are known; the object then holds those fields; a refusal carries the code of the first failing check |
| `Report.PartsMeet` | nv-attestation-sdk-cpp/src/gpu/evidence.cpp:337-365 | The parsed signature is the slice that is verified, and everything else parsed lies in the signed prefix |
| `Report.SameFields` | nv-attestation-sdk-cpp/src/gpu/evidence.cpp:337-365 | A report has one reading only |
| `Report.RequestInjective` | nv-attestation-sdk-cpp/src/spdm/spdm_req.cpp:29-77 | Different requests have different bytes |
| `Report.ResponseInjective` | nv-attestation-sdk-cpp/src/spdm/spdm_resp.cpp:64-189 | Different responses have different bytes |
| `Measurements.GetAllIndices` | nv-attestation-sdk-cpp/src/rim.cpp:636-642 | All golden indices in ascending order |
| `Measurements.FindConflict` | nv-attestation-sdk-cpp/src/gpu/verify.cpp:246-266 | A conflict is reported exactly when driver and VBIOS share an index |
| `Measurements.Compare` | nv-attestation-sdk-cpp/src/gpu/verify.cpp:300-371 | All match if and only if every golden index, 35 aside when NVDEC0 is disabled, has a runtime value equal to one of its alternatives; there is one record for each index that has not, ascending |
| `Measurements.GpuClaims.SetMeasurementClaims` | nv-attestation-sdk-cpp/src/gpu/verify.cpp:244-391 | Ok exactly with disjoint index sets and a known NVDEC0 status; success if and only if every golden index not exempt has a runtime value equal to one alternative; else the driver records followed by the VBIOS records |
| `Measurements.SwitchClaims.SetMeasurementClaims` | nv-attestation-sdk-cpp/src/switch/verify.cpp:170-234 | Success if and only if every golden index has a runtime value equal to one alternative; else one record for each that has not |
| `Measurements.RecordsDetermined` | nv-attestation-sdk-cpp/src/gpu/verify.cpp:300-371 | There is one correct list of records only, as long as the number of failing indices |
| `Measurements.RecordMeans` | nv-attestation-sdk-cpp/src/gpu/verify.cpp:309-334 | A record holds index and sizes as 32-bit numbers, the first golden value and the runtime value in hexadecimal, or NA and 0 without one |
| `Measurements.ExemptionIsOneIndex` | nv-attestation-sdk-cpp/src/gpu/verify.cpp:270-291 | Disabling NVDEC0 takes index 35 out of what can fail and nothing else |
| `PolicyJson.PolicyAgrees` | nv-attestation-sdk-cpp/src/claims_evaluator.cpp:76-176 | The policy as it reads JSON accepts a payload that shows a device's claims exactly when the typed policy accepts those claims, whatever else is in the payload |
| `PolicyJson.ChainAgrees` | nv-attestation-sdk-cpp/src/claims_evaluator.cpp:117-173 | The same for one serialized certificate chain |
| `PolicyJson.SignedAgeAgrees` | nv-attestation-sdk-cpp/src/claims_evaluator.cpp:165-173 | The same for the signed-age object |
| `LocalVerification.GenerateCertChainClaims` | nv-attestation-sdk-cpp/src/nv_x509.cpp:468-502 | Claims are made exactly when the expiry is known, the presented chain is the verified path and the OCSP loop succeeds; they say expired or valid and what the answers for the certificates say; they pass the policy if and only if the chain is trustworthy |
| `LocalVerification.ChainVerdict` | nv-attestation-sdk-cpp/src/claims_evaluator.cpp:117-173 | A chain's claims can be made and are accepted exactly when the chain is trustworthy |
| `LocalVerification.ChainOfSays` | nv-attestation-sdk-cpp/src/nv_x509.cpp:468-502 | What the claims of a chain say about its expiry and the answers for its certificates |
| `LocalVerification.TrustworthyMeans` | nv-attestation-sdk-cpp/src/claims_evaluator.cpp:117-173 | A chain is trustworthy exactly when it is the verified path, has not expired, and every certificate below the root, the leaf of a device chain aside, has a valid answer with code 0, all fresh in one way |
| `LocalVerification.MakeRimClaims` | nv-attestation-sdk-cpp/src/rim.cpp:254-285 | A manifest of the right version that passes what the policy asks for gets the claims of its own chain, or the defaults when that is not verified; they are acceptable only if it was verified and is trustworthy |
| `LocalVerification.MakeGpuClaims` | nv-attestation-sdk-cpp/src/gpu/verify.cpp:62-160 | Claims for a GPU are made exactly when its report is authentic and no step fails; report, driver RIM and VBIOS RIM chain stand each in its own place, and measres is success or fail as the golden values are met by the blocks of that report or not; they pass the policy if and only if the GPU is trustworthy |
| `LocalVerification.MakeGpuClaimsFrom` | nv-attestation-sdk-cpp/src/gpu/verify.cpp:66-160 | The same for a parsed report, the checks in their order |
| `LocalVerification.MeasureGpu` | nv-attestation-sdk-cpp/src/gpu/verify.cpp:142-157 | Both golden maps against the blocks of the report |
| `LocalVerification.MakeSwitchClaims` | nv-attestation-sdk-cpp/src/switch/verify.cpp:55-116 | Claims for a switch are made exactly when its report is authentic and no step fails; both chains stand in their places, and measres is success or fail as the golden values are met; they pass the policy if and only if the switch is trustworthy |
| `LocalVerification.MakeSwitchClaimsFrom` | nv-attestation-sdk-cpp/src/switch/verify.cpp:57-116 | The same for a parsed report |
| `LocalVerification.GpuTrustMeans` | nv-attestation-sdk-cpp/src/gpu/verify.cpp:62-160 | A trustworthy GPU has a signed report with the nonce asked for, manifests of its versions, trustworthy chains, and a block with one of the values asked for at every golden index not exempt |
| `LocalVerification.SwitchTrustMeans` | nv-attestation-sdk-cpp/src/switch/verify.cpp:55-116 | The same for a switch |
| `LocalVerification.MetMeans` | nv-attestation-sdk-cpp/src/gpu/verify.cpp:300-371 | Golden values are met by blocks exactly when none fails against the runtime measurements |
| `LocalVerification.IssuableIff` | nv-attestation-sdk-cpp/src/claims.cpp:132-193 | A detached EAT can be issued for the claims exactly when clock, random bytes and digests work and the nonces of the evidence agree |
| `LocalVerification.GenerateClaims` | nv-attestation-sdk-cpp/src/gpu/verify.cpp:62-161 | There is no error exactly when claims can be made for every device, each claim then holding its device's own type, nonce and claims; the overall result holds of them if and only if there is a device and every device is trustworthy; after an error the claims of the devices before it are there |
| `LocalVerification.ResultOfClaims` | nv-attestation-sdk-cpp/src/claims_evaluator.cpp:83-98 | The overall result of such claims is that all devices are trustworthy |
| `LocalVerification.TrustworthyIsMade` | nv-attestation-sdk-cpp/src/gpu/verify.cpp:62-161 | A trustworthy device gets claims |
| `LocalVerification.VerifyEvidence` | nv-attestation-sdk-cpp/src/gpu/verify.cpp:163-168 | Without a request for a detached EAT there is no error once claims are made; with one, the error is that of issuing it or, if it is issued, a false overall result exactly when not every device is trustworthy, and the document carries that result |
| `DetachedEat.IssueOne` | nv-attestation-sdk-cpp/src/claims.cpp:132-193 | One round of the loop: the first check that fails decides the error; otherwise label, signed token, digest, nonce and counters are those of the claim |
| `DetachedEat.GetDetachedEat` | nv-attestation-sdk-cpp/src/claims.cpp:100-241 | A document is issued exactly when nothing fails, with one token for each claim under its label, their digests, nonce and overall result in the signed overall token; otherwise the first fault is returned |
| `DetachedEat.LabelsDistinct` | nv-attestation-sdk-cpp/src/claims.cpp:144-146 | No two claims get the same label |
| `DetachedEat.LabelsContiguous` | nv-attestation-sdk-cpp/src/claims.cpp:144-146 | The labels of a type are numbered 0, 1, 2 and so on without a gap |
| `DetachedEat.LabelText` | nv-attestation-sdk-cpp/src/claims.cpp:144-146 | A label is the type, a dash and the number in decimal |
| `DetachedEat.OneTokenEach` | nv-attestation-sdk-cpp/src/claims.cpp:191-192 | There are as many labels as claims |
| `DetachedEat.NoncesAgree` | nv-attestation-sdk-cpp/src/claims.cpp:148-158 | The nonces are accepted if and only if every claim after one with a nonce repeats it; claims without one are let through only in front |
| `DetachedEat.OverallJsonRoundTrip` | nv-attestation-sdk-cpp/src/claims.cpp:250-337 | The overall claims survive their JSON form exactly when they hold a digest; without one they cannot be read back |
| `DetachedEat.EatJsonRoundTrip` | nv-attestation-sdk-cpp/src/claims.cpp:276-295 | The detached EAT survives its JSON form |
| `EatValidation.CheckDevices` | nv-attestation-sdk-cpp/src/verify.cpp:85-120 | The loop and the count after it succeed if and only if digests and tokens have the same labels and every digest is that of its valid token, in whatever order they are visited |
| `EatValidation.Validate` | nv-attestation-sdk-cpp/src/verify.cpp:62-123 | Accepts exactly the documents whose overall token is valid and has a nonce and whose device tokens are bound to it, and returns their payloads, the nonce bytes and the overall result |
| `EatValidation.SameLabels` | nv-attestation-sdk-cpp/src/verify.cpp:85-120 | An accepted document has identical key sets for digests, device tokens and output claims, and each digest is the hash of its token |
| `EatValidation.OverallTokenBinds` | nv-attestation-sdk-cpp/src/verify.cpp:85-120 | Without a digest collision, two accepted documents with the same overall token are the same document |
| `EatValidation.ResultOnPayloads` | nv-attestation-sdk-cpp/src/verify.cpp:82-84 | The overall result is the policy's verdict on the payloads |
| `EatValidation.TokenDecodes` | nv-attestation-sdk-cpp/src/nv_jwt.cpp:32-76 | A token made by the issuer decodes exactly with a key, a kid and the expected issuer |
| `EatValidation.DecodeMeans` | nv-attestation-sdk-cpp/src/nv_jwt.cpp:32-76 | A token is accepted exactly when it decodes, names a known key and the expected issuer, and verifies under that key |
| `EatValidation.OverallMembers` | nv-attestation-sdk-cpp/src/claims.cpp:110-131 | What the overall token says: subject, version, issuer, times, identifier, nonce and result |
| `EatValidation.SubmodMembers` | nv-attestation-sdk-cpp/src/claims.cpp:160-169 | What a device token says: issuer, times and an identifier of its own |
| `EatValidation.PayloadShows` | nv-attestation-sdk-cpp/src/claims.cpp:257-260 | and all members of the device's claims |
| `EatValidation.IssuedOpens` | nv-attestation-sdk-cpp/src/claims.cpp:100-241 | What `get_detached_eat` issues validates if and only if it has key, kid and expected issuer, at least one claim and a nonce; one payload for each claim under its label comes back, with the nonce and the overall result, which is the policy's verdict on those payloads |
| `EatValidation.NonceRestored` | nv-attestation-sdk-cpp/src/verify.cpp:75-81 | The bytes of a nonce the claims carry come back |
| `Context.RunUpToDate` | nv-attestation-sdk-cpp/src/attestation.cpp:41-250 | After any sequence of calls exactly one device kind is enabled, and every verifier, store and client the context built has the current settings, HTTP options aside |
| `Context.RunSettings` | nv-attestation-sdk-cpp/src/attestation.cpp:132-250 | After any run each URL, the service key, the EAT options, the verifier type and the HTTP options are the argument of the last call that sets them, or the initial value |
| `Context.RunOthers` | nv-attestation-sdk-cpp/src/attestation.cpp:132-250 | So are the evaluator, the evidence policy and the enabled device kind, where invalid codes are ignored |
| `Context.RunGiven` | nv-attestation-sdk-cpp/src/attestation.cpp:132-250 | Evidence sources, RIM store and OCSP client are those the caller gave last, as long as nothing later drops them; otherwise none or one the context made |
| `Context.LastOfMeans` | nv-attestation-sdk-cpp/src/attestation.cpp:132-250 | The last call of a kind is the one no later call of that kind follows |
| `Context.ApplyKeeps` | nv-attestation-sdk-cpp/src/attestation.cpp:41-250 | Each single call keeps that |
| `Context.InitComplete` | nv-attestation-sdk-cpp/src/attestation.cpp:41-130 | A successful initialization leaves store, client, evidence source and verifier of the enabled device in place |
| `Context.InitFailure` | nv-attestation-sdk-cpp/src/attestation.cpp:41-130 | Initialization fails only where building a missing component from the current settings fails |
| `Context.InitFrame` | nv-attestation-sdk-cpp/src/attestation.cpp:41-130 | Initialization changes no setting |
| `Context.InitOnce` | nv-attestation-sdk-cpp/src/attestation.cpp:41-130 | An initialized context is not built again |
| `Context.HttpOptionsCurrentIff` | nv-attestation-sdk-cpp/src/attestation.cpp:154-156 | Components with the current HTTP options keep having them after a call, unless the call changes the options while something built is held |
| `Context.RunCurrentIff` | nv-attestation-sdk-cpp/src/attestation.cpp:132-250 | In a run everything built has the current HTTP options throughout if and only if no call changes them while something built is held |
| `Context.CurrentByHeld` | nv-attestation-sdk-cpp/src/attestation.cpp:154-156 | At any moment everything built is current exactly when nothing is held that was built from other options |
| `Context.HeldSince` | nv-attestation-sdk-cpp/src/attestation.cpp:41-250 | Options of something held are those in force at some initialization of the run, and something built from them has been held ever since |
| `Context.StaleHttpOptions` | nv-attestation-sdk-cpp/src/attestation.cpp:154-156 | Attest, change the options, attest again: the verifier still has the old ones |
| `Context.ServiceKeyRefreshes` | nv-attestation-sdk-cpp/src/attestation.cpp:244-250 | Setting the service key drops everything built |
| `Context.SuppliedStep` | nv-attestation-sdk-cpp/src/attestation.cpp:132-250 | Which calls discard a verifier the caller has supplied |
| `Context.SuppliedKept` | nv-attestation-sdk-cpp/src/attestation.cpp:132-250 | A supplied verifier stays through any sequence of calls that does not discard it |
| `Context.LocalAttestationMeans` | nv-attestation-sdk-cpp/src/attestation.cpp:254-310 | With a local verifier there is no error exactly when claims could be made for all evidence, any evaluator agrees, and, only if a detached EAT is wanted, it could be issued and every device is trustworthy or there is an evaluator |
| `Context.OtherAttestationMeans` | nv-attestation-sdk-cpp/src/attestation.cpp:254-310 | With another verifier there is no error exactly when there is evidence, the answer is Ok or a false overall result with an evaluator set, and the evaluator agrees |
| `Context.EvaluatorDecides` | nv-attestation-sdk-cpp/src/attestation.cpp:285-309 | If the last evaluator set in a run does not accept the claims, the attestation after it does not succeed; a false overall result is then not reported |
| `Context.Ruled` | nv-attestation-sdk-cpp/src/attestation.cpp:285-309 | No error is left exactly when the answer is tolerated and an evaluator agrees; a false overall result is reported only without an evaluator |
| `Context.AttestationContext.constructor` | nv-attestation-sdk-cpp/include/nv_attestation/attestation.h:74-82 | Remote verification of GPUs, nothing built |
| `Context.AttestationContext.SetDeviceType` | nv-attestation-sdk-cpp/src/attestation.cpp:132-140 | Enables one kind; an invalid code changes nothing |
| `Context.AttestationContext.SetVerifierType` | nv-attestation-sdk-cpp/src/attestation.cpp:142-150 | Drops the verifiers only on a change |
| `Context.AttestationContext.SetDefaultHttpOptions` | nv-attestation-sdk-cpp/src/attestation.cpp:154-156 | Drops nothing |
| `Context.AttestationContext.SetDefaultRimStoreUrl` | nv-attestation-sdk-cpp/src/attestation.cpp:158-163 | Drops store and verifiers |
| `Context.AttestationContext.SetDefaultOcspUrl` | nv-attestation-sdk-cpp/src/attestation.cpp:165-170 | Drops client and verifiers |
| `Context.AttestationContext.SetDefaultNrasUrl` | nv-attestation-sdk-cpp/src/attestation.cpp:172-176 | Drops the verifiers |
| `Context.AttestationContext.SetDefaultRimStore` | nv-attestation-sdk-cpp/src/attestation.cpp:178-182 | Takes the store and drops the verifiers |
| `Context.AttestationContext.SetDefaultOcspClient` | nv-attestation-sdk-cpp/src/attestation.cpp:184-188 | Takes the client and drops the verifiers |
| `Context.AttestationContext.SetEvidencePolicy` | nv-attestation-sdk-cpp/src/attestation.cpp:190-194 | Takes the policy and drops the verifiers |
| `Context.AttestationContext.SetClaimsEvaluator` | nv-attestation-sdk-cpp/src/attestation.cpp:196-198 | Stores the evaluator, nothing else changes |
| `Context.AttestationContext.SetEvidenceSource` | nv-attestation-sdk-cpp/src/attestation.cpp:200-206 | Takes the source of one device kind |
| `Context.AttestationContext.SetEvidenceSourceJsonFile` | nv-attestation-sdk-cpp/src/attestation.cpp:208-228 | Takes the file as source, or returns the error and changes nothing |
| `Context.AttestationContext.SetDeviceVerifier` | nv-attestation-sdk-cpp/src/attestation.cpp:230-236 | Takes the verifier of one device kind |
| `Context.AttestationContext.SetDetachedEatOptions` | nv-attestation-sdk-cpp/src/attestation.cpp:238-242 | Takes the options and drops the verifiers |
| `Context.AttestationContext.SetServiceKey` | nv-attestation-sdk-cpp/src/attestation.cpp:244-250 | Takes the key and drops everything built |
| `Context.AttestationContext.EnsureInitialized` | nv-attestation-sdk-cpp/src/attestation.cpp:41-130 | Initialization as specified; the context stays up to date even when it fails half way |
| `Context.AttestationContext.AttestDevice` | nv-attestation-sdk-cpp/src/attestation.cpp:254-310 | Initialization, then the conclusion from the enabled device and its verifier; with a local verifier there is no error exactly under the conditions of LocalAttestationMeans, for whatever evidence there is |
| `Context.AttestationContext.Attest` | nv-attestation-sdk-cpp/src/attestation.cpp:264-309 | The error and the claims follow from the nonce, the answer of the enabled device's verifier and the evaluator |
| `Witness.MismatchGoesUnnoticed` | nv-attestation-sdk-cpp/src/gpu/verify.cpp:163-167 | Attesting a switch whose one measurement is not the golden one, locally, without evaluator and without asking for a detached EAT, returns no error; its claims fail the policy |
| `Witness.TrustByValue` | nv-attestation-sdk-cpp/src/switch/verify.cpp:170-234 | That switch always gets claims, and is trustworthy exactly when the manifest asks for the value it has |
| `Witness.ReadingSpelledOut` | nv-attestation-sdk-cpp/src/spdm/spdm_resp.cpp:64-189 | The signed bytes of a report with one block, one by one |
| `HttpRetry.DoRequest` | nv-attestation-sdk-cpp/src/nv_http.cpp:186-331 | At most max_retry_count + 1 attempts; another one follows exactly a 408, 429, 500, 502, 503 or 504 or a failure to connect, to resolve or in time; Ok only with an HTTP response and no fatal error at the end; status of the latest response; every delay within its window |
| `HttpRetry.AttemptsDetermined` | nv-attestation-sdk-cpp/src/nv_http.cpp:286-329 | The outcomes determine the number of attempts |
| `HttpRetry.WindowExact` | nv-attestation-sdk-cpp/src/nv_http.cpp:281-295 | The k-th delay is bounded by base for k = 1 and by min(base * 2^(k-1), max) after that |
| `HttpRetry.MaximumHoldsIff` | nv-attestation-sdk-cpp/src/nv_http.cpp:281-295 | The maximum bounds every delay if and only if base does not exceed it, since the first delay is not capped |
| `HttpRetry.WindowFits` | nv-attestation-sdk-cpp/src/nv_http.cpp:293-294 | Doubling never exceeds twice the larger of base and maximum |
| `HttpRetry.TotalDelay` | nv-attestation-sdk-cpp/src/nv_http.cpp:285-296 | All delays of a request together are at most base plus maximum for each further retry |
| `HttpRetry.LatestAnswer` | nv-attestation-sdk-cpp/src/nv_http.cpp:300-322 | The latest attempt with an HTTP response, if any |
| `HttpRetry.BodyAndStatus` | nv-attestation-sdk-cpp/src/nv_http.cpp:285-331 | Status and body come from the same attempt exactly when the last attempt got a response |
| `HttpRetry.BodyLost` | nv-attestation-sdk-cpp/src/nv_http.cpp:286-331 | A 503 followed by a timeout is Ok with the status and without the body |
| `HttpRetry.MoreRetries` | nv-attestation-sdk-cpp/src/nv_http.cpp:285-331 | More retries turn Ok into an error only when the later end is a fatal transfer error |

## Left out

- OpenSSL, libxml2, xmlsec, jwt-cpp, curl and the Rego engine: abstract functions; the Rego text of the built-in policy is modelled as a predicate, over typed claims and over JSON.
- NVML, NSCQ and corelib clients, the C API, the Rust bindings, logging, packaging and the command line: foreign calls or thin wrappers with easy claims.
- The JSON and XML text formats: JSON is modelled as values and golden measurements as a finished map; the members of a device's claims that no policy reads are an arbitrary JSON object, which does not replace `iat`, `exp`, `jti` and `iss`.
- Mutexes: each public operation of the caches and the key store holds its lock throughout, so one operation is one step.
- Null pointers and failed allocations, among them a missing trust store or certificate.
- The key store's own refresh over HTTP: `EatValidation` takes a fixed answer for each kid during one call.
- `get_vbios_version`, RIM identifiers, the FWID list and GPU mode claims: string rearrangement and lookups settled by reading them; they enter as functions of the report.
- PolicyJson.PolicyAgrees: Rego's ordering of values of different types is not modelled; the members compared are numbers in all documents the SDK writes, and the expiration date and revocation reason of a chain are left out of its JSON.
- The error code for a false overall result is only ever reported by issuing a detached EAT and by remote verifiers, as in the source; the type of all other errors excludes it.
- The remote verifiers' handling of NRAS responses beyond validating the detached EAT.
- Time sums in the cache (`time(nullptr) + ttl_seconds`) and in the deadlines are unbounded integers; `FourDigitYears` shows that deadlines of years 0 to 9999 fit 64 bits.
- Measurements.Compare: requires at least one alternative for each golden measurement, because the source reads the first alternative without looking.
- Measurements.GpuClaims.SetMeasurementClaims: requires the same of both golden maps.
- Measurements.SwitchClaims.SetMeasurementClaims: requires the same of its golden map.
- LocalVerification.MakeGpuClaims: requires the same of its manifests, as do MakeGpuClaimsFrom, MakeSwitchClaims, MakeSwitchClaimsFrom, GenerateClaims, VerifyEvidence and the attesting methods of Context; what is read from opaque fields, the comparison of firmware ids and the manifests fetched are functions of the parsed report, not tied to the RIM store the verifier holds.
- Report.AttestationReport.Create: the certificate chain is parsed before, and its signature check and the known opaque field types are parameters; one model serves GPUs and switches, which differ in two error codes.
- SpdmRecords.RecordParser.Parse: requires a new parser, which is the only kind the source uses.
- SpdmMessages.RequestMessage.Parse: states acceptance and contents; the one error code is a Boolean.
- EatValidation.Validate: the output parameters of a failed call are not modelled; a malformed token, which throws in the source, is an error of its own.
- EatValidation.IssuedOpens: requires that the library decodes what it signs and that verification under the registered key succeeds for tokens signed with a key, at the time of validation.
- DetachedEat.GetDetachedEat: a failing policy engine and exceptions of the signing library are not modelled; the number of claims is unbounded where the source counts in an `int`.
- Context.AttestationContext.SetEvidenceSource: one method for the GPU and the switch setter, which differ in the field only; so are SetEvidenceSourceJsonFile and SetDeviceVerifier.
- Context.AttestationContext.EnsureInitialized: whether building a component fails is a parameter; environment variables behind empty URLs are part of it.
- HttpRetry.DoRequest: request headers, method and the curl options are not modelled; sleeping is recorded as a list of delays.
