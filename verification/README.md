# A verified model of the DNS forwarding proxy

The proxy answers DNS queries by forwarding them to upstream servers. It keeps a bounded cache of
responses, routes each query by its name to a group of upstreams, orders the group, fails over along it,
keeps one shared client per encrypted upstream, and speaks DNSCrypt v2 on both sides. This project models
that behaviour in Dafny and proves what it promises, over every input, every interleaving of requests and
every run.

## Parts

| file | what it holds |
|---|---|
| `basics.dfy`, `text.dfy`, `dns.dfy` | machine-integer ranges, string operations, DNS messages and errors |
| `lru.dfy`, `cache.dfy`, `cache_store.dfy` | the recency-ordered bounded map, keys and TTL arithmetic, the cache object |
| `cache_history.dfy` | whole runs of the cache against an unbounded map of the latest puts |
| `cached_handler.dfy`, `interleaved_cache.dfy` | any number of requests in flight, as steps with the lock released in between |
| `wire.dfy`, `doq.dfy`, `service.dfy` | ID zeroing and restoring over DoH and DoQ, response validation, failover, and the whole stack |
| `latency.dfy`, `ordering.dfy`, `load_balance.dfy` | the moving average, round robin, latency ranking, and what one ranked query measures |
| `routing.dfy`, `upstreams.dfy`, `upstream_config.dfy`, `upstream_runs.dfy` | longest-suffix routing, tracked upstreams, the config object, and whole runs of its exchanges |
| `config_lines.dfy`, `config_parser.dfy` | a declarative reading of the upstream file, and the parser that meets it |
| `client_slot.dfy`, `shared_client.dfy` | the cached-client retry protocol as a state machine, and as an object that follows it |
| `padding.dfy`, `crypt_frames.dfy`, `crypt_exchange.dfy`, `crypt_bootstrap.dfy` | DNSCrypt padding, framing, the exchange with UDP truncation and TCP replay, certificate delivery |
| `certificates.dfy`, `certificate_protocol.dfy`, `certificate_cell.dfy` | parsing and choosing certificates, the shared certificate cell as a state machine, and as an object that follows it |
| `stamps.dfy`, `host_port.dfy` | DNS stamps, `host:port` and upstream addresses |
| `framing.dfy` | length-prefixed streams and the TCP server loop |
| `laws.dfy` | models of the laws assumed of the codec, base64, stamp text forms, address parsers and name printing, which show that each can be met |

## How the model is set up

- A protocol with concurrent requests is a state machine. `Execute` runs a schedule, which is any list of
  steps; a step that is not enabled is skipped. A theorem about `Execute(schedule)` is therefore about every
  reachable state, and `Happens(schedule, i, step)` says that step `i` was taken. The objects (`Cache`, `Slot`,
  `Cell`) carry a ghost log of the same steps, and the config object's exchange is one step of `UpstreamRuns.Run`.
- Clocks, randomness and the network are parameters: a time, a function of draws, a function that says what
  arrives. Times are nanoseconds; `Instant::elapsed` saturates at zero.
- The wire codec, base64, UTF-8, key agreement, the authenticated cipher, the signature scheme and the
  standard library's IP parsers are records of functions with a `Lawful` predicate: decoding undoes encoding,
  a message's question count is its QDCOUNT field (section 4.1.1 of RFC 1035), unsealing undoes sealing, which
  adds 16 bytes, both sides agree on a key, a signature has 64 bytes and verifies. Names equal up to ASCII case are printed
  alike up to it (`CaseBlind`). Every set of laws is shown
  to have a model.
- The `lru` crate is modelled by its documented behaviour: get and put promote, put at capacity drops the
  least recent. Name equality in cache keys ignores ASCII case and compares the trailing root.
- The moving average is exact: weights 3/10 and 7/10, rounded to nearest with halves up. What is said of
  whole runs of it is for samples below 2^52 microseconds.
- Response validation panics on a request without a question when the response has exactly one (`Checkable`
  says when not); an upstream's exchange is modelled in every other case.

## What the proofs found

- A served TTL counts down exactly when the entry lives less than 2^32 seconds (`ServedTtlNeverGrows`);
  all stored entries do exactly when the floor or the ceiling is below that (`StoredTtlFits`).
- Round robin steps by one exactly when the 64-bit cursor does not wrap or the group size divides 2^64
  (`LeadStepsByOne`).
- A stamp built for a provider name is read back exactly when the name has at most 127 bytes
  (`StampRoundTripIff`), although the source's documentation calls the printer the inverse of the parser.
- A host is read back from its printed `host:port` exactly when it is an IPv6 literal or has neither a colon
  nor a leading bracket (`HostPortRoundTripIff`).
- What is assumed of the DNS codec rules out that an encrypted DNSCrypt query is taken for the plain provider
  query exactly when bytes 4 and 5 of the client magic are zero (`NeverTakenIffZeros`); the configured magic
  meets that. For another magic it depends on more of the codec than its laws say.
- Of two overlapping certificate refreshes the slower one wins, even when it received the lower serial, and
  following exchanges use that certificate (`SlowRefreshRollsBack`).
- Routing works on text, so a dot inside a label counts as a label boundary: text and labels agree under every
  rule exactly for names without such a dot (`LabelsDecideIff`).
- A failure by itself does not take the failed client out of the slot: it stays exactly until somebody clears
  or fills the slot (`FailedClientStaysIff`). So the client of a failed retry may be handed to the next exchange
  (`FailedClientIsHandedOn`), while the clear after an unretried failure never drops an older client than the
  failed one (`ClearFinds`) but may drop a newer one that works (`ClearDropsNewer`).

## Model

| member | source | states |
|---|---|---|
| Lru.InsertFacts | src/cache.rs:119 | a put makes its key the most recent, keeps the order and values of the rest, never exceeds the size, and drops a key only when at least `size` keys are more recent |
| Lru.TouchFacts | src/cache.rs:93 | a lookup that finds a key makes it the most recent and changes nothing else |
| ResponseCache.KeysAgreeIff | src/cache.rs:145-157 | two requests share a cache key exactly when each has one question and they agree in type, class, name up to case, DO bit and CD bit |
| ResponseCache.StoredTtl | src/cache.rs:129-142 | the stored TTL is the least TTL of the non-OPT records raised to the floor and cut to the ceiling, which wins over the floor; there is none exactly when there is no such record |
| ResponseCache.StoredTtlFits | src/cache.rs:129-142 | every storable response is stored for less than 2^32 s if and only if the floor or the ceiling is below 2^32 s |
| ResponseCache.ServedTtlIsTimeLeft | src/cache.rs:95-101 | the served TTL r satisfies r <= time left < r + 1 second, for entries that live under 2^32 s |
| ResponseCache.ServedTtlNeverGrows | src/cache.rs:95-101 | over all pairs of hits the served TTL never grows, if and only if the entry lives under 2^32 s |
| ResponseCache.ServedTtlWithinRecords | src/cache.rs:101-142 | with no floor a hit never promises more than any stored record's own TTL |
| ResponseCache.ReplyIsCopy | src/cache.rs:102-107 | a hit equals the stored response except for the ID and the TTLs of non-OPT records, all of which carry the remaining time |
| ResponseCache.LookupDropsExpired | src/cache.rs:91-100 | a lookup removes the looked-up key exactly when it is not served, and no other key |
| CacheStore.RewriteTtls | src/cache.rs:104-106 | the in-place loop sets the TTL of every non-OPT record of a section and leaves OPT records alone |
| CacheStore.Cache.Get | src/cache.rs:91-108 | one lookup step of the run: the reply and the new contents are those of the step, an expired entry is dropped |
| CacheStore.Cache.Insert | src/cache.rs:110-120 | one put step of the run, with the response's own TTL, or no step when nothing is storable |
| CacheStore.Cache.constructor | src/cache.rs:59-65 | the cache starts as the empty run |
| CacheHistory.RunIsBounded | src/cache.rs:59-65 | over every run the cache never holds more than `size` entries, nor a key twice |
| CacheHistory.HeldIsLastPut | src/cache.rs:91-120 | every entry the cache holds is the latest put of its key |
| CacheHistory.CacheRefinesMap | src/cache.rs:58-120 | over every run a hit is what the unbounded map of latest puts answers, and a miss of what that map has happens only after at least `size` other keys were put or hit since the key was |
| CacheHistory.HitDistanceIsExact | src/cache.rs:91-120 | when no lookup met an expired entry, the cache answers what the map answers if and only if fewer than `size` other keys were put or hit since |
| CachedHandler.StampedCame | src/cache.rs:80-118 | an entry about to be put holds an answer the handler gave to that very request at an earlier step, the clock as the request then read it, and the answer's own TTL |
| CachedHandler.HeldCame | src/cache.rs:110-120 | in every reachable state each entry of the cache was put by some request at an earlier step, and nothing was put under its key since |
| CachedHandler.DoneCame | src/cache.rs:73-87 | every finished request was served by its own lookup or ended as the handler returned, error or answer, at a step of the schedule |
| CachedHandler.EveryAnswerIsPut | src/cache.rs:84-119 | in every interleaving, before the request of an answer with a record other than OPT in any of the three sections finishes, the clock is read and the answer is put under the request's key with that time |
| CachedHandler.RepliesAreJustified | src/cache.rs:69-120 | in every interleaving each successful reply is the handler's own answer to that request, or a copy, changed only in ID and non-OPT TTLs, of the entry last put for the same question; that entry holds an earlier answer of the handler, and the lookup happened strictly before the time its clock was read plus its TTL |
| InterleavedCache.ItemsAreRun | src/cache.rs:73-87 | in every interleaving the cache contents are those of its critical sections run in lock order |
| InterleavedCache.LookupsRefineMap | src/cache.rs:73-120 | in every interleaving a lookup answers as the unbounded map would, or misses only after `size` other keys were put or hit |
| InterleavedCache.AnswerServesLater | src/cache.rs:69-120 | in every interleaving, once the request of such an answer is finished, a lookup for the same question is served the answer put last for it, this one if none was put since, while its TTL has not run out since its clock reading, unless at least `size` other keys were put or hit meanwhile |
| CachedHandler.NeverStuck | src/cache.rs:73-87 | an unfinished request can take its next step in any state, and each brings it nearer to its end |
| Wire.ValidateResponse | src/client/wire.rs:77-103 | a response is accepted exactly when it has one question, of the request's type and of its name up to case and trailing root |
| Wire.DohExchange | src/client/wire.rs:15-60 | the server decodes the request with a zero ID from the parameter, and any encoded request from the body; the client gets the response under its own ID exactly when the response's ID is zero and its question matches |
| DoqWire.DoqExchange | src/client/doq.rs:81-130 | the server reads the request with a zero ID from the stream; a request is refused exactly when it does not encode to at most 65535 bytes; the client gets the response under its own ID exactly when that came with a zero ID and matches, and a non-zero ID is an error |
| Wire.UpstreamReply | src/client/doq.rs:120-130 | over DoH and DoQ a message is accepted exactly when it has a zero ID and answers the request's question, and then gets the request's ID; over the other four exactly when it answers the question, and is then unchanged |
| Wire.FirstOk | src/client/upstream_config.rs:242-248 | the index of the first success, before which all fail |
| Service.FailoverAnswers | src/client/upstream_config.rs:234-253 | failover succeeds exactly when some upstream does, with the answer of the first that does, which answers the question and carries the request's ID if that upstream is DoH or DoQ; otherwise it returns the last error, or that no upstream is configured |
| Service.RunIsStack | src/client/upstream_config.rs:227-253 | in every run of the config object's exchanges each result is such a failover, along an order of the group that the request's name is routed to by the rules of the start |
| Service.RepliesAnswerTheQuestion | src/main.rs:616-625 | through cache, routing and failover, in every interleaving, each successful reply has exactly one question with the request's type and name; it was produced by one upstream of the group that the request's own name is routed to, the first of its order not to fail, either for this request, then under the request's ID if that upstream is DoH or DoQ, or for one that asked the same, then as a fresh copy under the request's ID |
| Latency.Blend | src/client/upstream.rs:95-108 | the new average is the nearest integer to 3/10 sample + 7/10 past, lies between the two, and is never the untested marker |
| Latency.AverageIsWithin | src/client/upstream.rs:83-108 | after any samples the average lies between the smallest and the largest |
| Latency.AverageIsOfTimes | src/client/upstream.rs:95-108 | after one exchange the average is its time in microseconds, and after any it lies between the least and the greatest time |
| Latency.TestedIff | src/client/upstream.rs:112-117 | for samples below 2^52 us a tracker is untested exactly while it has no sample, and its average stays below 2^52 |
| Latency.BlendApproaches | src/client/upstream.rs:95-108 | under a constant sample the average never overshoots, and moves closer exactly while 2 or more away |
| Latency.Converges | src/client/upstream.rs:95-108 | under a constant sample it is within 1 after at most the initial distance in samples, and stays on its side |
| Latency.LatencyTracker.Record | src/client/upstream.rs:95-108 | the first recorded time becomes the average, a later one moves it to the nearest integer to 3/10 of itself and 7/10 of the past, and the average of the samples so far is extended |
| Ordering.LeadStepsByOne | src/client/upstream_config.rs:74 | the next query starts one position on if and only if the cursor does not wrap or the group size divides 2^64 |
| Ordering.Rotate | src/client/upstream_config.rs:75-79 | the rotation holds every upstream once and keeps the cyclic order |
| Ordering.RoundRobinIsFair | src/client/upstream_config.rs:69-80 | over any m consecutive queries every position leads floor or ceiling of m/n times, exactly m/n over full turns |
| Ordering.SortByAverage | src/client/upstream_config.rs:91 | a permutation by non-decreasing average that keeps equal averages in order |
| Ordering.Shuffle | src/client/upstream_config.rs:92 | a permutation, for every source of randomness |
| Ordering.LoadBalanced | src/client/upstream_config.rs:81-95 | a permutation of the group with untested upstreams first and tested ones by non-decreasing average, stably |
| LoadBalance.RoundMeasures | src/client/upstream.rs:149-156 | a query takes exactly the upstream that answered it out of the untested, whichever group it tried |
| LoadBalance.UntestedLeads | src/client/upstream_config.rs:43-48 | while one is untested, an untested upstream is tried first |
| LoadBalance.GroupRound | src/client/upstream_config.rs:81-95 | a query whose first attempt succeeds leaves one untested upstream fewer in its group, while there is one |
| Upstreams.TrackedUpstream.Exchange | src/client/upstream.rs:149-156 | an exchange is timed exactly when it succeeds |
| Upstreams.OrderGroup | src/client/upstream_config.rs:66-97 | each mode's order: configured, rotated by the cursor, or ranked by latency; only round robin moves the cursor |
| Routing.FindDomain | src/client/upstream_config.rs:203-221 | the longest configured domain that is a dot-aligned suffix of the lowercased name, and none exactly when there is none |
| Routing.RouteIsUnique | src/client/upstream_config.rs:203-221 | that promise determines the route, for every ASCII-case variant of the name |
| Routing.RuleCoversSubdomains | src/client/upstream_config.rs:1-8 | for names written out, a rule covers a name exactly when, both cut at every dot, the rule's pieces are the name's last; for labels without dots these are the labels |
| Routing.LabelsDecideIff | src/client/upstream_config.rs:203-221 | covering agrees with being the last labels under every rule of plain labels if and only if no label of the name has a dot inside |
| Config.TryInOrder | src/client/upstream_config.rs:242-252 | the first success, else the last error, else that there is no upstream; of all trackers only the first success is timed |
| Config.UpstreamConfig.UpstreamsFor | src/client/upstream_config.rs:198-201 | routes, orders the routed group as its mode promises, and moves no other group's cursor |
| Config.UpstreamConfig.Exchange | src/client/upstream_config.rs:234-253 | routes by the first question's name, or the empty name, to the longest matching rule, tries that group in the order its mode promises for the averages of the moment, returns the failover, moves that group's cursor alone and times the first success alone |
| UpstreamRuns.HandleAll | src/client/upstream_config.rs:227-253 | any sequence of calls of the config's handler is a run of such exchanges from the config's state before to its state after |
| UpstreamRuns.RotatesInTurn | src/client/upstream_config.rs:69-80 | over every round-robin run the k-th exchange routed to a group tries the group rotated to the k-th position from its cursor, wherever the other exchanges go |
| UpstreamRuns.GroupIsLedFairly | src/client/upstream_config.rs:38-40 | so over every run each member of a group of distinct upstreams is tried first in the floor or the ceiling of its share of the exchanges routed there |
| UpstreamRuns.TestedStaysTested | src/client/upstream.rs:95-117 | over every run in every mode an upstream once tested stays tested |
| UpstreamRuns.GroupIsMeasured | src/client/upstream_config.rs:81-95 | over every load-balanced run in which no attempt that is made fails, each exchange routed to a group tests one more of its upstreams until all are tested |
| UpstreamRuns.GroupIsFullyTested | src/client/upstream_config.rs:43-48 | so a group is fully tested once as many exchanges went to it as it has upstreams |
| UpstreamRuns.MeasuredOnce | src/client/upstream.rs:149-156 | over every run an upstream that was untested and answered exactly one exchange shows the microseconds that attempt took |
| UpstreamRuns.FasterIsTriedFirst | src/client/upstream_config.rs:81-95 | of two upstreams that each answered once, the one that took less time is tried first by the next load-balanced exchange with a group that has both |
| ConfigLines.RuleRoundTrip | src/client/upstream_config.rs:260-286 | a rule written out is split back into its addresses and lowercased, dotted domains |
| ConfigLines.PlainLine | src/client/upstream_config.rs:141-145 | a line that starts with neither `#` nor `[/` is, without the white space around it, one address and no domain |
| Text.TrimOf | src/client/upstream_config.rs:141 | trimming takes off exactly the white space at both ends |
| Text.SpaceTable | src/client/upstream_config.rs:141 | white space is 25 code points |
| Text.WordAtFront | src/client/upstream_config.rs:280-283 | words are what lies between runs of white space |
| Text.LowerAlphabet | src/client/upstream_config.rs:208 | lowercasing changes exactly the 26 ASCII capitals, each to its small letter |
| ConfigLines.RuleLine | src/client/upstream_config.rs:141-152 | a written rule inside any white space is read as that rule |
| ConfigLines.SkippedIff | src/client/upstream_config.rs:141-145 | skipped are exactly the lines of white space and those whose first other character is `#` |
| ConfigLines.BadIff | src/client/upstream_config.rs:260-286 | in error are exactly the lines that start with `[/` and are not closed, name no upstream, or have an empty domain: the domain part is empty, starts or ends with a slash, or has two in a row |
| ConfigLines.RuleNamesUpstreams | src/client/upstream_config.rs:141-152 | every line that splits names at least one upstream |
| ConfigLines.NoFileErrors | src/client/upstream_config.rs:140-185 | a file has no errors exactly when every line splits and every token builds |
| ConfigLines.ErrorsAreOrdered | src/client/upstream_config.rs:140-185 | errors carry their line number and come out in line order |
| ConfigLines.ErrorsAreOfLines | src/client/upstream_config.rs:146-168 | the errors of a file are exactly those of its bad lines and of the tokens that do not build, each with its line number |
| ConfigLines.ErrorsPerToken | src/client/upstream_config.rs:154-168 | a token that does not build is reported as often as it occurs |
| ConfigLines.CopiesCount | src/client/upstream_config.rs:173-178 | a rule that repeats a domain gives it every upstream as often |
| ConfigLines.NamedReceive | src/client/upstream_config.rs:170-179 | in a file without errors exactly the domains named by a rule have upstreams |
| ConfigParser.SplitLine | src/client/upstream_config.rs:260-286 | the loop over the domains splits a line as the declarative reading does |
| ConfigParser.Parse | src/client/upstream_config.rs:125-192 | succeeds exactly when every line splits and every token builds; the config is then valid, every group is the in-order concatenation of its rules' upstreams and no domain group is empty; otherwise it returns every error, one per bad line or bad token occurrence |
| ConfigParser.DistinctStringsDistinctUpstreams | src/client/upstream_config.rs:154-168 | two tokens share a tracked upstream, and a latency tracker, exactly when they are equal strings |
| ConfigParser.GroupsAreGiven | src/client/upstream_config.rs:170-179 | when no rule repeats a domain, every group is built from the addresses of the lines that name its domain, in order, and the default group from those of the lines that name none |
| ConfigParser.PlainFile | src/client/upstream_config.rs:125-192 | a file of plain addresses parses exactly when each builds, to a default group of them in order and no domain |
| ClientSlot.ExchangeBounds | src/client/doh.rs:112-170 | in every interleaving an exchange creates at most one client and sends at most twice, the second time only after a timeout or a QUIC error that mentions "0-RTT" or "retry" on a client from the slot, and on a client created after that failure, never the failed one |
| ClientSlot.FailureIsFollowedUp | src/client/doh.rs:118-132 | in every interleaving an exchange whose first send failed does not end before it went for a new client, in that case, and in every other has cleared the slot and ends with the error |
| ClientSlot.OutcomeCame | src/client/doh.rs:118-158 | in every interleaving an exchange ends as its first send when that succeeded, as its retry, with the error of its unretried first send, or with that of creating a client, a timeout when creating took too long |
| Dns.RetriedErrors | src/error.rs:44-51 | worth a retry are timeouts and QUIC errors whose text contains "0-RTT" or "retry", and nothing else |
| ClientSlot.SlotHoldsLatest | src/client/doh.rs:142-170 | a full slot always holds the client stored last, the youngest ever stored; no client is created by two exchanges |
| ClientSlot.ExchangeIsShort | src/client/doq.rs:58-74 | an exchange takes at most six steps, whatever the others do |
| ClientSlot.SomeoneCanMove | src/client/doq.rs:141-156 | while an exchange is unfinished, it or the lock's holder can move |
| ClientSlot.InSlotIff | src/client/doh.rs:142-170 | over every schedule a stored client is in the slot if and only if nobody has cleared or filled the slot since |
| ClientSlot.FailedClientStaysIff | src/client/doh.rs:118-132 | over every schedule, after a first send or a retry failed on a client, the slot holds that client if and only if nobody has cleared or filled it since that client was stored |
| ClientSlot.ClearFinds | src/client/doh.rs:167-170 | a clear never finds an older client than the one whose failure it follows, and finds that one if and only if nobody has cleared or filled the slot since it was stored |
| ClientSlot.FailedClientIsHandedOn | src/client/doh.rs:118-132 | a schedule in which the client of a failed retry stays in the slot and the next exchange is handed it |
| ClientSlot.ClearDropsNewer | src/client/doh.rs:118-132 | a schedule in which a late failure on an old client clears a newer one that works |
| SharedClient.Slot.GetClient | src/client/doh.rs:142-158 | the cached client, or a new one that fills the slot unless creating it fails or takes too long, and the steps taken |
| SharedClient.Slot.ResetClient | src/client/doh.rs:160-165 | replaces the slot's client by a new one, or leaves it when creating fails |
| SharedClient.Slot.ClearClient | src/client/doh.rs:167-170 | empties the slot |
| SharedClient.Slot.Exchange | src/client/doh.rs:118-132 | one exchange takes exactly the protocol's steps with the outcomes that creating and sending on the client in hand brought, and returns the outcome of the protocol's final state |
| SharedClient.Slot.Retry | src/client/doq.rs:63-67 | the second attempt uses the newly stored client, or fails with the creation error and leaves the slot; its steps are exactly those of the protocol |
| Padding.Pad | src/client/dnscrypt/crypto.rs:184-193 | the message, one 0x80 and zeros up to 64 times (length / 64 + 1) bytes |
| Padding.UnpadAcceptsPadded | src/client/dnscrypt/crypto.rs:197-202 | unpadding accepts exactly the strings m ++ 0x80 ++ zeros and returns that m |
| Padding.PaddingIsUnique | src/client/dnscrypt/crypto.rs:197-202 | a padded string has only one message |
| Padding.UnpadPad | src/client/dnscrypt/crypto.rs:184-202 | unpadding undoes padding on every message |
| Padding.StripPadding | src/client/dnscrypt/crypto.rs:197-202 | the search from the end computes the unpadding |
| CryptFrames.QueryRoundTrip | src/client/dnscrypt/crypto.rs:217-314 | the resolver reads from every encrypted query the client's message, public key and nonce |
| CryptFrames.ResponseRoundTrip | src/client/dnscrypt/crypto.rs:247-346 | the client reads from every encrypted response the resolver's message |
| CryptFrames.DecryptQueryIff | src/client/dnscrypt/crypto.rs:289-314 | yields a message, key and nonce exactly when the query has the magic, they are its bytes 8 to 40 and 40 to 52, and the rest unseals under the agreed key and the nonce followed by twelve zeros to the padded message |
| CryptFrames.DecryptResponseIff | src/client/dnscrypt/crypto.rs:247-281 | yields a message exactly when the response has the resolver magic, echoes the nonce, and the rest unseals under both nonces to the padded message |
| CryptFrames.ResponseSize | src/client/dnscrypt/crypto.rs:320-346 | an encrypted response to L bytes has 48 + 64 (L/64 + 1) bytes, fits a 512-byte datagram exactly when L <= 447 and a length prefix exactly when L <= 65471 |
| Certificates.ParseOne | src/client/dnscrypt/crypto.rs:74-117 | accepts exactly long enough bytes with magic, version 1 and a signature that verifies over bytes 72 to 124, which hold key, client magic, serial, start and end in this order |
| Basics.BigEndian | src/client/dnscrypt/crypto.rs:104-106 | numbers are written with the most significant byte first |
| Certificates.CertificateRoundTrip | src/client/dnscrypt/crypto.rs:74-149 | a signed certificate starts with "DNSC", version 1 and minor version 0, and parsing it recovers all five fields, whatever bytes follow |
| Certificates.ParseCertificates | src/client/dnscrypt/crypto.rs:53-67 | exactly the verified certificates of the batch, by descending serial as a stable sort leaves them; fails exactly on a bad provider key |
| Certificates.RetainValid | src/client/dnscrypt.rs:165 | keeps exactly the certificates with start <= now < end, in order |
| Certificates.FirstValidIsBest | src/client/dnscrypt.rs:160-173 | the first certificate that sorting and retaining leave is the best of the batch |
| Certificates.BestIsFirstHighest | src/client/dnscrypt.rs:160-173 | the best is the usable certificate of the highest serial, of equal ones the first in the batch, and there is none exactly when no payload is usable |
| Certificates.ChooseIff | src/client/dnscrypt.rs:160-173 | a refresh yields the best of the batch, the fetch's own error, or an error that is neither a timeout nor of I/O |
| CertificateProtocol.HeldCame | src/client/dnscrypt.rs:148-176 | in every interleaving the certificate in the cell was received and chosen by one exchange, stored by it, and nothing was stored since |
| CertificateProtocol.UsedIsReceived | src/client/dnscrypt.rs:63-82 | in every interleaving each certificate a query is sent under is the best of a batch some exchange received, and the user checked start <= clock < end: for the batch it received itself for that attempt, or in the cell for its first attempt, where nothing had been stored over it; a second query follows only a first that timed out or failed on I/O |
| CertificateProtocol.ReceivedIsUsed | src/client/dnscrypt.rs:160-176 | in every interleaving an exchange that received a certificate stores it and sends under it before it ends |
| CertificateProtocol.DoneCame | src/client/dnscrypt.rs:63-74 | an exchange ends as its query ended, unless that was the first and timed out or failed on I/O, or with the reason why it got no certificate |
| CertificateProtocol.ExchangeIsShort | src/client/dnscrypt.rs:63-82 | in every interleaving an exchange fetches at most twice, sends at most twice, and takes at most seven steps |
| CertificateProtocol.OneIsChosen | src/client/dnscrypt/crypto.rs:42-149 | from a batch of one certificate that the provider signed, that certificate is chosen if and only if start <= now < end |
| CertificateProtocol.SlowRefreshRollsBack | src/client/dnscrypt.rs:148-176 | for every two batches with different highest serials, a schedule in which the lower one is stored over the higher |
| CertificateCell.Cell.Refresh | src/client/dnscrypt.rs:160-176 | stores and returns the best certificate of what was fetched, or says why there is none and leaves the cell alone |
| CertificateCell.Cell.Current | src/client/dnscrypt.rs:148-158 | the cached certificate when start <= now < end, otherwise the best of what was fetched |
| CertificateCell.Cell.Exchange | src/client/dnscrypt.rs:63-82 | one exchange takes exactly the protocol's steps, with what the network made of the certificate in hand at each attempt, and returns the outcome of its final state |
| CryptExchange.UdpReplyIsReadable | src/listener/dnscrypt.rs:152-198 | for any packet: a plain answer's datagram decodes to the answer up to 512 bytes and to its truncated form beyond; an encrypted one has 48 + 64 (L/64 + 1) bytes and any client holding the key decrypts it to the handler's L bytes up to 447 and to the truncated form beyond |
| CryptExchange.TcpAnswerIsReadable | src/listener/dnscrypt.rs:223-249 | over TCP a plain answer is sent whole, and an encrypted one is decrypted by any client holding the key to the handler's whole answer |
| CryptExchange.NeverTakenForPlain | src/listener/dnscrypt.rs:298-329 | an encrypted query is never answered as the plain TXT query when bytes 4 and 5 of the magic are zero |
| CryptExchange.DefaultMagicIsSafe | src/main.rs:757 | the magic the binary configures has that property |
| CryptExchange.NeverTakenIffZeros | src/listener/dnscrypt.rs:268-329 | the laws assumed of the codec rule the confusion out, for every provider name, if and only if those bytes are zero |
| CryptExchange.ServerSeesRequest | src/listener/dnscrypt.rs:268-291 | the listener decodes the client's request and holds exactly the bytes the handler's answer encodes to, or the error of the handler or the packing |
| CryptExchange.UdpDelivers | src/listener/dnscrypt.rs:168-195 | over UDP the client decrypts the handler's bytes when they are at most 447, else those of the truncated form, and gets an error exactly when there are none; the datagram fits 512 bytes exactly when the form sent is at most 447 |
| CryptExchange.TcpDelivers | src/client/dnscrypt.rs:126-144 | over TCP the client gets a reply exactly when there is an answer and both frames fit their prefix, and decrypts exactly the handler's bytes |
| CryptExchange.OverTcpIsConnection | src/listener/dnscrypt.rs:223-249 | the one-query connection used there is what the listener's loop does |
| CryptExchange.WholeExchange | src/client/dnscrypt.rs:84-109 | for every query, nonce, key pair and handler the exchange obtains the handler's message: the UDP one when it fits and is not marked truncated, else the one given to the same frame replayed over TCP when it can be sent, and otherwise an error; it returns what it obtained exactly when that answers the request |
| CryptBootstrap.ProviderIsAnswered | src/listener/dnscrypt.rs:298-329 | a plain TXT query for the provider name is answered under its ID with the certificate bytes alone |
| CryptBootstrap.ProviderAnswerIff | src/listener/dnscrypt.rs:298-329 | exactly the plain TXT queries for the provider's name are answered by the listener itself, under their ID, with one TXT record of 60 seconds |
| CryptBootstrap.CertificateReachesClient | src/client/dnscrypt.rs:182-216 | what a client fetches offers exactly the certificate the provider signed |
| Stamps.ReadSegments | src/client/dnscrypt/stamp.rs:39-62 | the loop reads as the recursive reader does, terminates, and never passes the end |
| Stamps.ReadLp | src/client/dnscrypt/stamp.rs:39-62 | on arbitrary bytes a successful read moves forward, stays inside the buffer, and yields fewer bytes than it consumed |
| Stamps.ReadEncoded | src/client/dnscrypt/stamp.rs:39-62 | any encoded segment list, wherever it lies, is read as its concatenation, stopping exactly behind it |
| Stamps.ReadOnlyEncoded | src/client/dnscrypt/stamp.rs:39-62 | whatever is read was such a list |
| Stamps.StampRoundTripIff | src/client/dnscrypt/keygen.rs:78-98 | for every IPv4 or IPv6 address, parsing a built stamp gives back address, key and name if and only if the name has at most 127 bytes |
| Stamps.PayloadFields | src/client/dnscrypt/keygen.rs:86-97 | a built payload is protocol 1, eight zeros, and the three fields, each of which lies where the reader looks for it |
| Stamps.StampAcceptedIff | src/client/dnscrypt/stamp.rs:65-114 | a text is read as a stamp exactly when it is `sdns://` and the encoding of protocol 1, eight bytes, and segment lists of address, 32-byte key and name, whatever follows |
| Stamps.StampAddrIff | src/client/dnscrypt/stamp.rs:121-141 | the address is a socket address, a bare IP with port 443, or a bracketed IP with its port or 443 |
| HostPort.HostPortRoundTripIff | src/client/upstream_url.rs:118-143 | splitting undoes formatting, for every port, if and only if the host is an IPv6 literal or has no colon and no leading bracket |
| HostPort.AddressRoundTripIff | src/client/upstream_url.rs:153-213 | re-parsing the address of a tcp, tls or quic upstream yields the same upstream if and only if its host is such; a udp upstream always |
| HostPort.DefaultPorts | src/client/upstream_url.rs:153-213 | without a port a tcp upstream gets 53, a tls or quic one 853 |
| HostPort.PlainAddress | src/client/upstream_url.rs:153-175 | an address without a scheme is read as udp: a socket address, or an IP with port 53, and nothing else |
| HostPort.BracketForms | src/client/upstream_url.rs:118-133 | a bracketed host is followed by nothing or a colon and a port; anything else, or a missing bracket, is an error |
| HostPort.BareColons | src/client/upstream_url.rs:135-144 | a text with two colons and no leading bracket is a host without a port |
| Text.ParseU16Iff | src/client/upstream_url.rs:124-139 | a port is one or more digits of value below 65536, with or without a plus sign |
| HostPort.OtherSchemes | src/client/upstream_url.rs:153-213 | every scheme but the seven known ones is refused |
| Framing.WritePrefixed | src/listener/io.rs:202-214 | a body is framed exactly when it has at most 65535 bytes, and its frame reads back as that body alone |
| Framing.ReadAllFrames | src/listener/io.rs:189-214 | reading the concatenation of written frames returns the bodies, whatever incomplete frame follows |
| Framing.StreamIsFrames | src/listener/io.rs:189-196 | every stream is its complete frames and an incomplete rest |
| Framing.ServeConnection | src/listener/dnscrypt.rs:223-249 | the loop's output is exactly the frames of the answers, in order, to the packets before the first that cannot be answered |
| Framing.HandleTcpConnection | src/listener/io.rs:166-183 | the plain listener writes exactly the frames of the handler's answers to the first k requests, k stopping at the first that is incomplete, does not decode, fails in the handler, or has an answer too large to frame |

## Left out

- TLS, QUIC, HTTP and socket handling (`src/client/doh3.rs`, `src/client/dot.rs`, `src/client/plain_udp.rs`, the DoH, DoT and DoQ listeners): I/O over libraries that are not part of this model.
- The HTTP/3 probe and its cached preference: a timing race between two handshakes.
- Internals of the ciphers, the signature scheme, base64, UTF-8, IP parsing and the DNS wire codec: only the laws listed above are used. That a forged ciphertext is rejected is not among them.
- Latency.Blend: computes the weighted mean exactly, where the program uses `f64`; below about 2^48 us the two differ by at most one, and above 2^52 us, over a century, the program's average is coarser and near 2^64 may even become the untested marker.
- Overlapping exchanges of one config: the runs of `upstream_runs.dfy` take them one after the other. Round robin does not depend on it, since the cursor moves in one atomic step.
- Wall-clock timeouts: a timeout is one of the outcomes a send or a creation may have; the one around a whole DNSCrypt exchange is not modelled.
- Cancellation of a request half way (a dropped future): every request of a schedule may stop moving, but its lock is then not released.
- The plain UDP listener (`src/listener/io.rs:125-146`): it answers with the whole response or its truncated form, as the plain branch of the DNSCrypt listener does, which is modelled.
- The URL parsing of `https://` and `h3://` addresses and of embedded credentials: the verdict of that parser is a parameter.
- Averages changing while a group is being sorted: each ordering reads a snapshot.
- Bootstrap resolvers and dialing, key files, credentials, command line and logging: they wire the parts together and read or write files and sockets.
