# Verified models of django-modern-rest

Dafny models of four parts of django-modern-rest, with proofs about every input, every history of
requests and every interleaving. `dafny verify dfyconfig.toml` checks the whole project.

**Throttling.** `RateLimit` has the two limiters as transitions on what is stored per cache key.
`LeakyBucketLaws`, `SimpleRateLaws` and `RetryAfterLaws` say what they guarantee over all histories
whose clock does not run backwards. `ThrottleAlgorithms` has the Python methods on their mutable cache
objects. `ThrottleBackends` has the Django cache (read, compute, overwrite, with a time to live) and the
two Redis scripts (INCR, EXPIRE and DECR; HMGET and HSET), each proved to make the step that
`BackendLaws` then compares: both backends answer every request like a store that never forgets.
`EndpointLock` interleaves threads that acquire the lock of an endpoint, read, compute, write and release.
`ThrottleChain` has the order of the checks of an endpoint, and `RequestThreads` whole requests on many
threads, each taking the locks for one throttle after the other. `DecisionLog` is the log of decisions
that they share, `CacheKey` the string under which a throttle keeps its state.

An entry of Django's cache or a hash in Redis is certain to be readable before its time to live is over;
from then on each read may or may not still find it. So the results cover lazy and coarse eviction, and
the clock may advance between reading the cache, looking at the time and writing the result.

**Server-sent events.** `Sse` has the construction and the rendering of an event, `EventStream` a client
written from sections 9.2.5 and 9.2.6 of the WHATWG HTML Living Standard. `SseRoundTrip` proves that the
client understands exactly what was sent, and `SseDelivery` says so of the event objects themselves.
`PingProducer` is the producer that races the next event against a ping timer, cut into steps at every
point where it suspends; `PingInvisibility` joins the two halves.

**Content negotiation.** `AcceptHeader` has `accepted_type` and `accepted_header`, `Refusals` what they
make of `q=0`, `ResponseNegotiation` the lookup of renderers, `RequestNegotiation` the lookup of parsers.
`StableSort` relates a stable descending sort and a scan to the earliest best element of the unsorted
list. Matching and order of precedence are proved equivalent to relations on the names, parameters and
qualities, and the results are stated with these.

**OpenAPI schemas.** `SchemaMapper` has `dump_schema` and `load_schema`, `SchemaRoundTrip` proves that the
second undoes the first up to the order of unions. The model has one field of each shape: list of
children (`allOf`), list with nulls last (`anyOf`, `oneOf`), child (`not`), flag or child (`items`), dict
(`properties`, `$defs`), enum or list of enums (`type`), scalars (`const`, `maxLength`), `required`,
nested object (`discriminator`), and the four fields that the loader never fills.

## What the code does not promise

Some natural expectations hold only under a condition. The code is modelled as it is; each of them
comes with inputs for which it fails and with the exact condition.

- The Retry-After of `LeakyBucket` always suffices, but it is the shortest sufficient wait if and only
  if what the bucket lacks takes as many seconds to leak as a whole request (`RetryAfterLaws.RetryLeast`;
  fails for `RetryAfterLaws.RetryTooLong`).
- The comment in `dmr/throttling/base.py:145` says that the key is unique to the endpoint. For one caller
  it is if and only if no two endpoints print the same operation id for the same method
  (`CacheKey.KeyTellsEndpoint`). A missing id is printed as `None`, and ids are missing by default, so
  endpoints without ids share their throttles' state (`CacheKey.DefaultIdsCollide`). Between different
  callers, two ids can collide if and only if one continues the other (`CacheKey.IdsCollide`; fails for
  `CacheKey.SeparatorsCollide`), so ids without "::" are safe (`CacheKey.KeyUnique`).
- Every endpoint has a lock of its own. That makes the decisions sequential if and only if no two
  endpoints share a key (`EndpointLock.LocksSuffice`; `EndpointLock.LostAdmit` loses an admit
  otherwise, as endpoints without operation ids may).
- `accepted_type` promises to return a type without wildcards as it was given. It returns its trimmed,
  lower-case form, which is the given one if and only if the type is canonical
  (`ResponseNegotiation.SpelledAsConfigured`). The renderer is looked up under that form. For types
  without wildcards and commas the lookup raises no KeyError, whatever the client sends, if and only if the
  form of every type that no type in front of it matches is configured (`ResponseNegotiation.LookupExact`;
  fails for `ResponseNegotiation.UpperCaseRaises`). Where it does not raise, it may still find the
  renderer of another type (`ResponseNegotiation.OtherRendererServes`).
- A range with `q=0` only sorts last, while by RFC 9110 it is a refusal and the most specific range
  decides about a type. The client gets nothing or a type that it does not refuse if and only if offering
  only such types would choose the same (`Refusals.RefusalHonoured`; fails for `Refusals.RefusedIsAnswered` and
  `Refusals.RefusedBesideWildcard`). Leaving the ranges out would not be enough: that changes nothing if
  and only if nothing matches or some range of positive quality does (`Refusals.ZeroQualityRefused`). The
  code cuts qualities off after two decimals, so all this holds of everything up to `q=0.009`.
- The scan over parser types looks its find up under the text of the parsed type. For types without
  wildcards the lookup raises no KeyError, whatever the content type, if and only if the text of every
  type that no other form of it outranks is configured (`RequestNegotiation.LookupExact`; fails for
  `RequestNegotiation.UnspacedRaises`). With one type: if and only if it is written like its text
  (`RequestNegotiation.SingleParserServes`).
- The dictionary of parsers is called a faster way to the same answer. For canonical types, which have a
  type and a subtype, carry no `q` and are written as they are printed, it is, if and only if no plain type
  is shadowed by another form of itself (`RequestNegotiation.FastPathIsShortcut`, and
  `RequestNegotiation.FastPathExact` for one plain type beside any others; fails for
  `RequestNegotiation.ShadowedByForm`).
- A schema comes back from its dump if and only if it is clean (`SchemaRoundTrip.RoundTrip`): `ref`,
  `anchor`, `comment` and `schema_uri` are unset at every depth, references and discriminators have their
  targets, and `required` is a non-empty value or an empty list (fails for
  `SchemaRoundTrip.CommentIsLost`).

Apart from these, the header of the SIMPLE_RATE script says that its third result is a number of
remaining seconds. The code returns the second at which the window ends, and the model follows the code.

## Model

| member | source | states |
|---|---|---|
| LeakyBucketLaws.LevelExact | dmr/throttling/algorithms.py:188-220 | After any ordered history the decayed level is the maximum of 0 and, over all suffixes of the earlier admits, k*d - m*(now - t_i). |
| LeakyBucketLaws.PeakDebtIsMaximum | dmr/throttling/algorithms.py:197-203 | The closed form is an attained maximum over the suffixes of the admits, not only a bound. |
| LeakyBucketLaws.AdmitExact | dmr/throttling/algorithms.py:205-220 | A request is admitted if and only if every suffix of the earlier admits together with it satisfies (k+1)*d <= m*(d + now - t_i). |
| LeakyBucketLaws.StoredLevel | dmr/throttling/algorithms.py:197-220 | The stored level stays between 0 and m*d and was measured at a moment of the history. |
| LeakyBucketLaws.AdmitsSpread | dmr/throttling/algorithms.py:188-220 | Any run of consecutive admits fits into the burst plus what leaks while it lasts. |
| LeakyBucketLaws.IntervalBound | dmr/throttling/algorithms.py:158-178 | n admits inside any closed interval [a, b] of any history satisfy n*d <= m*(d + b - a). |
| SimpleRateLaws.WindowState | dmr/throttling/algorithms.py:120-137 | The stored state in closed form: the window that the last request falls into and how many requests it has seen, cut off at the limit. |
| SimpleRateLaws.AdmitExact | dmr/throttling/algorithms.py:79-99 | A request is admitted if and only if it is among the first m requests of its window. |
| SimpleRateLaws.WindowLaws | dmr/throttling/algorithms.py:120-137 | Windows start at least d apart, every admit lies inside its window, and no window holds more than m admits. |
| SimpleRateLaws.IntervalBound | dmr/throttling/algorithms.py:62-68 | Any closed interval of k durations contains at most (k+1)*m admits. |
| RetryAfterLaws.StoredCount | dmr/throttling/algorithms.py:87-99 | The stored count stays between 1 and m, and the stored window has begun. |
| RetryAfterLaws.WindowRetry | dmr/throttling/algorithms.py:139-155 | A SimpleRate denial reports 0 remaining, and of all later moments exactly those from now + reset on are admitted. |
| RetryAfterLaws.WindowRetryKept | dmr/throttling/algorithms.py:79-99 | Any number of retries before now + reset is denied and leaves the state and the promise as they were. |
| RetryAfterLaws.WaitExact | dmr/throttling/algorithms.py:197-208 | After waiting without an admit, a request fits if and only if enough has leaked since. |
| RetryAfterLaws.LevelFits | dmr/throttling/algorithms.py:197-220 | No history overfills the bucket, at the time of storing or of any later look. |
| RetryAfterLaws.LeastWait | dmr/throttling/algorithms.py:197-208 | After a denial the sufficient waits are exactly those from ceil(lack/m) on, where the lack is what the bucket misses for one more request; the reported reset is never below. |
| RetryAfterLaws.BucketRetry | dmr/throttling/algorithms.py:251-279 | A LeakyBucket denial reports 0 remaining; waiting ceil(d/m) suffices and is the least sufficient wait from a full bucket; in general one second less fails exactly when too little would leak. |
| RetryAfterLaws.RetryLeast | dmr/throttling/algorithms.py:265-268 | Every wait shorter than the reported reset fails, if and only if what the bucket lacks takes as many seconds to leak as a whole request. |
| RetryAfterLaws.RetryTooLong | dmr/throttling/algorithms.py:265-268 | One request in ten seconds, admitted at 0 and denied at 5: the reset is 10 although 5 seconds suffice. |
| ThrottleAlgorithms.AccessSimpleRate | dmr/throttling/algorithms.py:79-100 | Counts in the given object while the window lasts and in a fresh one otherwise; a denial carries the report and changes nothing. |
| ThrottleAlgorithms.AccessLeakyBucket | dmr/throttling/algorithms.py:188-220 | Leaks, checks and fills a fresh object; a denial carries the report; the given object is never changed. |
| ThrottleBackends.DjangoCache.Get | dmr/throttling/backends/django_cache.py:102-112 | Returns a fresh object with the visible entry, or nothing. |
| ThrottleBackends.DjangoCache.Set | dmr/throttling/backends/django_cache.py:114-128 | Overwrites one entry with its value and an expiry of now plus the time to live. |
| ThrottleBackends.DjangoCache.Incr | dmr/throttling/backends/django_cache.py:76-99 | Makes exactly the step that the backend laws speak about, for its own key only; a denial writes nothing. |
| ThrottleBackends.RedisStore.SimpleRateScript | dmr/throttling/lua.py:28-58 | INCR, EXPIRE, TTL and DECR together make one counter step on their key and leave the counter as it was on a denial. |
| ThrottleBackends.RedisStore.LeakyBucketScript | dmr/throttling/lua.py:85-121 | The script makes one bucket step on its key: leak, refuse without writing, or fill and renew the time to live of 2*d. |
| ThrottleBackends.RedisStore.Incr | dmr/throttling/backends/redis.py:74-108 | Runs the script of the algorithm and turns its reply into the admitted amount or the reported denial. |
| BackendLaws.SpentMeansNothing | dmr/throttling/algorithms.py:120-137 | A window that is over or a bucket that has leaked away means the same as no stored value, at every later moment. |
| BackendLaws.DjangoAgrees | dmr/throttling/backends/django_cache.py:76-128 | One request on the Django cache gets the outcome of a store that never forgets, for any moments of reading and writing and any eviction. |
| BackendLaws.RedisAgrees | dmr/throttling/lua.py:28-121 | One request on Redis gets the outcome of a store that never forgets, headers included. |
| BackendLaws.BackendsAgree | dmr/throttling/backends/redis.py:74-108 | On every ordered history both backends and the never-forgetting store give every request the same amount or the same denial, and hold the same state. |
| CacheKey.SameCallerSameKey | dmr/throttling/base.py:131-151 | For one caller, keys are equal if and only if the printed operation ids, the methods and the throttles are, for any ids and any caller key. |
| CacheKey.KeyTellsEndpoint | dmr/throttling/base.py:145-151 | In a set of endpoints the key is unique to the endpoint if and only if no two of them print the same id for the same method. |
| CacheKey.DefaultIdsCollide | dmr/validation/endpoint_metadata.py:402 | Two GET endpoints of different controllers without an operation id share a key, under every throttle and for every caller. |
| CacheKey.MissingIdIsNone | dmr/throttling/base.py:147 | An endpoint without an id and one with the id "None" share a key. |
| CacheKey.IdsCollide | dmr/throttling/base.py:146-151 | Two different ids can share a key for some methods, throttles and callers if and only if one id goes on behind the other with text that reads as the names of a key. |
| CacheKey.KeyUnique | dmr/throttling/base.py:131-151 | If no printed id contains the separator, keys are equal if and only if everything in them is, whoever calls. |
| CacheKey.SeparatorsCollide | dmr/throttling/base.py:145-151 | Under every throttle, an id that spells the middle of a key shares a key with a shorter id for the same method. |
| DecisionLog.AllowedAreAdmits | dmr/throttling/base.py:288-302 | In a log of sequential decisions about many keys, what one key admitted is what its limiter alone would have admitted. |
| DecisionLog.KeyLimits | dmr/throttling/base.py:288-302 | So the interval bounds of both limiters hold for every key of such a log. |
| EndpointLock.GetKeeps | dmr/throttling/backends/django_cache.py:86-91 | Reading under a lock keeps the invariant: what is seen agrees with the sequential state at every later moment. |
| EndpointLock.AccessKeeps | dmr/throttling/base.py:269-270 | Computing keeps the invariant, a denial that raises inside the lock included, while other threads are inside other locks. |
| EndpointLock.WriteKeeps | dmr/throttling/backends/django_cache.py:92-99 | Writing keeps the invariant: the cache follows the sequential state of the key, and what threads at other locks know stays true. |
| EndpointLock.StepKeeps | dmr/throttling/base.py:266-302 | Every step of every thread keeps the invariant, if no two endpoints share a key. |
| EndpointLock.RunKeeps | dmr/throttling/base.py:266-302 | The invariant holds after any interleaving of any number of threads at any number of endpoints. |
| EndpointLock.RunOrders | dmr/endpoint.py:188-190 | Whatever the keys, one thread at most is inside each lock, and each lock serves the acquired turns, each with its thread and key, in order. |
| EndpointLock.LocksServe | dmr/throttling/base.py:269-270 | Two threads are never inside one lock, and a free lock has decided for exactly the threads and keys that took it, in that order, denials included. |
| EndpointLock.Linearizable | dmr/endpoint.py:188-190 | If no two endpoints share a key, the decisions of every interleaving are those of a sequential run over the log, ordered in time for each key, and the cache holds what that run stored. |
| EndpointLock.LimitsHold | dmr/throttling/base.py:266-302 | The bounds of both limiters hold for whatever the threads were allowed. |
| EndpointLock.LostAdmit | dmr/endpoint.py:188-190 | For any two endpoints with a key in common, under any quota: an interleaving that admits twice and stores one admit. |
| EndpointLock.LocksSuffice | dmr/endpoint.py:188-190 | One lock per endpoint makes every interleaving sequential if and only if no two endpoints share a key. |
| ThrottleChain.Endpoint.Throttle | dmr/throttling/base.py:250-270 | One throttle decides by its key's state and records the decision; a denial carries the report and changes nothing. |
| ThrottleChain.Endpoint.RunThrottles | dmr/endpoint.py:428-436 | The loop charges the throttles in order and stops at the first that rejects, with its headers. |
| ThrottleChain.Endpoint.RunAuth | dmr/endpoint.py:438-447 | The user is the one of the first class that recognises the caller, no class in front of it did, and it is put on the request. |
| ThrottleChain.Endpoint.RunChecks | dmr/endpoint.py:418-426 | For each verdict, what the log gained entry by entry and what holds of the request: nobody gets behind negotiation unless acceptable, or behind authentication unless recognised; which headers a rejection carries and when the request has which user. |
| ThrottleChain.VerdictJustified | dmr/endpoint.py:418-457 | The same of the checks as such; not acceptable is the verdict if and only if no throttle of the first round rejects and negotiation fails. |
| ThrottleChain.ChargeExact | dmr/endpoint.py:434-436 | Charging adds one entry per throttle that applies, in order, all admits, and at a rejection one denial and nothing behind it. |
| ThrottleChain.ChargeConserves | dmr/endpoint.py:434-436 | Every key receives exactly the admits of the throttles in front of the rejecting one. |
| ThrottleChain.ChargedOnce | dmr/endpoint.py:434-436 | With distinct keys a throttle that was reached and passed is charged once, all others never. |
| ThrottleChain.UnchargedUnchanged | dmr/endpoint.py:434-436 | A key that is not charged keeps its stored state, even if it is the one that denies. |
| ThrottleChain.RejectionLeavesRest | dmr/endpoint.py:428-457 | A rejection leaves the rejecting throttle and all later ones as they were and keeps the earlier charges. |
| ThrottleChain.CheckConserves | dmr/endpoint.py:418-457 | Per verdict, which charges of a request happen: failed negotiation or authentication charges no later throttle; authentication fails only if no class recognises the caller. |
| ThrottleChain.RequestConserves | dmr/endpoint.py:418-457 | With keys distinct over both rounds, every applicable throttle that let the request pass is charged exactly once, at its own clock reading; the rejecting one and all behind it, in either round, keep their state. |
| ThrottleChain.NobodyRecognised | dmr/endpoint.py:438-447 | Authentication raises exactly when every class returns nothing. |
| ThrottleChain.RunSequential | dmr/endpoint.py:418-457 | Over any run of requests through all checks, the log stays a log of sequential decisions. |
| ThrottleChain.PassedWithinLimits | dmr/endpoint.py:418-457 | The requests that pass all checks obey each throttle's bound, whatever else is configured. |
| RequestThreads.MoveKeeps | dmr/endpoint.py:418-457 | Every step of every request keeps the invariant that ties its position to the decisions taken for it. |
| RequestThreads.RequestsConserve | dmr/endpoint.py:418-457 | In every interleaving of requests: one that passed has exactly one admit for each of its throttles, in its own order; one that was stopped has those in front, and the denial if a throttle stopped it. |
| RequestThreads.PassedRequest | dmr/endpoint.py:418-426 | One that passed the checks of an endpoint was acceptable and authenticated, and was charged once by each throttle that applies, before authentication and after it. |
| RequestThreads.PassedWithinLimits | dmr/throttling/base.py:266-302 | In every interleaving, the requests that passed obey the bound of every key, if no two endpoints share a key. |
| RequestThreads.NeverStuck | dmr/throttling/base.py:269-270 | While a request is running, some request can go on: the locks never block each other. |
| Sse.CheckEventField | dmr/streaming/sse/validation.py:72-80 | Accepts exactly the texts without null bytes and line breaks, and names the null byte first. |
| Sse.SSEvent.Create | dmr/streaming/sse/metadata.py:124-182 | Which arguments make an event, which error the others raise, and that every event made is sound on the wire. |
| Sse.SplitLines | dmr/streaming/sse/renderer.py:87-89 | At least one piece, and none contains a line break. |
| Sse.SplitsAtBreaks | dmr/streaming/sse/renderer.py:19 | A text without line breaks is one piece; a text up to its first line break, of any of the three kinds, is the first piece, and the rest is split alike. |
| Sse.WriteChunks | dmr/streaming/sse/renderer.py:86-92 | Appends one prefixed, terminated line per piece to the buffer. |
| Sse.RenderEvent | dmr/streaming/sse/renderer.py:79-128 | The chunks written one by one are the frame of the event: comment, id, event, data, retry, empty line. |
| SseDelivery.SendEvents | dmr/streaming/sse/renderer.py:79-128 | On the attributes of the objects: a client reading the rendered events gets for each its event name, its id, its retry time and its payload, raw or serialized as the object says; whoever reads the comments finds those of the objects. |
| SseDelivery.NamesOnTheWire | dmr/streaming/sse/renderer.py:86-125 | The names, the separators and the ping comment are the bytes of their texts. |
| EventStream.LineComesBack | dmr/streaming/sse/renderer.py:79-128 | The client reads a line back from in front of any rest, for each of the three line ends. |
| EventStream.LinesComeBack | dmr/streaming/sse/renderer.py:79-128 | Interpreting terminated lines is processing the lines themselves, one by one. |
| EventStream.FieldComesBack | dmr/streaming/sse/renderer.py:94-125 | A line of a name, a colon, a blank and a value is processed as that name and that value, blanks and colons in the value included. |
| EventStream.IgnoredByTheClient | dmr/streaming/sse/validation.py:65-66 | The client as the standard has it where the renderer never goes: byte order mark, comments, null bytes in ids, retry times that are no numbers, unknown fields and unfinished lines. |
| SseRoundTrip.PiecesComeTogether | dmr/streaming/sse/renderer.py:108-120 | The client joins the pieces of a payload to the payload with all line ends turned into line feeds. |
| SseRoundTrip.NormalizedHasNoCR | dmr/streaming/sse/renderer.py:108-120 | The payload that arrives has no carriage return, and is the one sent if that had none. |
| SseRoundTrip.FrameCollects | dmr/streaming/sse/renderer.py:79-128 | The lines of one frame bring a client from any state to the same state with exactly the event's fields applied. |
| SseRoundTrip.FrameUnderstood | dmr/streaming/sse/renderer.py:79-128 | A client that understood the earlier events understands one more after its frame. |
| SseRoundTrip.LinesUnderstood | dmr/streaming/sse/renderer.py:79-128 | The lines of all frames together leave a client that understood all events, and no field value starts a line of its own. |
| SseRoundTrip.StreamRoundTrip | dmr/streaming/sse/renderer.py:79-128 | A client that reads the bytes of any sequence of events dispatches exactly those with data, in order, with type, last id and payload up to line ends; ids and retry times take effect. |
| PingProducer.Producer.ArmTasks | dmr/streaming/stream.py:170-180 | The top of the loop creates an event task only if none is pending, and always a timer. |
| PingProducer.Producer.WakeUp | dmr/streaming/stream.py:182-203 | Cancels the timer, sends a ping or uses the finished event, and ends as the pull ended. |
| PingProducer.ProduceNoPing | dmr/streaming/stream.py:157-162 | The plain loop sends every event until the source ends or fails. |
| PingProducer.StepKeeps | dmr/streaming/stream.py:164-203 | Every step of the race keeps the invariant that ties the output to the plain producer's. |
| PingProducer.PingErasure | dmr/streaming/stream.py:157-213 | In every interleaving the output without pings is a prefix of the plain producer's; a run that ended by itself sent all of it and ended the same way. |
| PingProducer.OneAtATime | dmr/streaming/stream.py:169-185 | At most one pull is unused and it is the latest, at most one timer runs, none is left at a yield or after the end, and the response is closed exactly at the end. |
| PingProducer.EventsFirst | dmr/streaming/stream.py:187-198 | A finished event is never held back by a ping and is the one that the plain producer sends next, or the run ends as that producer does; a ping never uses up the pending event. |
| PingProducer.RaceGoesOn | dmr/streaming/stream.py:170-203 | In every reachable state the event may finish and is used, the timer may fire and a ping is sent, and the consumer may leave at either suspension. |
| PingProducer.Delivers | dmr/streaming/stream.py:157-203 | Whatever the plain producer sends, some run of the race sends, and it ends when that one does. |
| PingProducer.PullsAccounted | dmr/streaming/stream.py:169-198 | In every interleaving, the pulls are as many as the events sent, plus the pending one, plus the one that ended the run. |
| PingInvisibility.PingsMeanNothing | dmr/streaming/sse/controller.py:79-82 | A client's understanding of any output is that of the output without its pings. |
| PingInvisibility.PingsAreComments | dmr/streaming/sse/renderer.py:86-92 | A client reading the bytes of any mixture of events and pings has understood the events and nothing else. |
| PingInvisibility.PingsInvisible | dmr/streaming/stream.py:137-203 | A client reading the bytes of any interleaving is in the state of a client of the plain producer. |
| StableSort.SortSorts | dmr/_compiled/negotiation.py:41-44 | The result of the sort is descending. |
| StableSort.SortPermutes | dmr/_compiled/negotiation.py:41-44 | Sorting loses, adds and duplicates nothing. |
| StableSort.FirstOfSorted | dmr/_compiled/negotiation.py:41-47 | Scanning the sorted list finds the earliest best element of the unsorted one. |
| AcceptHeader.AcceptedType | dmr/_compiled/negotiation.py:9-62 | The loops, with their shortcuts for empty and single-range headers, return the right answer for the parsed ranges and types. |
| AcceptHeader.AcceptedHeader | dmr/_compiled/negotiation.py:65-107 | True if and only if the names of some range meet those of the type and the range repeats every parameter of the type but `q`. |
| AcceptHeader.MatchExact | dmr/_compiled/negotiation.py:129-144 | A type matches a range if and only if their names meet, where a wildcard meets anything, and the range has every parameter of the type but `q` with the same value. |
| AcceptHeader.OrderExact | dmr/_compiled/negotiation.py:151-175 | One range ranks before another if and only if its quality is higher, or equal and it is more specific: parameters before plain types before `a/*` before `*/*`. |
| AcceptHeader.AcceptedTypeIsBest | dmr/_compiled/negotiation.py:29-62 | In terms of names, parameters and this order: the answer comes from the first range in header order to which no fitting range is preferred, and from the first type in order that fits it; no answer only if nothing fits. |
| AcceptHeader.SubtypesGoFirst | dmr/_compiled/negotiation.py:163-166 | With `m/*` and `*/*` in either order, and some type of kind m provided without parameters, the answer is of kind m, whatever is configured in front. |
| AcceptHeader.AnswerReads | dmr/_compiled/negotiation.py:116-149 | The answer, read again, has the narrowed names and the parameters of the provided type. |
| AcceptHeader.AnswerIsAccepted | dmr/_compiled/negotiation.py:45-53 | Whatever `accepted_type` answers, `accepted_header` accepts. |
| AcceptHeader.BestPairIsUnique | dmr/_compiled/negotiation.py:151-175 | At most one pair of range and type qualifies as the best. |
| AcceptHeader.AnswerIsMeet | dmr/_compiled/negotiation.py:129-149 | The answer lies within both types and keeps a wildcard only where both have one. |
| AcceptHeader.MatchersAgree | dmr/_compiled/negotiation.py:92-107 | `accepted_type` has an answer if and only if `accepted_header` accepts one of the types, for every header, list, parameters and wildcards. |
| Refusals.ZeroQualityExact | dmr/_compiled/negotiation.py:41-53 | Leaving out the ranges of quality zero gives the same answer if and only if there is none at all or some range of positive quality matches. |
| Refusals.ZeroQualityRefused | dmr/_compiled/negotiation.py:29-62 | The same, about leaving ranges out, for every header and list of types. |
| Refusals.RefusalExact | dmr/_compiled/negotiation.py:41-60 | Offering only the types that the ranges do not refuse, where the most specific range decides about a type, chooses the same type if and only if nothing is chosen or the chosen type is not refused. |
| Refusals.RefusalHonoured | dmr/_compiled/negotiation.py:29-62 | The same for every header and list of types. |
| Refusals.ChosenIsAnswered | dmr/_compiled/negotiation.py:45-53 | The answer is the text of the chosen type, and there is one exactly when a type is chosen. |
| Refusals.RefusedIsAnswered | dmr/_compiled/negotiation.py:54-60 | For every plain type, a header that only refuses it with `q=0` is answered with that type. |
| Refusals.RefusedBesideWildcard | dmr/_compiled/negotiation.py:41-53 | For every plain type, configured first beside any others, a header that refuses it with `q=0` and accepts everything else is answered with that type. |
| ResponseNegotiation.ResponseNegotiator.Create | dmr/negotiation.py:135-164 | Construction succeeds if and only if some renderer does not stream, and which error is raised otherwise. |
| ResponseNegotiation.ResponseNegotiator.Negotiate | dmr/negotiation.py:166-212 | What is returned or raised and which two renderers the request holds then, each justified by the answered key, a KeyError of the second lookup included; with canonical types that error cannot happen and errors of a stream get a configured renderer that does not stream. |
| ResponseNegotiation.NegotiationExact | dmr/internal/negotiation.py:101-126 | Without a header the default; with one the first renderer under the very key that is answered, which the header accepts; refused only if the header accepts no key; KeyError only if the answer is no key. |
| ResponseNegotiation.NonStreamingInOrder | dmr/negotiation.py:147-151 | Leaving out the streaming renderers keeps the order of the others. |
| ResponseNegotiation.FirstNonStreaming | dmr/negotiation.py:161-164 | The second default is the first configured renderer that does not stream. |
| ResponseNegotiation.RendererFor | dmr/negotiation.py:300-315 | Errors get the second renderer if there is one, and the first one otherwise. |
| ResponseNegotiation.AnswerIsSpelling | dmr/_compiled/negotiation.py:146-149 | Without wildcards the answer is always the spelling of a configured type. |
| ResponseNegotiation.SpelledAsConfigured | dmr/_compiled/negotiation.py:116-127 | A type is spelled as it is configured if and only if it is canonical. |
| ResponseNegotiation.NegotiationTotal | dmr/internal/negotiation.py:101-126 | With canonical types the lookup never raises KeyError: the default without a header, else the renderer of the answered and accepted type, or a refusal if and only if the header accepts none of the types. |
| ResponseNegotiation.SingleTypeServed | dmr/internal/negotiation.py:118-126 | An endpoint with one type serves a client that asks for just this type if and only if the type is canonical; otherwise the lookup raises KeyError. |
| ResponseNegotiation.UpperCaseRaises | dmr/internal/negotiation.py:118-126 | Every type with an upper-case letter, configured alone and asked for just like that, raises KeyError. |
| ResponseNegotiation.LookupExact | dmr/internal/negotiation.py:118-126 | For any number of types without wildcards and commas: no header makes the lookup raise KeyError, if and only if the spelling of each type that no type in front of it matches is configured. |
| ResponseNegotiation.OtherRendererServes | dmr/internal/negotiation.py:118-126 | If a type is not canonical and its spelling is configured behind it, a request for the first type gets the renderer of the second. |
| ResponseNegotiation.ErrorsCanBeRendered | dmr/negotiation.py:196-212 | The renderer for errors of a stream is configured and does not stream, even for clients that only accept the stream. |
| RequestNegotiation.RequestNegotiator.Decide | dmr/negotiation.py:88-111 | The first parser without a content type, the one of the very name if it is configured without a star, and otherwise what the scan by precedence decides. |
| RequestNegotiation.RequestNegotiator.Negotiate | dmr/negotiation.py:60-86 | A request is decided once and keeps its parser. |
| RequestNegotiation.MatchExact | dmr/internal/media_compat.py:56-94 | A type matches a content type if and only if all names are there and meet, and the content type has no parameters or both have the same. |
| RequestNegotiation.OrderExact | dmr/internal/media_compat.py:30-41 | Precedence is specificity first, in the order parameters, plain, `a/*`, `*/*`, and quality second. |
| RequestNegotiation.ScanIsBest | dmr/internal/negotiation.py:88-98 | The scan finds a matching type of greatest specificity, then quality, the first among equals, and rejects only if no usable type matches. |
| RequestNegotiation.ScanServes | dmr/negotiation.py:98-111 | With types spelled as configured the scan never raises KeyError: it rejects exactly what no usable type matches, and otherwise returns a configured type that matches best. |
| RequestNegotiation.SingleParserServes | dmr/negotiation.py:99-102 | An endpoint with one parser serves a request that its type matches if and only if the type is spelled as configured; otherwise the lookup raises KeyError. |
| RequestNegotiation.UnspacedRaises | dmr/negotiation.py:99-102 | `application/json;charset=utf-8`, configured without a blank, matches a plain JSON request and raises KeyError. |
| RequestNegotiation.LookupExact | dmr/negotiation.py:98-102 | For any number of types without wildcards: no content type makes the lookup raise KeyError, if and only if the text of each type that no other form of it outranks is configured. |
| RequestNegotiation.FastPathReadable | dmr/negotiation.py:92-102 | For a plain type spelled as configured, beside types in any spelling, the scan reaches the same parser as the dictionary if and only if no other form of the type shadows it. |
| RequestNegotiation.FastPathExact | dmr/negotiation.py:92-102 | For any plain type in any configuration, scan and dictionary agree if and only if the type is spelled as configured and not shadowed. |
| RequestNegotiation.FastPathIsShortcut | dmr/negotiation.py:88-111 | With canonical types, parameterized ones included, every request is decided as the scan alone would if and only if no plain type is shadowed. |
| RequestNegotiation.ShadowedByForm | dmr/negotiation.py:92-102 | For every plain type with a parameterized form configured behind it, a request for the plain type gets one parser from the dictionary and the other from the scan. |
| RequestNegotiation.ShadowedBySample | dmr/negotiation.py:92-102 | So it does for `application/json` and `application/json; version=1`. |
| RequestNegotiation.FastPathRefinesScan | dmr/negotiation.py:88-111 | With canonical types without parameters every request is decided as the scan alone would. |
| SchemaMapper.WriteFields | dmr/openapi/mappers/schema_normalization.py:67-80 | The loop writes the fields that are set, a later one over an earlier one of the same key. |
| SchemaRoundTrip.PlainUnchanged | dmr/openapi/mappers/schema_normalization.py:115-143 | Dumping plain data returns it unchanged, at every depth. |
| SchemaRoundTrip.WrittenAt | dmr/openapi/mappers/schema_normalization.py:69-78 | With distinct keys, reading a key returns the value of its field, or nothing where the field was skipped. |
| SchemaRoundTrip.CamelCompound | dmr/openapi/mappers/schema_normalization.py:106-111 | The key of a compound name is its first part followed by the capitalized second one. |
| SchemaRoundTrip.SortNullLastLaws | dmr/openapi/mappers/schema_loader.py:235-261 | Putting nulls last is a permutation, keeps the order on both sides, and changes nothing the second time. |
| SchemaRoundTrip.NullsLast | dmr/openapi/mappers/schema_loader.py:243-260 | Behind the first schema of type null there are only such schemas. |
| SchemaRoundTrip.DumpedSchema | dmr/openapi/mappers/schema_normalization.py:69-78 | Key by key: every attribute of a schema under its own key, `$anchor`, `$comment` and `$schema` included, unset ones and an empty `required` left out, no other key. |
| SchemaRoundTrip.DumpedParts | dmr/openapi/mappers/schema_normalization.py:69-78 | The same for references and discriminators. |
| SchemaRoundTrip.LettersAndTruth | dmr/openapi/mappers/schema_normalization.py:73-74 | An empty `required` is an empty value of any kind; capitals go letter by letter. |
| SchemaRoundTrip.SchemaTaken | dmr/openapi/mappers/schema_loader.py:44-232 | The loader raises exactly on what is not of its grammar, at every depth. |
| SchemaRoundTrip.SchemaReloads | dmr/openapi/mappers/schema_loader.py:44-173 | Whatever is loaded from a dump is clean, and the dump of a clean schema loads as its canonical form. |
| SchemaRoundTrip.CanonTwice | dmr/openapi/mappers/schema_loader.py:235-261 | The canonical form of a canonical form is itself, at every depth. |
| SchemaRoundTrip.RoundTrip | dmr/openapi/mappers/schema_loader.py:44-173 | Loading a dumped schema gives its canonical form if and only if the schema is clean at every depth. |
| SchemaRoundTrip.CommentIsLost | dmr/openapi/mappers/schema_loader.py:67-127 | No schema with a `$comment` comes back. |
| SchemaRoundTrip.SecondRoundTrip | dmr/openapi/mappers/schema_normalization.py:59-143 | A second round trip changes nothing. |

## Left out

- Clocks that run backwards: only the Redis script guards against them, so the backends would differ.
- Limits or durations of zero: the code accepts them without a check, and no bound is meant to hold.
- Cache eviction under memory pressure, and several processes on one Django cache, which the code calls
  not atomic. The locks are those of the endpoints of one process.
- Redis: Python and Redis read the same clock in whole seconds, a counter expires at the very second of
  its time to live, and keys of another type do not occur.
- View-only reads of the scripts and `ThrottlingReport`.
- The text of response headers; the model has the numbers behind them.
- Asynchronous throttles and checks: the same steps as the synchronous ones.
- ThrottleChain.Endpoint.Throttle: its store never forgets; `BackendLaws.BackendsAgree` says why that
  makes no difference.
- ThrottleChain.Endpoint.RunChecks: whether negotiation succeeds is an input; `ResponseNegotiation` says
  when it does. Users are numbers. In `RequestThreads` both checks are inputs.
- Cache keys: methods and classes have non-empty names without colons, as in Python source. The key
  prints a class without its module, so classes of one name in two modules count as one.
- Custom `linebreak` patterns, and separators other than CRLF, CR and LF.
- UTF-8 and JSON encoding: ids, names, comments and payloads are byte strings.
- Events of other classes than `SSEvent`, which may skip `check_event_field`, and the error that the
  renderer raises for objects that are no events.
- Producer: `_next_event` is one step with an event, an end or an error as its outcome, so validation of
  events and `handle_event_error` are inside it; serialization does not fail. Cancelling the plain
  producer while it waits for the source, which ends it like an exhausted source, is not modelled. An
  aborted run leaves its event task and timer behind, in the code as in the model.
- Parsing of `q` as a floating point number and the regular expressions for header parameters: the
  model has any function in their place. Lower case and blanks are those of ASCII.
- RequestNegotiation.FastPathExact: asks of the parser of media types, which is not part of this model,
  that it invents no wildcards and that written parameters are read as parameters.
- RequestNegotiation.ScanIsBest: matching follows the branch for Django before 5.2; later versions call
  Django's own method, which is not part of this model.
- OpenAPI: example generation, the pydantic loader, the kinds of exceptions that the loader raises, and
  the fields that repeat a modelled shape (`dependentSchemas`, `prefixItems`, `xml` and others).
- Endpoint metadata, type-hint inference, URL resolution and the authentication backends.
