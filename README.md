# Student-council backend: bus arrivals, home-bus tickets and view counts

A Dafny model of four behaviours of the Dankook University student-council
backend (`next-student-council-backend`). The service classes behind them are
not part of this model's sources; each behaviour is modelled from what the
repository's unit tests for it assert, and proved for all inputs rather than
for the tests' fixtures alone.

- **Bus-arrival aggregation** (`OpenApiBusService.retrieveBusArrival`,
  module `OpenApiBus`, `open_api_bus.dfy`). Several providers, each with a
  prefix (`GG_`, `T_`, `DKU_`), report readings (plain bus number, first ETA,
  optional second ETA) for one station. The station's route list names which
  prefixed routes it is served by. Readings of routes the station does not
  serve are dropped; repeated readings of one bus number are merged into one
  entry; then a predictor is asked for every plain bus number of the route
  list and each bus is classified:
  - STOP when the predictor has no estimate, even if a live reading exists;
  - RUN when the predictor has an estimate and the earliest live ETA is at
    most the "imminent" threshold;
  - PREDICT when the predictor has an estimate and there is no live reading
    (the entry then carries the predicted duration) or the live ETA is above
    the threshold;
  - no entry when there is neither a live reading nor an estimate.

  `RetrieveBusArrival` builds the merge table step by step over the
  providers (`MergeProvider`) and then walks the route list; it is proved
  equal to the specification function `Aggregate`, whose properties are
  the lemmas below. The threshold, the route list and the predictor are
  parameters.
- **Cached snapshot with linear decay** (`BusService.listBusArrival`, module
  `BusService`, `bus_service.dfy`). A repository keeps one snapshot
  `(capturedAt, arrivals)` per station name; a snapshot is fresh while
  `now - capturedAt < ttl`. On a miss the aggregator is asked and the result
  is cached with `capturedAt = now`. Either way the response keeps the
  snapshot's `capturedAt` and subtracts the elapsed seconds from both ETAs
  of every entry, floored at 0. The classes `BusArrivalRepository` and
  `BusArrivalService` hold the state; `ListBusArrival` is proved equal to the
  function `Serve`.
- **Home-bus tickets** (`HomeBusUserService`, module `HomeBus`,
  `home_bus.dfy`). A store of users' campuses, buses (id, total seats),
  tickets (user, bus, status) and cancel requests. `listBus` shows each bus
  with its remaining seats (total minus requested) and the user's ticket
  status; `createTicket` refuses an unknown user or bus, a duplicate ticket,
  a non-Jukjeon campus and a full bus, and otherwise saves a NEED_APPROVAL
  ticket; `deleteTicket` refuses a missing ticket and a second cancel, and
  otherwise saves a cancel request and moves the ticket to
  NEED_CANCEL_APPROVAL. The class `HomeBusUserService` is proved against
  the functions `Listing`, `Issue` and `Cancel`, which keep the store
  invariant `Valid` (unique bus ids, known ticket holders, one ticket per
  user and bus, requested seats within total seats, every cancel request
  names a ticket awaiting cancel approval).
- **Expiring view-count set** (`ViewCountRedisRepository`, module
  `ViewCount`, `view_count.dfy`). `put` records a (post, user) pair with the
  expiry instant `now + expiresAfter`; `isAlreadyContains` is true while the
  query instant is before that expiry. The class `ViewCountRepository` keeps
  a ghost history of its `put` calls and the store is the replay of that
  history.

Instants and durations are whole seconds (`int`/`nat`). `wrappers.dfy`
holds the `Option` datatype.

## Model

| member | source | states |
|---|---|---|
| OpenApiBus.KeptMembers | src/test/java/com/dku/council/infra/bus/service/OpenApiBusServiceTest.java:58-60 | a reading of a provider is kept exactly when the station's route list holds the provider's prefix with the reading's bus number |
| OpenApiBus.JoinedMembers | src/test/java/com/dku/council/infra/bus/service/OpenApiBusServiceTest.java:68-70 | a reading is in the join of all providers exactly when some provider reported it for a route the station serves; an empty provider list contributes nothing |
| OpenApiBus.EtasForMembers | src/test/java/com/dku/council/infra/bus/service/OpenApiBusServiceTest.java:109-121 | the ETAs gathered for a bus number are exactly the ETAs of the readings carrying that number, across and within providers |
| OpenApiBus.EtasForNonEmpty | src/test/java/com/dku/council/infra/bus/service/OpenApiBusServiceTest.java:109-121 | a bus number has gathered ETAs exactly when some reading carries it |
| OpenApiBus.ReportedIffJoined | src/test/java/com/dku/council/infra/bus/service/OpenApiBusServiceTest.java:68-70 | a bus is reported live at the station exactly when the join holds an ETA for it |
| OpenApiBus.JoinedEtas | src/test/java/com/dku/council/infra/bus/service/OpenApiBusServiceTest.java:104-122 | an ETA is gathered for a bus exactly when some provider's reading of that bus carries it and the provider's route serves the station |
| OpenApiBus.AbsorbTwoSoonest | src/test/java/com/dku/council/infra/bus/service/OpenApiBusServiceTest.java:109-121 | merging one more ETA into an entry keeps it holding the soonest ETA seen and the soonest later one; an ETA equal to the soonest (the same run seen again) changes nothing |
| OpenApiBus.FoldTwoSoonest | src/test/java/com/dku/council/infra/bus/service/OpenApiBusServiceTest.java:109-121 | the merge of a bus's ETAs holds their soonest ETA and the soonest later one, and no second ETA exactly when all of them are the soonest |
| OpenApiBus.TableIsFold | src/test/java/com/dku/council/infra/bus/service/OpenApiBusServiceTest.java:79-89 | the merge table has an entry for a bus exactly when it has readings, and that entry is the merge of all its ETAs |
| OpenApiBus.Classify | src/test/java/com/dku/council/infra/bus/service/OpenApiBusServiceTest.java:72-99 | no entry iff neither live reading nor estimate; STOP iff no estimate; RUN iff estimate and live ETA within threshold; live ETAs are carried over; without live reading the estimate is the ETA with status PREDICT |
| OpenApiBus.PlainNumbers | src/test/java/com/dku/council/infra/bus/service/OpenApiBusServiceTest.java:58-84 | the plain bus numbers of the route list, each exactly once and nothing else |
| OpenApiBus.AssembleShape | src/test/java/com/dku/council/infra/bus/service/OpenApiBusServiceTest.java:79-89 | every entry is a classified route number, no number appears twice, and a route number appears exactly when it has live readings or an estimate |
| OpenApiBus.AggregateOneEntryPerBus | src/test/java/com/dku/council/infra/bus/service/OpenApiBusServiceTest.java:80-89 | the result never holds two entries for one bus number |
| OpenApiBus.AggregateOnlyServedRoutes | src/test/java/com/dku/council/infra/bus/service/OpenApiBusServiceTest.java:92-119 | every entry's bus number is the plain number of a route the station serves |
| OpenApiBus.AggregateCoverage | src/test/java/com/dku/council/infra/bus/service/OpenApiBusServiceTest.java:70-99 | a served route appears exactly when it is reported live or the predictor has an estimate for it |
| OpenApiBus.AggregateStatus | src/test/java/com/dku/council/infra/bus/service/OpenApiBusServiceTest.java:72-99 | STOP iff the predictor has no estimate (and then the bus is reported live); RUN iff estimate, live and the earliest ETA within threshold; PREDICT iff estimate and either no live reading or an ETA above threshold |
| OpenApiBus.AggregateEtas | src/test/java/com/dku/council/infra/bus/service/OpenApiBusServiceTest.java:97-121 | a live entry holds the soonest gathered ETA and the soonest later one (first strictly before second); a predicted-only entry holds the estimate and no second ETA |
| OpenApiBus.GateSeen | src/test/java/com/dku/council/infra/bus/service/OpenApiBusServiceTest.java:104-122 | at the gate station "24", "720-3" (at 5 s and at 150 s) and "102" are reported live |
| OpenApiBus.GateUnseen | src/test/java/com/dku/council/infra/bus/service/OpenApiBusServiceTest.java:70-99 | at the gate station "1101", "8100" and "shuttle-bus" have no live reading |
| OpenApiBus.GateUnserved | src/test/java/com/dku/council/infra/bus/service/OpenApiBusServiceTest.java:107-119 | "101", "1234" and "7007-1", although reported, never appear in the gate result |
| OpenApiBus.GateEtasOf720 | src/test/java/com/dku/council/infra/bus/service/OpenApiBusServiceTest.java:107-119 | every ETA gathered for "720-3" at the gate is 5 s or 150 s |
| OpenApiBus.GateMerged | src/test/java/com/dku/council/infra/bus/service/OpenApiBusServiceTest.java:109-121 | the gate's "720-3", seen at 5 s by both providers and at 150 s by one, is one RUN entry with 5 s first and 150 s second |
| OpenApiBus.GateRun | src/test/java/com/dku/council/infra/bus/service/OpenApiBusServiceTest.java:97-121 | "24" and "720-3" are RUN although the predictor has an estimate for them |
| OpenApiBus.GatePredicted | src/test/java/com/dku/council/infra/bus/service/OpenApiBusServiceTest.java:72-99 | "1101", "8100" and "shuttle-bus" are PREDICT |
| OpenApiBus.GateScenario | src/test/java/com/dku/council/infra/bus/service/OpenApiBusServiceTest.java:63-101 | with the test's providers and predictor, the result has distinct bus numbers and its (bus, status) pairs are exactly 102 STOP, 1101 PREDICT, 8100 PREDICT, 720-3 RUN, 24 RUN, shuttle-bus PREDICT |
| OpenApiBus.MergeProvider | src/test/java/com/dku/council/infra/bus/service/OpenApiBusServiceTest.java:68-70 | merging one provider's kept readings into the table gives the table of the longer join |
| OpenApiBus.KeptStep | src/test/java/com/dku/council/infra/bus/service/OpenApiBusServiceTest.java:68-70 | one more reading of a provider adds itself to the table when its route is served and leaves the join alone otherwise |
| OpenApiBus.RetrieveBusArrival | src/test/java/com/dku/council/infra/bus/service/OpenApiBusServiceTest.java:76 | the arrivals are `Aggregate` of the providers, routes, predictor and threshold |
| BusService.DecayEta | src/test/java/java/com/dku/council/domain/bus/service/BusServiceTest.java:103-106 | a decayed ETA is the stored ETA minus the elapsed seconds, or 0 when that would be negative |
| BusService.Decay | src/test/java/java/com/dku/council/domain/bus/service/BusServiceTest.java:101-106 | bus number and status are not reclassified, a second ETA stays present or absent, no elapsed time leaves the entry unchanged, with time passing no ETA grows, and first-before-second is kept |
| BusService.DecayAll | src/test/java/java/com/dku/council/domain/bus/service/BusServiceTest.java:102-106 | decay keeps the count, and output index i is the decay of input index i |
| BusService.DecayAllFresh | src/test/java/java/com/dku/council/domain/bus/service/BusServiceTest.java:62-81 | no elapsed time leaves the list as it is |
| BusService.DecayAllCompose | src/test/java/java/com/dku/council/domain/bus/service/BusServiceTest.java:94-104 | decaying twice is decaying once by the sum of the elapsed times |
| BusService.DecayAllMonotone | src/test/java/java/com/dku/council/domain/bus/service/BusServiceTest.java:103-106 | a later query never shows a larger ETA |
| BusService.DecayAllKeepsOrder | src/test/java/java/com/dku/council/domain/bus/service/BusServiceTest.java:103-106 | an entry whose first ETA is at most its second keeps that order after decay |
| BusService.DecayScenario | src/test/java/java/com/dku/council/domain/bus/service/BusServiceTest.java:90-106 | (30, 60) and (5, 8) decayed by 10 s give (20, 50) and (0, 0) |
| BusService.FreshSnapshotEarlier | src/test/java/java/com/dku/council/domain/bus/service/BusServiceTest.java:74-95 | a snapshot the lookup returns at some instant is returned, unchanged, at every earlier instant since its capture |
| BusService.FreshSnapshotExpires | src/test/java/java/com/dku/council/domain/bus/service/BusServiceTest.java:74-95 | once the stored snapshot is ttl seconds old the lookup returns nothing, and it never returns anything but the stored snapshot |
| BusService.Respond | src/test/java/java/com/dku/council/domain/bus/service/BusServiceTest.java:101-106 | the response keeps the snapshot's capture instant and entry count; at the capture instant it equals the stored list, and later no first ETA is larger than stored |
| BusService.Serve | src/test/java/java/com/dku/council/domain/bus/service/BusServiceTest.java:55-81 | a hit leaves the cache alone and answers from the snapshot; a miss stores the fetched list captured now and answers with it at full length |
| BusService.ServeMiss | src/test/java/java/com/dku/council/domain/bus/service/BusServiceTest.java:55-63 | on a miss the response is exactly the fetched list, captured now |
| BusService.ServeKeepsCapture | src/test/java/java/com/dku/council/domain/bus/service/BusServiceTest.java:62-101 | after any call the station is cached and the response's capture instant and length are the cached snapshot's |
| BusService.ServeOthersUnchanged | src/test/java/java/com/dku/council/domain/bus/service/BusServiceTest.java:55-74 | a call for one station leaves every other station's slot unchanged |
| BusService.ServeTwice | src/test/java/java/com/dku/council/domain/bus/service/BusServiceTest.java:74-106 | a second call within the ttl is a hit on the snapshot the first stored or found, and both responses come from that one snapshot |
| BusService.BusArrivalRepository.GetArrivals | src/test/java/java/com/dku/council/domain/bus/service/BusServiceTest.java:74 | returns the station's fresh snapshot, if any |
| BusService.BusArrivalRepository.CacheArrivals | src/test/java/java/com/dku/council/domain/bus/service/BusServiceTest.java:55 | stores and returns the snapshot captured now under the station name, leaving the other slots |
| BusService.BusArrivalService.ListBusArrival | src/test/java/java/com/dku/council/domain/bus/service/BusServiceTest.java:47-107 | the new cache and the response are those of `Serve` on the old cache |
| HomeBus.RequestedSeats | src/test/java/java/com/dku/council/domain/homebus/service/HomeBusUserServiceTest.java:90-116 | the requested seats of a bus are at most the number of tickets, and zero exactly when no ticket names the bus |
| HomeBus.TicketIndex | src/test/java/java/com/dku/council/domain/homebus/service/HomeBusUserServiceTest.java:197-198 | finds the user's ticket for the bus exactly when one exists |
| HomeBus.StatusFor | src/test/java/java/com/dku/council/domain/homebus/service/HomeBusUserServiceTest.java:85-101 | NONE without a ticket, otherwise the status of a ticket the user holds for the bus |
| HomeBus.FindBus | src/test/java/java/com/dku/council/domain/homebus/service/HomeBusUserServiceTest.java:115 | finds a bus with the id exactly when the store holds one |
| HomeBus.Listing | src/test/java/java/com/dku/council/domain/homebus/service/HomeBusUserServiceTest.java:97-102 | one line per bus, in bus order |
| HomeBus.ListingRemaining | src/test/java/java/com/dku/council/domain/homebus/service/HomeBusUserServiceTest.java:80-101 | in a valid store each line's remaining seats are total minus requested, between 0 and the total |
| HomeBus.ListingBounds | src/test/java/java/com/dku/council/domain/homebus/service/HomeBusUserServiceTest.java:80-101 | in a valid store every line of the listing shows between 0 and the bus's total seats |
| HomeBus.ListingScenario | src/test/java/java/com/dku/council/domain/homebus/service/HomeBusUserServiceTest.java:80-102 | buses of 100/150/200 seats with 40 requested each, one ISSUED ticket on the first, list as 60 ISSUED, 110 NONE, 160 NONE |
| HomeBus.Issue | src/test/java/java/com/dku/council/domain/homebus/service/HomeBusUserServiceTest.java:110-185 | each refusal (unknown user, unknown bus, duplicate, non-Jukjeon, full) holds exactly under its condition in that order; a refusal changes nothing; otherwise one NEED_APPROVAL ticket for the user and bus is appended |
| HomeBus.Cancel | src/test/java/java/com/dku/council/domain/homebus/service/HomeBusUserServiceTest.java:192-233 | no ticket refuses with ticket-not-found; a ticket awaiting cancel approval refuses as already requested; otherwise the ticket moves to NEED_CANCEL_APPROVAL and a cancel request with the form's depositor, account and bank is saved |
| HomeBus.RequestedSeatsAppend | src/test/java/java/com/dku/council/domain/homebus/service/HomeBusUserServiceTest.java:123-128 | a new ticket adds one requested seat to its bus and none to the others |
| HomeBus.RequestedSeatsRestate | src/test/java/java/com/dku/council/domain/homebus/service/HomeBusUserServiceTest.java:231 | changing a ticket's status does not change requested seats |
| HomeBus.TicketIndexRestate | src/test/java/java/com/dku/council/domain/homebus/service/HomeBusUserServiceTest.java:231-233 | changing a ticket's status does not change which ticket is found |
| HomeBus.AppendWithinSeats | src/test/java/java/com/dku/council/domain/homebus/service/HomeBusUserServiceTest.java:174-185 | appending a ticket to a bus below its total keeps every bus within its seats |
| HomeBus.AppendOneTicket | src/test/java/java/com/dku/council/domain/homebus/service/HomeBusUserServiceTest.java:159-166 | appending a ticket the user does not yet hold keeps one ticket per user and bus |
| HomeBus.IssueKeepsValid | src/test/java/java/com/dku/council/domain/homebus/service/HomeBusUserServiceTest.java:110-185 | issuing keeps the store invariant |
| HomeBus.RestateWithinSeats | src/test/java/java/com/dku/council/domain/homebus/service/HomeBusUserServiceTest.java:231 | a status change keeps every bus within its seats |
| HomeBus.RestateCancels | src/test/java/java/com/dku/council/domain/homebus/service/HomeBusUserServiceTest.java:204-231 | moving a ticket to cancel approval together with its request keeps every request naming a ticket awaiting approval |
| HomeBus.CancelKeepsValid | src/test/java/java/com/dku/council/domain/homebus/service/HomeBusUserServiceTest.java:192-233 | cancelling keeps the store invariant |
| HomeBus.IssueShowsInListing | src/test/java/java/com/dku/council/domain/homebus/service/HomeBusUserServiceTest.java:97-128 | after an issue the bus's line shows NEED_APPROVAL and one seat fewer, every other line is unchanged |
| HomeBus.IssueTwiceRefused | src/test/java/java/com/dku/council/domain/homebus/service/HomeBusUserServiceTest.java:159-166 | issuing the same bus to the same user again is refused as a duplicate and changes nothing |
| HomeBus.CancelTwiceRefused | src/test/java/java/com/dku/council/domain/homebus/service/HomeBusUserServiceTest.java:228-233 | after a cancel the status is NEED_CANCEL_APPROVAL and a second cancel is refused and changes nothing |
| HomeBus.IssueSeatBoundary | src/test/java/java/com/dku/council/domain/homebus/service/HomeBusUserServiceTest.java:110-185 | with one seat left the request is accepted (30 of 31); with requested equal to the total it is refused as full (50 of 50) |
| HomeBus.HomeBusUserService.constructor | src/test/java/java/com/dku/council/domain/homebus/service/HomeBusUserServiceTest.java:66-67 | a service over buses with distinct ids starts with the given campuses and buses, no tickets or requests, and the store invariant |
| HomeBus.HomeBusUserService.ListBus | src/test/java/java/com/dku/council/domain/homebus/service/HomeBusUserServiceTest.java:94-102 | returns `Listing` of the current buses and tickets, each line between 0 and the bus's total seats |
| HomeBus.HomeBusUserService.CreateTicket | src/test/java/java/com/dku/council/domain/homebus/service/HomeBusUserServiceTest.java:120-185 | the new state and outcome are those of `Issue` on the old state, and the store invariant is kept |
| HomeBus.HomeBusUserService.DeleteTicket | src/test/java/java/com/dku/council/domain/homebus/service/HomeBusUserServiceTest.java:201-233 | the new state and outcome are those of `Cancel` on the old state, and the store invariant is kept |
| ViewCount.PutThenContains | src/test/java/java/com/dku/council/domain/post/repository/impl/ViewCountRedisRepositoryTest.java:34-67 | right after a put the pair counts exactly at instants before `now + expiresAfter` |
| ViewCount.PutKeepsOthers | src/test/java/java/com/dku/council/domain/post/repository/impl/ViewCountRedisRepositoryTest.java:34-37 | a put does not change whether any other pair counts |
| ViewCount.ExpiredStaysExpired | src/test/java/java/com/dku/council/domain/post/repository/impl/ViewCountRedisRepositoryTest.java:79-83 | once a pair stops counting it does not count at any later instant |
| ViewCount.ViewScenarios | src/test/java/java/com/dku/council/domain/post/repository/impl/ViewCountRedisRepositoryTest.java:29-83 | 100- and 10-minute views count at the put instant; nothing put counts nothing; 60 s after expiry the view no longer counts |
| ViewCount.LastForSnoc | src/test/java/java/com/dku/council/domain/post/repository/impl/ViewCountRedisRepositoryTest.java:34-79 | a put for another pair does not change which earlier put is the last for a pair |
| ViewCount.DecidedOther | src/test/java/java/com/dku/council/domain/post/repository/impl/ViewCountRedisRepositoryTest.java:34-37 | a put for another pair does not change whether the pair's latest put lasts beyond an instant |
| ViewCount.LatestPutDecides | src/test/java/java/com/dku/council/domain/post/repository/impl/ViewCountRedisRepositoryTest.java:34-83 | after any history of puts a pair counts at `t` exactly when its most recent put lasts beyond `t` |
| ViewCount.ViewCountRepository.Put | src/test/java/java/com/dku/council/domain/post/repository/impl/ViewCountRedisRepositoryTest.java:34-79 | records the pair's expiry `now + expiresAfter`, replacing an older one, and appends the call to the history the store replays |
| ViewCount.ViewCountRepository.IsAlreadyContains | src/test/java/java/com/dku/council/domain/post/repository/impl/ViewCountRedisRepositoryTest.java:37-80 | answers `Contains` on the store, which is whether the pair's latest put lasts beyond `now` |

## Left out

- The provider HTTP clients (`GGBusProvider`, `TownBusProvider`, `ShuttleBusProvider`) are given sequences of readings, and the arrival predictor is the parameter `predict`. Their own code is not part of this model.
- The "imminent" threshold, each station's route list and the cache ttl are parameters, because the sources never fix them.
- OpenApiBus.AggregateEtas: the merged ETAs of a bus are its soonest ETA and the soonest strictly later one. The tests fix only the resulting status, so this is a design choice, not tested behaviour; the same holds for `OpenApiBus.FoldTwoSoonest`.
- OpenApiBus.FoldTwoSoonest: equal ETAs from different readings count as one run, so a bus whose readings all show the same ETA has no second ETA, even when it was reported more than once.
- Output order of `OpenApiBus.RetrieveBusArrival` is the first appearance of each plain bus number in the route list. The tests compare the result as a set, so this order is a choice.
- OpenApiBus.GateScenario: does not state the length 6 separately; distinct bus numbers together with the set equality imply it.
- The gate scenario gives the readings that `BusArrivalMock.create` makes without an ETA one common ETA `eta` at most the threshold. `BusArrivalMock` is not part of this model.
- The Redisson lock around `createTicket` and any parallel provider calls are concurrency and are left out.
- JPA and Redis persistence behind the repositories are maps and sequences. A user's campus is a map from user id to campus, and the user repository is its key set.
- The `Clock` is the parameter `now`, in whole seconds.
- MMS/SMS notification and `MessageSource` message lookup are left out.
- BusService.FreshSnapshotExpires: the ttl boundary (a snapshot is fresh while `now - capturedAt < ttl`) is a choice, because the tests only query a snapshot 0 or 10 s old.
- ViewCount.PutThenContains: the expiry boundary (a view counts while `now < expiry`) is a choice, because the tests only query at the put instant and 60 s after expiry.
- HomeBus.Issue: "duplicate" means the user already holds a ticket for the same bus, in any status. The tests only show a ticket for the same bus, so a ticket for another bus is not treated as a duplicate.
- HomeBus.Issue: the checks come in this order: user, bus, duplicate, campus, seats. The order is read from which stubs each test needs. Requested seats count every ticket of the bus, whatever its status.
- HomeBus.Cancel: a ticket in any status other than NEED_CANCEL_APPROVAL can be cancelled. The tests only cancel ISSUED tickets.
- HomeBus.Cancel: the already-requested refusal looks only at the user's ticket for this bus. `deleteTicket` also reads the user's whole ticket list (`findAllByUserId` is stubbed in `failedDeleteTicketByDuplicated`), and its role there is unknown. If it is checked for a pending cancellation on any bus, a user with a NEED_CANCEL_APPROVAL ticket on one bus would be refused when cancelling another, which this model accepts.
- `UserServiceTest`, `TagRepositoryTest` and `WrongEmailCodeException` are not part of this model. They cover login, token and profile glue, a database uniqueness constraint, and an exception without logic.
