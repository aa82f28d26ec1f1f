/** The station arrival board served from a cached snapshot (BusService.listBusArrival).

    A snapshot is the aggregated list of one station together with the instant
    it was captured. The repository keeps one snapshot per station name and
    answers a lookup at instant `now` only while the snapshot is younger than
    the cache's time to live. On a miss the service aggregates anew and stores
    the fresh snapshot; on a hit it reuses the stored one. Either way the
    response carries the snapshot's own capture instant, and every predicted
    time is reduced by the seconds elapsed since that instant, never below 0.
    Instants are whole seconds.
*/
module BusService {
  import opened Wrappers
  import opened OpenApiBus

  /** A stored snapshot: when it was captured and what the aggregation returned then. */
  datatype CachedArrivals = CachedArrivals(capturedAt: int, arrivals: seq<BusArrival>)

  /** What the service answers: the capture instant and the decayed entries. */
  datatype ArrivalResponse = ArrivalResponse(capturedAt: int, arrivals: seq<BusArrival>)

  // ---------------------------------------------------------------------------
  // Linear decay of predicted times
  // ---------------------------------------------------------------------------

  /** A predicted time `elapsed` seconds later, floored at 0. */
  function DecayEta(eta: nat, elapsed: int): (r: nat)
    ensures r + elapsed >= eta
    ensures r == 0 || r + elapsed == eta
  {
    if eta - elapsed < 0 then 0 else eta - elapsed
  }

  /** One entry `elapsed` seconds later: both predicted times decay by the same
      amount, independently of each other; the bus number and the status are
      not reclassified. With no time elapsed the entry is unchanged; as time
      passes no predicted time grows, and the first stays no later than the
      second. */
  function Decay(a: BusArrival, elapsed: int): (r: BusArrival)
    ensures r.busNo == a.busNo && r.status == a.status
    ensures r.eta2.Some? <==> a.eta2.Some?
    ensures elapsed == 0 ==> r == a
    ensures 0 <= elapsed ==> r.eta1 <= a.eta1 && (a.eta2.Some? ==> r.eta2.value <= a.eta2.value)
    ensures a.eta2.Some? && a.eta1 <= a.eta2.value ==> r.eta1 <= r.eta2.value
  {
    BusArrival(a.busNo, DecayEta(a.eta1, elapsed),
      match a.eta2 case None => None case Some(t) => Some(DecayEta(t, elapsed)), a.status)
  }

  /** Every entry of a list `elapsed` seconds later, in the same order. */
  function DecayAll(s: seq<BusArrival>, elapsed: int): (r: seq<BusArrival>)
    ensures |r| == |s|
    ensures forall i :: 0 <= i < |s| ==> r[i] == Decay(s[i], elapsed)
  {
    if s == [] then [] else DecayAll(s[..|s| - 1], elapsed) + [Decay(s[|s| - 1], elapsed)]
  }

  /** With no time elapsed the entries are returned unchanged (the miss case). */
  lemma DecayAllFresh(s: seq<BusArrival>)
    ensures DecayAll(s, 0) == s
  {
    var r := DecayAll(s, 0);
    forall i | 0 <= i < |s| ensures r[i] == s[i] {
      assert r[i] == Decay(s[i], 0);
    }
  }

  /** Decaying by `x` seconds and then by `y` more is decaying by `x + y`: the
      floor at 0 does not distort later decay. */
  lemma DecayAllCompose(s: seq<BusArrival>, x: int, y: int)
    requires 0 <= y
    ensures DecayAll(DecayAll(s, x), y) == DecayAll(s, x + y)
  {
    var once := DecayAll(s, x);
    var twice := DecayAll(once, y);
    var whole := DecayAll(s, x + y);
    forall i | 0 <= i < |s| ensures twice[i] == whole[i] {
      assert twice[i] == Decay(once[i], y);
      assert once[i] == Decay(s[i], x);
      DecayEtaCompose(s[i].eta1, x, y);
      if s[i].eta2.Some? {
        DecayEtaCompose(s[i].eta2.value, x, y);
      }
    }
  }

  lemma DecayEtaCompose(eta: nat, x: int, y: int)
    requires 0 <= y
    ensures DecayEta(DecayEta(eta, x), y) == DecayEta(eta, x + y)
  {
  }

  /** The longer the snapshot has been kept, the smaller (or equal) every predicted time. */
  lemma DecayAllMonotone(s: seq<BusArrival>, x: int, y: int, i: nat)
    requires x <= y && i < |s|
    ensures DecayAll(s, y)[i].eta1 <= DecayAll(s, x)[i].eta1
    ensures s[i].eta2.Some? ==> DecayAll(s, y)[i].eta2.value <= DecayAll(s, x)[i].eta2.value
  {
  }

  /** Decay keeps the first predicted time no later than the second. */
  lemma DecayAllKeepsOrder(s: seq<BusArrival>, elapsed: int, i: nat)
    requires i < |s| && s[i].eta2.Some? && s[i].eta1 <= s[i].eta2.value
    ensures DecayAll(s, elapsed)[i].eta2.Some?
    ensures DecayAll(s, elapsed)[i].eta1 <= DecayAll(s, elapsed)[i].eta2.value
  {
  }

  /** The interpolation scenario: entries (30, 60) and (5, 8) captured 10 s ago
      read (20, 50) and (0, 0); the second pair is floored at 0. */
  lemma DecayScenario(b1: string, b2: string, st1: BusStatus, st2: BusStatus)
    ensures DecayAll([BusArrival(b1, 30, Some(60), st1), BusArrival(b2, 5, Some(8), st2)], 10) ==
      [BusArrival(b1, 20, Some(50), st1), BusArrival(b2, 0, Some(0), st2)]
  {
    var s := [BusArrival(b1, 30, Some(60), st1), BusArrival(b2, 5, Some(8), st2)];
    var r := DecayAll(s, 10);
    assert r[0] == Decay(s[0], 10);
    assert r[1] == Decay(s[1], 10);
  }

  // ---------------------------------------------------------------------------
  // The per-station cache
  // ---------------------------------------------------------------------------

  /** The snapshot a lookup at `now` returns: the stored one while it is younger than `ttl`. */
  function FreshSnapshot(slots: map<string, CachedArrivals>, ttl: nat, station: string, now: int): Option<CachedArrivals>
  {
    if station in slots && now - slots[station].capturedAt < ttl then Some(slots[station]) else None
  }

  /** A snapshot returned at `t2` is returned, unchanged, at every instant
      between its capture and `t2`. */
  lemma FreshSnapshotEarlier(slots: map<string, CachedArrivals>, ttl: nat, station: string, t1: int, t2: int)
    requires FreshSnapshot(slots, ttl, station, t2).Some?
    requires FreshSnapshot(slots, ttl, station, t2).value.capturedAt <= t1 <= t2
    ensures FreshSnapshot(slots, ttl, station, t1) == FreshSnapshot(slots, ttl, station, t2)
  {
  }

  /** Once a snapshot is `ttl` seconds old no lookup returns it again, and the
      stored snapshot is the only one a lookup can return. */
  lemma FreshSnapshotExpires(slots: map<string, CachedArrivals>, ttl: nat, station: string, now: int)
    requires station in slots && slots[station].capturedAt + ttl <= now
    ensures FreshSnapshot(slots, ttl, station, now).None?
    ensures forall t :: FreshSnapshot(slots, ttl, station, t).Some? ==> FreshSnapshot(slots, ttl, station, t).value == slots[station]
  {
  }

  /** The response built from a snapshot at `now`: it carries the snapshot's
      capture instant and one entry per stored entry; queried at the capture
      instant it shows the stored predicted times exactly, and later it shows
      none larger than stored. */
  function Respond(snapshot: CachedArrivals, now: int): (r: ArrivalResponse)
    ensures r.capturedAt == snapshot.capturedAt
    ensures |r.arrivals| == |snapshot.arrivals|
    ensures now == snapshot.capturedAt ==> r.arrivals == snapshot.arrivals
    ensures snapshot.capturedAt <= now ==>
      forall i :: 0 <= i < |r.arrivals| ==> r.arrivals[i].eta1 <= snapshot.arrivals[i].eta1
  {
    DecayAllFresh(snapshot.arrivals);
    ArrivalResponse(snapshot.capturedAt, DecayAll(snapshot.arrivals, now - snapshot.capturedAt))
  }

  /** One request for `station` at `now`: the cache after it and the response.
      `fetch` is the aggregation, asked only on a miss. */
  function Serve(slots: map<string, CachedArrivals>, ttl: nat, station: string, now: int,
                 fetch: string -> seq<BusArrival>): (r: (map<string, CachedArrivals>, ArrivalResponse))
    ensures FreshSnapshot(slots, ttl, station, now).Some? ==>
      r.0 == slots && r.1 == Respond(slots[station], now)
    ensures FreshSnapshot(slots, ttl, station, now).None? ==>
      r.0 == slots[station := CachedArrivals(now, fetch(station))] &&
      r.1.capturedAt == now && |r.1.arrivals| == |fetch(station)|
  {
    match FreshSnapshot(slots, ttl, station, now)
    case Some(snapshot) => (slots, Respond(snapshot, now))
    case None =>
      var snapshot := CachedArrivals(now, fetch(station));
      (slots[station := snapshot], Respond(snapshot, now))
  }

  /** A miss answers exactly what the aggregation returned, captured now. */
  lemma ServeMiss(slots: map<string, CachedArrivals>, ttl: nat, station: string, now: int, fetch: string -> seq<BusArrival>)
    requires FreshSnapshot(slots, ttl, station, now).None?
    ensures Serve(slots, ttl, station, now, fetch).1 == ArrivalResponse(now, fetch(station))
  {
    DecayAllFresh(fetch(station));
  }

  /** The response always carries the capture instant of the snapshot it comes
      from, never the query instant (unless the snapshot is captured now), and
      has as many entries as the snapshot. */
  lemma ServeKeepsCapture(slots: map<string, CachedArrivals>, ttl: nat, station: string, now: int, fetch: string -> seq<BusArrival>)
    ensures var (after, r) := Serve(slots, ttl, station, now, fetch);
      station in after && r.capturedAt == after[station].capturedAt &&
      |r.arrivals| == |after[station].arrivals|
  {
  }

  /** Requests for one station leave every other station's snapshot alone. */
  lemma ServeOthersUnchanged(slots: map<string, CachedArrivals>, ttl: nat, station: string, other: string, now: int,
                             fetch: string -> seq<BusArrival>)
    requires other != station
    ensures var after := Serve(slots, ttl, station, now, fetch).0;
      (other in after <==> other in slots) && (other in slots ==> after[other] == slots[other])
  {
  }

  /** Two requests: a second request within the time to live of the snapshot
      the first one answered from does not aggregate again (whatever `fetch2`
      would return); both answers come from that same snapshot, each decayed to
      its own instant. */
  lemma ServeTwice(slots: map<string, CachedArrivals>, ttl: nat, station: string, t1: int, t2: int,
                   fetch1: string -> seq<BusArrival>, fetch2: string -> seq<BusArrival>)
    requires t2 - Serve(slots, ttl, station, t1, fetch1).1.capturedAt < ttl
    ensures var first := Serve(slots, ttl, station, t1, fetch1);
      var second := Serve(first.0, ttl, station, t2, fetch2);
      && station in first.0
      && second.0 == first.0
      && first.1 == Respond(first.0[station], t1)
      && second.1 == Respond(first.0[station], t2)
  {
    var first := Serve(slots, ttl, station, t1, fetch1);
    ServeKeepsCapture(slots, ttl, station, t1, fetch1);
    var snapshot := first.0[station];
    assert first.1 == Respond(snapshot, t1) by {
      if FreshSnapshot(slots, ttl, station, t1).None? {
        assert snapshot == CachedArrivals(t1, fetch1(station));
      }
    }
    assert FreshSnapshot(first.0, ttl, station, t2) == Some(snapshot);
  }

  /** The repository of snapshots, one slot per station name. */
  class BusArrivalRepository {
    /** How long a snapshot is served, in seconds. */
    const ttl: nat
    var slots: map<string, CachedArrivals>

    constructor(ttl: nat)
      ensures this.ttl == ttl && slots == map[]
    {
      this.ttl := ttl;
      slots := map[];
    }

    /** The snapshot of `station` if it is still fresh at `now`. */
    method GetArrivals(station: string, now: int) returns (r: Option<CachedArrivals>)
      ensures r == FreshSnapshot(slots, ttl, station, now)
    {
      if station in slots && now - slots[station].capturedAt < ttl {
        r := Some(slots[station]);
      } else {
        r := None;
      }
    }

    /** Stores `arrivals` as the snapshot of `station` captured at `now`. */
    method CacheArrivals(station: string, arrivals: seq<BusArrival>, now: int) returns (cached: CachedArrivals)
      modifies this
      ensures cached == CachedArrivals(now, arrivals)
      ensures slots == old(slots)[station := cached]
    {
      cached := CachedArrivals(now, arrivals);
      slots := slots[station := cached];
    }
  }

  /** The service in front of the repository. */
  class BusArrivalService {
    const repository: BusArrivalRepository

    constructor(repository: BusArrivalRepository)
      ensures this.repository == repository
    {
      this.repository := repository;
    }

    /** Answers a request for `station` at `now`, aggregating through `fetch` on a miss. */
    method ListBusArrival(station: string, now: int, fetch: string -> seq<BusArrival>) returns (r: ArrivalResponse)
      modifies repository
      ensures (repository.slots, r) == Serve(old(repository.slots), repository.ttl, station, now, fetch)
    {
      var hit := repository.GetArrivals(station, now);
      var snapshot: CachedArrivals;
      if hit.Some? {
        snapshot := hit.value;
      } else {
        snapshot := repository.CacheArrivals(station, fetch(station), now);
      }
      var elapsed := now - snapshot.capturedAt;
      var decayed := [];
      for i := 0 to |snapshot.arrivals|
        invariant decayed == DecayAll(snapshot.arrivals[..i], elapsed)
      {
        assert snapshot.arrivals[..i + 1][..i] == snapshot.arrivals[..i];
        decayed := decayed + [Decay(snapshot.arrivals[i], elapsed)];
      }
      assert snapshot.arrivals[..|snapshot.arrivals|] == snapshot.arrivals;
      r := ArrivalResponse(snapshot.capturedAt, decayed);
    }
  }
}
