/** Aggregation of live bus arrivals for one station (OpenApiBusService.retrieveBusArrival).

    Every provider reports the readings it has for the station. A reading is
    kept only when the station's route list names that provider's prefix
    together with the reading's bus number. Kept readings are merged per plain
    bus number, keeping the two soonest distinct ETAs. Then every plain bus number of
    the route list is classified with the predictor's answer:
      - the predictor says "no further service"  -> STOP (or no entry when no live reading),
      - a live reading with an ETA within the threshold -> RUN,
      - otherwise -> PREDICT (with the predicted duration when there is no live reading).
*/
module OpenApiBus {
  import opened Wrappers

  datatype BusStatus = Run | Predict | Stop

  /** One sighting reported by a provider: its bus number and one or two ETAs in seconds. */
  datatype Reading = Reading(busNo: string, eta1: nat, eta2: Option<nat>)

  /** What one provider returned for the station, with the prefix that names the
      provider. A provider whose upstream call failed has returned []. */
  datatype Provider = Provider(prefix: string, readings: seq<Reading>)

  /** An entry of the station's route list: a provider prefix and a plain bus number. */
  datatype Route = Route(prefix: string, busNo: string)

  /** The two soonest distinct ETAs seen so far for one bus number. */
  datatype Live = Live(eta1: nat, eta2: Option<nat>)

  /** One entry of the aggregated result. */
  datatype BusArrival = BusArrival(busNo: string, eta1: nat, eta2: Option<nat>, status: BusStatus)

  // ---------------------------------------------------------------------------
  // Joining the providers' readings
  // ---------------------------------------------------------------------------

  function ReadingEtas(r: Reading): seq<nat>
  {
    if r.eta2.Some? then [r.eta1, r.eta2.value] else [r.eta1]
  }

  /** The readings of one provider that the station's route list serves, in order. */
  function Kept(prefix: string, rs: seq<Reading>, routes: seq<Route>): seq<Reading>
  {
    if rs == [] then []
    else
      var r := rs[|rs| - 1];
      Kept(prefix, rs[..|rs| - 1], routes) + (if Route(prefix, r.busNo) in routes then [r] else [])
  }

  /** The kept readings of all providers, provider after provider. */
  function Joined(ps: seq<Provider>, routes: seq<Route>): seq<Reading>
  {
    if ps == [] then []
    else Joined(ps[..|ps| - 1], routes) + Kept(ps[|ps| - 1].prefix, ps[|ps| - 1].readings, routes)
  }

  /** Every ETA that the readings `rs` give for bus number `b`, in order. */
  function EtasFor(rs: seq<Reading>, b: string): seq<nat>
  {
    if rs == [] then []
    else
      var r := rs[|rs| - 1];
      EtasFor(rs[..|rs| - 1], b) + (if r.busNo == b then ReadingEtas(r) else [])
  }

  /** Some provider reported bus `b` and the route list serves that provider's `b`. */
  ghost predicate Reported(ps: seq<Provider>, routes: seq<Route>, b: string)
  {
    exists i, j :: 0 <= i < |ps| && 0 <= j < |ps[i].readings| &&
      ps[i].readings[j].busNo == b && Route(ps[i].prefix, b) in routes
  }

  lemma {:induction false} KeptMembers(prefix: string, rs: seq<Reading>, routes: seq<Route>)
    ensures forall r :: r in Kept(prefix, rs, routes) <==> r in rs && Route(prefix, r.busNo) in routes
  {
    if rs != [] {
      KeptMembers(prefix, rs[..|rs| - 1], routes);
      assert rs == rs[..|rs| - 1] + [rs[|rs| - 1]];
    }
  }

  /** A reading survives the join exactly when some provider reported it and
      the route list serves that provider's bus number. */
  lemma {:induction false} JoinedMembers(ps: seq<Provider>, routes: seq<Route>, r: Reading)
    ensures r in Joined(ps, routes) <==>
      exists i :: 0 <= i < |ps| && r in ps[i].readings && Route(ps[i].prefix, r.busNo) in routes
  {
    if ps != [] {
      var init := ps[..|ps| - 1];
      var last := ps[|ps| - 1];
      JoinedMembers(init, routes, r);
      KeptMembers(last.prefix, last.readings, routes);
      if r in Joined(ps, routes) {
        if r in Joined(init, routes) {
          var i :| 0 <= i < |init| && r in init[i].readings && Route(init[i].prefix, r.busNo) in routes;
          assert ps[i] == init[i];
        } else {
          assert r in last.readings && Route(last.prefix, r.busNo) in routes;
        }
      } else {
        forall i | 0 <= i < |ps| && r in ps[i].readings
          ensures Route(ps[i].prefix, r.busNo) !in routes
        {
          if i < |init| {
            assert ps[i] == init[i];
          }
        }
      }
    }
  }

  lemma {:induction false} EtasForMembers(rs: seq<Reading>, b: string, t: nat)
    ensures t in EtasFor(rs, b) <==> exists r :: r in rs && r.busNo == b && t in ReadingEtas(r)
  {
    if rs != [] {
      EtasForMembers(rs[..|rs| - 1], b, t);
      assert rs == rs[..|rs| - 1] + [rs[|rs| - 1]];
    }
  }

  lemma {:induction false} EtasForNonEmpty(rs: seq<Reading>, b: string)
    ensures |EtasFor(rs, b)| > 0 <==> exists r :: r in rs && r.busNo == b
  {
    if rs != [] {
      EtasForNonEmpty(rs[..|rs| - 1], b);
      assert rs == rs[..|rs| - 1] + [rs[|rs| - 1]];
    }
  }

  /** The joined readings hold bus `b` exactly when some provider reported it for a served route. */
  lemma ReportedIffJoined(ps: seq<Provider>, routes: seq<Route>, b: string)
    ensures Reported(ps, routes, b) <==> |EtasFor(Joined(ps, routes), b)| > 0
  {
    var js := Joined(ps, routes);
    EtasForNonEmpty(js, b);
    if Reported(ps, routes, b) {
      var i, j :| 0 <= i < |ps| && 0 <= j < |ps[i].readings| &&
        ps[i].readings[j].busNo == b && Route(ps[i].prefix, b) in routes;
      JoinedMembers(ps, routes, ps[i].readings[j]);
    }
    if |EtasFor(js, b)| > 0 {
      var r :| r in js && r.busNo == b;
      JoinedMembers(ps, routes, r);
      var i :| 0 <= i < |ps| && r in ps[i].readings && Route(ps[i].prefix, r.busNo) in routes;
      var j :| 0 <= j < |ps[i].readings| && ps[i].readings[j] == r;
    }
  }

  /** An ETA is among the joined ETAs of `b` exactly when a provider reported it
      for `b` on a served route. */
  lemma JoinedEtas(ps: seq<Provider>, routes: seq<Route>, b: string, t: nat)
    ensures t in EtasFor(Joined(ps, routes), b) <==>
      exists i, j :: 0 <= i < |ps| && 0 <= j < |ps[i].readings| &&
        ps[i].readings[j].busNo == b && Route(ps[i].prefix, b) in routes &&
        t in ReadingEtas(ps[i].readings[j])
  {
    var js := Joined(ps, routes);
    EtasForMembers(js, b, t);
    if t in EtasFor(js, b) {
      var r :| r in js && r.busNo == b && t in ReadingEtas(r);
      JoinedMembers(ps, routes, r);
      var i :| 0 <= i < |ps| && r in ps[i].readings && Route(ps[i].prefix, r.busNo) in routes;
      var j :| 0 <= j < |ps[i].readings| && ps[i].readings[j] == r;
    }
    if exists i, j :: 0 <= i < |ps| && 0 <= j < |ps[i].readings| &&
        ps[i].readings[j].busNo == b && Route(ps[i].prefix, b) in routes &&
        t in ReadingEtas(ps[i].readings[j])
    {
      var i, j :| 0 <= i < |ps| && 0 <= j < |ps[i].readings| &&
        ps[i].readings[j].busNo == b && Route(ps[i].prefix, b) in routes &&
        t in ReadingEtas(ps[i].readings[j]);
      JoinedMembers(ps, routes, ps[i].readings[j]);
    }
  }

  // ---------------------------------------------------------------------------
  // Merging repeated bus numbers: the two soonest distinct ETAs
  // ---------------------------------------------------------------------------

  /** Adds one more ETA to the two soonest distinct ETAs seen so far. An ETA
      equal to the soonest is the same run seen again (by another provider,
      say) and changes nothing. */
  function Absorb(l: Live, t: nat): Live
  {
    if t < l.eta1 then Live(t, Some(l.eta1))
    else if t == l.eta1 then l
    else if l.eta2.None? || t < l.eta2.value then Live(l.eta1, Some(t))
    else l
  }

  /** The merged value of a non-empty list of ETAs, absorbed left to right. */
  function Fold(ts: seq<nat>): Live
    requires |ts| > 0
  {
    if |ts| == 1 then Live(ts[0], None) else Absorb(Fold(ts[..|ts| - 1]), ts[|ts| - 1])
  }

  /** `t` is the soonest ETA of `ts`. */
  ghost predicate IsLeast(t: nat, ts: seq<nat>)
  {
    t in ts && forall u :: u in ts ==> t <= u
  }

  /** `t` is the soonest ETA of `ts` that is later than `first`. */
  ghost predicate IsNextAfter(t: nat, first: nat, ts: seq<nat>)
  {
    first < t && t in ts && forall u :: u in ts && first < u ==> t <= u
  }

  /** `l` holds the soonest ETA of `ts` and the soonest later one; there is no
      second ETA exactly when every ETA of `ts` is the soonest. */
  ghost predicate TwoSoonest(l: Live, ts: seq<nat>)
  {
    && IsLeast(l.eta1, ts)
    && (l.eta2.None? <==> forall u :: u in ts ==> u == l.eta1)
    && (l.eta2.Some? ==> IsNextAfter(l.eta2.value, l.eta1, ts))
  }

  /** Absorbing one more ETA keeps the two soonest distinct ETAs. */
  lemma AbsorbTwoSoonest(l: Live, ts: seq<nat>, t: nat)
    requires TwoSoonest(l, ts)
    ensures TwoSoonest(Absorb(l, t), ts + [t])
  {
    assert forall u :: u in ts + [t] <==> u in ts || u == t;
    if t < l.eta1 {
      AbsorbBelow(l, ts, t);
    } else if t > l.eta1 {
      AbsorbAbove(l, ts, t);
    }
  }

  /** A new soonest ETA pushes the old soonest into second place. */
  lemma AbsorbBelow(l: Live, ts: seq<nat>, t: nat)
    requires TwoSoonest(l, ts) && t < l.eta1
    ensures TwoSoonest(Live(t, Some(l.eta1)), ts + [t])
  {
    assert forall u :: u in ts + [t] <==> u in ts || u == t;
  }

  /** An ETA later than the soonest becomes the second when it is sooner than
      the second so far. */
  lemma AbsorbAbove(l: Live, ts: seq<nat>, t: nat)
    requires TwoSoonest(l, ts) && l.eta1 < t
    ensures TwoSoonest(Absorb(l, t), ts + [t])
  {
    assert forall u :: u in ts + [t] <==> u in ts || u == t;
    assert t in ts + [t];
  }

  /** The merged value of a list of ETAs is its soonest ETA and the soonest
      later one, if any. */
  lemma {:induction false} FoldTwoSoonest(ts: seq<nat>)
    requires |ts| > 0
    ensures TwoSoonest(Fold(ts), ts)
  {
    if |ts| == 1 {
      assert forall u :: u in ts <==> u == ts[0];
    } else {
      var init := ts[..|ts| - 1];
      assert ts == init + [ts[|ts| - 1]];
      FoldTwoSoonest(init);
      AbsorbTwoSoonest(Fold(init), init, ts[|ts| - 1]);
    }
  }

  /** Adds one kept reading to the table of merged bus numbers. */
  function AddReading(table: map<string, Live>, r: Reading): map<string, Live>
  {
    var first := if r.busNo in table then Absorb(table[r.busNo], r.eta1) else Live(r.eta1, None);
    table[r.busNo := if r.eta2.Some? then Absorb(first, r.eta2.value) else first]
  }

  /** The table of merged bus numbers built from the readings, left to right. */
  function Table(rs: seq<Reading>): map<string, Live>
  {
    if rs == [] then map[] else AddReading(Table(rs[..|rs| - 1]), rs[|rs| - 1])
  }

  /** The table has an entry for exactly the reported bus numbers, and that
      entry is the merge of every ETA reported for the number. */
  lemma {:induction false} TableIsFold(rs: seq<Reading>, b: string)
    ensures b in Table(rs) <==> |EtasFor(rs, b)| > 0
    ensures b in Table(rs) ==> Table(rs)[b] == Fold(EtasFor(rs, b))
  {
    if rs != [] {
      var init := rs[..|rs| - 1];
      var r := rs[|rs| - 1];
      TableIsFold(init, b);
      var t := Table(init);
      var e := EtasFor(init, b);
      assert Table(rs) == AddReading(t, r);
      if r.busNo == b {
        var e1 := e + [r.eta1];
        var first := if b in t then Absorb(t[b], r.eta1) else Live(r.eta1, None);
        assert first == Fold(e1) by {
          if |e| == 0 {
            assert e1 == [r.eta1];
          } else {
            assert e1[..|e1| - 1] == e;
          }
        }
        if r.eta2.Some? {
          var e2 := e1 + [r.eta2.value];
          assert e2[..|e2| - 1] == e1;
          assert EtasFor(rs, b) == e2;
          assert Table(rs)[b] == Absorb(first, r.eta2.value);
        } else {
          assert EtasFor(rs, b) == e1;
          assert Table(rs)[b] == first;
        }
      } else {
        assert EtasFor(rs, b) == e;
      }
    }
  }

  // ---------------------------------------------------------------------------
  // Classification
  // ---------------------------------------------------------------------------

  /** The entry for bus number `b`, from its merged live ETAs (if any) and the
      predictor's estimate (None: no further service today). */
  function Classify(b: string, live: Option<Live>, estimate: Option<nat>, threshold: nat): (r: Option<BusArrival>)
    ensures r.None? <==> live.None? && estimate.None?
    ensures r.Some? ==> r.value.busNo == b
    ensures r.Some? ==> (r.value.status == Stop <==> estimate.None?)
    ensures r.Some? ==> (r.value.status == Run <==> estimate.Some? && live.Some? && live.value.eta1 <= threshold)
    ensures live.Some? ==> r.Some? && r.value.eta1 == live.value.eta1 && r.value.eta2 == live.value.eta2
    ensures live.None? && estimate.Some? ==> r == Some(BusArrival(b, estimate.value, None, Predict))
  {
    match (live, estimate)
    case (None, None) => None
    case (None, Some(d)) => Some(BusArrival(b, d, None, Predict))
    case (Some(l), None) => Some(BusArrival(b, l.eta1, l.eta2, Stop))
    case (Some(l), Some(_)) => Some(BusArrival(b, l.eta1, l.eta2, if l.eta1 <= threshold then Run else Predict))
  }

  /** The plain bus numbers of the route list, each once, in order of first appearance. */
  function PlainNumbers(routes: seq<Route>): (nos: seq<string>)
    ensures forall b :: b in nos <==> exists k :: 0 <= k < |routes| && routes[k].busNo == b
    ensures forall i, j :: 0 <= i < j < |nos| ==> nos[i] != nos[j]
  {
    if routes == [] then []
    else
      var init := routes[..|routes| - 1];
      var b := routes[|routes| - 1].busNo;
      var nos := PlainNumbers(init);
      assert forall k :: 0 <= k < |init| ==> init[k] == routes[k];
      if b in nos then nos else nos + [b]
  }

  function Lookup(table: map<string, Live>, b: string): Option<Live>
  {
    if b in table then Some(table[b]) else None
  }

  function Entry(b: string, table: map<string, Live>, predict: string -> Option<nat>, threshold: nat): seq<BusArrival>
  {
    match Classify(b, Lookup(table, b), predict(b), threshold)
    case None => []
    case Some(a) => [a]
  }

  /** The entries for the bus numbers `nos`, in that order. */
  function Assemble(nos: seq<string>, table: map<string, Live>, predict: string -> Option<nat>, threshold: nat): seq<BusArrival>
  {
    if nos == [] then []
    else Assemble(nos[..|nos| - 1], table, predict, threshold) + Entry(nos[|nos| - 1], table, predict, threshold)
  }

  ghost predicate Classified(a: BusArrival, table: map<string, Live>, predict: string -> Option<nat>, threshold: nat)
  {
    Classify(a.busNo, Lookup(table, a.busNo), predict(a.busNo), threshold) == Some(a)
  }

  lemma AssembleSnoc(nos: seq<string>, table: map<string, Live>, predict: string -> Option<nat>, threshold: nat)
    requires nos != []
    ensures Assemble(nos, table, predict, threshold) ==
      Assemble(nos[..|nos| - 1], table, predict, threshold) + Entry(nos[|nos| - 1], table, predict, threshold)
  {
  }

  /** Every entry comes from a listed bus number and is that number's classification. */
  lemma {:induction false} AssembleClassified(nos: seq<string>, table: map<string, Live>, predict: string -> Option<nat>, threshold: nat)
    ensures var out := Assemble(nos, table, predict, threshold);
      forall i :: 0 <= i < |out| ==> out[i].busNo in nos && Classified(out[i], table, predict, threshold)
  {
    if nos != [] {
      var init := nos[..|nos| - 1];
      AssembleClassified(init, table, predict, threshold);
      var prev := Assemble(init, table, predict, threshold);
      var out := Assemble(nos, table, predict, threshold);
      AssembleSnoc(nos, table, predict, threshold);
      forall i | 0 <= i < |out|
        ensures out[i].busNo in nos && Classified(out[i], table, predict, threshold)
      {
        if i < |prev| {
          assert out[i] == prev[i];
          assert prev[i].busNo in init;
        }
      }
    }
  }

  /** Distinct bus numbers give entries with distinct bus numbers. */
  lemma {:induction false} AssembleDistinct(nos: seq<string>, table: map<string, Live>, predict: string -> Option<nat>, threshold: nat)
    requires forall i, j :: 0 <= i < j < |nos| ==> nos[i] != nos[j]
    ensures var out := Assemble(nos, table, predict, threshold);
      forall i, j :: 0 <= i < j < |out| ==> out[i].busNo != out[j].busNo
  {
    if nos != [] {
      var init := nos[..|nos| - 1];
      var b := nos[|nos| - 1];
      AssembleDistinct(init, table, predict, threshold);
      AssembleClassified(init, table, predict, threshold);
      AssembleSnoc(nos, table, predict, threshold);
      var prev := Assemble(init, table, predict, threshold);
      assert b !in init by {
        forall k | 0 <= k < |init| ensures init[k] != b {
          assert init[k] == nos[k];
        }
      }
      forall i | 0 <= i < |prev| ensures prev[i].busNo != b {
        assert prev[i].busNo in init;
      }
    }
  }

  /** A listed bus number has an entry exactly when it has a live reading or a predicted duration. */
  lemma {:induction false} AssembleCovers(nos: seq<string>, table: map<string, Live>, predict: string -> Option<nat>, threshold: nat, c: string)
    requires c in nos
    ensures var out := Assemble(nos, table, predict, threshold);
      (exists i :: 0 <= i < |out| && out[i].busNo == c) <==> c in table || predict(c).Some?
  {
    var init := nos[..|nos| - 1];
    var b := nos[|nos| - 1];
    var prev := Assemble(init, table, predict, threshold);
    var out := Assemble(nos, table, predict, threshold);
    AssembleSnoc(nos, table, predict, threshold);
    AssembleClassified(nos, table, predict, threshold);
    if c in init {
      AssembleCovers(init, table, predict, threshold, c);
      if exists i :: 0 <= i < |prev| && prev[i].busNo == c {
        var i :| 0 <= i < |prev| && prev[i].busNo == c;
        assert out[i] == prev[i];
      }
    }
    if c == b {
      if b in table || predict(b).Some? {
        assert out[|out| - 1].busNo == b;
      }
    } else {
      assert nos == init + [b];
      assert c in init;
      if exists i :: 0 <= i < |out| && out[i].busNo == c {
        var i :| 0 <= i < |out| && out[i].busNo == c;
        assert prev[i].busNo == c;
      }
    }
  }

  lemma AssembleShape(nos: seq<string>, table: map<string, Live>, predict: string -> Option<nat>, threshold: nat)
    requires forall i, j :: 0 <= i < j < |nos| ==> nos[i] != nos[j]
    ensures var out := Assemble(nos, table, predict, threshold);
      && (forall i :: 0 <= i < |out| ==> out[i].busNo in nos && Classified(out[i], table, predict, threshold))
      && (forall i, j :: 0 <= i < j < |out| ==> out[i].busNo != out[j].busNo)
      && (forall b :: b in nos ==> ((exists i :: 0 <= i < |out| && out[i].busNo == b) <==> b in table || predict(b).Some?))
  {
    AssembleClassified(nos, table, predict, threshold);
    AssembleDistinct(nos, table, predict, threshold);
    forall b | b in nos
      ensures (exists i :: 0 <= i < |Assemble(nos, table, predict, threshold)| &&
                 Assemble(nos, table, predict, threshold)[i].busNo == b) <==> b in table || predict(b).Some?
    {
      AssembleCovers(nos, table, predict, threshold, b);
    }
  }

  // ---------------------------------------------------------------------------
  // The aggregate and its properties
  // ---------------------------------------------------------------------------

  /** The station's result as a function of what the providers returned, the
      route list, the predictor and the RUN threshold. */
  function Aggregate(ps: seq<Provider>, routes: seq<Route>, predict: string -> Option<nat>, threshold: nat): seq<BusArrival>
  {
    Assemble(PlainNumbers(routes), Table(Joined(ps, routes)), predict, threshold)
  }

  /** Each bus number appears at most once in the result. */
  lemma AggregateOneEntryPerBus(ps: seq<Provider>, routes: seq<Route>, predict: string -> Option<nat>, threshold: nat)
    ensures var out := Aggregate(ps, routes, predict, threshold);
      forall i, j :: 0 <= i < j < |out| ==> out[i].busNo != out[j].busNo
  {
    AssembleShape(PlainNumbers(routes), Table(Joined(ps, routes)), predict, threshold);
  }

  /** Every bus number of the result is the plain number of a route of the
      station: numbers the route list does not serve never appear, and neither
      does a provider prefix glued to a number. */
  lemma AggregateOnlyServedRoutes(ps: seq<Provider>, routes: seq<Route>, predict: string -> Option<nat>, threshold: nat)
    ensures var out := Aggregate(ps, routes, predict, threshold);
      forall i :: 0 <= i < |out| ==> exists k :: 0 <= k < |routes| && routes[k].busNo == out[i].busNo
  {
    AssembleShape(PlainNumbers(routes), Table(Joined(ps, routes)), predict, threshold);
  }

  /** A route's bus number is in the result exactly when a provider reported it
      for a served route or the predictor gives a duration for it. An empty
      provider list therefore does not keep a predicted route out. */
  lemma AggregateCoverage(ps: seq<Provider>, routes: seq<Route>, predict: string -> Option<nat>, threshold: nat, k: nat)
    requires k < |routes|
    ensures var out := Aggregate(ps, routes, predict, threshold);
      (exists i :: 0 <= i < |out| && out[i].busNo == routes[k].busNo) <==>
        Reported(ps, routes, routes[k].busNo) || predict(routes[k].busNo).Some?
  {
    var b := routes[k].busNo;
    var js := Joined(ps, routes);
    AssembleShape(PlainNumbers(routes), Table(js), predict, threshold);
    assert b in PlainNumbers(routes);
    TableIsFold(js, b);
    ReportedIffJoined(ps, routes, b);
  }

  /** The status of every entry: STOP exactly when the predictor says the
      service has ended (even with a live reading), RUN exactly when the
      predictor gives a duration and a live ETA is within the threshold,
      PREDICT otherwise. */
  lemma AggregateStatus(ps: seq<Provider>, routes: seq<Route>, predict: string -> Option<nat>, threshold: nat, i: nat)
    requires i < |Aggregate(ps, routes, predict, threshold)|
    ensures var a := Aggregate(ps, routes, predict, threshold)[i];
      var etas := EtasFor(Joined(ps, routes), a.busNo);
      && (a.status == Stop <==> predict(a.busNo).None?)
      && (a.status == Stop ==> Reported(ps, routes, a.busNo))
      && (a.status == Run <==> predict(a.busNo).Some? && Reported(ps, routes, a.busNo) && IsLeast(a.eta1, etas) && a.eta1 <= threshold)
      && (a.status == Predict <==> predict(a.busNo).Some? && (!Reported(ps, routes, a.busNo) || a.eta1 > threshold))
  {
    var js := Joined(ps, routes);
    var a := Aggregate(ps, routes, predict, threshold)[i];
    AssembleShape(PlainNumbers(routes), Table(js), predict, threshold);
    TableIsFold(js, a.busNo);
    ReportedIffJoined(ps, routes, a.busNo);
    if Reported(ps, routes, a.busNo) {
      FoldTwoSoonest(EtasFor(js, a.busNo));
    }
  }

  /** The ETAs of an entry: for a reported bus, the soonest ETA reported for
      it and the soonest later one (none when every reported ETA is the
      soonest); for a bus known only to the predictor, the predicted duration
      and no second ETA. */
  lemma AggregateEtas(ps: seq<Provider>, routes: seq<Route>, predict: string -> Option<nat>, threshold: nat, i: nat)
    requires i < |Aggregate(ps, routes, predict, threshold)|
    ensures var a := Aggregate(ps, routes, predict, threshold)[i];
      var etas := EtasFor(Joined(ps, routes), a.busNo);
      && (Reported(ps, routes, a.busNo) ==> TwoSoonest(Live(a.eta1, a.eta2), etas))
      && (!Reported(ps, routes, a.busNo) ==> predict(a.busNo) == Some(a.eta1) && a.eta2.None?)
      && (a.eta2.Some? ==> a.eta1 < a.eta2.value)
  {
    var js := Joined(ps, routes);
    var a := Aggregate(ps, routes, predict, threshold)[i];
    AssembleShape(PlainNumbers(routes), Table(js), predict, threshold);
    TableIsFold(js, a.busNo);
    ReportedIffJoined(ps, routes, a.busNo);
    if Reported(ps, routes, a.busNo) {
      FoldTwoSoonest(EtasFor(js, a.busNo));
    }
  }

  // ---------------------------------------------------------------------------
  // The station-gate scenario
  // ---------------------------------------------------------------------------

  /** A route list for the university gate that serves exactly the bus numbers
      the scenario expects: intercity routes under "GG_", city routes under
      "T_" and the shuttle under "DKU_". */
  function GateRoutes(): seq<Route>
  {
    [ Route("GG_", "24"), Route("GG_", "720-3"), Route("GG_", "1101"), Route("GG_", "8100"),
      Route("T_", "24"), Route("T_", "720-3"), Route("T_", "102"), Route("DKU_", "shuttle-bus") ]
  }

  /** The predictor of the scenario: 80 seconds for every route except "102",
      whose service has ended. */
  function GatePredict(b: string): Option<nat>
  {
    if b == "102" then None else Some(80)
  }

  /** The three providers of the scenario. The intercity provider reports "24",
      "101", "1234" and "720-3" twice (5 s and 150 s); the city provider reports
      "24", "1234", "7007-1", "720-3" (5 s) and "102"; the shuttle provider
      reports nothing. `eta` is the ETA of the readings whose time the scenario
      leaves open. */
  function GateProviders(eta: nat): seq<Provider>
  {
    [ Provider("GG_", [Reading("24", eta, None), Reading("101", eta, None), Reading("1234", eta, None),
                       Reading("720-3", 5, None), Reading("720-3", 150, None)]),
      Provider("T_", [Reading("24", eta, None), Reading("1234", eta, None), Reading("7007-1", eta, None),
                      Reading("720-3", 5, None), Reading("102", eta, None)]),
      Provider("DKU_", []) ]
  }

  /** The bus numbers a provider reported on a served route, each with one ETA reported for it. */
  lemma GateSeen(eta: nat, b: string, t: nat)
    requires (b, t) in {("24", eta), ("720-3", 5), ("720-3", 150), ("102", eta)}
    ensures Reported(GateProviders(eta), GateRoutes(), b)
    ensures t in EtasFor(Joined(GateProviders(eta), GateRoutes()), b)
  {
    var ps := GateProviders(eta);
    var routes := GateRoutes();
    var i := if b == "102" then 1 else 0;
    var j := if b == "720-3" && t == 150 then 4 else if b == "720-3" then 3 else if b == "102" then 4 else 0;
    assert ps[i].readings[j].busNo == b && Route(ps[i].prefix, b) in routes;
    assert t in ReadingEtas(ps[i].readings[j]);
    JoinedEtas(ps, routes, b, t);
  }

  /** The served bus numbers that no provider reported. */
  lemma GateUnseen(eta: nat, b: string)
    requires b in {"1101", "8100", "shuttle-bus"}
    ensures !Reported(GateProviders(eta), GateRoutes(), b)
  {
    var ps := GateProviders(eta);
    forall i, j | 0 <= i < |ps| && 0 <= j < |ps[i].readings|
      ensures ps[i].readings[j].busNo != b
    {
    }
  }

  /** The bus numbers reported although the station does not serve them never
      appear in the scenario's result. */
  lemma GateUnserved(eta: nat, threshold: nat, b: string)
    requires b in {"101", "1234", "7007-1"}
    ensures var out := Aggregate(GateProviders(eta), GateRoutes(), GatePredict, threshold);
      forall i :: 0 <= i < |out| ==> out[i].busNo != b
  {
    AggregateOnlyServedRoutes(GateProviders(eta), GateRoutes(), GatePredict, threshold);
  }

  /** The readings of "720-3" in the scenario: 5 s (both providers) and 150 s. */
  lemma GateReadingOf720(eta: nat, i: nat, j: nat)
    requires i < |GateProviders(eta)| && j < |GateProviders(eta)[i].readings|
    requires GateProviders(eta)[i].readings[j].busNo == "720-3"
    ensures GateProviders(eta)[i].readings[j] in {Reading("720-3", 5, None), Reading("720-3", 150, None)}
  {
    assert |GateProviders(eta)[i].readings[j].busNo| == 5;
  }

  /** Every ETA reported for "720-3" on a served route is 5 s or 150 s. */
  lemma GateEtasOf720(eta: nat, t: nat)
    requires t in EtasFor(Joined(GateProviders(eta), GateRoutes()), "720-3")
    ensures t == 5 || t == 150
  {
    var ps := GateProviders(eta);
    JoinedEtas(ps, GateRoutes(), "720-3", t);
    var i, j :| 0 <= i < |ps| && 0 <= j < |ps[i].readings| &&
      ps[i].readings[j].busNo == "720-3" && Route(ps[i].prefix, "720-3") in GateRoutes() &&
      t in ReadingEtas(ps[i].readings[j]);
    GateReadingOf720(eta, i, j);
  }

  /** "720-3", seen at 5 s by both providers and at 150 s by the intercity
      one, is merged into one running entry with 5 s first and 150 s second:
      the two 5-second sightings are one run. */
  lemma GateMerged(eta: nat, threshold: nat, i: nat)
    requires eta <= threshold && 5 <= threshold
    requires i < |Aggregate(GateProviders(eta), GateRoutes(), GatePredict, threshold)|
    requires Aggregate(GateProviders(eta), GateRoutes(), GatePredict, threshold)[i].busNo == "720-3"
    ensures Aggregate(GateProviders(eta), GateRoutes(), GatePredict, threshold)[i] == BusArrival("720-3", 5, Some(150), Run)
  {
    var ps, routes := GateProviders(eta), GateRoutes();
    var a := Aggregate(ps, routes, GatePredict, threshold)[i];
    var etas := EtasFor(Joined(ps, routes), "720-3");
    GateSeen(eta, "720-3", 5);
    GateSeen(eta, "720-3", 150);
    AggregateEtas(ps, routes, GatePredict, threshold, i);
    GateEtasOf720(eta, a.eta1);
    assert a.eta1 == 5;
    assert a.eta2.Some? by {
      assert 150 in etas;
    }
    GateEtasOf720(eta, a.eta2.value);
    GateRun(eta, threshold, i, 5);
  }

  /** Every entry of the scenario's result carries one of the six served bus numbers. */
  lemma GateServed(eta: nat, threshold: nat, i: nat)
    requires i < |Aggregate(GateProviders(eta), GateRoutes(), GatePredict, threshold)|
    ensures Aggregate(GateProviders(eta), GateRoutes(), GatePredict, threshold)[i].busNo in
      {"24", "720-3", "1101", "8100", "102", "shuttle-bus"}
  {
    var routes := GateRoutes();
    AggregateOnlyServedRoutes(GateProviders(eta), routes, GatePredict, threshold);
    var k :| 0 <= k < |routes| && routes[k].busNo == Aggregate(GateProviders(eta), routes, GatePredict, threshold)[i].busNo;
  }

  /** "24" and "720-3" run: a reported ETA is within the threshold. */
  lemma GateRun(eta: nat, threshold: nat, i: nat, t: nat)
    requires eta <= threshold && 5 <= threshold
    requires i < |Aggregate(GateProviders(eta), GateRoutes(), GatePredict, threshold)|
    requires (Aggregate(GateProviders(eta), GateRoutes(), GatePredict, threshold)[i].busNo, t) in {("24", eta), ("720-3", 5)}
    ensures Aggregate(GateProviders(eta), GateRoutes(), GatePredict, threshold)[i].status == Run
  {
    var ps, routes := GateProviders(eta), GateRoutes();
    var a := Aggregate(ps, routes, GatePredict, threshold)[i];
    var etas := EtasFor(Joined(ps, routes), a.busNo);
    GateSeen(eta, a.busNo, t);
    AggregateEtas(ps, routes, GatePredict, threshold, i);
    assert IsLeast(a.eta1, etas);
    assert a.eta1 <= threshold by {
      assert t in etas;
    }
    AggregateStatus(ps, routes, GatePredict, threshold, i);
  }

  /** "1101", "8100" and "shuttle-bus" are predicted: nobody reported them. */
  lemma GatePredicted(eta: nat, threshold: nat, i: nat)
    requires i < |Aggregate(GateProviders(eta), GateRoutes(), GatePredict, threshold)|
    requires Aggregate(GateProviders(eta), GateRoutes(), GatePredict, threshold)[i].busNo in {"1101", "8100", "shuttle-bus"}
    ensures Aggregate(GateProviders(eta), GateRoutes(), GatePredict, threshold)[i].status == Predict
  {
    AggregateStatus(GateProviders(eta), GateRoutes(), GatePredict, threshold, i);
    GateUnseen(eta, Aggregate(GateProviders(eta), GateRoutes(), GatePredict, threshold)[i].busNo);
  }

  /** Every entry of the scenario's result is one of the six expected pairs. */
  lemma GateEntry(eta: nat, threshold: nat, i: nat)
    requires eta <= threshold && 5 <= threshold
    requires i < |Aggregate(GateProviders(eta), GateRoutes(), GatePredict, threshold)|
    ensures var a := Aggregate(GateProviders(eta), GateRoutes(), GatePredict, threshold)[i];
      (a.busNo, a.status) in
        {("102", Stop), ("1101", Predict), ("8100", Predict), ("720-3", Run), ("24", Run), ("shuttle-bus", Predict)}
  {
    var a := Aggregate(GateProviders(eta), GateRoutes(), GatePredict, threshold)[i];
    GateServed(eta, threshold, i);
    if a.busNo == "24" {
      GateRun(eta, threshold, i, eta);
    } else if a.busNo == "720-3" {
      GateRun(eta, threshold, i, 5);
    } else if a.busNo == "102" {
      AggregateStatus(GateProviders(eta), GateRoutes(), GatePredict, threshold, i);
    } else {
      GatePredicted(eta, threshold, i);
    }
  }

  /** Each of the six expected pairs is an entry of the scenario's result. */
  lemma GateExpected(eta: nat, threshold: nat, b: string, st: BusStatus)
    requires eta <= threshold && 5 <= threshold
    requires (b, st) in
      {("102", Stop), ("1101", Predict), ("8100", Predict), ("720-3", Run), ("24", Run), ("shuttle-bus", Predict)}
    ensures var out := Aggregate(GateProviders(eta), GateRoutes(), GatePredict, threshold);
      exists i :: 0 <= i < |out| && out[i].busNo == b && out[i].status == st
  {
    var ps := GateProviders(eta);
    var routes := GateRoutes();
    var out := Aggregate(ps, routes, GatePredict, threshold);
    var k := if b == "24" then 0 else if b == "720-3" then 1 else if b == "1101" then 2
      else if b == "8100" then 3 else if b == "102" then 6 else 7;
    assert routes[k].busNo == b;
    if b == "102" {
      GateSeen(eta, b, eta);
    }
    AggregateCoverage(ps, routes, GatePredict, threshold, k);
    var i :| 0 <= i < |out| && out[i].busNo == b;
    GateEntry(eta, threshold, i);
  }

  /** The aggregation scenario of the source's tests. With any threshold that
      counts the open-ended readings and a 5-second one as imminent, the result
      holds one entry per bus number and exactly these pairs: "102" STOP
      although a live reading exists, "1101", "8100" and "shuttle-bus" PREDICT
      from the predictor alone, "720-3" (reported three times) and "24" RUN.
      "101", "1234" and "7007-1" are dropped. */
  lemma GateScenario(eta: nat, threshold: nat)
    requires eta <= threshold && 5 <= threshold
    ensures var out := Aggregate(GateProviders(eta), GateRoutes(), GatePredict, threshold);
      && (forall i, j :: 0 <= i < j < |out| ==> out[i].busNo != out[j].busNo)
      && (set a | a in out :: (a.busNo, a.status)) ==
         {("102", Stop), ("1101", Predict), ("8100", Predict), ("720-3", Run), ("24", Run), ("shuttle-bus", Predict)}
  {
    var out := Aggregate(GateProviders(eta), GateRoutes(), GatePredict, threshold);
    var expected := {("102", Stop), ("1101", Predict), ("8100", Predict), ("720-3", Run), ("24", Run), ("shuttle-bus", Predict)};
    var pairs := set a | a in out :: (a.busNo, a.status);
    AggregateOneEntryPerBus(GateProviders(eta), GateRoutes(), GatePredict, threshold);
    assert pairs <= expected by {
      forall a | a in out
        ensures (a.busNo, a.status) in expected
      {
        var i :| 0 <= i < |out| && out[i] == a;
        GateEntry(eta, threshold, i);
      }
    }
    assert expected <= pairs by {
      forall p | p in expected
        ensures p in pairs
      {
        GateExpected(eta, threshold, p.0, p.1);
        var i :| 0 <= i < |out| && out[i].busNo == p.0 && out[i].status == p.1;
        assert out[i] in out;
      }
    }
  }

  // ---------------------------------------------------------------------------
  // The operation
  // ---------------------------------------------------------------------------

  /** One more reading of a provider extends the table by that reading when its
      route is served, and leaves the join as it is otherwise. */
  lemma KeptStep(joined: seq<Reading>, p: Provider, routes: seq<Route>, j: nat)
    requires j < |p.readings|
    ensures var r := p.readings[j];
      var before := joined + Kept(p.prefix, p.readings[..j], routes);
      var after := joined + Kept(p.prefix, p.readings[..j + 1], routes);
      && (Route(p.prefix, r.busNo) in routes ==> Table(after) == AddReading(Table(before), r))
      && (Route(p.prefix, r.busNo) !in routes ==> after == before)
  {
    var r := p.readings[j];
    var before := joined + Kept(p.prefix, p.readings[..j], routes);
    var prefix := p.readings[..j + 1];
    assert prefix[..|prefix| - 1] == p.readings[..j] && prefix[|prefix| - 1] == r;
    if Route(p.prefix, r.busNo) in routes {
      assert joined + Kept(p.prefix, prefix, routes) == before + [r];
      assert (before + [r])[..|before|] == before;
    }
  }

  /** Adds the served readings of one provider to the table. */
  method MergeProvider(table: map<string, Live>, ghost joined: seq<Reading>, p: Provider, routes: seq<Route>)
    returns (merged: map<string, Live>)
    requires table == Table(joined)
    ensures merged == Table(joined + Kept(p.prefix, p.readings, routes))
  {
    merged := table;
    assert joined + Kept(p.prefix, p.readings[..0], routes) == joined;
    for j := 0 to |p.readings|
      invariant merged == Table(joined + Kept(p.prefix, p.readings[..j], routes))
    {
      var r := p.readings[j];
      KeptStep(joined, p, routes, j);
      if Route(p.prefix, r.busNo) in routes {
        var live := if r.busNo in merged then Absorb(merged[r.busNo], r.eta1) else Live(r.eta1, None);
        if r.eta2.Some? {
          live := Absorb(live, r.eta2.value);
        }
        assert merged[r.busNo := live] == AddReading(merged, r);
        merged := merged[r.busNo := live];
      }
    }
    assert p.readings[..|p.readings|] == p.readings;
  }

  /** Joins the providers' readings into a table keyed by bus number, then
      classifies every plain bus number of the station's route list. */
  method RetrieveBusArrival(ps: seq<Provider>, routes: seq<Route>, predict: string -> Option<nat>, threshold: nat)
    returns (arrivals: seq<BusArrival>)
    ensures arrivals == Aggregate(ps, routes, predict, threshold)
  {
    var table: map<string, Live> := map[];
    for i := 0 to |ps|
      invariant table == Table(Joined(ps[..i], routes))
    {
      assert ps[..i + 1][..i] == ps[..i];
      table := MergeProvider(table, Joined(ps[..i], routes), ps[i], routes);
    }
    assert ps[..|ps|] == ps;

    var seen: seq<string> := [];
    arrivals := [];
    for k := 0 to |routes|
      invariant seen == PlainNumbers(routes[..k])
      invariant arrivals == Assemble(seen, table, predict, threshold)
    {
      var b := routes[k].busNo;
      assert routes[..k + 1][..k] == routes[..k];
      if b !in seen {
        var live := if b in table then Some(table[b]) else None;
        var entry := Classify(b, live, predict(b), threshold);
        assert (seen + [b])[..|seen|] == seen;
        seen := seen + [b];
        if entry.Some? {
          arrivals := arrivals + [entry.value];
        }
      }
    }
    assert routes[..|routes|] == routes;
  }
}
