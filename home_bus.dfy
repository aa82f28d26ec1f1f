/** Home-bus tickets (HomeBusUserService: listBus, createTicket, deleteTicket).

    Students of the Jukjeon campus request a seat on a home bus. A request is
    stored as a ticket awaiting approval; a bus is full once it has as many
    tickets as seats. A ticket holder may ask for a cancellation, which files a
    cancel request with the refund account and moves the ticket to "cancel
    awaiting approval"; asking again is refused.
*/
module HomeBus {
  import opened Wrappers

  datatype Campus = Jukjeon | Cheonan

  /** A ticket's state; `NoTicket` is what the listing shows for a bus the user holds no ticket on. */
  datatype HomeBusStatus = NoTicket | NeedApproval | Issued | NeedCancelApproval

  datatype Bus = Bus(id: nat, totalSeats: nat)

  datatype Ticket = Ticket(userId: nat, busId: nat, status: HomeBusStatus)

  /** The refund details a user gives when asking to cancel. */
  datatype CancelForm = CancelForm(depositor: string, accountNum: string, bankName: string)

  /** A filed cancellation: the position of its ticket in the ticket table and the refund details. */
  datatype CancelRequest = CancelRequest(ticket: nat, depositor: string, accountNum: string, bankName: string)

  /** One line of the bus listing for a user. */
  datatype HomeBusDto = HomeBusDto(bus: Bus, remainingSeats: int, status: HomeBusStatus)

  datatype Failure = UserNotFound | BusNotFound | AlreadyIssued | NotJukjeon | FullSeats
                   | TicketNotFound | AlreadyCancelRequested

  datatype Outcome = Done | Refused(reason: Failure)

  /** Everything the service reads and writes: each user's campus, the buses,
      the ticket table and the filed cancel requests. */
  datatype Store = Store(campus: map<nat, Campus>, buses: seq<Bus>, tickets: seq<Ticket>, cancels: seq<CancelRequest>)

  // ---------------------------------------------------------------------------
  // Queries
  // ---------------------------------------------------------------------------

  /** The seats requested on bus `busId`: its tickets, whatever their state. */
  function RequestedSeats(tickets: seq<Ticket>, busId: nat): (n: nat)
    ensures n <= |tickets|
    ensures n == 0 <==> forall k :: 0 <= k < |tickets| ==> tickets[k].busId != busId
  {
    if tickets == [] then 0
    else
      var init := tickets[..|tickets| - 1];
      assert forall k :: 0 <= k < |init| ==> init[k] == tickets[k];
      RequestedSeats(init, busId) + (if tickets[|tickets| - 1].busId == busId then 1 else 0)
  }

  ghost predicate HasTicket(tickets: seq<Ticket>, userId: nat, busId: nat)
  {
    exists k :: 0 <= k < |tickets| && tickets[k].userId == userId && tickets[k].busId == busId
  }

  /** Where the ticket of `userId` for `busId` is in the table, if there is one. */
  function TicketIndex(tickets: seq<Ticket>, userId: nat, busId: nat): (r: Option<nat>)
    ensures r.None? <==> !HasTicket(tickets, userId, busId)
    ensures r.Some? ==> r.value < |tickets| && tickets[r.value].userId == userId && tickets[r.value].busId == busId
  {
    if tickets == [] then None
    else
      var last := |tickets| - 1;
      if tickets[last].userId == userId && tickets[last].busId == busId then Some(last)
      else
        var init := tickets[..last];
        assert forall k :: 0 <= k < |init| ==> init[k] == tickets[k];
        TicketIndex(init, userId, busId)
  }

  /** The state of the user's ticket for the bus, `NoTicket` when there is none. */
  function StatusFor(tickets: seq<Ticket>, userId: nat, busId: nat): (st: HomeBusStatus)
    ensures !HasTicket(tickets, userId, busId) ==> st == NoTicket
    ensures HasTicket(tickets, userId, busId) ==>
      exists k :: 0 <= k < |tickets| && tickets[k].userId == userId && tickets[k].busId == busId && tickets[k].status == st
  {
    match TicketIndex(tickets, userId, busId)
    case None => NoTicket
    case Some(k) => tickets[k].status
  }

  /** The bus with id `busId`, if any. */
  function FindBus(buses: seq<Bus>, busId: nat): (r: Option<Bus>)
    ensures r.None? <==> forall k :: 0 <= k < |buses| ==> buses[k].id != busId
    ensures r.Some? ==> r.value in buses && r.value.id == busId
  {
    if buses == [] then None
    else if buses[|buses| - 1].id == busId then Some(buses[|buses| - 1])
    else
      var init := buses[..|buses| - 1];
      assert forall k :: 0 <= k < |init| ==> init[k] == buses[k];
      FindBus(init, busId)
  }

  /** The line of the listing for one bus. */
  function Line(bus: Bus, tickets: seq<Ticket>, userId: nat): HomeBusDto
  {
    HomeBusDto(bus, bus.totalSeats - RequestedSeats(tickets, bus.id), StatusFor(tickets, userId, bus.id))
  }

  /** The bus listing for `userId`, in the order of the buses. */
  function Listing(buses: seq<Bus>, tickets: seq<Ticket>, userId: nat): (r: seq<HomeBusDto>)
    ensures |r| == |buses|
    ensures forall i :: 0 <= i < |buses| ==> r[i] == Line(buses[i], tickets, userId)
  {
    if buses == [] then []
    else Listing(buses[..|buses| - 1], tickets, userId) + [Line(buses[|buses| - 1], tickets, userId)]
  }

  // ---------------------------------------------------------------------------
  // The two transitions
  // ---------------------------------------------------------------------------

  /** A ticket request of `userId` for bus `busId`. The checks, in order: the
      user and the bus exist, the user holds no ticket for this bus yet, the
      user belongs to the Jukjeon campus, and the bus still has a free seat.
      An accepted request appends one ticket awaiting approval; a refused one
      changes nothing. */
  function Issue(s: Store, userId: nat, busId: nat): (r: (Store, Outcome))
    ensures r.1 == Refused(UserNotFound) <==> userId !in s.campus
    ensures r.1 == Refused(BusNotFound) <==> userId in s.campus && FindBus(s.buses, busId).None?
    ensures r.1 == Refused(AlreadyIssued) <==>
      userId in s.campus && FindBus(s.buses, busId).Some? && HasTicket(s.tickets, userId, busId)
    ensures r.1 == Refused(NotJukjeon) <==>
      userId in s.campus && FindBus(s.buses, busId).Some? && !HasTicket(s.tickets, userId, busId) &&
      s.campus[userId] != Jukjeon
    ensures r.1 == Refused(FullSeats) <==>
      userId in s.campus && FindBus(s.buses, busId).Some? && !HasTicket(s.tickets, userId, busId) &&
      s.campus[userId] == Jukjeon && RequestedSeats(s.tickets, busId) >= FindBus(s.buses, busId).value.totalSeats
    ensures r.1.Refused? ==> r.0 == s
    ensures r.1 == Done ==> r.0 == s.(tickets := s.tickets + [Ticket(userId, busId, NeedApproval)])
    ensures r.1 == Done || r.1.Refused?
    ensures r.1.Refused? ==> r.1.reason in {UserNotFound, BusNotFound, AlreadyIssued, NotJukjeon, FullSeats}
  {
    if userId !in s.campus then (s, Refused(UserNotFound))
    else match FindBus(s.buses, busId)
      case None => (s, Refused(BusNotFound))
      case Some(bus) =>
        var requested := RequestedSeats(s.tickets, busId);
        if TicketIndex(s.tickets, userId, busId).Some? then (s, Refused(AlreadyIssued))
        else if s.campus[userId] != Jukjeon then (s, Refused(NotJukjeon))
        else if requested >= bus.totalSeats then (s, Refused(FullSeats))
        else (s.(tickets := s.tickets + [Ticket(userId, busId, NeedApproval)]), Done)
  }

  /** A cancellation request of `userId` for bus `busId`. Refused when the user
      holds no ticket for the bus or has already asked; otherwise the ticket
      moves to "cancel awaiting approval" and one cancel request carrying that
      ticket and the refund details is filed. */
  function Cancel(s: Store, userId: nat, busId: nat, form: CancelForm): (r: (Store, Outcome))
    ensures r.1 == Refused(TicketNotFound) <==> !HasTicket(s.tickets, userId, busId)
    ensures r.1 == Refused(AlreadyCancelRequested) <==>
      HasTicket(s.tickets, userId, busId) && StatusFor(s.tickets, userId, busId) == NeedCancelApproval
    ensures r.1.Refused? ==> r.0 == s
    ensures r.1 == Done || r.1.Refused?
    ensures r.1 == Done ==>
      var k := TicketIndex(s.tickets, userId, busId).value;
      && r.0.campus == s.campus && r.0.buses == s.buses
      && r.0.tickets == s.tickets[k := s.tickets[k].(status := NeedCancelApproval)]
      && r.0.cancels == s.cancels + [CancelRequest(k, form.depositor, form.accountNum, form.bankName)]
  {
    match TicketIndex(s.tickets, userId, busId)
    case None => (s, Refused(TicketNotFound))
    case Some(k) =>
      if s.tickets[k].status == NeedCancelApproval then (s, Refused(AlreadyCancelRequested))
      else
        var request := CancelRequest(k, form.depositor, form.accountNum, form.bankName);
        (s.(tickets := s.tickets[k := s.tickets[k].(status := NeedCancelApproval)], cancels := s.cancels + [request]), Done)
  }

  // ---------------------------------------------------------------------------
  // The invariant of the ticket tables
  // ---------------------------------------------------------------------------

  ghost predicate UniqueBusIds(buses: seq<Bus>)
  {
    forall i, j :: 0 <= i < j < |buses| ==> buses[i].id != buses[j].id
  }

  ghost predicate KnownHolders(s: Store)
  {
    forall k :: 0 <= k < |s.tickets| ==> s.tickets[k].userId in s.campus && FindBus(s.buses, s.tickets[k].busId).Some?
  }

  ghost predicate OneTicketPerBus(tickets: seq<Ticket>)
  {
    forall i, j :: 0 <= i < j < |tickets| ==> tickets[i].userId != tickets[j].userId || tickets[i].busId != tickets[j].busId
  }

  ghost predicate WithinSeats(buses: seq<Bus>, tickets: seq<Ticket>)
  {
    forall k :: 0 <= k < |buses| ==> RequestedSeats(tickets, buses[k].id) <= buses[k].totalSeats
  }

  ghost predicate CancelsAwaitApproval(tickets: seq<Ticket>, cancels: seq<CancelRequest>)
  {
    && (forall c :: 0 <= c < |cancels| ==>
          cancels[c].ticket < |tickets| && tickets[cancels[c].ticket].status == NeedCancelApproval)
    && (forall c, d :: 0 <= c < d < |cancels| ==> cancels[c].ticket != cancels[d].ticket)
  }

  /** Bus ids are unique; every ticket names a known user and a known bus; a
      user holds at most one ticket per bus; no bus has more tickets than
      seats; every cancel request points at a distinct ticket that awaits
      cancel approval. */
  ghost predicate Valid(s: Store)
  {
    && UniqueBusIds(s.buses)
    && KnownHolders(s)
    && OneTicketPerBus(s.tickets)
    && WithinSeats(s.buses, s.tickets)
    && CancelsAwaitApproval(s.tickets, s.cancels)
  }

  lemma {:induction false} RequestedSeatsAppend(tickets: seq<Ticket>, t: Ticket, busId: nat)
    ensures RequestedSeats(tickets + [t], busId) == RequestedSeats(tickets, busId) + (if t.busId == busId then 1 else 0)
  {
    assert (tickets + [t])[..|tickets|] == tickets;
  }

  /** Changing a ticket's state does not change any bus's requested seats. */
  lemma {:induction false} RequestedSeatsRestate(tickets: seq<Ticket>, k: nat, st: HomeBusStatus, busId: nat)
    requires k < |tickets|
    ensures RequestedSeats(tickets[k := tickets[k].(status := st)], busId) == RequestedSeats(tickets, busId)
  {
    var after := tickets[k := tickets[k].(status := st)];
    var last := |tickets| - 1;
    if k < last {
      RequestedSeatsRestate(tickets[..last], k, st, busId);
      assert after[..last] == tickets[..last][k := tickets[k].(status := st)];
    } else {
      assert after[..last] == tickets[..last];
    }
  }

  /** A new ticket for a bus with a free seat keeps every bus within its seats. */
  lemma AppendWithinSeats(buses: seq<Bus>, tickets: seq<Ticket>, t: Ticket, bus: Bus)
    requires UniqueBusIds(buses) && WithinSeats(buses, tickets)
    requires bus in buses && bus.id == t.busId && RequestedSeats(tickets, t.busId) < bus.totalSeats
    ensures WithinSeats(buses, tickets + [t])
  {
    forall k | 0 <= k < |buses|
      ensures RequestedSeats(tickets + [t], buses[k].id) <= buses[k].totalSeats
    {
      RequestedSeatsAppend(tickets, t, buses[k].id);
      if buses[k].id == t.busId {
        var j :| 0 <= j < |buses| && buses[j] == bus;
        assert j == k;
      }
    }
  }

  /** A new ticket of a user who held none for its bus keeps one ticket per user and bus. */
  lemma AppendOneTicket(tickets: seq<Ticket>, t: Ticket)
    requires OneTicketPerBus(tickets) && !HasTicket(tickets, t.userId, t.busId)
    ensures OneTicketPerBus(tickets + [t])
  {
    var after := tickets + [t];
    forall i, j | 0 <= i < j < |after|
      ensures after[i].userId != after[j].userId || after[i].busId != after[j].busId
    {
      if j == |tickets| {
        assert !(tickets[i].userId == t.userId && tickets[i].busId == t.busId);
      } else {
        assert after[i] == tickets[i] && after[j] == tickets[j];
      }
    }
  }

  /** An accepted ticket request keeps the invariant: the new ticket is the
      user's only one for the bus and it fits in a free seat. */
  lemma IssueKeepsValid(s: Store, userId: nat, busId: nat)
    requires Valid(s)
    ensures Valid(Issue(s, userId, busId).0)
  {
    var (t, out) := Issue(s, userId, busId);
    if out == Done {
      var ticket := Ticket(userId, busId, NeedApproval);
      assert t.tickets == s.tickets + [ticket];
      AppendWithinSeats(s.buses, s.tickets, ticket, FindBus(s.buses, busId).value);
      AppendOneTicket(s.tickets, ticket);
      assert KnownHolders(t) by {
        forall k | 0 <= k < |t.tickets|
          ensures t.tickets[k].userId in t.campus && FindBus(t.buses, t.tickets[k].busId).Some?
        {
          if k < |s.tickets| { assert t.tickets[k] == s.tickets[k]; }
        }
      }
      assert CancelsAwaitApproval(t.tickets, t.cancels) by {
        forall c | 0 <= c < |t.cancels|
          ensures t.tickets[t.cancels[c].ticket] == s.tickets[s.cancels[c].ticket]
        {
        }
      }
    }
  }

  /** Changing a ticket's state keeps every bus within its seats. */
  lemma RestateWithinSeats(buses: seq<Bus>, tickets: seq<Ticket>, k: nat, st: HomeBusStatus)
    requires WithinSeats(buses, tickets) && k < |tickets|
    ensures WithinSeats(buses, tickets[k := tickets[k].(status := st)])
  {
    forall b | 0 <= b < |buses|
      ensures RequestedSeats(tickets[k := tickets[k].(status := st)], buses[b].id) <= buses[b].totalSeats
    {
      RequestedSeatsRestate(tickets, k, st, buses[b].id);
    }
  }

  /** Moving ticket `k` to "cancel awaiting approval" and filing its first
      cancel request keeps every cancel request pointing at a distinct ticket
      that awaits approval. */
  lemma RestateCancels(tickets: seq<Ticket>, cancels: seq<CancelRequest>, k: nat, request: CancelRequest)
    requires CancelsAwaitApproval(tickets, cancels)
    requires k < |tickets| && tickets[k].status != NeedCancelApproval && request.ticket == k
    ensures CancelsAwaitApproval(tickets[k := tickets[k].(status := NeedCancelApproval)], cancels + [request])
  {
    var after := tickets[k := tickets[k].(status := NeedCancelApproval)];
    var filed := cancels + [request];
    forall c | 0 <= c < |filed|
      ensures filed[c].ticket < |after| && after[filed[c].ticket].status == NeedCancelApproval
    {
      if c < |cancels| {
        assert filed[c] == cancels[c];
      }
    }
    forall c, d | 0 <= c < d < |filed|
      ensures filed[c].ticket != filed[d].ticket
    {
      assert filed[c] == cancels[c];
      if d < |cancels| {
        assert filed[d] == cancels[d];
      }
    }
  }

  /** An accepted cancellation keeps the invariant: the seat stays counted, and
      the new cancel request is the first one for its ticket. */
  lemma CancelKeepsValid(s: Store, userId: nat, busId: nat, form: CancelForm)
    requires Valid(s)
    ensures Valid(Cancel(s, userId, busId, form).0)
  {
    var (t, out) := Cancel(s, userId, busId, form);
    if out == Done {
      var k := TicketIndex(s.tickets, userId, busId).value;
      assert s.tickets[k].status != NeedCancelApproval;
      RestateCancels(s.tickets, s.cancels, k, t.cancels[|s.cancels|]);
      RestateWithinSeats(s.buses, s.tickets, k, NeedCancelApproval);
      assert forall i :: 0 <= i < |t.tickets| ==>
        t.tickets[i].userId == s.tickets[i].userId && t.tickets[i].busId == s.tickets[i].busId;
    }
  }

  // ---------------------------------------------------------------------------
  // Properties across calls and of the listing
  // ---------------------------------------------------------------------------

  /** In a valid store no bus is listed with a negative number of remaining
      seats, and every listed count is its seats minus its requested seats. */
  lemma ListingRemaining(s: Store, userId: nat, i: nat)
    requires Valid(s) && i < |s.buses|
    ensures var line := Listing(s.buses, s.tickets, userId)[i];
      line.bus == s.buses[i] &&
      line.remainingSeats == s.buses[i].totalSeats - RequestedSeats(s.tickets, s.buses[i].id) &&
      0 <= line.remainingSeats <= s.buses[i].totalSeats
  {
  }

  /** In a valid store every line of the listing shows between 0 and the bus's total seats. */
  lemma ListingBounds(s: Store, userId: nat)
    requires Valid(s)
    ensures var lines := Listing(s.buses, s.tickets, userId);
      forall i :: 0 <= i < |lines| ==> 0 <= lines[i].remainingSeats <= s.buses[i].totalSeats
  {
    forall i | 0 <= i < |s.buses|
      ensures 0 <= Listing(s.buses, s.tickets, userId)[i].remainingSeats <= s.buses[i].totalSeats
    {
      ListingRemaining(s, userId, i);
    }
  }

  /** The listing scenario: buses of 100, 150 and 200 seats with 40 seats
      requested on each, the user holding an issued ticket on the first only,
      are listed in order with 60, 110 and 160 remaining seats and the states
      issued, none, none. */
  lemma ListingScenario(tickets: seq<Ticket>, userId: nat, a: nat, b: nat, c: nat)
    requires RequestedSeats(tickets, a) == 40 && RequestedSeats(tickets, b) == 40 && RequestedSeats(tickets, c) == 40
    requires StatusFor(tickets, userId, a) == Issued
    requires !HasTicket(tickets, userId, b) && !HasTicket(tickets, userId, c)
    ensures Listing([Bus(a, 100), Bus(b, 150), Bus(c, 200)], tickets, userId) ==
      [HomeBusDto(Bus(a, 100), 60, Issued), HomeBusDto(Bus(b, 150), 110, NoTicket), HomeBusDto(Bus(c, 200), 160, NoTicket)]
  {
    var r := Listing([Bus(a, 100), Bus(b, 150), Bus(c, 200)], tickets, userId);
    assert r[0] == Line(Bus(a, 100), tickets, userId);
    assert r[1] == Line(Bus(b, 150), tickets, userId);
    assert r[2] == Line(Bus(c, 200), tickets, userId);
  }

  /** After an accepted request the user's listing shows the ticket awaiting
      approval with one seat fewer on that bus; other buses are unchanged. */
  lemma IssueShowsInListing(s: Store, userId: nat, busId: nat, i: nat)
    requires Valid(s) && i < |s.buses|
    requires Issue(s, userId, busId).1 == Done
    ensures var before := Listing(s.buses, s.tickets, userId)[i];
      var after := Listing(Issue(s, userId, busId).0.buses, Issue(s, userId, busId).0.tickets, userId)[i];
      && (s.buses[i].id == busId ==> after.status == NeedApproval && after.remainingSeats == before.remainingSeats - 1)
      && (s.buses[i].id != busId ==> after == before)
  {
    var t := Issue(s, userId, busId).0;
    var ticket := Ticket(userId, busId, NeedApproval);
    assert t.tickets == s.tickets + [ticket];
    RequestedSeatsAppend(s.tickets, ticket, s.buses[i].id);
    if s.buses[i].id == busId {
      assert TicketIndex(t.tickets, userId, busId) == Some(|s.tickets|);
    } else {
      assert TicketIndex(t.tickets, userId, s.buses[i].id) == TicketIndex(s.tickets, userId, s.buses[i].id) by {
        assert t.tickets[..|s.tickets|] == s.tickets;
      }
    }
  }

  /** A second request for the same bus is refused as a duplicate. */
  lemma IssueTwiceRefused(s: Store, userId: nat, busId: nat)
    requires Issue(s, userId, busId).1 == Done
    ensures Issue(Issue(s, userId, busId).0, userId, busId) == (Issue(s, userId, busId).0, Refused(AlreadyIssued))
  {
    var t := Issue(s, userId, busId).0;
    assert t.tickets[|s.tickets|] == Ticket(userId, busId, NeedApproval);
  }

  /** After a cancellation the ticket awaits cancel approval, and asking again
      is refused without filing a second request. */
  lemma CancelTwiceRefused(s: Store, userId: nat, busId: nat, form: CancelForm, form2: CancelForm)
    requires Cancel(s, userId, busId, form).1 == Done
    ensures var t := Cancel(s, userId, busId, form).0;
      && StatusFor(t.tickets, userId, busId) == NeedCancelApproval
      && Cancel(t, userId, busId, form2) == (t, Refused(AlreadyCancelRequested))
  {
    var t := Cancel(s, userId, busId, form).0;
    var k := TicketIndex(s.tickets, userId, busId).value;
    assert TicketIndex(t.tickets, userId, busId) == Some(k) by {
      TicketIndexRestate(s.tickets, k, NeedCancelApproval, userId, busId);
    }
  }

  lemma {:induction false} TicketIndexRestate(tickets: seq<Ticket>, k: nat, st: HomeBusStatus, userId: nat, busId: nat)
    requires k < |tickets|
    ensures TicketIndex(tickets[k := tickets[k].(status := st)], userId, busId) == TicketIndex(tickets, userId, busId)
  {
    var after := tickets[k := tickets[k].(status := st)];
    var last := |tickets| - 1;
    if k < last {
      TicketIndexRestate(tickets[..last], k, st, userId, busId);
      assert after[..last] == tickets[..last][k := tickets[k].(status := st)];
    } else {
      assert after[..last] == tickets[..last];
    }
  }

  /** The seat boundary of a request that passes the other checks: accepted
      with one seat left (30 of 31 requested), refused once every seat is
      requested (50 of 50). */
  lemma IssueSeatBoundary(s: Store, userId: nat, busId: nat)
    requires userId in s.campus && s.campus[userId] == Jukjeon
    requires FindBus(s.buses, busId).Some? && !HasTicket(s.tickets, userId, busId)
    ensures var total := FindBus(s.buses, busId).value.totalSeats;
      && (RequestedSeats(s.tickets, busId) + 1 == total ==> Issue(s, userId, busId).1 == Done)
      && (RequestedSeats(s.tickets, busId) == total ==> Issue(s, userId, busId).1 == Refused(FullSeats))
  {
  }

  // ---------------------------------------------------------------------------
  // The service
  // ---------------------------------------------------------------------------

  class HomeBusUserService {
    var campus: map<nat, Campus>
    var buses: seq<Bus>
    var tickets: seq<Ticket>
    var cancels: seq<CancelRequest>

    function State(): Store
      reads this
    {
      Store(campus, buses, tickets, cancels)
    }

    /** A service over the given users and buses; bus ids are keys, so no two buses share one. */
    constructor(campus: map<nat, Campus>, buses: seq<Bus>)
      requires UniqueBusIds(buses)
      ensures State() == Store(campus, buses, [], [])
      ensures Valid(State())
    {
      this.campus := campus;
      this.buses := buses;
      tickets := [];
      cancels := [];
    }

    /** The listing of every bus for `userId`: remaining seats and the user's ticket state. */
    method ListBus(userId: nat) returns (r: seq<HomeBusDto>)
      requires Valid(State())
      ensures r == Listing(buses, tickets, userId)
      ensures forall i :: 0 <= i < |r| ==> 0 <= r[i].remainingSeats <= buses[i].totalSeats
    {
      r := [];
      for i := 0 to |buses|
        invariant r == Listing(buses[..i], tickets, userId)
      {
        assert buses[..i + 1][..i] == buses[..i];
        assert Listing(buses[..i + 1], tickets, userId) == Listing(buses[..i], tickets, userId) + [Line(buses[i], tickets, userId)];
        r := r + [HomeBusDto(buses[i], buses[i].totalSeats - RequestedSeats(tickets, buses[i].id),
                             StatusFor(tickets, userId, buses[i].id))];
      }
      assert buses[..|buses|] == buses;
      ListingBounds(State(), userId);
    }

    /** Requests a seat of bus `busId` for `userId`. */
    method CreateTicket(userId: nat, busId: nat) returns (out: Outcome)
      requires Valid(State())
      modifies this
      ensures (State(), out) == Issue(old(State()), userId, busId)
      ensures Valid(State())
    {
      if userId !in campus {
        return Refused(UserNotFound);
      }
      var bus := FindBus(buses, busId);
      if bus.None? {
        return Refused(BusNotFound);
      }
      var requested := RequestedSeats(tickets, busId);
      var duplicate := false;
      for k := 0 to |tickets|
        invariant duplicate <==> exists j :: 0 <= j < k && tickets[j].userId == userId && tickets[j].busId == busId
      {
        if tickets[k].userId == userId && tickets[k].busId == busId {
          duplicate := true;
        }
      }
      if duplicate {
        return Refused(AlreadyIssued);
      }
      if campus[userId] != Jukjeon {
        return Refused(NotJukjeon);
      }
      if requested >= bus.value.totalSeats {
        return Refused(FullSeats);
      }
      IssueKeepsValid(State(), userId, busId);
      tickets := tickets + [Ticket(userId, busId, NeedApproval)];
      out := Done;
    }

    /** Asks to cancel the ticket of `userId` for bus `busId`, with the refund details `form`. */
    method DeleteTicket(userId: nat, busId: nat, form: CancelForm) returns (out: Outcome)
      requires Valid(State())
      modifies this
      ensures (State(), out) == Cancel(old(State()), userId, busId, form)
      ensures Valid(State())
    {
      CancelKeepsValid(State(), userId, busId, form);
      var found := TicketIndex(tickets, userId, busId);
      if found.None? {
        return Refused(TicketNotFound);
      }
      var k := found.value;
      if tickets[k].status == NeedCancelApproval {
        return Refused(AlreadyCancelRequested);
      }
      cancels := cancels + [CancelRequest(k, form.depositor, form.accountNum, form.bankName)];
      tickets := tickets[k := tickets[k].(status := NeedCancelApproval)];
      out := Done;
    }
  }
}
