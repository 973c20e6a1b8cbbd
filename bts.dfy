/** Flights of Bratislava Airport (internal/bts/bts.go): flight types, the
    flights scraped from the `button` elements of the arrivals and
    departures pages, and their combination. Fetching and parsing the HTML
    is not part of this model: the parsed node tree is an input, and each
    attribute carries the time that time.Parse gives for its value. */
module Bts {
  import opened Results
  import opened Seqs

  /** FlightType (bts.go:14-20): an integer type, so values other than the
      three constants exist. */
  newtype FlightType = int

  const Arrival: FlightType := 0
  const Departure: FlightType := 1
  const Both: FlightType := 2

  /** String (bts.go:22-24): indexing a three-element array, so any other
      value would panic. */
  function String(ft: FlightType): (s: string)
    requires Arrival <= ft <= Both
    ensures ft == Arrival ==> s == "arrival"
    ensures ft == Departure ==> s == "departure"
    ensures ft == Both ==> s == "both"
  {
    ["arrival", "departure", "both"][ft as int]
  }

  /** An hour of the day and the nanoseconds past it. */
  type HourOfDay = h: nat | h < 24
  type NanosInHour = n: nat | n < 3_600_000_000_000

  /** A time.Time in UTC as far as this package looks at it: its date as
      Format("2006-01-02") prints it, its hour and the rest of the hour.
      Two values are the same instant exactly when they are equal. */
  datatype Time = Time(day: string, hour: HourOfDay, sinceHour: NanosInHour)

  /** The zero time.Time, January 1 of year 1, 00:00:00 UTC; time.Parse
      returns it when parsing fails. */
  const ZeroTime := Time("0001-01-01", 0, 0)

  /** time.Time.IsZero: the instant is the zero time, whichever string was
      parsed to get it ("01. 01. 0001" gives it too). */
  predicate IsZero(t: Time) { t == ZeroTime }

  /** Format("2006-01-02") and Hour(). */
  function Day(t: Time): string { t.day }

  function Hour(t: Time): HourOfDay { t.hour }

  datatype Flight = Flight(
    flightType: FlightType,
    number: string,
    destination: string,
    date: Time,
    timePlanned: Time,
    timeCurrent: Time,
    airline: string,
    airplane: string)

  /** The zero Flight the attribute loop starts from. */
  const NoFlight := Flight(Arrival, "", "", ZeroTime, ZeroTime, ZeroTime, "", "")

  /** An HTML attribute; `asTime` is what time.Parse returns for `val` in
      the layout of its key (the zero time when parsing fails). */
  datatype Attr = Attr(key: string, val: string, asTime: Time)

  /** An HTML node with its children in sibling order. */
  datatype Node = Node(isElement: bool, data: string, attrs: seq<Attr>, children: seq<Node>)

  /** One case of the attribute switch (bts.go:90-114); unknown keys change
      nothing. */
  function ApplyAttr(f: Flight, a: Attr): Flight {
    if a.key == "data-flight-type" then
      f.(flightType := if a.val == "arrival" then Arrival else Departure)
    else if a.key == "data-destination" then f.(destination := a.val)
    else if a.key == "data-flight-number" then f.(number := a.val)
    else if a.key == "data-flight-date" then f.(date := a.asTime)
    else if a.key == "data-flight-time-planed" then f.(timePlanned := a.asTime)
    else if a.key == "data-flight-time-current" then f.(timeCurrent := a.asTime)
    else if a.key == "data-airline" then f.(airline := a.val)
    else if a.key == "data-flight-airplane" then f.(airplane := a.val)
    else f
  }

  /** The flight after the attributes, applied in order. */
  function FlightOf(attrs: seq<Attr>): Flight {
    if attrs == [] then NoFlight else ApplyAttr(FlightOf(attrs[..|attrs| - 1]), attrs[|attrs| - 1])
  }

  /** The attribute loop of visit (bts.go:88-115). */
  method BuildFlight(attrs: seq<Attr>) returns (flight: Flight)
    ensures flight == FlightOf(attrs)
  {
    flight := NoFlight;
    for i := 0 to |attrs|
      invariant flight == FlightOf(attrs[..i])
    {
      assert attrs[..i + 1][..i] == attrs[..i];
      var a := attrs[i];
      if a.key == "data-flight-type" {
        if a.val == "arrival" {
          flight := flight.(flightType := Arrival);
        } else {
          flight := flight.(flightType := Departure);
        }
      } else if a.key == "data-destination" {
        flight := flight.(destination := a.val);
      } else if a.key == "data-flight-number" {
        flight := flight.(number := a.val);
      } else if a.key == "data-flight-date" {
        flight := flight.(date := a.asTime);
      } else if a.key == "data-flight-time-planed" {
        flight := flight.(timePlanned := a.asTime);
      } else if a.key == "data-flight-time-current" {
        flight := flight.(timeCurrent := a.asTime);
      } else if a.key == "data-airline" {
        flight := flight.(airline := a.val);
      } else if a.key == "data-flight-airplane" {
        flight := flight.(airplane := a.val);
      }
    }
    assert attrs[..|attrs|] == attrs;
  }

  /** The type is Arrival exactly when the last "data-flight-type"
      attribute says "arrival" or there is none (the zero value); any other
      value gives Departure. */
  lemma {:induction false} FlightTypeOf(attrs: seq<Attr>)
    ensures FlightOf(attrs).flightType == Arrival || FlightOf(attrs).flightType == Departure
    ensures (forall i :: 0 <= i < |attrs| ==> attrs[i].key != "data-flight-type") ==> FlightOf(attrs).flightType == Arrival
    ensures attrs != [] && attrs[|attrs| - 1].key == "data-flight-type" ==>
      (FlightOf(attrs).flightType == Arrival <==> attrs[|attrs| - 1].val == "arrival")
  {
    if attrs != [] {
      var init := attrs[..|attrs| - 1];
      FlightTypeOf(init);
      assert forall i :: 0 <= i < |init| ==> init[i] == attrs[i];
    }
  }

  /** A later attribute with the same key overrides an earlier one: the
      last "data-flight-type" decides the type wherever it stands, whatever
      other attributes follow it. */
  lemma {:induction false} LastTypeWins(attrs: seq<Attr>, k: nat)
    requires k < |attrs| && attrs[k].key == "data-flight-type"
    requires forall i :: k < i < |attrs| ==> attrs[i].key != "data-flight-type"
    ensures FlightOf(attrs).flightType == Arrival <==> attrs[k].val == "arrival"
  {
    if k < |attrs| - 1 {
      var init := attrs[..|attrs| - 1];
      assert forall i :: k < i < |init| ==> init[i] == attrs[i];
      LastTypeWins(init, k);
    }
  }

  /** A later attribute with the same key overrides an earlier one: only
      the last "data-flight-date" decides the date. */
  lemma {:induction false} LastDateWins(attrs: seq<Attr>, k: nat)
    requires k < |attrs| && attrs[k].key == "data-flight-date"
    requires forall i :: k < i < |attrs| ==> attrs[i].key != "data-flight-date"
    ensures FlightOf(attrs).date == attrs[k].asTime
  {
    if k < |attrs| - 1 {
      var init := attrs[..|attrs| - 1];
      assert forall i :: k < i < |init| ==> init[i] == attrs[i];
      LastDateWins(init, k);
    }
  }

  /** A node becomes a flight when it is a `button` element whose date is
      not the zero time (bts.go:87 and 116). */
  predicate IsFlightButton(n: Node) {
    n.isElement && n.data == "button" && !IsZero(FlightOf(n.attrs).date)
  }

  /** A button whose last date attribute parses to the zero time, such as
      "01. 01. 0001", is dropped like one whose date does not parse. */
  lemma ZeroDateDropped(n: Node, k: nat)
    requires n.isElement && n.data == "button"
    requires k < |n.attrs| && n.attrs[k].key == "data-flight-date" && IsZero(n.attrs[k].asTime)
    requires forall i :: k < i < |n.attrs| ==> n.attrs[i].key != "data-flight-date"
    ensures !IsFlightButton(n)
  {
    LastDateWins(n.attrs, k);
  }

  /** visit (bts.go:86-124): the flight of the node itself, then the
      children in sibling order, each visited with the accumulator so far. */
  function Visit(flights: seq<Flight>, n: Node): seq<Flight>
    decreases n, 1
  {
    var acc := if IsFlightButton(n) then flights + [FlightOf(n.attrs)] else flights;
    VisitFrom(acc, n, 0)
  }

  function VisitFrom(flights: seq<Flight>, n: Node, i: nat): seq<Flight>
    decreases n, 0, |n.children| - i
  {
    if i >= |n.children| then flights
    else VisitFrom(Visit(flights, n.children[i]), n, i + 1)
  }

  /** The nodes of a tree in pre-order: a node before its descendants,
      children in sibling order. */
  function PreOrder(n: Node): seq<Node>
    decreases n, 1
  {
    [n] + PreOrderFrom(n, 0)
  }

  function PreOrderFrom(n: Node, i: nat): seq<Node>
    decreases n, 0, |n.children| - i
  {
    if i >= |n.children| then [] else PreOrder(n.children[i]) + PreOrderFrom(n, i + 1)
  }

  /** The flights of a list of nodes, node by node. */
  function FlightsOf(nodes: seq<Node>): seq<Flight> {
    if nodes == [] then []
    else (if IsFlightButton(nodes[0]) then [FlightOf(nodes[0].attrs)] else []) + FlightsOf(nodes[1..])
  }

  lemma {:induction false} FlightsOfAppend(a: seq<Node>, b: seq<Node>)
    ensures FlightsOf(a + b) == FlightsOf(a) + FlightsOf(b)
  {
    if a != [] {
      assert (a + b)[0] == a[0] && (a + b)[1..] == a[1..] + b;
      FlightsOfAppend(a[1..], b);
    } else {
      assert a + b == b;
    }
  }

  /** visit appends to its accumulator the flights of the flight buttons of
      the tree, in pre-order. */
  lemma {:induction false} VisitIsPreOrder(flights: seq<Flight>, n: Node)
    ensures Visit(flights, n) == flights + FlightsOf(PreOrder(n))
    decreases n, 1
  {
    var acc := if IsFlightButton(n) then flights + [FlightOf(n.attrs)] else flights;
    VisitFromIsPreOrder(acc, n, 0);
    FlightsOfAppend([n], PreOrderFrom(n, 0));
    assert FlightsOf([n]) == (if IsFlightButton(n) then [FlightOf(n.attrs)] else []) by {
      assert [n][1..] == [];
    }
  }

  lemma {:induction false} VisitFromIsPreOrder(flights: seq<Flight>, n: Node, i: nat)
    ensures VisitFrom(flights, n, i) == flights + FlightsOf(PreOrderFrom(n, i))
    decreases n, 0, |n.children| - i
  {
    if i < |n.children| {
      var c := n.children[i];
      VisitIsPreOrder(flights, c);
      VisitFromIsPreOrder(Visit(flights, c), n, i + 1);
      FlightsOfAppend(PreOrder(c), PreOrderFrom(n, i + 1));
    }
  }

  /** Every flight found carries a date, comes from a `button` element and
      is the flight of its attributes. */
  lemma {:induction false} FlightsOfButtons(nodes: seq<Node>, f: Flight)
    requires f in FlightsOf(nodes)
    ensures !IsZero(f.date)
    ensures exists n :: n in nodes && n.isElement && n.data == "button" && f == FlightOf(n.attrs)
  {
    if !(IsFlightButton(nodes[0]) && f == FlightOf(nodes[0].attrs)) {
      FlightsOfButtons(nodes[1..], f);
      var n :| n in nodes[1..] && n.isElement && n.data == "button" && f == FlightOf(n.attrs);
      assert n in nodes;
    }
  }

  /** GetFlights (bts.go:45-67) with the results of parsing the two pages
      as inputs: `Both` gives the arrivals followed by the departures, and a
      failing page fails the call. */
  function GetFlights(ft: FlightType, arrivals: Result<seq<Flight>, string>, departures: Result<seq<Flight>, string>)
    : (r: Result<seq<Flight>, string>)
    ensures ft == Arrival ==> r == arrivals
    ensures ft == Departure ==> r == departures
    ensures ft == Both ==>
      (r.Ok? <==> arrivals.Ok? && departures.Ok?) &&
      (r.Ok? ==> r.value == arrivals.value + departures.value) &&
      (arrivals.Err? ==> r == Err(arrivals.error)) &&
      (arrivals.Ok? && departures.Err? ==> r == Err(departures.error))
    ensures !(Arrival <= ft <= Both) ==> r == Err("unknown flight type")
  {
    if ft == Arrival then arrivals
    else if ft == Departure then departures
    else if ft == Both then
      if arrivals.Err? then Err(arrivals.error)
      else if departures.Err? then Err(departures.error)
      else Ok(arrivals.value + departures.value)
    else Err("unknown flight type")
  }
}
