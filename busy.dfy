/** The busiest hour of a list of flights (bts/busy.go). */
module Busy {
  import opened Seqs
  import opened Numerals
  import opened Bts

  /** The date-hour bucket of a flight (busy.go:11-16): its date, then the
      hour of the current time when that was changed from the zero time,
      else the hour of the planned time. */
  function Key(f: Flight): string {
    Day(f.date) + FormatInt(BucketHour(f), 10)
  }

  /** The hour of the bucket: the current time's unless it is the zero
      time, else the planned time's. */
  function BucketHour(f: Flight): HourOfDay {
    if !IsZero(f.timeCurrent) then Hour(f.timeCurrent) else Hour(f.timePlanned)
  }

  /** For dates of the usual ten characters, two flights share a bucket
      exactly when they share the date and the bucket hour. */
  lemma KeyIsDateAndHour(a: Flight, b: Flight)
    requires |Day(a.date)| == 10 && |Day(b.date)| == 10
    ensures Key(a) == Key(b) <==> Day(a.date) == Day(b.date) && BucketHour(a) == BucketHour(b)
  {
    var ha := FormatInt(BucketHour(a), 10);
    var hb := FormatInt(BucketHour(b), 10);
    if Key(a) == Key(b) {
      assert Key(a)[..10] == Day(a.date) && Key(b)[..10] == Day(b.date);
      assert Key(a)[10..] == ha && Key(b)[10..] == hb;
      ParseFormatInt(BucketHour(a), 10);
      ParseFormatInt(BucketHour(b), 10);
    }
  }

  /** The flights of one bucket, in input order. */
  function Bucket(flights: seq<Flight>, k: string): (r: seq<Flight>)
    ensures forall i :: 0 <= i < |r| ==> Key(r[i]) == k
  {
    Filter(flights, (f: Flight) => Key(f) == k)
  }

  lemma BucketSnoc(flights: seq<Flight>, f: Flight, k: string)
    ensures Bucket(flights + [f], k) == Bucket(flights, k) + (if Key(f) == k then [f] else [])
  {
    assert (flights + [f])[..|flights|] == flights;
  }

  /** A bucket is every flight with its key, in input order. */
  lemma BucketMembers(flights: seq<Flight>, k: string)
    ensures forall f :: f in Bucket(flights, k) <==> f in flights && Key(f) == k
    ensures IsSubsequence(Bucket(flights, k), flights)
  {
    FilterMembers(flights, (f: Flight) => Key(f) == k);
    FilterIsSubsequence(flights, (f: Flight) => Key(f) == k);
  }

  /** `count` maps each key that occurs to its non-empty bucket. */
  ghost predicate Counted(flights: seq<Flight>, count: map<string, seq<Flight>>) {
    && (forall k :: k in count ==> count[k] == Bucket(flights, k) && count[k] != [])
    && (forall k :: k !in count ==> Bucket(flights, k) == [])
  }

  lemma CountedStep(flights: seq<Flight>, count: map<string, seq<Flight>>, f: Flight)
    requires Counted(flights, count)
    ensures Counted(flights + [f], count[Key(f) := (if Key(f) in count then count[Key(f)] else []) + [f]])
  {
    var next := count[Key(f) := (if Key(f) in count then count[Key(f)] else []) + [f]];
    forall k
      ensures k in next ==> next[k] == Bucket(flights + [f], k) && next[k] != []
      ensures k !in next ==> Bucket(flights + [f], k) == []
    {
      BucketSnoc(flights, f, k);
    }
  }

  /** The grouping loop of Busy (busy.go:9-18). */
  method CountByDateHour(flights: seq<Flight>) returns (count: map<string, seq<Flight>>)
    ensures Counted(flights, count)
  {
    count := map[];
    for i := 0 to |flights|
      invariant Counted(flights[..i], count)
    {
      var flight := flights[i];
      assert flights[..i + 1] == flights[..i] + [flight];
      CountedStep(flights[..i], count, flight);
      var dateHour := Key(flight);
      var bucket := if dateHour in count then count[dateHour] else [];
      count := count[dateHour := bucket + [flight]];
    }
    assert flights[..|flights|] == flights;
  }

  /** The maximum loop of Busy (busy.go:20-27): a key whose list no other
      list outnumbers; "" (and 0) when the map is empty. */
  method MostBusy(count: map<string, seq<Flight>>) returns (mostBusyDateHour: string, maxFlights: nat)
    requires forall k :: k in count ==> count[k] != []
    ensures count == map[] ==> maxFlights == 0
    ensures count != map[] ==> mostBusyDateHour in count && |count[mostBusyDateHour]| == maxFlights
    ensures forall k :: k in count ==> |count[k]| <= maxFlights
  {
    maxFlights := 0;
    mostBusyDateHour := "";
    var rest := count.Keys;
    while rest != {}
      invariant rest <= count.Keys
      invariant forall k :: k in count.Keys - rest ==> |count[k]| <= maxFlights
      invariant maxFlights > 0 ==> mostBusyDateHour in count && |count[mostBusyDateHour]| == maxFlights
      invariant maxFlights == 0 ==> rest == count.Keys
      decreases |rest|
    {
      var dh :| dh in rest;
      if |count[dh]| > maxFlights {
        maxFlights := |count[dh]|;
        mostBusyDateHour := dh;
      }
      rest := rest - {dh};
    }
    if count != map[] {
      var k :| k in count;
      assert k !in rest;
    }
  }

  /** Busy (busy.go:6-30): the flights of a bucket that no other bucket
      outnumbers; among equally full buckets the map order decides. */
  method Busy(flights: seq<Flight>) returns (r: seq<Flight>)
    ensures flights == [] ==> r == []
    ensures flights != [] ==> r != [] && r == Bucket(flights, Key(r[0]))
    ensures forall i :: 0 <= i < |r| ==> Key(r[i]) == Key(r[0])
    ensures forall k :: |Bucket(flights, k)| <= |r|
  {
    var count := CountByDateHour(flights);
    var mostBusyDateHour, maxFlights := MostBusy(count);
    r := if mostBusyDateHour in count then count[mostBusyDateHour] else [];
    if flights != [] {
      assert Key(flights[0]) in count by {
        BucketMembers(flights, Key(flights[0]));
      }
    }
  }

  /** A single flight is its own busiest hour. */
  lemma SingleFlight(f: Flight)
    ensures Bucket([f], Key(f)) == [f]
    ensures forall k :: |Bucket([f], k)| <= 1
  {
    assert [f][..0] == [];
  }

  /** The bucket of three flights, flight by flight. */
  lemma BucketOfThree(a: Flight, b: Flight, c: Flight, k: string)
    ensures Bucket([a, b, c], k)
         == (if Key(a) == k then [a] else []) + (if Key(b) == k then [b] else []) + (if Key(c) == k then [c] else [])
  {
    var e := Bucket([], k);
    assert e == [];
    BucketSnoc([], a, k);
    assert [] + [a] == [a];
    BucketSnoc([a], b, k);
    assert [a] + [b] == [a, b];
    BucketSnoc([a, b], c, k);
    assert [a, b] + [c] == [a, b, c];
  }

  /** TestFlights_Busy's third case: two flights in one hour and a third in
      another make a busiest bucket of two. */
  lemma TwoInOneHour(a: Flight, b: Flight, c: Flight)
    requires Key(a) == Key(b) != Key(c)
    ensures Bucket([a, b, c], Key(a)) == [a, b]
    ensures forall k :: |Bucket([a, b, c], k)| <= 2
  {
    forall k ensures |Bucket([a, b, c], k)| <= 2 {
      BucketOfThree(a, b, c, k);
    }
    BucketOfThree(a, b, c, Key(a));
  }

  const Minute := 60_000_000_000

  /** The bucket keys of the test's flights: 08:32 on 12 June and on 13
      June fall in different buckets, 08:32 and 08:42 on one day in the
      same, and a delay moves a flight to the hour of its current time. */
  lemma TestKeys()
    ensures var f := Flight(Arrival, "", "", Time("2023-06-12", 0, 0), Time("0000-01-01", 8, 32 * Minute), ZeroTime, "", "");
      && Key(f) == "2023-06-128"
      && Key(f) == Key(f.(timePlanned := Time("0000-01-01", 8, 42 * Minute)))
      && Key(f) != Key(f.(date := Time("2023-06-13", 0, 0)))
      && Key(f.(timeCurrent := Time("0000-01-01", 9, 5 * Minute))) == "2023-06-129"
  {
    var f := Flight(Arrival, "", "", Time("2023-06-12", 0, 0), Time("0000-01-01", 8, 32 * Minute), ZeroTime, "", "");
    KeyIsDateAndHour(f, f.(date := Time("2023-06-13", 0, 0)));
  }
}
