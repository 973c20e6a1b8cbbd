/** The flight-type command-line flag (internal/bts/flag.go): a flag value
    holding a FlightType that Set overwrites. Registration with the flag
    package is not part of this model. */
module BtsFlag {
  import opened Results
  import opened Bts

  /** The flight type a flag argument names; the match is exact, so other
      letter cases name none. */
  function ParseFlightType(s: string): (r: Option<FlightType>)
    ensures r.Some? ==> Arrival <= r.value <= Both && String(r.value) == s
    ensures r.None? <==> s != "arrival" && s != "departure" && s != "both"
  {
    if s == "arrival" then Some(Arrival)
    else if s == "departure" then Some(Departure)
    else if s == "both" then Some(Both)
    else None
  }

  /** Setting a flag to the name of a type gives that type back. */
  lemma SetStringRoundTrip(ft: FlightType)
    requires Arrival <= ft <= Both
    ensures ParseFlightType(String(ft)) == Some(ft)
  {
  }

  const SetError := "use arrival, departure or both"

  /** flightTypeFlag (flag.go:8): the struct embedding the flag's value. */
  class FlightTypeFlag {
    var flightType: FlightType

    /** FlightTypeFlag (flag.go:27-31): the flag starts at its default. */
    constructor (value: FlightType)
      ensures flightType == value
    {
      flightType := value;
    }

    /** Set (flag.go:10-23): a known name stores its type; anything else is
        an error and the value stays as it was. */
    method Set(s: string) returns (err: Option<string>)
      modifies this
      ensures ParseFlightType(s).Some? ==> err == None && flightType == ParseFlightType(s).value
      ensures ParseFlightType(s).None? ==> err == Some(SetError) && flightType == old(flightType)
    {
      if s == "arrival" {
        flightType := Arrival;
        return None;
      } else if s == "departure" {
        flightType := Departure;
        return None;
      } else if s == "both" {
        flightType := Both;
        return None;
      }
      return Some(SetError);
    }
  }
}
