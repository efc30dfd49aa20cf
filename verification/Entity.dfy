/** The flight record and the key under which two offers count as the same flight. */
module Entity {
  import opened Seqs
  import opened Text
  import opened Times

  datatype Airline = Airline(name: string, code: string)

  datatype FlightPoint = FlightPoint(airport: string, city: string, time: Time)

  datatype Price = Price(amount: int, currency: string)

  datatype Baggage = Baggage(carryOn: string, checked: string)

  datatype Flight = Flight(
    id: string,
    provider: string,
    airline: Airline,
    flightNumber: string,
    departure: FlightPoint,
    arrival: FlightPoint,
    durationMinute: int,
    stops: int,
    price: Price,
    availableSeats: int,
    cabinClass: string,
    aircraft: Option<string>,
    amenities: seq<string>,
    baggage: Baggage,
    bestValueScore: real)

  function KeyFields(f: Flight): (parts: seq<string>)
    ensures |parts| == 6
  {
    [f.airline.code, f.flightNumber, f.departure.airport, f.arrival.airport,
     FormatTime(f.departure.time), FormatTime(f.arrival.time)]
  }

  function FlightKey(f: Flight): (key: string) {
    ToLower(Join(KeyFields(f), '|'))
  }

  function RouteText(f: Flight): (s: string) {
    f.airline.code + "|" + (f.flightNumber + "|" + (f.departure.airport + "|" + f.arrival.airport))
  }

  /** Text fields that would not hide a key separator. */
  predicate PipeFreeKey(f: Flight) {
    '|' !in f.airline.code && '|' !in f.flightNumber && '|' !in f.departure.airport && '|' !in f.arrival.airport
  }

  lemma JoinSix(p: seq<string>)
    requires |p| == 6
    ensures Join(p, '|') ==
            (p[0] + "|" + (p[1] + "|" + (p[2] + "|" + p[3]))) + "|" + p[4] + "|" + p[5]
  {
    assert Join(p[4..], '|') == p[4] + "|" + Join(p[5..], '|');
    assert Join(p[3..], '|') == p[3] + "|" + Join(p[4..], '|');
    assert Join(p[2..], '|') == p[2] + "|" + Join(p[3..], '|');
    assert Join(p[1..], '|') == p[1] + "|" + Join(p[2..], '|');
    assert Join(p, '|') == p[0] + "|" + Join(p[1..], '|');
  }

  lemma KeyShape(f: Flight)
    ensures FlightKey(f) ==
            ToLower(RouteText(f)) + "|" + ToLower(FormatTime(f.departure.time)) + "|" + ToLower(FormatTime(f.arrival.time))
  {
    var d, a := FormatTime(f.departure.time), FormatTime(f.arrival.time);
    JoinSix(KeyFields(f));
    assert ToLower("|") == "|";
    LowerConcat(RouteText(f) + "|" + d + "|", a);
    LowerConcat(RouteText(f) + "|" + d, "|");
    LowerConcat(RouteText(f) + "|", d);
    LowerConcat(RouteText(f), "|");
  }

  lemma TimeHasNoPipe(t: Time)
    ensures '|' !in ToLower(FormatTime(t))
  {
    FormatTimeChars(t);
    CaseKeepsPipes(FormatTime(t));
  }

  /** Equal keys mean equal departure and arrival times, whatever the text fields hold. */
  lemma KeyFixesTimes(f: Flight, g: Flight)
    requires FlightKey(f) == FlightKey(g)
    ensures f.departure.time == g.departure.time && f.arrival.time == g.arrival.time
    ensures ToLower(RouteText(f)) == ToLower(RouteText(g))
  {
    KeyShape(f);
    KeyShape(g);
    TimeHasNoPipe(f.departure.time);
    TimeHasNoPipe(f.arrival.time);
    TimeHasNoPipe(g.departure.time);
    TimeHasNoPipe(g.arrival.time);
    CutLast('|', ToLower(RouteText(f)) + "|" + ToLower(FormatTime(f.departure.time)), ToLower(FormatTime(f.arrival.time)),
                 ToLower(RouteText(g)) + "|" + ToLower(FormatTime(g.departure.time)), ToLower(FormatTime(g.arrival.time)));
    CutLast('|', ToLower(RouteText(f)), ToLower(FormatTime(f.departure.time)),
                 ToLower(RouteText(g)), ToLower(FormatTime(g.departure.time)));
    LoweredTimeInjective(f.departure.time, g.departure.time);
    LoweredTimeInjective(f.arrival.time, g.arrival.time);
  }

  /** Without separators in the text fields, equal keys also mean the same airline, number and route. */
  lemma KeyFixesRoute(f: Flight, g: Flight)
    requires PipeFreeKey(f) && PipeFreeKey(g)
    ensures FlightKey(f) == FlightKey(g) <==>
            && EqualFold(f.airline.code, g.airline.code)
            && EqualFold(f.flightNumber, g.flightNumber)
            && EqualFold(f.departure.airport, g.departure.airport)
            && EqualFold(f.arrival.airport, g.arrival.airport)
            && f.departure.time == g.departure.time
            && f.arrival.time == g.arrival.time
  {
    RouteShape(f);
    RouteShape(g);
    KeyShape(f);
    KeyShape(g);
    if FlightKey(f) == FlightKey(g) {
      KeyFixesTimes(f, g);
      var f1, f2, f3 := ToLower(f.airline.code), ToLower(f.flightNumber), ToLower(f.departure.airport);
      var g1, g2, g3 := ToLower(g.airline.code), ToLower(g.flightNumber), ToLower(g.departure.airport);
      var f4, g4 := ToLower(f.arrival.airport), ToLower(g.arrival.airport);
      CutFirst('|', f1, f2 + "|" + (f3 + "|" + f4), g1, g2 + "|" + (g3 + "|" + g4));
      CutFirst('|', f2, f3 + "|" + f4, g2, g3 + "|" + g4);
      CutFirst('|', f3, f4, g3, g4);
    }
  }

  lemma RouteShape(f: Flight)
    ensures ToLower(RouteText(f)) ==
            ToLower(f.airline.code) + "|" + (ToLower(f.flightNumber) + "|" + (ToLower(f.departure.airport) + "|" + ToLower(f.arrival.airport)))
    ensures PipeFreeKey(f) ==>
              && '|' !in ToLower(f.airline.code) && '|' !in ToLower(f.flightNumber)
              && '|' !in ToLower(f.departure.airport) && '|' !in ToLower(f.arrival.airport)
  {
    assert ToLower("|") == "|";
    var a, b, c, d := f.airline.code, f.flightNumber, f.departure.airport, f.arrival.airport;
    LowerConcat(c + "|", d);
    LowerConcat(c, "|");
    LowerConcat(b + "|", c + "|" + d);
    LowerConcat(b, "|");
    LowerConcat(a + "|", b + "|" + (c + "|" + d));
    LowerConcat(a, "|");
    CaseKeepsPipes(a);
    CaseKeepsPipes(b);
    CaseKeepsPipes(c);
    CaseKeepsPipes(d);
  }
}
