/** The colour side of `RaceManager`: the static driver-to-team and
    team-to-colour tables, the normalisation of a colour code, the two-level
    lookup that `ApplyColorFromHexCode` performs, and the `racers`
    dictionary that `SpawnRacers` fills. Prefab instantiation, materials and
    renderers are not modelled. */
module RaceManager {
  import opened Wrappers
  import Decimal
  import F1DataParser

  /** `driverTeamMap`: driver number to team. */
  const DriverTeamMap: map<int, string> := map[
    33 := "RB", 16 := "FER", 77 := "MERC", 5 := "FER", 44 := "MERC",
    4 := "MCL", 10 := "RB", 55 := "MCL", 7 := "ALFA", 99 := "ALFA",
    11 := "RP", 3 := "REN", 27 := "REN", 18 := "RP", 23 := "TORO",
    8 := "HAAS", 26 := "TORO", 63 := "WIL", 20 := "HAAS", 88 := "WIL"
  ]

  /** `teamCarcolorMap`: team to a colour written as six hex digits. */
  const TeamCarColorMap: map<string, string> := map[
    "MERC" := "8A8D8F", "RB" := "1E1E5F", "FER" := "D40000", "MCL" := "FF6A13",
    "REN" := "FFB800", "TORO" := "1C66B8", "RP" := "F06292", "ALFA" := "9E1B32",
    "HAAS" := "A4A29A", "WIL" := "005AA7"
  ]

  /** Which dictionary lookup of `ApplyColorFromHexCode` throws. */
  datatype LookupError =
    | UnknownDriver(carNum: int)
    | UnknownTeam(team: string)

  /** A spawned car: its object name and the colour code applied to it. */
  datatype Car = Car(name: string, colour: string)

  /** What `SpawnRacers` leaves in `racers`: complete, or cut short by a
      lookup that threw. */
  datatype SpawnOutcome =
    | Spawned(racers: map<int, Car>)
    | Aborted(racers: map<int, Car>, error: LookupError)

  predicate IsHexDigit(c: char) {
    '0' <= c <= '9' || 'A' <= c <= 'F' || 'a' <= c <= 'f'
  }

  /** Six hex digits, as every configured colour is written. */
  predicate IsHexDigits6(s: string) {
    |s| == 6 && forall k :: 0 <= k < 6 ==> IsHexDigit(s[k])
  }

  /** The HTML form `#RRGGBB`. */
  predicate IsHtmlRgb(s: string) {
    |s| == 7 && s[0] == '#' && IsHexDigits6(s[1..])
  }

  /** The white-space characters `Trim` removes (ASCII subset). */
  predicate IsWhiteSpace(c: char) {
    c == ' ' || c == '\t' || c == '\n' || c == '\r'
  }

  /** Drops the leading white space: what is dropped is all white space. */
  function TrimStart(s: string): (r: string)
    ensures |r| <= |s| && r == s[|s| - |r|..]
    ensures forall k :: 0 <= k < |s| - |r| ==> IsWhiteSpace(s[k])
    ensures |r| > 0 ==> !IsWhiteSpace(r[0])
  {
    if |s| > 0 && IsWhiteSpace(s[0]) then TrimStart(s[1..]) else s
  }

  /** Drops the trailing white space: what is dropped is all white space. */
  function TrimEnd(s: string): (r: string)
    ensures |r| <= |s| && r == s[..|r|]
    ensures forall k :: |r| <= k < |s| ==> IsWhiteSpace(s[k])
    ensures |r| > 0 ==> !IsWhiteSpace(r[|r| - 1])
  {
    if |s| > 0 && IsWhiteSpace(s[|s| - 1]) then TrimEnd(s[..|s| - 1]) else s
  }

  /** `string.Trim`: drops leading and trailing white space, and leaves a
      string that neither starts nor ends with white space as it is. */
  function Trim(s: string): (r: string)
    ensures |r| <= |s|
    ensures |r| > 0 ==> !IsWhiteSpace(r[0]) && !IsWhiteSpace(r[|r| - 1])
    ensures |s| > 0 && !IsWhiteSpace(s[0]) && !IsWhiteSpace(s[|s| - 1]) ==> r == s
    ensures (forall k :: 0 <= k < |s| ==> IsWhiteSpace(s[k])) ==> r == []
    ensures exists i :: TrimmedAt(s, r, i)
  {
    var t := TrimStart(s);
    var r := TrimEnd(t);
    TrimBoth(s, t, r);
    r
  }

  /** `r` is the slice of `s` starting at `i`, and everything outside the
      slice is white space. */
  predicate TrimmedAt(s: string, r: string, i: int) {
    && 0 <= i && i + |r| <= |s| && r == s[i..i + |r|]
    && (forall k :: 0 <= k < i ==> IsWhiteSpace(s[k]))
    && (forall k :: i + |r| <= k < |s| ==> IsWhiteSpace(s[k]))
  }

  /** Dropping white space from the front and then from the back leaves a
      slice of the input with only white space outside it. */
  lemma TrimBoth(s: string, t: string, r: string)
    requires |t| <= |s| && t == s[|s| - |t|..]
    requires forall k :: 0 <= k < |s| - |t| ==> IsWhiteSpace(s[k])
    requires |r| <= |t| && r == t[..|r|]
    requires forall k :: |r| <= k < |t| ==> IsWhiteSpace(t[k])
    ensures TrimmedAt(s, r, |s| - |t|)
  {
    var i := |s| - |t|;
    forall k | i + |r| <= k < |s|
      ensures IsWhiteSpace(s[k])
    {
      assert s[k] == t[k - i];
    }
  }

  /** Trimming twice is trimming once. */
  lemma TrimIdempotent(s: string)
    ensures Trim(Trim(s)) == Trim(s)
  {
    var r := Trim(s);
    if |r| == 0 {
      assert Trim(r) == [];
    }
  }

  /** RaceManager.cs, lines 108-111: prepend the `#` marker when it is missing. The result
      starts with the marker and ends with the whole input. */
  function Normalize(hex: string): (r: string)
    ensures |r| > 0 && r[0] == '#'
    ensures |hex| <= |r| <= |hex| + 1
    ensures r[|r| - |hex|..] == hex
  {
    if |hex| > 0 && hex[0] == '#' then hex else "#" + hex
  }

  /** A code that already carries the marker is left alone. */
  lemma NormalizeKeepsMarked(hex: string)
    requires |hex| > 0 && hex[0] == '#'
    ensures Normalize(hex) == hex
  {
  }

  /** Normalising twice is normalising once. */
  lemma NormalizeIdempotent(hex: string)
    ensures Normalize(Normalize(hex)) == Normalize(hex)
  {
    NormalizeKeepsMarked(Normalize(hex));
  }

  /** Six hex digits, trimmed and normalised, become `#RRGGBB` with the
      same digits: there is no white space to trim and no marker yet. */
  lemma HexDigitsToHtmlRgb(hex: string)
    ensures IsHexDigits6(hex) ==> Normalize(Trim(hex)) == "#" + hex && IsHtmlRgb("#" + hex)
  {
    if IsHexDigits6(hex) {
      assert TrimStart(hex) == hex;
      assert TrimEnd(hex) == hex;
      assert hex[0] != '#';
      assert ("#" + hex)[1..] == hex;
    }
  }

  /** The two tables `ApplyColorFromHexCode` consults. */
  datatype Livery = Livery(driverTeams: map<int, string>, teamColours: map<string, string>)

  /** The tables as configured in `RaceManager`. */
  const Configured: Livery := Livery(DriverTeamMap, TeamCarColorMap)

  /** Every driver of `drivers` has a team, every team of a driver has a
      colour, and every colour is six hex digits. */
  predicate Closed(liv: Livery, drivers: set<int>) {
    && drivers <= liv.driverTeams.Keys
    && (forall d :: d in liv.driverTeams ==> liv.driverTeams[d] in liv.teamColours)
    && (forall t :: t in liv.teamColours ==> IsHexDigits6(liv.teamColours[t]))
  }

  /** Every driver of `driverNumMap` has a team. */
  lemma DriversHaveTeams()
    ensures F1DataParser.DriverNumMap.Keys == DriverTeamMap.Keys
  {
  }

  /** Every team a driver belongs to has a colour. */
  lemma TeamsHaveColours()
    ensures forall d :: d in DriverTeamMap ==> DriverTeamMap[d] in TeamCarColorMap
  {
  }

  /** Every configured colour is six hex digits. */
  lemma ColoursAreHexDigits()
    ensures forall t :: t in TeamCarColorMap ==> IsHexDigits6(TeamCarColorMap[t])
  {
  }

  /** The configured tables cover every driver of `driverNumMap`. */
  lemma ConfiguredIsClosed()
    ensures Closed(Configured, F1DataParser.DriverNumMap.Keys)
  {
    DriversHaveTeams();
    TeamsHaveColours();
    ColoursAreHexDigits();
  }

  /** The lookup and normalisation of `ApplyColorFromHexCode`
      (RaceManager.cs, lines 107-111), with each dictionary miss returned as a `LookupError`
      instead of thrown: the driver's team, then the team's colour, trimmed
      and given its `#` marker. */
  function ColorFor(liv: Livery, carNum: int): (r: Result<string, LookupError>)
    ensures r.Success? <==> carNum in liv.driverTeams && liv.driverTeams[carNum] in liv.teamColours
    ensures r.Failure? ==> (r.error == UnknownDriver(carNum) <==> carNum !in liv.driverTeams)
    ensures carNum in liv.driverTeams && liv.driverTeams[carNum] !in liv.teamColours ==>
      r == Failure(UnknownTeam(liv.driverTeams[carNum]))
    ensures r.Success? ==> |r.value| > 0 && r.value[0] == '#'
    ensures r.Success? && IsHexDigits6(liv.teamColours[liv.driverTeams[carNum]]) ==>
      IsHtmlRgb(r.value) && r.value[1..] == liv.teamColours[liv.driverTeams[carNum]]
  {
    if carNum !in liv.driverTeams then Failure(UnknownDriver(carNum))
    else
      var team := liv.driverTeams[carNum];
      if team !in liv.teamColours then Failure(UnknownTeam(team))
      else
        var configured := liv.teamColours[team];
        HexDigitsToHtmlRgb(configured);
        Success(Normalize(Trim(configured)))
  }

  /** Over closed tables the lookup never misses for a covered driver and
      always yields `#RRGGBB`. */
  lemma {:induction false} ClosedLookupSucceeds(liv: Livery, drivers: set<int>, carNum: int)
    requires Closed(liv, drivers)
    requires carNum in drivers
    ensures ColorFor(liv, carNum).Success?
    ensures IsHtmlRgb(ColorFor(liv, carNum).value)
  {
    assert carNum in liv.driverTeams;
    var team := liv.driverTeams[carNum];
    assert team in liv.teamColours;
    assert IsHexDigits6(liv.teamColours[team]);
  }

  /** With the configured tables, the lookup fails exactly for a number
      without a team, and then as `UnknownDriver`: the team-to-colour lookup
      never misses. */
  lemma ConfiguredLookup(carNum: int)
    ensures ColorFor(Configured, carNum).Success? <==> carNum in DriverTeamMap
    ensures ColorFor(Configured, carNum).Failure? ==>
      ColorFor(Configured, carNum).error == UnknownDriver(carNum)
    ensures ColorFor(Configured, carNum).Success? ==> IsHtmlRgb(ColorFor(Configured, carNum).value)
  {
    if carNum in DriverTeamMap {
      TeamsHaveColours();
      ColoursAreHexDigits();
      assert DriverTeamMap[carNum] in TeamCarColorMap;
    }
  }

  /** The car `SpawnRacers` creates for a driver: named `car_<number>`. */
  function NewCar(carNum: int, colour: string): Car {
    Car("car_" + Decimal.IntToString(carNum), colour)
  }

  /** A set is empty or has a member to pick. */
  lemma EmptyOrInhabited(s: set<int>)
    ensures s == {} || exists x :: x in s
  {
    if forall x :: x !in s {
      assert s == {};
    }
  }

  /** The loop of `SpawnRacers` over a set of car numbers, starting from
      the empty `racers` dictionary: every number is visited once, in an
      unspecified order, and gets a car with its colour, unless a lookup
      throws first; the cars made before the throw stay. */
  method SpawnEach(liv: Livery, drivers: set<int>) returns (out: SpawnOutcome)
    ensures out.racers.Keys <= drivers
    ensures forall k :: k in out.racers ==>
      ColorFor(liv, k).Success? && out.racers[k] == NewCar(k, ColorFor(liv, k).value)
    ensures out.Spawned? ==> out.racers.Keys == drivers
    ensures out.Aborted? <==> exists k :: k in drivers && ColorFor(liv, k).Failure?
    ensures out.Aborted? ==> exists k :: k in drivers && ColorFor(liv, k) == Failure(out.error)
  {
    var racers: map<int, Car> := map[];
    var remaining := drivers;
    while remaining != {}
      invariant remaining <= drivers
      invariant racers.Keys == drivers - remaining
      invariant forall k :: k in racers ==>
        ColorFor(liv, k).Success? && racers[k] == NewCar(k, ColorFor(liv, k).value)
      decreases remaining
    {
      EmptyOrInhabited(remaining);
      var carNum :| carNum in remaining;
      match ColorFor(liv, carNum) {
        case Failure(e) =>
          return Aborted(racers, e);
        case Success(hex) =>
          racers := racers[carNum := NewCar(carNum, hex)];
      }
      remaining := remaining - {carNum};
    }
    return Spawned(racers);
  }

  /** `SpawnRacers`: without a prefab nothing is spawned; otherwise every
      driver of `driverNumMap` gets a car, unless a colour lookup throws. */
  method SpawnRacers(liv: Livery, prefabAssigned: bool) returns (out: SpawnOutcome)
    ensures !prefabAssigned ==> out == Spawned(map[])
    ensures out.racers.Keys <= F1DataParser.DriverNumMap.Keys
    ensures forall k :: k in out.racers ==>
      ColorFor(liv, k).Success? && out.racers[k] == NewCar(k, ColorFor(liv, k).value)
    ensures prefabAssigned && out.Spawned? ==> out.racers.Keys == F1DataParser.DriverNumMap.Keys
    ensures out.Aborted? <==>
      prefabAssigned && exists k :: k in F1DataParser.DriverNumMap && ColorFor(liv, k).Failure?
    ensures out.Aborted? ==>
      exists k :: k in F1DataParser.DriverNumMap && ColorFor(liv, k) == Failure(out.error)
  {
    if !prefabAssigned {
      return Spawned(map[]);
    }
    out := SpawnEach(liv, F1DataParser.DriverNumMap.Keys);
  }

  /** With closed tables, a spawn with a prefab is never cut short. */
  lemma ClosedSpawnNeverAborts(liv: Livery)
    requires Closed(liv, F1DataParser.DriverNumMap.Keys)
    ensures !exists k :: k in F1DataParser.DriverNumMap && ColorFor(liv, k).Failure?
  {
    forall k | k in F1DataParser.DriverNumMap
      ensures ColorFor(liv, k).Success?
    {
      ClosedLookupSucceeds(liv, F1DataParser.DriverNumMap.Keys, k);
    }
  }
}
