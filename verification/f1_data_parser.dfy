/** The dataset loader `F1DataParser`: the shapes the JSON document is read
    into, the driver-number table, and the construction of the frame map
    `frame index -> (driver number -> position)`. Reading the file and the
    JSON parser itself are not modelled: their outcome is an input. */
module F1DataParser {
  import opened Wrappers

  /** `driverNumMap`: driver number to three-letter driver code. */
  const DriverNumMap: map<int, string> := map[
    33 := "VER", 16 := "LEC", 77 := "BOT", 5 := "VET", 44 := "HAM",
    4 := "NOR", 10 := "GAS", 55 := "SAI", 7 := "RAI", 99 := "GIO",
    11 := "PER", 3 := "HUL", 27 := "RIC", 18 := "STR", 23 := "ALB",
    8 := "GRO", 26 := "KYT", 63 := "RUS", 20 := "MAG", 88 := "KUB"
  ]

  /** A `Vector3`. The coordinates are carried, never computed with. */
  datatype Position = Position(x: real, y: real, z: real)

  /** One position record of the document. */
  datatype CarPosition = CarPosition(driver: int, posX: real, posY: real, posZ: real)

  /** One frame of the document. Every reference the parser may leave null
      is an `Option`: the list itself and each of its elements. */
  datatype F1Frame = F1Frame(timeDelta: string, carPositions: Option<seq<Option<CarPosition>>>)

  /** The top-level object of the document. */
  datatype F1DataContainer = F1DataContainer(f1Data: Option<seq<Option<F1Frame>>>)

  /** What looking up, reading and parsing the data file produced. Reading
      happens before the `try` block, so a read that throws is not caught. */
  datatype ReadOutcome =
    | FileNotFound
    | ReadThrew
    | ParseThrew
    | Parsed(container: Option<F1DataContainer>)

  /** One frame of the result: driver number to position. */
  type FrameData = map<int, Position>

  /** The whole result: frame index to frame. */
  type RaceData = map<int, FrameData>

  function PositionOf(c: CarPosition): Position {
    Position(c.posX, c.posY, c.posZ)
  }

  /** The frame indices `0 .. n-1`. */
  function Indices(n: nat): (s: set<int>)
    ensures forall i :: i in s <==> 0 <= i < n
  {
    if n == 0 then {} else Indices(n - 1) + {n - 1}
  }

  lemma {:induction false} IndicesCardinality(n: nat)
    ensures |Indices(n)| == n
  {
    if n > 0 {
      IndicesCardinality(n - 1);
    }
  }

  /** The driver numbers that occur in a list of records. */
  function Drivers(cars: seq<CarPosition>): set<int> {
    set j | 0 <= j < |cars| :: cars[j].driver
  }

  /** Record `j` is the last record of its driver in the list. */
  predicate IsLastFor(cars: seq<CarPosition>, j: int)
    requires 0 <= j < |cars|
  {
    forall k :: j < k < |cars| ==> cars[k].driver != cars[j].driver
  }

  lemma DriversSnoc(cars: seq<CarPosition>)
    requires |cars| > 0
    ensures Drivers(cars) == Drivers(cars[..|cars| - 1]) + {cars[|cars| - 1].driver}
  {
    var init := cars[..|cars| - 1];
    forall d | d in Drivers(cars)
      ensures d in Drivers(init) + {cars[|cars| - 1].driver}
    {
      var j :| 0 <= j < |cars| && cars[j].driver == d;
      if j < |init| {
        assert init[j] == cars[j];
      }
    }
    forall d | d in Drivers(init)
      ensures d in Drivers(cars)
    {
      var j :| 0 <= j < |init| && init[j].driver == d;
      assert cars[j] == init[j];
    }
  }

  /** A record that is last for its driver in a list stays last once the
      list's final record is dropped. */
  lemma LastForInit(cars: seq<CarPosition>)
    requires |cars| > 0
    ensures forall j :: 0 <= j < |cars| - 1 && IsLastFor(cars, j) ==> IsLastFor(cars[..|cars| - 1], j)
  {
  }

  /** The per-frame dictionary: every record writes its driver's entry, so a
      driver listed twice keeps the position of its later record. */
  function FrameMap(cars: seq<CarPosition>): (m: FrameData)
    ensures m.Keys == Drivers(cars)
    ensures forall j :: 0 <= j < |cars| && IsLastFor(cars, j) ==>
      m[cars[j].driver] == PositionOf(cars[j])
  {
    if |cars| == 0 then map[]
    else
      var init := cars[..|cars| - 1];
      var last := cars[|cars| - 1];
      DriversSnoc(cars);
      LastForInit(cars);
      FrameMap(init)[last.driver := PositionOf(last)]
  }

  /** A frame element that can be dereferenced, with a record list (if any)
      whose elements can be dereferenced too. */
  predicate FrameReadable(f: Option<F1Frame>) {
    && f.Some?
    && (f.value.carPositions.Some? ==>
          forall j :: 0 <= j < |f.value.carPositions.value| ==> f.value.carPositions.value[j].Some?)
  }

  /** The records of a readable frame; a null record list reads as no records. */
  function Records(f: Option<F1Frame>): (cars: seq<CarPosition>)
    requires FrameReadable(f)
    ensures f.value.carPositions.None? ==> cars == []
    ensures f.value.carPositions.Some? ==>
      |cars| == |f.value.carPositions.value| &&
      forall j :: 0 <= j < |cars| ==> Some(cars[j]) == f.value.carPositions.value[j]
  {
    match f.value.carPositions
    case None => []
    case Some(cs) => seq(|cs|, j requires 0 <= j < |cs| => cs[j].value)
  }

  /** The frame list of a parse outcome, when the container and its list are non-null. */
  function Frames(read: ReadOutcome): Option<seq<Option<F1Frame>>> {
    if read.Parsed? && read.container.Some? then read.container.value.f1Data else None
  }

  /** The parse produced a frame list, and walking it dereferences no null. */
  predicate Loadable(read: ReadOutcome) {
    && Frames(read).Some?
    && forall i :: 0 <= i < |Frames(read).value| ==> FrameReadable(Frames(read).value[i])
  }

  /** The loop over the frame list: input frame `i` becomes entry `i`,
      holding exactly the drivers of that frame, each at the position of its
      last record. */
  function BuildFrames(frames: seq<Option<F1Frame>>): (r: RaceData)
    requires forall i :: 0 <= i < |frames| ==> FrameReadable(frames[i])
    ensures r.Keys == Indices(|frames|)
    ensures forall i :: 0 <= i < |frames| ==> r[i].Keys == Drivers(Records(frames[i]))
    ensures forall i, j :: 0 <= i < |frames| && 0 <= j < |Records(frames[i])| && IsLastFor(Records(frames[i]), j) ==>
      Records(frames[i])[j].driver in r[i] &&
      r[i][Records(frames[i])[j].driver] == PositionOf(Records(frames[i])[j])
  {
    map i | 0 <= i < |frames| :: FrameMap(Records(frames[i]))
  }

  /** `LoadF1Data`. `None` when the read throws: that exception leaves the
      method. A missing file, a parse exception, a null container or list,
      and a null element met while walking the list (the exception is caught
      by the same handler) all give the empty map. */
  function LoadF1Data(read: ReadOutcome): (r: Option<RaceData>)
    ensures r.None? <==> read.ReadThrew?
    ensures !read.ReadThrew? && !Loadable(read) ==> r == Some(map[])
    ensures Loadable(read) ==> r.Some? && r.value.Keys == Indices(|Frames(read).value|)
    ensures Loadable(read) ==> r.Some? && |r.value| == |Frames(read).value|
    ensures Loadable(read) ==> var fs := Frames(read).value;
      forall i :: 0 <= i < |fs| ==> r.Some? && r.value[i].Keys == Drivers(Records(fs[i]))
    ensures Loadable(read) ==> var fs := Frames(read).value;
      forall i, j :: 0 <= i < |fs| && 0 <= j < |Records(fs[i])| && IsLastFor(Records(fs[i]), j) ==>
        r.Some? && r.value[i][Records(fs[i])[j].driver] == PositionOf(Records(fs[i])[j])
  {
    if read.ReadThrew? then None
    else if Loadable(read) then
      IndicesCardinality(|Frames(read).value|);
      Some(BuildFrames(Frames(read).value))
    else Some(map[])
  }

  /** Entry `i` of a successful load is the dictionary built from frame `i`. */
  lemma LoadedFrame(read: ReadOutcome, i: int)
    requires Loadable(read) && 0 <= i < |Frames(read).value|
    ensures LoadF1Data(read).Some? && i in LoadF1Data(read).value
    ensures LoadF1Data(read).value[i] == FrameMap(Records(Frames(read).value[i]))
  {
  }

  /** A frame whose record list is null keeps its index, as an empty frame. */
  lemma NullRecordListGivesEmptyFrame(read: ReadOutcome, i: int)
    requires Loadable(read)
    requires 0 <= i < |Frames(read).value|
    requires Frames(read).value[i].value.carPositions.None?
    ensures LoadF1Data(read).Some? && i in LoadF1Data(read).value
    ensures LoadF1Data(read).value[i] == map[]
  {
  }

  /** The driver numbers the table lists, in two halves. */
  lemma DriverNumMapKeys()
    ensures DriverNumMap.Keys ==
      {33, 16, 77, 5, 44, 4, 10, 55, 7, 99} + {11, 3, 27, 18, 23, 8, 26, 63, 20, 88}
  {
  }

  /** The table lists twenty distinct driver numbers. */
  lemma DriverNumMapSize()
    ensures |DriverNumMap| == 20
  {
    DriverNumMapKeys();
    TwentyNumbers();
    assert |DriverNumMap.Keys| == 20;
  }

  lemma TwentyNumbers()
    ensures |{33, 16, 77, 5, 44, 4, 10, 55, 7, 99} + {11, 3, 27, 18, 23, 8, 26, 63, 20, 88}| == 20
  {
    var front, back := {33, 16, 77, 5, 44, 4, 10, 55, 7, 99}, {11, 3, 27, 18, 23, 8, 26, 63, 20, 88};
    TenNumbers();
    assert front !! back;
    assert |front + back| == |front| + |back|;
  }

  lemma TenNumbers()
    ensures |{33, 16, 77, 5, 44, 4, 10, 55, 7, 99}| == 10
    ensures |{11, 3, 27, 18, 23, 8, 26, 63, 20, 88}| == 10
  {
  }

  /** No two configured drivers share a code. */
  lemma DriverCodesDistinct(a: int, b: int)
    requires a in DriverNumMap && b in DriverNumMap
    requires a != b
    ensures DriverNumMap[a] != DriverNumMap[b]
  {
  }

  /** Every configured driver code is three upper-case letters. */
  lemma DriverCodesAreLetters(id: int)
    requires id in DriverNumMap
    ensures |DriverNumMap[id]| == 3
    ensures forall k :: 0 <= k < 3 ==> 'A' <= DriverNumMap[id][k] <= 'Z'
  {
  }
}
