/** `RaceVisualizerWithUpdate`: the playback scheduler. Its state is the
    loaded race data and the fields `isVisualizing`, `currentFrame`,
    `totalFrames`, `nextFrameTime` and `elapsedTime`; `StartRace`,
    `StopRace`, the reset button and the per-frame `Update` tick are pure
    transitions over that state. Time is exact (`real`), and the engine's
    `Time.deltaTime` is the argument of a tick. */
module RaceVisualizer {
  import opened Wrappers
  import Decimal
  import F1DataParser

  /** The display code of a car number (RaceVisualizerWithUpdate.cs,
      lines 101-103): the configured code of a known driver, otherwise the
      canonical decimal text of the number, which reads back as it. */
  function DisplayCode(carNumber: int): (code: string)
    ensures carNumber in F1DataParser.DriverNumMap ==> code == F1DataParser.DriverNumMap[carNumber]
    ensures carNumber !in F1DataParser.DriverNumMap ==> Decimal.ParseInt(code) == Some(carNumber)
    ensures carNumber !in F1DataParser.DriverNumMap && carNumber >= 0 ==> Decimal.Canonical(code)
    ensures carNumber !in F1DataParser.DriverNumMap && carNumber < 0 ==>
      |code| > 1 && code[0] == '-' && Decimal.Canonical(code[1..]) && code[1] != '0'
  {
    if carNumber in F1DataParser.DriverNumMap then F1DataParser.DriverNumMap[carNumber]
    else
      Decimal.ParseIntToString(carNumber);
      Decimal.IntToString(carNumber)
  }

  /** Distinct car numbers get distinct display codes: a configured code is
      letters, a fallback code starts with a digit or a minus sign, and two
      fallback codes read back as their own numbers. */
  lemma DisplayCodeInjective(a: int, b: int)
    ensures DisplayCode(a) == DisplayCode(b) <==> a == b
  {
    var known := F1DataParser.DriverNumMap;
    if a == b {
    } else if a in known && b in known {
      F1DataParser.DriverCodesDistinct(a, b);
    } else if a in known {
      F1DataParser.DriverCodesAreLetters(a);
      assert DisplayCode(a)[0] != DisplayCode(b)[0];
    } else if b in known {
      F1DataParser.DriverCodesAreLetters(b);
      assert DisplayCode(a)[0] != DisplayCode(b)[0];
    } else {
      Decimal.IntToStringInjective(a, b);
    }
  }

  /** The scheduler's fields. `raceData` is `None` until `Start` has loaded
      data (it stays `None` when no parser is found). */
  datatype Player = Player(
    raceData: Option<F1DataParser.RaceData>,
    isVisualizing: bool,
    currentFrame: int,
    totalFrames: int,
    nextFrameTime: real,
    elapsedTime: real,
    frameDelay: real)

  /** What one call of `ProcessFrame` did. */
  datatype Visit =
    | Ignored
    | KeyMissing(index: int)
    | Shown(index: int, cars: F1DataParser.FrameData, codes: map<int, string>)

  /** The state after one `Update`, and the frame visit it made, if any. */
  datatype Step = Step(after: Player, visit: Option<Visit>)

  /** The state after a series of `Update` calls, and the visits they made. */
  datatype Replay = Replay(final: Player, visits: seq<Visit>)

  /** The scheduler invariant: `totalFrames` counts the loaded frames, whose
      indices are `0 .. totalFrames-1`; the cursor never passes the end and
      points at a real frame while playing. */
  predicate Valid(p: Player) {
    && p.totalFrames == (if p.raceData.Some? then |p.raceData.value| else 0)
    && (p.raceData.Some? ==> p.raceData.value.Keys == F1DataParser.Indices(|p.raceData.value|))
    && 0 <= p.currentFrame <= p.totalFrames
    && (p.isVisualizing ==> p.currentFrame < p.totalFrames)
  }

  /** The frame is due no later than one frame delay from now. */
  predicate Paced(p: Player) {
    p.nextFrameTime <= p.elapsedTime + p.frameDelay
  }

  /** Data is loaded and not empty: the condition `StartRace` checks besides
      not already playing. */
  predicate HasData(p: Player) {
    p.raceData.Some? && |p.raceData.value| > 0
  }

  /** The field initialisers. */
  function Initial(frameDelay: real): (p: Player)
    ensures Valid(p) && !p.isVisualizing
  {
    Player(None, false, 0, 0, 0.0, 0.0, frameDelay)
  }

  /** `StartRace` (RaceVisualizerWithUpdate.cs, lines 45-57): only when stopped and holding data does it
      rewind the cursor and the clock and begin playing. */
  function StartRace(p: Player): (r: Player)
    ensures !p.isVisualizing && HasData(p) ==>
      && r.isVisualizing && r.currentFrame == 0
      && r.elapsedTime == 0.0 && r.nextFrameTime == 0.0
      && r.raceData == p.raceData && r.totalFrames == p.totalFrames && r.frameDelay == p.frameDelay
    ensures !(!p.isVisualizing && HasData(p)) ==> r == p
    ensures Valid(p) ==> Valid(r)
  {
    if !p.isVisualizing && HasData(p) then
      p.(isVisualizing := true, currentFrame := 0, elapsedTime := 0.0, nextFrameTime := 0.0)
    else p
  }

  /** `StopRace` (RaceVisualizerWithUpdate.cs, lines 58-62): playback halts and nothing else changes. */
  function StopRace(p: Player): (r: Player)
    ensures !r.isVisualizing
    ensures r.currentFrame == p.currentFrame
    ensures r.elapsedTime == p.elapsedTime && r.nextFrameTime == p.nextFrameTime
    ensures r.raceData == p.raceData && r.totalFrames == p.totalFrames && r.frameDelay == p.frameDelay
    ensures Valid(p) ==> Valid(r)
  {
    p.(isVisualizing := false)
  }

  /** `OnResetButtonClicked` (RaceVisualizerWithUpdate.cs, lines 133-138):
      stop, rewind the cursor, start. Without data only the stop and the
      rewind take effect. */
  function Reset(p: Player): (r: Player)
    ensures HasData(p) ==> r == StartRace(StopRace(p))
    ensures HasData(p) ==> r.isVisualizing && r.currentFrame == 0 && r.elapsedTime == 0.0 && r.nextFrameTime == 0.0
    ensures !HasData(p) ==> r == p.(isVisualizing := false, currentFrame := 0)
    ensures Valid(p) ==> Valid(r)
  {
    StartRace(StopRace(p).(currentFrame := 0))
  }

  /** `ProcessFrame` (RaceVisualizerWithUpdate.cs, lines 87-110): an index
      outside `0 .. totalFrames-1`,
      or missing data, is ignored; otherwise the frame is fetched (the
      dictionary lookup throws if the index is not a key) and every car gets
      its display code. */
  function ProcessFrame(p: Player, frameIndex: int): (v: Visit)
    ensures v.Ignored? <==> frameIndex < 0 || frameIndex >= p.totalFrames || p.raceData.None?
    ensures v.Shown? ==>
      && v.index == frameIndex
      && p.raceData.Some? && frameIndex in p.raceData.value
      && v.cars == p.raceData.value[frameIndex]
      && v.codes.Keys == v.cars.Keys
      && forall c :: c in v.codes ==> v.codes[c] == DisplayCode(c)
    ensures Valid(p) ==> !v.KeyMissing?
  {
    if frameIndex < 0 || frameIndex >= p.totalFrames || p.raceData.None? then Ignored
    else if frameIndex !in p.raceData.value then KeyMissing(frameIndex)
    else
      var cars := p.raceData.value[frameIndex];
      Shown(frameIndex, cars, map c | c in cars :: DisplayCode(c))
  }

  /** `Update` (RaceVisualizerWithUpdate.cs, lines 64-85). While playing, the clock advances by `delta`;
      once it reaches `nextFrameTime` the current frame is processed, the
      cursor moves on by one and the next frame is scheduled one delay
      later; playback ends when the cursor reaches `totalFrames`. An
      exception from `ProcessFrame` abandons the rest of the call. */
  function Tick(p: Player, delta: real): (s: Step)
    ensures !p.isVisualizing ==> s == Step(p, None)
    ensures s.after.raceData == p.raceData && s.after.totalFrames == p.totalFrames
    ensures s.after.frameDelay == p.frameDelay
    ensures p.isVisualizing ==> s.after.elapsedTime == p.elapsedTime + delta
    ensures s.after.isVisualizing ==> p.isVisualizing
    ensures s.after.currentFrame == p.currentFrame || s.after.currentFrame == p.currentFrame + 1
    ensures s.after.currentFrame == p.currentFrame + 1 ==>
      && s.after.nextFrameTime == s.after.elapsedTime + p.frameDelay
      && s.visit == Some(ProcessFrame(p, p.currentFrame))
      && (s.after.isVisualizing <==> s.after.currentFrame < p.totalFrames)
    ensures s.after.currentFrame == p.currentFrame ==> s.after == p.(elapsedTime := s.after.elapsedTime)
    ensures s.visit.None? ==> s.after == p.(elapsedTime := s.after.elapsedTime)
    ensures p.isVisualizing ==> (s.visit.Some? <==> p.elapsedTime + delta >= p.nextFrameTime)
    ensures Valid(p) ==> Valid(s.after)
    ensures Valid(p) && s.visit.Some? ==>
      s.visit.value.Shown? && s.visit.value.index == p.currentFrame &&
      s.after.currentFrame == p.currentFrame + 1
  {
    if !p.isVisualizing then Step(p, None)
    else
      var elapsed := p.elapsedTime + delta;
      var q := p.(elapsedTime := elapsed);
      if elapsed < q.nextFrameTime then Step(q, None)
      else
        var v := ProcessFrame(q, q.currentFrame);
        if v.KeyMissing? then Step(q, Some(v))
        else
          var next := q.currentFrame + 1;
          Step(q.(currentFrame := next, nextFrameTime := elapsed + q.frameDelay,
                  isVisualizing := next < q.totalFrames),
               Some(v))
  }

  /** A series of `Update` calls, one per delta. */
  function Run(p: Player, deltas: seq<real>): (r: Replay)
    ensures |r.visits| <= |deltas|
    ensures r.final.raceData == p.raceData && r.final.totalFrames == p.totalFrames
    ensures r.final.frameDelay == p.frameDelay
    decreases |deltas|
  {
    if |deltas| == 0 then Replay(p, [])
    else
      var s := Tick(p, deltas[0]);
      var rest := Run(s.after, deltas[1..]);
      Replay(rest.final, (if s.visit.Some? then [s.visit.value] else []) + rest.visits)
  }

  /** `Start` (RaceVisualizerWithUpdate.cs, lines 18-43), run once on the
      initial state: without a parser, or when the load throws, nothing is
      loaded; otherwise the loaded data is kept, and if it is not empty
      `totalFrames` is set and playback starts. */
  function Boot(frameDelay: real, parserFound: bool, read: F1DataParser.ReadOutcome): (p: Player)
    ensures Valid(p)
    ensures p.frameDelay == frameDelay
    ensures !parserFound || read.ReadThrew? ==> p == Initial(frameDelay)
    ensures p.isVisualizing <==>
      parserFound && F1DataParser.Loadable(read) && |F1DataParser.Frames(read).value| > 0
    ensures !p.isVisualizing ==> !HasData(p)
    ensures p.isVisualizing ==>
      && p.raceData == F1DataParser.LoadF1Data(read)
      && p.totalFrames == |F1DataParser.Frames(read).value|
      && p.currentFrame == 0 && p.elapsedTime == 0.0 && p.nextFrameTime == 0.0
  {
    var p0 := Initial(frameDelay);
    if !parserFound then p0
    else
      match F1DataParser.LoadF1Data(read)
      case None => p0
      case Some(data) =>
        F1DataParser.IndicesCardinality(|data|);
        var loaded := p0.(raceData := Some(data));
        if |data| == 0 then loaded
        else StartRace(loaded.(totalFrames := |data|))
  }

  /** With a non-negative delta, the first tick after a successful start
      shows frame 0, because the first frame is due at time 0. */
  lemma FirstTickShowsFrameZero(p: Player, delta: real)
    requires Valid(p) && !p.isVisualizing && HasData(p)
    requires delta >= 0.0
    ensures Tick(StartRace(p), delta).visit.Some?
    ensures Tick(StartRace(p), delta).visit.value.Shown?
    ensures Tick(StartRace(p), delta).visit.value.index == 0
    ensures Tick(StartRace(p), delta).after.currentFrame == 1
  {
  }

  /** `visits` shows the frames of `data` from index `start` on, one
      after another. */
  predicate ShowsFrom(data: Option<F1DataParser.RaceData>, start: int, visits: seq<Visit>) {
    forall k :: 0 <= k < |visits| ==>
      && visits[k].Shown?
      && visits[k].index == start + k
      && data.Some? && start + k in data.value
      && visits[k].cars == data.value[start + k]
  }

  lemma ShowsFromCons(data: Option<F1DataParser.RaceData>, start: int, v: Visit, rest: seq<Visit>)
    requires v.Shown? && v.index == start && data.Some? && start in data.value && v.cars == data.value[start]
    requires ShowsFrom(data, start + 1, rest)
    ensures ShowsFrom(data, start, [v] + rest)
  {
    var vs := [v] + rest;
    forall k | 0 <= k < |vs|
      ensures vs[k].Shown? && vs[k].index == start + k
      ensures data.Some? && start + k in data.value && vs[k].cars == data.value[start + k]
    {
      if k > 0 {
        assert vs[k] == rest[k - 1];
      }
    }
  }

  /** Over any series of ticks the frames shown are exactly the ones from
      the cursor on, each once and in order, never past the last frame, and
      the cursor ends just after the last one shown. */
  lemma {:induction false} RunShowsConsecutiveFrames(p: Player, deltas: seq<real>)
    requires Valid(p)
    ensures Valid(Run(p, deltas).final)
    ensures Run(p, deltas).final.currentFrame == p.currentFrame + |Run(p, deltas).visits|
    ensures p.currentFrame + |Run(p, deltas).visits| <= p.totalFrames
    ensures ShowsFrom(p.raceData, p.currentFrame, Run(p, deltas).visits)
    decreases |deltas|
  {
    if |deltas| > 0 {
      var s := Tick(p, deltas[0]);
      var rest := Run(s.after, deltas[1..]);
      assert Run(p, deltas).final == rest.final;
      RunShowsConsecutiveFrames(s.after, deltas[1..]);
      if s.visit.Some? {
        assert s.after.currentFrame == p.currentFrame + 1;
        ShowsFromCons(p.raceData, p.currentFrame, s.visit.value, rest.visits);
        assert Run(p, deltas).visits == [s.visit.value] + rest.visits;
      } else {
        assert s.after.currentFrame == p.currentFrame;
        assert Run(p, deltas).visits == rest.visits;
      }
    }
  }

  /** A stopped player shows nothing, however many ticks pass. */
  lemma {:induction false} StoppedRunShowsNothing(p: Player, deltas: seq<real>)
    requires !p.isVisualizing
    ensures Run(p, deltas) == Replay(p, [])
    decreases |deltas|
  {
    if |deltas| > 0 {
      StoppedRunShowsNothing(p, deltas[1..]);
    }
  }

  /** Without frames, starting is a no-op and no tick ever shows a frame. */
  lemma EmptyDataNeverShows(p: Player, deltas: seq<real>)
    requires Valid(p) && p.totalFrames == 0
    ensures StartRace(p) == p
    ensures Run(StartRace(p), deltas).visits == []
  {
    RunShowsConsecutiveFrames(p, deltas);
  }

  function Min(a: int, b: int): int {
    if a < b then a else b
  }

  /** When every tick is at least one frame delay long, every tick while
      playing shows a frame: playback shows one frame per tick until the
      frames run out. */
  lemma {:induction false} SteadyTicksShowEveryFrame(p: Player, deltas: seq<real>)
    requires Valid(p) && Paced(p) && p.frameDelay >= 0.0
    requires forall k :: 0 <= k < |deltas| ==> deltas[k] >= p.frameDelay
    ensures |Run(p, deltas).visits| ==
      if p.isVisualizing then Min(|deltas|, p.totalFrames - p.currentFrame) else 0
    decreases |deltas|
  {
    if !p.isVisualizing {
      StoppedRunShowsNothing(p, deltas);
    } else if |deltas| > 0 {
      var s := Tick(p, deltas[0]);
      assert s.visit.Some?;
      assert Paced(s.after);
      SteadyTicksShowEveryFrame(s.after, deltas[1..]);
    }
  }

  /** Reset in the middle of playback rewinds to frame 0, and a following
      tick with a non-negative delta shows frame 0 again. */
  lemma ResetThenTickShowsFrameZero(p: Player, delta: real)
    requires Valid(p) && p.isVisualizing
    requires delta >= 0.0
    ensures Reset(p).isVisualizing && Reset(p).currentFrame == 0
    ensures Tick(Reset(p), delta).visit.Some?
    ensures Tick(Reset(p), delta).visit.value.Shown?
    ensures Tick(Reset(p), delta).visit.value.index == 0
  {
    FirstTickShowsFrameZero(StopRace(p), delta);
  }

  /** A three-frame document: one car, then no cars, then two cars. */
  function SampleRace(c0: F1DataParser.CarPosition, c1: F1DataParser.CarPosition, c2: F1DataParser.CarPosition): F1DataParser.ReadOutcome {
    F1DataParser.Parsed(Some(F1DataParser.F1DataContainer(Some([
      Some(F1DataParser.F1Frame("0.0", Some([Some(c0)]))),
      Some(F1DataParser.F1Frame("0.1", Some([]))),
      Some(F1DataParser.F1Frame("0.2", Some([Some(c1), Some(c2)])))]))))
  }

  /** The sample parses to three readable frames with the expected records. */
  lemma SampleRecords(c0: F1DataParser.CarPosition, c1: F1DataParser.CarPosition, c2: F1DataParser.CarPosition)
    ensures F1DataParser.Loadable(SampleRace(c0, c1, c2))
    ensures |F1DataParser.Frames(SampleRace(c0, c1, c2)).value| == 3
    ensures F1DataParser.Records(F1DataParser.Frames(SampleRace(c0, c1, c2)).value[0]) == [c0]
    ensures F1DataParser.Records(F1DataParser.Frames(SampleRace(c0, c1, c2)).value[1]) == []
    ensures F1DataParser.Records(F1DataParser.Frames(SampleRace(c0, c1, c2)).value[2]) == [c1, c2]
  {
    var fs := F1DataParser.Frames(SampleRace(c0, c1, c2)).value;
    assert F1DataParser.FrameReadable(fs[0]) && F1DataParser.FrameReadable(fs[1]) && F1DataParser.FrameReadable(fs[2]);
  }

  /** The sample loads to three frames, the middle one empty. */
  lemma SampleFrameIndices(c0: F1DataParser.CarPosition, c1: F1DataParser.CarPosition, c2: F1DataParser.CarPosition)
    ensures F1DataParser.LoadF1Data(SampleRace(c0, c1, c2)).Some?
    ensures F1DataParser.LoadF1Data(SampleRace(c0, c1, c2)).value.Keys == {0, 1, 2}
    ensures F1DataParser.LoadF1Data(SampleRace(c0, c1, c2)).value[1] == map[]
  {
    SampleRecords(c0, c1, c2);
    F1DataParser.LoadedFrame(SampleRace(c0, c1, c2), 1);
  }

  /** The first sample frame holds its one car. */
  lemma SampleFrameZero(c0: F1DataParser.CarPosition, c1: F1DataParser.CarPosition, c2: F1DataParser.CarPosition)
    ensures F1DataParser.LoadF1Data(SampleRace(c0, c1, c2)).Some? && 0 in F1DataParser.LoadF1Data(SampleRace(c0, c1, c2)).value
    ensures F1DataParser.LoadF1Data(SampleRace(c0, c1, c2)).value[0] == map[c0.driver := F1DataParser.PositionOf(c0)]
  {
    SampleRecords(c0, c1, c2);
    F1DataParser.LoadedFrame(SampleRace(c0, c1, c2), 0);
    assert [c0][..0] == [];
  }

  /** The last sample frame holds its two cars. */
  lemma SampleFrameTwo(c0: F1DataParser.CarPosition, c1: F1DataParser.CarPosition, c2: F1DataParser.CarPosition)
    ensures F1DataParser.LoadF1Data(SampleRace(c0, c1, c2)).Some? && 2 in F1DataParser.LoadF1Data(SampleRace(c0, c1, c2)).value
    ensures F1DataParser.LoadF1Data(SampleRace(c0, c1, c2)).value[2] ==
      map[c1.driver := F1DataParser.PositionOf(c1)][c2.driver := F1DataParser.PositionOf(c2)]
  {
    SampleRecords(c0, c1, c2);
    F1DataParser.LoadedFrame(SampleRace(c0, c1, c2), 2);
    assert [c1, c2][..1] == [c1];
    assert [c1][..0] == [];
  }

  /** Starting on the sample begins playback of its three frames. */
  lemma SampleBoot(c0: F1DataParser.CarPosition, c1: F1DataParser.CarPosition, c2: F1DataParser.CarPosition)
    ensures var p := Boot(0.1, true, SampleRace(c0, c1, c2));
      && Valid(p) && Paced(p) && p.frameDelay == 0.1
      && p.isVisualizing && p.totalFrames == 3 && p.currentFrame == 0
      && p.raceData == F1DataParser.LoadF1Data(SampleRace(c0, c1, c2))
  {
    SampleRecords(c0, c1, c2);
  }

  /** Playing the sample with a 0.1 s delay and four ticks of 0.1 s shows
      frames 0, 1 and 2 with their cars, then stops: the fourth tick shows
      nothing. */
  lemma SampleReplay(c0: F1DataParser.CarPosition, c1: F1DataParser.CarPosition, c2: F1DataParser.CarPosition, ticks: seq<real>)
    requires |ticks| == 4 && forall k :: 0 <= k < 4 ==> ticks[k] == 0.1
    ensures var r := Run(Boot(0.1, true, SampleRace(c0, c1, c2)), ticks);
      && |r.visits| == 3
      && (forall k :: 0 <= k < 3 ==> r.visits[k].Shown? && r.visits[k].index == k)
      && r.visits[0].cars == map[c0.driver := F1DataParser.PositionOf(c0)]
      && r.visits[1].cars == map[]
      && r.visits[2].cars == map[c1.driver := F1DataParser.PositionOf(c1)][c2.driver := F1DataParser.PositionOf(c2)]
      && !r.final.isVisualizing && r.final.currentFrame == 3
  {
    var p := Boot(0.1, true, SampleRace(c0, c1, c2));
    SampleBoot(c0, c1, c2);
    ThreeFramesFourTicks(p, ticks);
    SampleFrameIndices(c0, c1, c2);
    SampleFrameZero(c0, c1, c2);
    SampleFrameTwo(c0, c1, c2);
  }

  /** Four ticks of at least one delay each, from the start of a
      three-frame race, show the three frames and stop. */
  lemma ThreeFramesFourTicks(p: Player, deltas: seq<real>)
    requires Valid(p) && Paced(p) && p.frameDelay >= 0.0
    requires p.isVisualizing && p.currentFrame == 0 && p.totalFrames == 3
    requires |deltas| == 4 && forall k :: 0 <= k < 4 ==> deltas[k] >= p.frameDelay
    ensures var r := Run(p, deltas);
      && |r.visits| == 3
      && (forall k :: 0 <= k < 3 ==> r.visits[k].Shown? && r.visits[k].index == k && r.visits[k].cars == p.raceData.value[k])
      && !r.final.isVisualizing && r.final.currentFrame == 3
  {
    SteadyTicksShowEveryFrame(p, deltas);
    RunShowsConsecutiveFrames(p, deltas);
  }
}
