# F1 race replay: loader, scheduler and livery lookup

This project is a Dafny model of the core of a Unity demo. The demo replays recorded Formula 1 car positions. It has three parts:

- **Loader (`F1DataParser`)**: reads a JSON document of frames into the map `frame index -> (driver number -> position)`. It also owns the table `driverNumMap` from driver numbers to three-letter driver codes.
- **Scheduler (`RaceVisualizerWithUpdate`)**: a playback state machine. `StartRace`, `StopRace`, the reset button and the per-frame `Update` tick move a cursor through the loaded frames, at most one frame per tick and one frame delay apart. `ProcessFrame` visits a frame and resolves each car's display code.
- **Livery (`RaceManager`)**: the driver-to-team and team-to-colour tables, the lookup-and-normalise step that turns a car number into an `#RRGGBB` string, and `SpawnRacers`, which makes one named, coloured car per known driver.

Modules:

- `Wrappers`: `Option` and `Result`.
- `Decimal`: `int.ToString` and a parser that is its partner.
- `F1DataParser`: the document shapes, `driverNumMap` and `LoadF1Data`.
- `RaceVisualizer`: the scheduler as pure transitions over a `Player` record, plus the display code.
- `RaceManager`: the colour tables, `Trim`, the `#` normalisation, the lookup and the spawn loop.

The model makes these choices:

- Engine calls become parameters. The outcome of looking up, reading and parsing the file is a `ReadOutcome`. It includes a read that throws, which is outside the `try` block. `Time.deltaTime` is the argument of `Tick`. Whether a parser component was found is a boolean argument of `Boot`, which models `Start()`.
- Exceptions become values:
  - An exception inside the parse block of `LoadF1Data` gives the empty map, as its `catch` does.
  - A dictionary miss in `ProcessFrame` is the visit `KeyMissing`, and the rest of that `Update` is skipped.
  - A dictionary miss in the colour lookup is a `LookupError`.
- Time is exact (`real`).

## Model

| member | source | states |
|---|---|---|
| F1DataParser.DriverNumMapKeys | Assets/Scripts/F1DataParser.cs:13-35 | The driver table lists exactly the twenty driver numbers 33, 16, 77, 5, 44, 4, 10, 55, 7, 99, 11, 3, 27, 18, 23, 8, 26, 63, 20 and 88. |
| F1DataParser.DriverNumMapSize | Assets/Scripts/F1DataParser.cs:13-35 | The driver table has twenty entries, so no number is listed twice. |
| F1DataParser.DriverCodesAreLetters | Assets/Scripts/F1DataParser.cs:13-35 | Every configured driver code is three upper-case letters. |
| F1DataParser.DriverCodesDistinct | Assets/Scripts/F1DataParser.cs:13-35 | Two different configured drivers never share a code. |
| F1DataParser.FrameMap | Assets/Scripts/F1DataParser.cs:87-98 | A frame's dictionary has exactly the driver numbers of its records as keys. A driver listed twice keeps the position of its later record. |
| F1DataParser.Records | Assets/Scripts/F1DataParser.cs:90-103 | A null record list reads as no records. Otherwise the records are the list's elements, in order and of the same number. |
| F1DataParser.BuildFrames | Assets/Scripts/F1DataParser.cs:84-107 | The keys are exactly `0 .. n-1`. Entry `i` holds exactly the drivers of input frame `i`, each at the position of its last record in that frame. |
| F1DataParser.LoadF1Data | Assets/Scripts/F1DataParser.cs:63-140 | A read that throws after the file is found escapes the method, so there is no result (`None`). These outcomes give the empty map: a missing file, a parse exception, a null container or frame list, and a null frame or record met in the loop. Otherwise the result has one entry per input frame, keyed `0 .. n-1`. Entry `i` has exactly the drivers of frame `i`, each at the position of its last record. |
| F1DataParser.LoadedFrame | Assets/Scripts/F1DataParser.cs:84-107 | Entry `i` of a successful load is the dictionary built from the records of input frame `i`. |
| F1DataParser.NullRecordListGivesEmptyFrame | Assets/Scripts/F1DataParser.cs:87-106 | A frame whose record list is null still occupies its index, as an empty frame. |
| Decimal.IntToString | Assets/Scripts/RaceVisualizerWithUpdate.cs:103 | A non-negative number is written as digits with no leading zero (zero is `0`). A negative number is a minus sign followed by such digits, never `-0`. |
| Decimal.ParseIntToString | Assets/Scripts/RaceVisualizerWithUpdate.cs:101-103 | Parsing the decimal form of any integer gives that integer back. |
| Decimal.IntToStringInjective | Assets/Scripts/RaceManager.cs:94 | Two numbers have the same decimal form exactly when they are equal, so the names `car_<number>` are distinct. |
| RaceVisualizer.DisplayCode | Assets/Scripts/RaceVisualizerWithUpdate.cs:101-103 | A known driver number gets its configured code. Any other number gets its canonical decimal text: digits with no leading zero, after a minus sign for a negative number. That text parses back to the number, which makes it the only such text. |
| RaceVisualizer.DisplayCodeInjective | Assets/Scripts/RaceVisualizerWithUpdate.cs:101-103 | Two car numbers get the same display code exactly when they are equal. |
| RaceVisualizer.Initial | Assets/Scripts/RaceVisualizerWithUpdate.cs:10-16 | The field initialisers give a stopped player that satisfies the scheduler invariant. |
| RaceVisualizer.Boot | Assets/Scripts/RaceVisualizerWithUpdate.cs:18-43 | `Start()` keeps the invariant. Without a parser, or when the load throws, the state stays as initialised. Playback starts exactly when a parser is found and the load yields at least one frame. It then starts at frame 0, at time 0, with `totalFrames` equal to the number of frames. When playback does not start, no frames are held, so a later `StartRace` does nothing. |
| RaceVisualizer.StartRace | Assets/Scripts/RaceVisualizerWithUpdate.cs:45-57 | When stopped and holding data, playback begins at frame 0 with the clock at 0. In every other case the state is unchanged. The invariant is preserved. |
| RaceVisualizer.StopRace | Assets/Scripts/RaceVisualizerWithUpdate.cs:58-62 | Playback halts. The cursor, the clock and the data are kept, and the invariant is preserved. |
| RaceVisualizer.Reset | Assets/Scripts/RaceVisualizerWithUpdate.cs:133-138 | With data, the result is playing from frame 0 at time 0, the same as stop followed by start. Without data, the only changes are stopping and setting the cursor to 0. |
| RaceVisualizer.ProcessFrame | Assets/Scripts/RaceVisualizerWithUpdate.cs:87-110 | An index outside `0 .. totalFrames-1`, or no data, is ignored. A frame that is shown is the stored frame at that index, and every car in it carries its display code. Under the invariant the lookup never misses. |
| RaceVisualizer.Tick | Assets/Scripts/RaceVisualizerWithUpdate.cs:64-85 | A stopped player is unchanged. While playing, the clock grows by the delta. A frame is processed exactly when the clock reaches `nextFrameTime`. A tick that does not move the cursor changes nothing but the clock. Each tick advances the cursor by at most one frame, and on an advance the next frame is due one delay later. Playback stops when the cursor reaches `totalFrames`. Under the invariant a processed frame is the one under the cursor, and the invariant is kept. |
| RaceVisualizer.Run | Assets/Scripts/RaceVisualizerWithUpdate.cs:64-85 | A series of ticks makes at most one visit per tick and never changes the data, the frame count or the delay. |
| RaceVisualizer.FirstTickShowsFrameZero | Assets/Scripts/RaceVisualizerWithUpdate.cs:45-77 | After a successful start, the first tick with a non-negative delta shows frame 0 and moves the cursor to 1. |
| RaceVisualizer.RunShowsConsecutiveFrames | Assets/Scripts/RaceVisualizerWithUpdate.cs:64-85 | Over any series of ticks, the frames shown are the stored frames from the cursor on, each once and in increasing order. No frame past the last one is shown. The cursor ends just after the last frame shown, and the invariant holds at the end. |
| RaceVisualizer.StoppedRunShowsNothing | Assets/Scripts/RaceVisualizerWithUpdate.cs:64-66 | A stopped player shows nothing and does not change, however many ticks pass. |
| RaceVisualizer.EmptyDataNeverShows | Assets/Scripts/RaceVisualizerWithUpdate.cs:45-57 | With no frames, starting is a no-op and no series of ticks ever shows a frame. |
| RaceVisualizer.SteadyTicksShowEveryFrame | Assets/Scripts/RaceVisualizerWithUpdate.cs:64-85 | When every tick is at least one frame delay long, each tick while playing shows one frame until the frames run out. The number shown is the smaller of the tick count and the frames left. |
| RaceVisualizer.ResetThenTickShowsFrameZero | Assets/Scripts/RaceVisualizerWithUpdate.cs:133-138 | A reset during playback rewinds to frame 0, and the next tick with a non-negative delta shows frame 0 again. |
| RaceVisualizer.SampleRecords | Assets/Scripts/F1DataParser.cs:84-98 | A three-frame document (one car, no cars, two cars) reads as three frames with those records. |
| RaceVisualizer.SampleFrameIndices | Assets/Scripts/F1DataParser.cs:84-107 | The sample loads to frames 0, 1 and 2, and the middle frame is empty. |
| RaceVisualizer.SampleFrameZero | Assets/Scripts/F1DataParser.cs:94-106 | Frame 0 of the sample holds its one car at its position. |
| RaceVisualizer.SampleFrameTwo | Assets/Scripts/F1DataParser.cs:94-106 | Frame 2 of the sample holds its two cars at their positions. |
| RaceVisualizer.SampleBoot | Assets/Scripts/RaceVisualizerWithUpdate.cs:18-43 | Starting on the sample with a 0.1 s delay begins playback of three frames from frame 0. |
| RaceVisualizer.ThreeFramesFourTicks | Assets/Scripts/RaceVisualizerWithUpdate.cs:64-85 | From the start of a three-frame race, four ticks of at least one delay each show frames 0, 1 and 2 with their cars, then stop at frame 3. |
| RaceVisualizer.SampleReplay | Assets/Scripts/RaceVisualizerWithUpdate.cs:18-85 | Four ticks of 0.1 s on the sample show frame 0 with one car, frame 1 empty and frame 2 with two cars. Playback then stops, and the fourth tick shows nothing. |
| RaceManager.TrimStart | Assets/Scripts/RaceManager.cs:107 | The result is a suffix of the input, what was dropped is all white space, and the result does not start with white space. |
| RaceManager.TrimEnd | Assets/Scripts/RaceManager.cs:107 | The result is a prefix of the input, what was dropped is all white space, and the result does not end with white space. |
| RaceManager.Trim | Assets/Scripts/RaceManager.cs:107 | The result is a slice of the input with only white space outside it, and it neither starts nor ends with white space. A string that already neither starts nor ends with it is unchanged, and an all-white-space string becomes empty. |
| RaceManager.TrimIdempotent | Assets/Scripts/RaceManager.cs:107 | Trimming twice is the same as trimming once. |
| RaceManager.Normalize | Assets/Scripts/RaceManager.cs:108-111 | The result starts with `#`, ends with the whole input, and is at most one character longer. |
| RaceManager.NormalizeKeepsMarked | Assets/Scripts/RaceManager.cs:108 | A code that already starts with `#` is unchanged. |
| RaceManager.NormalizeIdempotent | Assets/Scripts/RaceManager.cs:108-111 | Normalising twice is the same as normalising once. |
| RaceManager.HexDigitsToHtmlRgb | Assets/Scripts/RaceManager.cs:107-111 | Six hex digits, trimmed and given the marker, become `#` followed by those digits, which is a well-formed `#RRGGBB` string. |
| RaceManager.DriversHaveTeams | Assets/Scripts/RaceManager.cs:27-49 | The team table covers exactly the drivers of `driverNumMap`. |
| RaceManager.TeamsHaveColours | Assets/Scripts/RaceManager.cs:27-63 | Every team a driver belongs to has a colour. |
| RaceManager.ColoursAreHexDigits | Assets/Scripts/RaceManager.cs:51-63 | Every configured colour is six hex digits. |
| RaceManager.ConfiguredIsClosed | Assets/Scripts/RaceManager.cs:27-63 | The configured tables cover every driver of `driverNumMap` with a team, a colour and a well-formed code. |
| RaceManager.ColorFor | Assets/Scripts/RaceManager.cs:104-111 | The lookup succeeds exactly when the driver has a team and the team has a colour. A driver without a team fails as `UnknownDriver` of that number. A driver whose team has no colour fails as `UnknownTeam` of that team. A success starts with `#`, and six configured hex digits give `#` followed by those digits. |
| RaceManager.ClosedLookupSucceeds | Assets/Scripts/RaceManager.cs:107-111 | Over closed tables, every covered driver's lookup succeeds with an `#RRGGBB` string. |
| RaceManager.ConfiguredLookup | Assets/Scripts/RaceManager.cs:107-111 | With the configured tables, the lookup succeeds exactly for drivers with a team, with an `#RRGGBB` string. It fails only with an unknown driver, never an unknown team. |
| RaceManager.SpawnEach | Assets/Scripts/RaceManager.cs:91-99 | Every number in the set gets the car `car_<number>` with its looked-up colour, unless some lookup fails. The run is cut short exactly when some number's lookup fails, and the error is that number's error. Cars made before the failure are kept. |
| RaceManager.SpawnRacers | Assets/Scripts/RaceManager.cs:83-102 | Without a prefab no car is made. Otherwise every driver of `driverNumMap` gets its car and colour, unless some driver's lookup fails, which cuts the spawn short with that error. Only drivers of `driverNumMap` are ever spawned. |
| RaceManager.ClosedSpawnNeverAborts | Assets/Scripts/RaceManager.cs:91-99 | Over closed tables no driver's lookup fails, so a spawn with a prefab is never cut short. |

Two behaviours of the code are worth stating plainly:

- **Null entries in the document wipe the whole load.** A null element of the frame list, or of a record list, is dereferenced inside the `try` block (F1DataParser.cs:86-96). The exception goes to the `catch` at line 129, and the method returns the empty map. `LoadF1Data` models this: `Loadable` is false as soon as any element is null. Only a null record *list* degrades to an empty frame (`NullRecordListGivesEmptyFrame`).
- **A driver or team missing from the tables throws.** Both dictionary indexings on RaceManager.cs:107 throw `KeyNotFoundException` before any colour parsing happens, so the white fallback at lines 118-122 is never reached for them. `ColorFor` returns the miss as a `LookupError` value. `SpawnRacers` stops at the first miss and keeps the cars made so far, as the uncaught exception would leave them.

## Left out

- File access (`Path.Combine`, `File.Exists`, `File.ReadAllText`) and `JsonUtility.FromJson`: external code, so their outcome is the `ReadOutcome` argument. A read that throws escapes both `LoadF1Data` and `Start()`, leaving `raceData` unset, as `Boot` models it.
- `Debug.Log`, `Debug.LogWarning` and `Debug.LogError` messages: output only, with no effect on state.
- The `parsedData` field of `F1DataParser`: an internal cache that nothing reads. A failed load leaves it partly filled, which is not observable through the returned value.
- `FindObjectOfType`, the `RaceManager` singleton, `Awake`, `Instantiate`, `Material`, `Renderer` and transforms: Unity engine services. `SpawnRacers` records each car's name and colour string instead of creating game objects.
- `ColorUtility.TryParseHtmlString` and its white fallback: an engine routine. The model proves that every configured colour normalises to a well-formed `#RRGGBB` string, which is the input on which the parse succeeds.
- RaceManager.Trim: models white space as space, tab, line feed and carriage return only, not every Unicode white-space character.
- Floating point: time, the frame delay and positions are `real`. The rounding of `float` accumulation in `elapsedTime` is not modelled, so a tick that lands exactly on `nextFrameTime` in exact arithmetic may land just below it in the program.
- Decimal.IntToString: numbers are unbounded integers, not 32-bit `int`. The model does not express the wrap-around range of `int`, which no configured or loaded number reaches.
- SpawnRacers: the order in which `foreach` walks `driverNumMap` is left open (any order). This matters only for which cars exist when a lookup fails part-way.
- `UpdateCarPosition` and the commented-out `SetPlaybackSpeed`: empty or commented out in the code, so they do nothing to model.
- `OnStartButtonClicked` and `OnStopButtonClicked`: they only call `StartRace` and `StopRace`, which are modelled.
- `ColorFor` determinism: holds by construction, because the lookup is a function of its tables and the car number.
