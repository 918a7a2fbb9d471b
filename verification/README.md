# android-looper mixing engine in Dafny

This is a model of the audio-mixing engine of android-looper, a multi-track
loop recorder, with its contracts proved.

The engine has two variants of `FFmpegService`: the web variant over
ffmpeg.wasm and the native variant over FFmpegKit. Both turn a list of tracks
(URI, speed, 0..100 volume) into one FFmpeg command:

- one `atempo` chain per track, since FFmpeg's `atempo` only takes factors in
  [0.5, 2.0];
- a logarithmic gain per track;
- one `amix` stage over all tracks.

Around the command the model also covers:

- the web variant's lazy `load` state machine and its virtual file system
  (staging `input{i}.mp3`, reading and unlinking `output.mp3`);
- the native variant's statistics-to-progress estimate, its error and
  `finally` structure, `cancel` and `uriToPath`;
- three controls that feed or display the engine:
  - the speed slider, positions 3..102 divided by 41;
  - the mixing-progress modal, `m:ss` times, the remaining-time estimate and
    the percent label;
  - the legacy Android track-row adapter (`SoundControlsAdapter`), whose two
    copies in the repository carry the same logic and are modelled once.

Modules follow the program's structure:

| file | module | models |
|---|---|---|
| `outcomes.dfy` | `Outcomes` | `AudioError`, "returns or throws", `MixingProgress` reports |
| `text.dfy` | `Text` | decimal rendering and parsing, `padStart`, `join`, splitting |
| `numbers.dfy` | `Numbers` | `Math.round`, `toFixed(2)` / `"%.2f"`, JavaScript `%` |
| `tempo.dfy` | `Tempo` | `buildAtempoFilter` |
| `gain.dfy` | `Gain` | `calculateVolumeMultiplier` and the shared log curve |
| `filter_graph.dfy` | `FilterGraph` | `buildMixCommand` (array and space-joined forms) |
| `web_service.dfy` | `WebService` | web `load`, `isReady`, `ensureLoaded`, `mix` |
| `native_service.dfy` | `NativeService` | native `load`, `isReady`, `mix`, statistics, `cancel`, `uriToPath` |
| `speed_slider.dfy` | `SpeedSlider` | `SpeedSlider.tsx` |
| `mixing_progress.dfy` | `MixingProgress` | `MixingProgress.tsx` |
| `sound_controls.dfy` | `SoundControls` | both copies of `SoundControlsAdapter.java` |

Foreign effects are inputs of the step functions rather than code. This
covers fetching a URI, running FFmpeg, the outcome of `ffmpeg.load()`,
FFmpegKit's session, return code and statistics samples, whether
`FFmpegKit.cancel` resolves, the existence check
of the output file, the cache directory and `Date.now()`. `Math.log` is an
abstract function `ln`, of which only `ln(100) > 0` is assumed. JavaScript's
number-to-text conversion of the gain is an abstract function `num`, of which
only "no `;` and no space" is assumed. Numbers are exact reals.

Some behaviours of the code are worth stating plainly, because a comment in
the code or a first reading suggests otherwise:

- **Stale cancel.** `cancel` is documented as cancelling the current mixing
  operation (`FFmpegService.native.ts:148`). After a mix finishes, the session
  id stays set, so a later `cancel` still cancels that finished session
  (`NativeService.CancelAfterMixTargetsItsSession`). The same holds when an
  await after `execute` rejects (`NativeService.LateRejection`).
- **Web cleanup.** The "Clean up virtual file system" block
  (`FFmpegService.web.ts:160`) sits on the success path only. A failed run
  leaves every staged input behind, and an `output.mp3` written before the
  failure stays too (`WebService.FailedRunLeavesInputs`).
- **Stale progress handler.** The web `mix` installs `setProgress` only when
  `onProgress` is given and never removes it. A later mix without a callback
  still forwards FFmpeg's progress to the earlier one
  (`WebService.StaleProgressHandler`).
- **Tempo accuracy.** The tempo chain misses the requested speed by up to
  0.01 times the product of its doubling and halving stages. That bound is
  0.02 for speeds in (2, 2.5], not 0.01 (`Tempo.TrackSpeedAccuracy`). For
  example, 2.015 halves once to 1.0075, which is within 0.01 of 1, so the
  chain is one doubling stage. That stage plays 2.0, which is 0.015 off
  (`Tempo.Example2015`).
- **Slider range.** The slider's comments give its range as 0.05x to 2.50x
  (`SpeedSlider.tsx:4` and `:15`). Its positions 3..102 give 3/41 ≈ 0.073 to
  102/41 ≈ 2.488 instead, labelled "0.07" and "2.49"
  (`SpeedSlider.SliderRange`).
- **The "2.50" override.** It fires at one position only, 100, where the
  speed played is 2.44 (`SoundControls.OverrideOnlyAtHundred`).
- **SDK level 23.** The adapter hides the speed bar at SDK level 23, yet
  would still apply a speed change there
  (`SoundControls.VisibleSpeedBarApplies`).

## Model

Source paths are relative to the repository root.

| member | source | states |
|---|---|---|
| Tempo.Resolve | Migration/src/services/ffmpeg/FFmpegService.web.ts:261-275 | every stage the loop emits lies in [0.5, 2.0]; a remaining speed ≥ 1 never yields a halving and one ≤ 1 never a doubling; only the last stage can be a rounded remainder |
| Tempo.BuildAtempoFilter | Migration/src/services/ffmpeg/FFmpegService.web.ts:254-278 | speed 1.0 gives no stage; the chain is empty exactly when the speed is within 0.01 of 1; every stage is in the atempo domain; the chain is k copies of one boundary stage then at most one remainder |
| Tempo.BuildAtempoFilterLoop | Migration/src/services/ffmpeg/FFmpegService.native.ts:231-254 | the source's while loop, with the early return for 1.0 and the `break`, computes exactly the chain of `BuildAtempoFilter` |
| Tempo.StepNearsDomain | Migration/src/services/ffmpeg/FFmpegService.web.ts:264-271 | each doubling or halving pass keeps the remaining speed positive and strictly nearer the [0.5, 2.0] domain, so the loop ends for positive speeds |
| Tempo.NonPositiveSpeedNeverExits | Migration/src/services/ffmpeg/FFmpegService.web.ts:264-270 | for speed ≤ 0 every pass takes the halving branch and the remainder stays ≤ 0, so the loop never ends |
| Tempo.ResolveOnePass | Migration/src/services/ffmpeg/FFmpegService.web.ts:264-274 | one pass of the loop for a positive speed still more than 0.01 from 1: above 2.0 it emits a doubling and continues on half the speed, below 0.5 a halving and continues on twice the speed, otherwise it emits the rounded remainder and stops |
| Tempo.ResolveUnscales | Migration/src/services/ffmpeg/FFmpegService.web.ts:261-275 | the loop's remaining speed when it stops is the requested speed divided by every doubling and halving it emitted, in order |
| Tempo.BoundaryTimesUnscaled | Migration/src/services/ffmpeg/FFmpegService.web.ts:261-275 | with the previous row, the loop invariant over a whole run: the product of the emitted boundary stages times the remaining speed is the requested speed |
| Tempo.ResolveApproximates | Migration/src/services/ffmpeg/FFmpegService.web.ts:261-275 | the chain's applied speed misses the requested one by at most 0.01 × the product of its boundary stages |
| Tempo.LastApproximates | Migration/src/services/ffmpeg/FFmpegService.web.ts:271-273 | a final `toFixed(2)` stage is within 0.005 (≤ 0.01) of the remaining speed and adds no boundary factor |
| Tempo.ExitApproximates | Migration/src/services/ffmpeg/FFmpegService.web.ts:264 | leaving at the guard means the remaining speed is within 0.01 of 1 |
| Tempo.ContinueApproximates | Migration/src/services/ffmpeg/FFmpegService.web.ts:265-270 | a doubling or halving pass scales both the error and its bound by the stage's factor |
| Tempo.ConsBoundaryError | Migration/src/services/ffmpeg/FFmpegService.web.ts:265-270 | putting a boundary stage in front of a chain scales its speed, target and bound alike |
| Tempo.BoundaryProductBound | Migration/src/services/ffmpeg/FFmpegService.web.ts:265-270 | for speeds up to 4 at most one doubling is emitted; up to 2 the boundary product is at most 1 |
| Tempo.TrackSpeedAccuracy | Migration/src/services/ffmpeg/FFmpegService.web.ts:254-278 | for track speeds in [0.05, 2.5] the applied speed is within 0.02 of the requested one, and within 0.01 up to 2.0 |
| Tempo.BoundarySpeeds | Migration/src/services/ffmpeg/FFmpegService.web.ts:271-273 | 2.0 and 0.5 resolve to the single remainder stages "atempo=2.00" and 0.50 |
| Tempo.Speed248 | Migration/src/services/ffmpeg/FFmpegService.web.ts:265-273 | 2.48 resolves to one doubling then the remainder 1.24 |
| Tempo.Example2015 | Migration/src/services/ffmpeg/FFmpegService.web.ts:264-273 | 2.015 halves once to 1.0075, which the guard accepts, so the chain is one doubling and plays 0.015 off the request, more than 0.01 |
| Gain.VolumeMultiplier | Migration/src/services/ffmpeg/FFmpegService.web.ts:284-291 | 0 maps to 0, 100 maps to 1.0, every result lies in [0, 1] |
| Gain.Clamp01 | Migration/src/services/ffmpeg/FFmpegService.native.ts:265 | the clamp keeps values in [0, 1] unchanged and sends lower ones to 0, higher ones to 1 |
| Gain.GainClampsAdapterCurve | Migration/src/services/ffmpeg/FFmpegService.native.ts:259-266 | between the extremes the gain is the clamped log curve, and equals the curve wherever the curve lies in [0, 1] |
| Gain.CurveInRange | Migration/src/services/ffmpeg/FFmpegService.web.ts:288-290 | the curve lies in [0, 1] exactly when log(100 − v) lies between 0 and log(100) |
| FilterGraph.BuildGraph | Migration/src/services/ffmpeg/FFmpegService.web.ts:196-227 | one chain per track, reading input i and writing label i, with that track's tempo chain and gain; amix declares N inputs and reads every chain label exactly once and nothing else |
| FilterGraph.DistinctCountsOnce | Migration/src/services/ffmpeg/FFmpegService.web.ts:218-222 | a label that occurs once among distinct labels is counted once by the amix inputs |
| FilterGraph.LabelTextInjective | Migration/src/services/ffmpeg/FFmpegService.web.ts:218 | distinct chains get distinct `a{i}` labels in the text |
| FilterGraph.MixInputTextsReadBack | Migration/src/services/ffmpeg/FFmpegService.web.ts:219-226 | each amix input text is `[a<digits>]`, and its digits read back as the label of the chain it names |
| FilterGraph.StepTextExcludes | Migration/src/services/ffmpeg/FFmpegService.web.ts:266-272 | a stage text holds neither `;` nor a space |
| FilterGraph.ChainTextExcludes | Migration/src/services/ffmpeg/FFmpegService.web.ts:202-219 | a chain text holds neither `;` nor a space |
| FilterGraph.AmixTextExcludes | Migration/src/services/ffmpeg/FFmpegService.web.ts:226 | the amix text holds neither `;` nor a space |
| FilterGraph.GraphTextHasNoSpace | Migration/src/services/ffmpeg/FFmpegService.native.ts:206 | the `-filter_complex` argument is one space-free token |
| FilterGraph.GraphText | Migration/src/services/ffmpeg/FFmpegService.web.ts:226-230 | the chains and the amix stage joined by `;`; GraphTextHasNoSpace and GraphTextSplitsIntoChains state what it holds |
| FilterGraph.ChainText | Migration/src/services/ffmpeg/FFmpegService.web.ts:199-221 | one track's chain; ChainTextExcludes, FirstChainText and SecondChainText state what it holds |
| FilterGraph.AmixText | Migration/src/services/ffmpeg/FFmpegService.web.ts:222-226 | the amix stage; AmixTextExcludes and MixInputTextsReadBack state what it holds |
| FilterGraph.GraphTextSplitsIntoChains | Migration/src/services/ffmpeg/FFmpegService.web.ts:226-230 | cutting the graph text at `;` gives exactly N chain texts in track order followed by the one amix stage |
| FilterGraph.InputArgs | Migration/src/services/ffmpeg/FFmpegService.web.ts:191-193 | one `-i <file>` pair per input, in order |
| FilterGraph.MixArgs | Migration/src/services/ffmpeg/FFmpegService.web.ts:188-247 | inputs, then `-filter_complex <graph>`, then `-map [out] -codec:a libmp3lame -b:a 128k -ar 44100 -y`, then the output as the last argument |
| FilterGraph.WebMixCommand | Migration/src/services/ffmpeg/FFmpegService.web.ts:183-248 | the web argument array; MixArgs gives its layout, MixArgsHaveNoSpace its tokens, and GraphTextSplitsIntoChains its graph |
| FilterGraph.NativeMixCommand | Migration/src/services/ffmpeg/FFmpegService.native.ts:161-226 | the native command line; NativeCommandIsSpaceJoined states that it is the web array joined by single spaces |
| FilterGraph.EncodingArgsExclude | Migration/src/services/ffmpeg/FFmpegService.web.ts:233-244 | none of the fixed `-map`/encoding arguments holds a space or a `;` |
| FilterGraph.MixArgsHaveNoSpace | Migration/src/services/ffmpeg/FFmpegService.native.ts:166-225 | with space-free paths every argument is space-free |
| FilterGraph.SpaceJoinedArgs | Migration/src/services/ffmpeg/FFmpegService.native.ts:222-225 | the space-joined line ends with a space and the output path, and with space-free paths cuts back into the argument array |
| FilterGraph.NativeCommandIsSpaceJoined | Migration/src/services/ffmpeg/FFmpegService.native.ts:161-226 | the native command is the web argument array joined by single spaces: cutting it at spaces returns that array, with the output path last |
| FilterGraph.JoinSplitsOffLast | Migration/src/services/ffmpeg/FFmpegService.native.ts:223-225 | joining puts the last part after the final separator |
| FilterGraph.TwoTrackScenario | Migration/src/services/ffmpeg/FFmpegService.web.ts:199-223 | a unity full-volume track beside a 2.48x muted one gives chains `[0:a]volume=<gain 1>[a0]` (no tempo stage) and `[1:a]atempo=2.0,atempo=1.24,volume=<gain 0>[a1]`, the gains printed by `num` |
| FilterGraph.FirstChainText | Migration/src/services/ffmpeg/FFmpegService.web.ts:199-219 | the chain text of a unity full-volume first track: no tempo stage, just `volume=` and the label |
| FilterGraph.SecondChainText | Migration/src/services/ffmpeg/FFmpegService.web.ts:202-219 | the chain text of a 2.48x muted second track |
| FilterGraph.Speed248TempoText | Migration/src/services/ffmpeg/FFmpegService.web.ts:207-210 | the tempo part of a chain is the stages joined by `,` with a trailing `,` |
| FilterGraph.Fixed124Text | Migration/src/services/ffmpeg/FFmpegService.web.ts:272 | the remainder 1.24 prints as `atempo=1.24` |
| WebService.BeginLoad | Migration/src/services/ffmpeg/FFmpegService.web.ts:47-72 | a loaded service returns at once; a loading one is refused with "FFmpeg is already loading"; otherwise a fresh instance is created and marked loading |
| WebService.FinishLoad | Migration/src/services/ffmpeg/FFmpegService.web.ts:74-89 | after `ffmpeg.load()` settles, loading is cleared; loaded is set exactly on success; a failure throws "Failed to load FFmpeg: <cause>" |
| WebService.LoadFailure | Migration/src/services/ffmpeg/FFmpegService.web.ts:83-88 | the load error carries MIXING_FAILED and the wrapped cause |
| WebService.LoadWhenLoaded | Migration/src/services/ffmpeg/FFmpegService.web.ts:48-51 | loading a loaded service changes nothing and succeeds |
| WebService.LoadWhileLoadingRefused | Migration/src/services/ffmpeg/FFmpegService.web.ts:53-60 | a second load issued while the first awaits is refused and changes nothing |
| WebService.LoadKeepsConsistent | Migration/src/services/ffmpeg/FFmpegService.web.ts:47-90 | every load step keeps "loaded implies an instance" and "never loaded and loading at once" |
| WebService.FailedLoadCanBeRetried | Migration/src/services/ffmpeg/FFmpegService.web.ts:79-80 | a failed load leaves the service not loading, so a retry starts afresh and can make it ready |
| WebService.ReadyIsLoaded | Migration/src/services/ffmpeg/FFmpegService.web.ts:95-97 | in consistent states `isReady()` is exactly the loaded flag |
| WebService.EnsureLoadedReady | Migration/src/services/ffmpeg/FFmpegService.web.ts:296-300 | `ensureLoaded` succeeds exactly when it leaves the service ready, and fails only with the concurrent-load refusal or the load error |
| WebService.InputName | Migration/src/services/ffmpeg/FFmpegService.web.ts:130 | staging names read `input<digits>.mp3`, and the digits read back as the track's index |
| WebService.InputNamesDistinct | Migration/src/services/ffmpeg/FFmpegService.web.ts:129-135 | distinct tracks are staged under distinct names, none of them `output.mp3` |
| WebService.StageFrom | Migration/src/services/ffmpeg/FFmpegService.web.ts:129-136 | staging goes track by track and stops at the first failed fetch, carrying its message; all tracks are staged exactly when none failed |
| WebService.StageFromFiles | Migration/src/services/ffmpeg/FFmpegService.web.ts:133-134 | each fetched track's data is written under its staging name and no other file changes |
| WebService.Unlink | Migration/src/services/ffmpeg/FFmpegService.web.ts:161-164 | exactly the staged inputs and `output.mp3` are removed; every other file is kept with its contents |
| WebService.AfterRun | Migration/src/services/ffmpeg/FFmpegService.web.ts:154-177 | a failed run throws "Failed to mix audio: …", unlinks nothing and leaves any `output.mp3` it wrote; a missing output throws the read error; otherwise the output is returned as audio/mpeg and the files are unlinked; the load flags never change |
| WebService.MixTracks | Migration/src/services/ffmpeg/FFmpegService.web.ts:126-177 | the body of `mix` changes only the file system and the progress handler |
| WebService.MixLoadsFirst | Migration/src/services/ffmpeg/FFmpegService.web.ts:104 | `mix` loads first: a failed load's error is what the caller sees, even for an empty track list, and no file is staged |
| WebService.MixWithoutTracks | Migration/src/services/ffmpeg/FFmpegService.web.ts:108-114 | a missing or empty track list throws "No tracks provided for mixing" before any file is staged |
| WebService.MixKeepsConsistent | Migration/src/services/ffmpeg/FFmpegService.web.ts:103-122 | `mix` keeps the flags consistent and a consistent service is never refused as "FFmpeg not initialized" |
| WebService.MixIsMixTracks | Migration/src/services/ffmpeg/FFmpegService.web.ts:103-126 | past the load and the two checks, `mix` is the staging, run and cleanup body |
| WebService.MixTracksSuccess | Migration/src/services/ffmpeg/FFmpegService.web.ts:126-167 | on success every track was fetched, the command over the staging names ran, its output is returned, and all staged inputs and the output are gone while all other files remain |
| WebService.MixSuccessLeavesNoFiles | Migration/src/services/ffmpeg/FFmpegService.web.ts:160-164 | a successful mix from an empty file system leaves it empty |
| WebService.FailedRunLeavesInputs | Migration/src/services/ffmpeg/FFmpegService.web.ts:168-177 | when FFmpeg fails, the error wraps its message, every staged input stays behind, and so does an `output.mp3` the failed run had written |
| WebService.FetchFailureStopsStaging | Migration/src/services/ffmpeg/FFmpegService.web.ts:129-136 | a failed fetch at track k stages the tracks before k and none from k on, and throws with the fetch's message |
| WebService.MixTracksLeavesNoOutput | Migration/src/services/ffmpeg/FFmpegService.web.ts:154-177 | `output.mp3` absent before the mix body is present after it only when every fetch succeeded and FFmpeg failed after writing it |
| WebService.OutputNeverLingers | Migration/src/services/ffmpeg/FFmpegService.web.ts:103-178 | the same for the whole `mix`, load and checks included |
| WebService.MixTracksHandler | Migration/src/services/ffmpeg/FFmpegService.web.ts:141-151 | a mix given `onProgress` installs it as the `setProgress` handler exactly when every track was staged; otherwise the handler is left as it was |
| WebService.MixInstallsHandler | Migration/src/services/ffmpeg/FFmpegService.web.ts:141-151 | on a loaded service, a mix with `onProgress` whose fetches succeed leaves that callback installed |
| WebService.HandlerSurvivesMix | Migration/src/services/ffmpeg/FFmpegService.web.ts:141-151 | a mix without `onProgress` never removes or replaces the installed handler |
| WebService.StaleProgressHandler | Migration/src/services/ffmpeg/FFmpegService.web.ts:141-151 | after a mix with `onProgress` has run, a later mix without it still forwards FFmpeg's progress to the earlier callback |
| WebService.StagesAll | Migration/src/services/ffmpeg/FFmpegService.web.ts:129-136 | staging completes exactly when every fetch succeeds, and then every track is written |
| WebService.Load | Migration/src/services/ffmpeg/FFmpegService.web.ts:47-90 | `load` run to completion; its partners BeginLoad, FinishLoad, LoadWhenLoaded, LoadWhileLoadingRefused, LoadKeepsConsistent and FailedLoadCanBeRetried state its behaviour |
| WebService.EnsureLoaded | Migration/src/services/ffmpeg/FFmpegService.web.ts:296-300 | `ensureLoaded`; EnsureLoadedReady states that it succeeds exactly when the service ends ready |
| WebService.IsReady | Migration/src/services/ffmpeg/FFmpegService.web.ts:95-97 | `isReady`; ReadyIsLoaded states that it is the loaded flag in every consistent state |
| WebService.Mix | Migration/src/services/ffmpeg/FFmpegService.web.ts:103-178 | `mix`; MixLoadsFirst, MixWithoutTracks, MixKeepsConsistent, MixIsMixTracks, MixSuccessLeavesNoFiles, OutputNeverLingers and StaleProgressHandler state its behaviour |
| WebService.ForwardProgress | Migration/src/services/ffmpeg/FFmpegService.web.ts:143-151 | a forwarded report keeps FFmpeg's ratio, carries its time in milliseconds and a zero duration |
| WebService.WebEstimateAlwaysCalculating | Migration/src/services/ffmpeg/FFmpegService.web.ts:144-150 | shown in the progress modal, a web report shows its whole seconds and, its duration being 0, an estimate stuck at "Calculating..." |
| NativeService.Load | Migration/src/services/ffmpeg/FFmpegService.native.ts:27-30 | `load` changes nothing and calls a given `onProgress` once with 1 |
| NativeService.AlwaysReady | Migration/src/services/ffmpeg/FFmpegService.native.ts:35-37 | the service is ready before and after loading |
| NativeService.OnStatistics | Migration/src/services/ffmpeg/FFmpegService.native.ts:77-93 | the total is seeded to twice the first positive time and otherwise kept; the ratio is time/total capped at 1, in [0, 1] for non-negative time, and 0 while no total is known |
| NativeService.Min | Migration/src/services/ffmpeg/FFmpegService.native.ts:86 | `Math.min` is the smaller argument |
| NativeService.Feed | Migration/src/services/ffmpeg/FFmpegService.native.ts:77-93 | one report per statistics sample, carrying that sample's time |
| NativeService.FeedKeepsKnownTotal | Migration/src/services/ffmpeg/FFmpegService.native.ts:81-86 | once known, the total never changes and every ratio is min(time/total, 1) |
| NativeService.FeedSeedsOnce | Migration/src/services/ffmpeg/FFmpegService.native.ts:75-84 | from a reset, the total ends as twice the first positive time, or 0 if none arrives |
| NativeService.FeedRatiosInRange | Migration/src/services/ffmpeg/FFmpegService.native.ts:86 | for non-negative times every reported ratio is in [0, 1] |
| NativeService.DivisionMonotone | Migration/src/services/ffmpeg/FFmpegService.native.ts:86 | a later time over the same total is no smaller a ratio |
| NativeService.FeedRatiosAscending | Migration/src/services/ffmpeg/FFmpegService.native.ts:77-93 | for ascending non-negative times the ratios ascend: the bar never moves back |
| NativeService.FirstSampleReportsHalf | Migration/src/services/ffmpeg/FFmpegService.native.ts:81-92 | the first positive sample after a reset reports ratio 0.5 and duration twice its time |
| NativeService.UriToPath | Migration/src/services/ffmpeg/FFmpegService.native.ts:271-277 | a leading `file://` is dropped (prefix + path == uri) and any other string is kept |
| NativeService.UriToPathStripsPrefix | Migration/src/services/ffmpeg/FFmpegService.native.ts:273-275 | `file://p` maps to p for every p |
| NativeService.UriToPathStripsOnce | Migration/src/services/ffmpeg/FFmpegService.native.ts:273-275 | only one prefix is stripped |
| NativeService.UriToPathNoSpace | Migration/src/services/ffmpeg/FFmpegService.native.ts:271-277 | stripping adds no space |
| NativeService.OutputPathInjective | Migration/src/services/ffmpeg/FFmpegService.native.ts:57 | mixes started at different milliseconds write to different paths |
| NativeService.Caught | Migration/src/services/ffmpeg/FFmpegService.native.ts:129-140 | AudioErrors are rethrown unchanged, anything else is wrapped as "Failed to mix audio: …" |
| NativeService.Cancel | Migration/src/services/ffmpeg/FFmpegService.native.ts:150-156 | `cancel` asks FFmpegKit to cancel the current session if there is one; when FFmpegKit accepts, the id is cleared; when it rejects, the rejection reaches the caller and the id stays set; without a session nothing is asked and nothing fails |
| NativeService.MixWithoutTracks | Migration/src/services/ffmpeg/FFmpegService.native.ts:45-51 | a missing or empty track list throws "No tracks provided for mixing", changes nothing and reports nothing |
| NativeService.MixOutcomes | Migration/src/services/ffmpeg/FFmpegService.native.ts:96-144 | success exactly when FFmpegKit succeeds, no later await rejects and the output exists, returning the output path; a failed return code and a missing output throw their own AudioErrors unchanged; a throw from `execute` or a later rejection is wrapped; the session id is recorded once `execute` returns |
| NativeService.LateRejection | Migration/src/services/ffmpeg/FFmpegService.native.ts:97-140 | a rejection after `execute` returned is wrapped as "Failed to mix audio: …", yet the session id is recorded, so `cancel` still targets it, and the statistics already delivered were reported |
| NativeService.MixReports | Migration/src/services/ffmpeg/FFmpegService.native.ts:73-98 | the reports of a mix are the statistics samples fed from a reset total when a callback is given and `execute` returned, and none otherwise |
| NativeService.Mix | Migration/src/services/ffmpeg/FFmpegService.native.ts:42-145 | `mix`; MixWithoutTracks, MixOutcomes, LateRejection, MixReports, MixProgress, MixCommandTokens and CancelAfterMixTargetsItsSession state its behaviour |
| NativeService.IsReady | Migration/src/services/ffmpeg/FFmpegService.native.ts:35-37 | `isReady`; AlwaysReady states that it holds before and after `load` |
| NativeService.MixProgress | Migration/src/services/ffmpeg/FFmpegService.native.ts:73-94 | with a callback the estimate restarts from 0 and its reports are in [0, 1] and ascend with time; without one nothing is reported |
| NativeService.MixCommandTokens | Migration/src/services/ffmpeg/FFmpegService.native.ts:57-69 | with space-free paths the command line cuts at spaces into the web argument array over the stripped paths, ending with the stripped output path |
| NativeService.CancelTwice | Migration/src/services/ffmpeg/FFmpegService.native.ts:150-156 | after an accepted `cancel` a second one asks for nothing and changes nothing; after a rejected one it asks FFmpegKit again for the same session |
| NativeService.CancelAfterMixTargetsItsSession | Migration/src/services/ffmpeg/FFmpegService.native.ts:97-98 | after a mix has run, a `cancel` still cancels that mix's session |
| Outcomes.MixFailure | Migration/src/services/ffmpeg/FFmpegService.web.ts:171-176 | the catch-all error carries MIXING_FAILED and "Failed to mix audio: <cause>" |
| Numbers.JsRound | Migration/src/components/MixingProgress/MixingProgress.tsx:73 | `Math.round` gives the nearest integer, the upper one on a tie |
| Numbers.Round2 | Migration/src/services/ffmpeg/FFmpegService.web.ts:272 | `toFixed(2)` is within half a hundredth of the number |
| Numbers.JsRem | Migration/src/components/MixingProgress/MixingProgress.tsx:32 | JavaScript's `%` takes the dividend's sign and is smaller than the divisor in size |
| Numbers.JsRemIsTruncatedRemainder | Migration/src/components/MixingProgress/MixingProgress.tsx:32 | `%` is the remainder of division truncated toward zero |
| Numbers.JsRemOfNatural | Migration/src/components/MixingProgress/MixingProgress.tsx:31-32 | on non-negative seconds, `%` and floored division agree with the mathematical ones |
| Text.ParseFixed2ToFixed2 | src/main/java/gemenie/looper/SoundControlsAdapter.java:150-157 | parsing a two-decimal text gives back the number of hundredths it was printed from |
| Text.ToFixed2Injective | src/main/java/gemenie/looper/SoundControlsAdapter.java:150-151 | different hundredths print differently |
| Text.PadStart | Migration/src/components/MixingProgress/MixingProgress.tsx:33 | `padStart` keeps the text at the end and fills the front with the pad character up to the width |
| SpeedSlider.SliderValueToSpeed | Migration/src/components/SpeedSlider/SpeedSlider.tsx:32-34 | the speed times 41 is the slider position |
| SpeedSlider.SpeedToSliderValue | Migration/src/components/SpeedSlider/SpeedSlider.tsx:27-29 | the position is the nearest to speed × 41 |
| SpeedSlider.HandleSliderChange | Migration/src/components/SpeedSlider/SpeedSlider.tsx:41-44 | the speed forwarded to `onValueChange` is exactly the position divided by 41, and it sits back at the moved position |
| SpeedSlider.SpeedLabel | Migration/src/components/SpeedSlider/SpeedSlider.tsx:47-51 | the label reads `Speed: <x>x`, and its number parses back to the speed rounded to hundredths |
| SpeedSlider.SliderRoundTrip | Migration/src/components/SpeedSlider/SpeedSlider.tsx:27-34 | every integer position survives the trip to a speed and back |
| SpeedSlider.SpeedRoundTrip | Migration/src/components/SpeedSlider/SpeedSlider.tsx:27-34 | a speed comes back from its position at most 1/82 away |
| SpeedSlider.SliderStrictlyIncreasing | Migration/src/components/SpeedSlider/SpeedSlider.tsx:32-34 | a higher position is exactly a higher speed |
| SpeedSlider.SpeedToSliderMonotone | Migration/src/components/SpeedSlider/SpeedSlider.tsx:27-29 | a faster speed never sits at a lower position |
| SpeedSlider.NormalSpeedAtFortyOne | Migration/src/components/SpeedSlider/SpeedSlider.tsx:24-34 | speed 1.0 sits at position 41 and back |
| SpeedSlider.SliderRange | Migration/src/components/SpeedSlider/SpeedSlider.tsx:22-24 | every position 3..102 is a speed strictly inside (0.05, 2.5); the ends read "Speed: 0.07x" and "Speed: 2.49x" |
| MixingProgress.FormatSecondsReadsBack | Migration/src/components/MixingProgress/MixingProgress.tsx:29-34 | for a non-negative count of whole seconds the `m:ss` text reads back as minutes ⌊s/60⌋ and a seconds field below 60, with minutes × 60 + seconds = s, so the text loses nothing |
| MixingProgress.Clock | Migration/src/components/MixingProgress/MixingProgress.tsx:31-33 | with seconds in 0..59 the text ends in a colon followed by two digits |
| MixingProgress.TwoDigits | Migration/src/components/MixingProgress/MixingProgress.tsx:33 | `padStart(2, '0')` of seconds in 0..59 is exactly two digits |
| MixingProgress.TwoDigitsReadBack | Migration/src/components/MixingProgress/MixingProgress.tsx:33 | the two padded digits read back as the seconds they show |
| MixingProgress.ClockReadsBack | Migration/src/components/MixingProgress/MixingProgress.tsx:31-33 | the part before the colon reads back as the minutes and the two characters after it as the seconds |
| MixingProgress.ClockExample | Migration/src/components/MixingProgress/MixingProgress.tsx:31-33 | one-digit minutes and seconds print as `m:0s` |
| MixingProgress.FormatTimeExamples | Migration/src/components/MixingProgress/MixingProgress.tsx:29-34 | 125.4 s reads "2:05" and 0.999 s reads "0:00" |
| MixingProgress.FormatTime | Migration/src/components/MixingProgress/MixingProgress.tsx:29-34 | `formatTime`; FormatSecondsReadsBack and FormatTimeExamples state what it prints |
| MixingProgress.FormatSeconds | Migration/src/components/MixingProgress/MixingProgress.tsx:30-33 | the part of `formatTime` after flooring to seconds; FormatSecondsReadsBack states that its text reads back as those seconds |
| MixingProgress.EstimateRemaining | Migration/src/components/MixingProgress/MixingProgress.tsx:36-45 | "Calculating..." exactly when the total or the elapsed time is 0 or missing or progress is 0; otherwise a non-negative time |
| MixingProgress.RemainingText | Migration/src/components/MixingProgress/MixingProgress.tsx:36-45 | the estimate's text; TimeRowAtStart and WebService.WebEstimateAlwaysCalculating state when it reads "Calculating..." |
| MixingProgress.EstimateCompletesTotal | Migration/src/components/MixingProgress/MixingProgress.tsx:41-44 | elapsed plus remaining is the projected total elapsed/progress while progress ≤ 1, and nothing is left past the end |
| MixingProgress.EstimateIgnoresTotalValue | Migration/src/components/MixingProgress/MixingProgress.tsx:37-43 | the estimate depends only on whether the total is known and non-zero, not on its value |
| MixingProgress.PercentLabel | Migration/src/components/MixingProgress/MixingProgress.tsx:73 | the label is the nearest integer to progress × 100, within 0..100 for progress in [0, 1] |
| MixingProgress.PercentLabelMonotone | Migration/src/components/MixingProgress/MixingProgress.tsx:73 | more progress never shows a lower percentage |
| MixingProgress.TimeRow | Migration/src/components/MixingProgress/MixingProgress.tsx:77-86 | the time row appears exactly when both times are defined, starting `Time: <elapsed>` |
| MixingProgress.TimeRowAtStart | Migration/src/components/MixingProgress/MixingProgress.tsx:77-86 | with both times known but zero, the row shows and reads "Remaining: Calculating..." |
| SoundControls.OnVolumeProgress | src/main/java/gemenie/looper/SoundControlsAdapter.java:134-144 | progress ≤ 0 mutes; 1..99 shows the number and applies the log curve; 100 and beyond show the number with the curve off its domain |
| SoundControls.AdapterGainMatchesMixer | app/src/main/java/gemenie/looper/SoundControlsAdapter.java:116-124 | where the curve lies in [0, 1], the adapter's gain is the mixer's gain for the same level |
| SoundControls.MutedEverywhere | app/src/main/java/gemenie/looper/SoundControlsAdapter.java:116-124 | a silent bar mutes the adapter, and the mixer's gain for 0 is 0 |
| SoundControls.OnSpeedProgress | src/main/java/gemenie/looper/SoundControlsAdapter.java:145-160 | a change happens exactly for progress > 2 at SDK ≥ 23; the playback speed is p/41 to within half a hundredth and is the value parsed from the shown text, except when "2.50" is shown |
| SoundControls.OnProgressChanged | src/main/java/gemenie/looper/SoundControlsAdapter.java:128-161 | every bar movement reports the row's position first; the volume bar applies OnVolumeProgress and the speed bar OnSpeedProgress; a speed change happens only on the speed bar |
| SoundControls.ProgressReportsPositionLikeClick | src/main/java/gemenie/looper/SoundControlsAdapter.java:128-131 | a bar movement reports the same position a click reports first, and a bar that is neither volume nor speed does nothing more |
| SoundControls.Text244 | src/main/java/gemenie/looper/SoundControlsAdapter.java:151 | 244 hundredths print as "2.44" |
| SoundControls.OverrideOnlyAtHundred | app/src/main/java/gemenie/looper/SoundControlsAdapter.java:126-137 | over positions 3..102, "2.50" is shown exactly at 100, which plays at 2.44; everywhere else the text shown is the speed played |
| SoundControls.AdapterAgreesWithSlider | src/main/java/gemenie/looper/SoundControlsAdapter.java:149-154 | except at 100, the adapter's speed text is the new speed slider's label for the same position |
| SoundControls.OnBind | src/main/java/gemenie/looper/SoundControlsAdapter.java:47-59 | binding sets volume 100 and speed position 41, titles the row "Track " followed by the position's digits, and hides the speed bar at SDK ≤ 23 |
| SoundControls.BoundSpeedIsNormal | app/src/main/java/gemenie/looper/SoundControlsAdapter.java:45-46 | the bound speed position plays at 1.00 and shows "1.00" |
| SoundControls.VisibleSpeedBarApplies | src/main/java/gemenie/looper/SoundControlsAdapter.java:49-51 | a visible speed bar always takes effect; at SDK 23 the bar is hidden although its handler would apply |
| SoundControls.TitlesDistinct | src/main/java/gemenie/looper/SoundControlsAdapter.java:57-58 | rows at different positions get different titles |
| SoundControls.ItemCount | app/src/main/java/gemenie/looper/SoundControlsAdapter.java:52-57 | 0 for a missing list, else its size |
| SoundControls.OnClick | src/main/java/gemenie/looper/SoundControlsAdapter.java:106-125 | a click first reports the position; "play" starts, setting looping first if it was off; "pause" pauses; "delete" forwards the position |
| SoundControls.PlayLoops | app/src/main/java/gemenie/looper/SoundControlsAdapter.java:97-102 | after "play" the player loops whether or not it did before, and start comes last |
| SoundControls.DeleteForwardsPosition | src/main/java/gemenie/looper/SoundControlsAdapter.java:122-124 | "delete" reports the position, then hands the same position to `onButtonClick` |

## Left out

- FFmpeg itself (ffmpeg.wasm, FFmpegKit), `fetchFile` and `expo-file-system`
  are foreign code. Their results are inputs of the step functions.
- Asynchronous scheduling is not modelled. Each call runs to completion, and
  a concurrent second `load` is stated only as "issued while the first
  awaits".
- Statistics callbacks are a sample list handed to the step, not a separate
  thread.
- Binary floating point is not modelled: numbers are exact reals. That
  covers `toFixed` and `"%.2f"` on binary fractions, the Java `float` cast
  and the 1e-2 comparisons.
- `Math.log` is abstract, so nothing is claimed about the gain curve's
  monotonicity or its values between 1 and 99.
- SoundControls.OnVolumeProgress: at progress 100 or more the Java code
  takes the logarithm of 0 or less. The model records only that the curve
  leaves its domain there, not which infinite or undefined gain Java then
  computes.
- JavaScript's number-to-string conversion of the gain is abstract; only
  "no `;` and no space in it" is used.
- Java's `String.format("%.2f")` is locale-dependent. The model assumes `.`
  as the decimal separator.
- Tempo.BuildAtempoFilter: requires a positive speed, because the source's
  loop never ends for zero or negative speeds. Tempo.NonPositiveSpeedNeverExits
  states that behaviour instead.
- Gain.VolumeMultiplier: requires a volume in 0..100. The source's sliders
  stay in that range.
- FilterGraph.BuildGraph: requires valid tracks, for both reasons above.
- WebService.Mix: whether `onProgress` was given does not change its result.
  The model records which callback is installed as the `setProgress`
  handler, but not the events FFmpeg sends to it during a run. Each event is
  mapped by `WebService.ForwardProgress`.
- WebService.AfterRun: a run that fails is given the output bytes it wrote
  before failing, if any. Because the command passes `-y`, a written
  `output.mp3` replaces an earlier one. Which failures write output is up to
  FFmpeg and is not modelled.
- NativeService.Mix: the statistics callback is registered for the length
  of `execute` and cleared in the `finally` block. Because a step runs
  `execute` to completion, that window is not part of the state. The samples
  FFmpegKit delivers inside it are the `samples` of the step's input.
- NativeService.Mix: a rejection of a later await (`getReturnCode`,
  `getOutput`, `getFailStackTrace`, `getInfoAsync`) is one message. Which of
  these awaits rejected is not recorded.
- MixingProgress.FormatSecondsReadsBack: covers a non-negative count of
  whole seconds only. `FormatTime` of a negative time keeps JavaScript's
  signed remainder, and no reading-back is claimed for it. `FormatTime`
  carries no contract of its own: it is `FormatSeconds` after
  `Math.floor(ms / 1000)`, and its properties are stated on those parts.
- Logging (`log`, `error`, the messages of `console`) is left out.
- Also left out:
  - the singleton `getFFmpegService`;
  - the constructors;
  - the `ffmpeg.load` progress callback;
  - the `returnCode`, `output` and `failStackTrace` details attached to
    errors.
- React and Android rendering (views, styles, `onCreateViewHolder`, the
  `ViewHolder` constructor) is left out.
- `mMediaList.get(...)` failures and a null `MediaPlayer` are left out.
- `MainActivity` is not part of this model.
