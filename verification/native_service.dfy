/** The native (FFmpegKit) variant of the FFmpeg service: `load` and
    `isReady`, `mix` as one sequential step with its error and `finally`
    structure, the statistics callback that turns elapsed time into a
    progress ratio, `cancel`, and `uriToPath`.

    FFmpegKit is not modelled: what `FFmpegKit.execute` does with a command
    is an input of the step (`exec`), including the statistics samples it
    delivers while it runs. The cache directory and `Date.now()` are
    parameters too. */
module NativeService {
  import opened Text
  import opened Outcomes
  import opened Gain
  import opened FilterGraph

  /** The service's fields: the last session FFmpegKit returned and the
      running estimate of the total duration. */
  datatype NativeState = NativeState(sessionId: Option<int>, totalDuration: real)

  const Initial: NativeState := NativeState(None, 0.0)

  // ---------------------------------------------------------------------
  // load and isReady

  /** `load(onProgress)`: nothing to load; a given callback hears 1 once. */
  function Load(s: NativeState, onProgress: bool): (r: (NativeState, seq<real>))
    ensures r.0 == s
    ensures onProgress ==> r.1 == [1.0]
    ensures !onProgress ==> r.1 == []
  {
    (s, if onProgress then [1.0] else [])
  }

  /** `isReady()`: the binary always includes FFmpeg. */
  function IsReady(s: NativeState): bool {
    true
  }

  /** Loading changes no state, so the service is ready before and after. */
  lemma AlwaysReady(s: NativeState, onProgress: bool)
    ensures IsReady(s) && IsReady(Load(s, onProgress).0)
  {
  }

  // ---------------------------------------------------------------------
  // statistics

  /** One statistics callback: the total is seeded to twice the first
      positive elapsed time, then the ratio is elapsed over total, capped at
      1, or 0 while no total is known. */
  function OnStatistics(total: real, time: real): (r: (real, Progress))
    ensures total == 0.0 && time > 0.0 ==> r.0 == 2.0 * time
    ensures !(total == 0.0 && time > 0.0) ==> r.0 == total
    ensures r.1.time == time && r.1.duration == r.0
    ensures r.0 > 0.0 && time >= 0.0 ==> 0.0 <= r.1.ratio <= 1.0 && r.1.ratio * r.0 <= time
    ensures r.0 > 0.0 && time >= r.0 ==> r.1.ratio == 1.0
    ensures r.0 <= 0.0 ==> r.1.ratio == 0.0
  {
    var t := if total == 0.0 && time > 0.0 then time * 2.0 else total;
    var ratio := if t > 0.0 then Min(time / t, 1.0) else 0.0;
    (t, Progress(ratio, time, t))
  }

  function Min(a: real, b: real): (m: real)
    ensures m <= a && m <= b && (m == a || m == b)
  {
    if a < b then a else b
  }

  /** The first positive elapsed time delivered, if any. */
  function FirstPositive(samples: seq<real>): Option<real>
    decreases |samples|
  {
    if |samples| == 0 then None
    else if samples[0] > 0.0 then Some(samples[0])
    else FirstPositive(samples[1..])
  }

  /** The total after a run of callbacks, and the reports they produced. */
  datatype Fed = Fed(total: real, reports: seq<Progress>)

  function Feed(total: real, samples: seq<real>): (r: Fed)
    ensures |r.reports| == |samples|
    ensures forall i :: 0 <= i < |samples| ==> r.reports[i].time == samples[i]
    decreases |samples|
  {
    if |samples| == 0 then Fed(total, [])
    else
      var step := OnStatistics(total, samples[0]);
      var rest := Feed(step.0, samples[1..]);
      Fed(rest.total, [step.1] + rest.reports)
  }

  predicate NonNegative(samples: seq<real>) {
    forall i :: 0 <= i < |samples| ==> samples[i] >= 0.0
  }

  predicate Ascending(samples: seq<real>) {
    forall i, j :: 0 <= i < j < |samples| ==> samples[i] <= samples[j]
  }

  predicate RatiosAscending(reports: seq<Progress>) {
    forall i, j :: 0 <= i < j < |reports| ==> reports[i].ratio <= reports[j].ratio
  }

  /** Once a total is known it never changes, and every ratio is elapsed time
      over that total, capped at 1. */
  lemma {:induction false} FeedKeepsKnownTotal(total: real, samples: seq<real>)
    requires total > 0.0
    ensures Feed(total, samples).total == total
    ensures forall i :: 0 <= i < |samples| ==>
      Feed(total, samples).reports[i] == Progress(Min(samples[i] / total, 1.0), samples[i], total)
    decreases |samples|
  {
    if |samples| > 0 {
      FeedKeepsKnownTotal(total, samples[1..]);
    }
  }

  /** From an unknown total, the total is seeded exactly once: to twice the
      first positive elapsed time, or left 0 if there is none. */
  lemma {:induction false} FeedSeedsOnce(samples: seq<real>)
    ensures Feed(0.0, samples).total ==
      match FirstPositive(samples) case None => 0.0 case Some(t) => 2.0 * t
    decreases |samples|
  {
    if |samples| > 0 {
      if samples[0] > 0.0 {
        FeedKeepsKnownTotal(2.0 * samples[0], samples[1..]);
      } else {
        FeedSeedsOnce(samples[1..]);
      }
    }
  }

  /** For non-negative elapsed times every reported ratio lies in [0, 1]. */
  lemma {:induction false} FeedRatiosInRange(total: real, samples: seq<real>)
    requires total >= 0.0 && NonNegative(samples)
    ensures forall i :: 0 <= i < |samples| ==> 0.0 <= Feed(total, samples).reports[i].ratio <= 1.0
    decreases |samples|
  {
    if |samples| > 0 {
      FeedRatiosInRange(OnStatistics(total, samples[0]).0, samples[1..]);
    }
  }

  lemma DivisionMonotone(a: real, b: real, t: real)
    requires 0.0 <= a <= b && t > 0.0
    ensures a / t <= b / t
  {
    assert b / t - a / t == (b - a) / t;
  }

  /** Elapsed times that only grow give ratios that only grow: the bar never
      moves backwards. */
  lemma {:induction false} FeedRatiosAscending(total: real, samples: seq<real>)
    requires total >= 0.0 && NonNegative(samples) && Ascending(samples)
    ensures RatiosAscending(Feed(total, samples).reports)
    decreases |samples|
  {
    if |samples| > 1 {
      var step := OnStatistics(total, samples[0]);
      var rest := Feed(step.0, samples[1..]);
      FeedRatiosAscending(step.0, samples[1..]);
      FeedRatiosInRange(step.0, samples[1..]);
      if step.0 > 0.0 {
        FeedKeepsKnownTotal(step.0, samples[1..]);
        DivisionMonotone(samples[0], samples[1], step.0);
        assert step.1.ratio == Min(samples[0] / step.0, 1.0);
      }
      assert step.1.ratio <= rest.reports[0].ratio;
      var all := [step.1] + rest.reports;
      forall i, j | 0 <= i < j < |all|
        ensures all[i].ratio <= all[j].ratio
      {
        if i > 0 {
          assert all[i] == rest.reports[i - 1] && all[j] == rest.reports[j - 1];
        } else if j > 1 {
          assert all[j] == rest.reports[j - 1];
        }
      }
    }
  }

  /** The first positive sample after a reset always reports half way. */
  lemma FirstSampleReportsHalf(time: real)
    requires time > 0.0
    ensures OnStatistics(0.0, time).1 == Progress(0.5, time, 2.0 * time)
  {
    var t := time * 2.0;
    assert time == 0.5 * t;
    assert time / t == 0.5;
  }

  // ---------------------------------------------------------------------
  // uriToPath and the output path

  const FilePrefix: string := "file://"

  /** `uriToPath(uri)`: drops a leading `file://`, keeps anything else. */
  function UriToPath(uri: string): (path: string)
    ensures FilePrefix <= uri ==> FilePrefix + path == uri
    ensures !(FilePrefix <= uri) ==> path == uri
  {
    if FilePrefix <= uri then uri[|FilePrefix|..] else uri
  }

  /** The path of `file://p` is p, for every p. */
  lemma UriToPathStripsPrefix(p: string)
    ensures UriToPath(FilePrefix + p) == p
  {
    assert FilePrefix <= FilePrefix + p;
  }

  /** Stripping happens once only: a doubled prefix keeps its second copy. */
  lemma UriToPathStripsOnce(p: string)
    ensures UriToPath(FilePrefix + FilePrefix + p) == FilePrefix + p
  {
    assert FilePrefix + FilePrefix + p == FilePrefix + (FilePrefix + p);
    UriToPathStripsPrefix(FilePrefix + p);
  }

  /** `${cacheDirectory}mixed_${Date.now()}.mp3`. */
  function OutputPath(cacheDir: string, now: nat): string {
    cacheDir + "mixed_" + NatToString(now) + ".mp3"
  }

  /** Mixes started at different milliseconds write different files. */
  lemma OutputPathInjective(cacheDir: string, a: nat, b: nat)
    ensures OutputPath(cacheDir, a) == OutputPath(cacheDir, b) <==> a == b
  {
    if OutputPath(cacheDir, a) == OutputPath(cacheDir, b) {
      var x, y := OutputPath(cacheDir, a), OutputPath(cacheDir, b);
      var k := |cacheDir| + 6;
      assert x[k..|x| - 4] == NatToString(a);
      assert y[k..|y| - 4] == NatToString(b);
      NatToStringInjective(a, b);
    }
  }

  // The ensures only hand the element-wise view to the verifier; they carry no property.
  function InputPaths(tracks: seq<MixTrack>): (paths: seq<string>)
    ensures |paths| == |tracks|
    ensures forall i :: 0 <= i < |tracks| ==> paths[i] == UriToPath(tracks[i].uri)
  {
    seq(|tracks|, i requires 0 <= i < |tracks| => UriToPath(tracks[i].uri))
  }

  // ---------------------------------------------------------------------
  // mix and cancel

  /** What `FFmpegKit.execute(command)` does: it throws, or it returns a
      session with an id and a return code, having delivered statistics
      samples while it ran; `outputExists` is what `getInfoAsync` then finds.
      `rejected` is the message of a later await that rejects after the
      session id is recorded: `getReturnCode`, `getOutput`,
      `getFailStackTrace` or `getInfoAsync`. Whichever of them it is, the
      catch block wraps it the same way. */
  datatype Exec =
    | ExecThrew(message: string)
    | Executed(id: int, success: bool, samples: seq<real>, outputExists: bool, rejected: Option<string>)

  /** What reaches the catch block: an AudioError, or any other error. */
  datatype Thrown = Audio(error: AudioError) | Other(message: string)

  const ExecutionFailed: AudioError :=
    AudioError(MixingFailed, "FFmpeg execution failed", "Audio mixing encountered an error")

  const OutputMissing: AudioError :=
    AudioError(MixingFailed, "Output file was not created", "Mixed audio file not found")

  /** The catch block: AudioErrors pass through, anything else is wrapped. */
  function Caught(t: Thrown): (e: AudioError)
    ensures t.Audio? ==> e == t.error
    ensures t.Other? ==> e == MixFailure(t.message)
  {
    match t
    case Audio(e) => e
    case Other(m) => MixFailure(m)
  }

  /** The state after `mix`, what it returned or threw, and the progress
      reports it emitted. */
  datatype Mixed = Mixed(state: NativeState, result: Result<string>, reports: seq<Progress>)

  /** The command line `mix` hands to FFmpegKit. */
  function MixCommand(ln: real -> real, num: real -> string, tracks: seq<MixTrack>, cacheDir: string, now: nat): string
    requires UsableLog(ln) && ValidTracks(tracks)
  {
    NativeMixCommand(ln, num, tracks, InputPaths(tracks), UriToPath(OutputPath(cacheDir, now)))
  }

  /** `mix(options)`; `onProgress` says whether a progress callback was given. */
  function Mix(ln: real -> real, num: real -> string, s: NativeState, tracks: Option<seq<MixTrack>>,
               onProgress: bool, cacheDir: string, now: nat, exec: string -> Exec): Mixed
    requires UsableLog(ln)
    requires tracks.Some? ==> ValidTracks(tracks.value)
  {
    if tracks.None? || |tracks.value| == 0 then Mixed(s, Err(NoTracks), [])
    else
      var outputPath := OutputPath(cacheDir, now);
      var total := if onProgress then 0.0 else s.totalDuration;
      match exec(MixCommand(ln, num, tracks.value, cacheDir, now))
      case ExecThrew(m) =>
        Mixed(NativeState(s.sessionId, total), Err(Caught(Other(m))), [])
      case Executed(id, success, samples, outputExists, rejected) =>
        var fed := if onProgress then Feed(total, samples) else Fed(total, []);
        var after := NativeState(Some(id), fed.total);
        if rejected.Some? then Mixed(after, Err(Caught(Other(rejected.value))), fed.reports)
        else if !success then Mixed(after, Err(Caught(Audio(ExecutionFailed))), fed.reports)
        else if !outputExists then Mixed(after, Err(Caught(Audio(OutputMissing))), fed.reports)
        else Mixed(after, Ok(outputPath), fed.reports)
  }

  /** What `cancel()` did: the session it asked FFmpegKit to cancel, if any,
      the new state, and the rejection it passed on to the caller. */
  datatype Cancelled = Cancelled(state: NativeState, asked: Option<int>, error: Option<string>)

  /** `cancel()`, given how `FFmpegKit.cancel` answers: `None` when it
      resolves, `Some(message)` when it rejects. Without a session nothing is
      asked. A rejection skips the line that clears the session id and
      reaches the caller unchanged. */
  function Cancel(s: NativeState, kit: Option<string>): (r: Cancelled)
    ensures r.asked == s.sessionId
    ensures r.error.Some? <==> s.sessionId.Some? && kit.Some?
    ensures r.error.Some? ==> r.error == kit && r.state == s
    ensures r.error.None? ==> r.state == s.(sessionId := None)
  {
    match s.sessionId
    case None => Cancelled(s, None, None)
    case Some(id) =>
      if kit.Some? then Cancelled(s, Some(id), kit)
      else Cancelled(s.(sessionId := None), Some(id), None)
  }

  /** A missing or empty track list throws before the `try`: nothing changes
      and no report is emitted. */
  lemma MixWithoutTracks(ln: real -> real, num: real -> string, s: NativeState, tracks: Option<seq<MixTrack>>,
                         onProgress: bool, cacheDir: string, now: nat, exec: string -> Exec)
    requires UsableLog(ln)
    requires tracks.None? || tracks.value == []
    ensures Mix(ln, num, s, tracks, onProgress, cacheDir, now, exec) == Mixed(s, Err(NoTracks), [])
  {
  }

  /** The outcome of a mix over a non-empty track list, by what FFmpegKit did
      with the command: success returns the output path; the two AudioErrors
      thrown inside the `try` reach the caller unchanged; anything else is
      wrapped, whether `execute` itself threw or a later await rejected after
      the session id was recorded. */
  lemma MixOutcomes(ln: real -> real, num: real -> string, s: NativeState, tracks: seq<MixTrack>,
                    onProgress: bool, cacheDir: string, now: nat, exec: string -> Exec)
    requires UsableLog(ln) && ValidTracks(tracks) && |tracks| > 0
    ensures var m := Mix(ln, num, s, Some(tracks), onProgress, cacheDir, now, exec);
      var e := exec(MixCommand(ln, num, tracks, cacheDir, now));
      && (m.result.Ok? <==> e.Executed? && e.rejected.None? && e.success && e.outputExists)
      && (m.result.Ok? ==> m.result.value == OutputPath(cacheDir, now))
      && (e.ExecThrew? ==> m.result == Err(MixFailure(e.message)) && m.state.sessionId == s.sessionId)
      && (e.Executed? ==> m.state.sessionId == Some(e.id))
      && (e.Executed? && e.rejected.Some? ==> m.result == Err(MixFailure(e.rejected.value)))
      && (e.Executed? && e.rejected.None? && !e.success ==> m.result == Err(ExecutionFailed))
      && (e.Executed? && e.rejected.None? && e.success && !e.outputExists ==> m.result == Err(OutputMissing))
  {
    var m := Mix(ln, num, s, Some(tracks), onProgress, cacheDir, now, exec);
    match exec(MixCommand(ln, num, tracks, cacheDir, now))
    case ExecThrew(message) =>
      assert m.result == Err(MixFailure(message));
    case Executed(id, success, samples, outputExists, rejected) =>
      assert m.state.sessionId == Some(id);
  }

  /** The reports of a mix over a non-empty track list: the statistics
      samples fed from a reset total when a callback was given, else none. */
  lemma MixReports(ln: real -> real, num: real -> string, s: NativeState, tracks: seq<MixTrack>,
                   onProgress: bool, cacheDir: string, now: nat, exec: string -> Exec)
    requires UsableLog(ln) && ValidTracks(tracks) && |tracks| > 0
    ensures var e := exec(MixCommand(ln, num, tracks, cacheDir, now));
      Mix(ln, num, s, Some(tracks), onProgress, cacheDir, now, exec).reports
      == if onProgress && e.Executed? then Feed(0.0, e.samples).reports else []
  {
    var m := Mix(ln, num, s, Some(tracks), onProgress, cacheDir, now, exec);
    match exec(MixCommand(ln, num, tracks, cacheDir, now))
    case ExecThrew(_) =>
      assert m.reports == [];
    case Executed(_, _, samples, _, _) =>
      var fed := if onProgress then Feed(0.0, samples) else Fed(0.0, []);
      assert m.reports == fed.reports;
  }

  /** A rejection after `execute` returned is wrapped like any other error,
      yet the session id is already recorded, so `cancel` still targets it,
      and the statistics delivered during the run were already reported. */
  lemma LateRejection(ln: real -> real, num: real -> string, s: NativeState, tracks: seq<MixTrack>,
                      onProgress: bool, cacheDir: string, now: nat, exec: string -> Exec,
                      id: int, success: bool, samples: seq<real>, outputExists: bool, message: string,
                      kit: Option<string>)
    requires UsableLog(ln) && ValidTracks(tracks) && |tracks| > 0
    requires exec(MixCommand(ln, num, tracks, cacheDir, now)) == Executed(id, success, samples, outputExists, Some(message))
    ensures var m := Mix(ln, num, s, Some(tracks), onProgress, cacheDir, now, exec);
      && m.result == Err(MixFailure(message))
      && Cancel(m.state, kit).asked == Some(id)
      && (onProgress ==> m.reports == Feed(0.0, samples).reports)
  {
    MixOutcomes(ln, num, s, tracks, onProgress, cacheDir, now, exec);
    MixReports(ln, num, s, tracks, onProgress, cacheDir, now, exec);
  }

  /** With a progress callback the estimate restarts from zero, and for
      non-negative elapsed times every report is in [0, 1] and ascends
      with time; without one no report is emitted. */
  lemma MixProgress(ln: real -> real, num: real -> string, s: NativeState, tracks: seq<MixTrack>,
                    onProgress: bool, cacheDir: string, now: nat, exec: string -> Exec)
    requires UsableLog(ln) && ValidTracks(tracks) && |tracks| > 0
    ensures var m := Mix(ln, num, s, Some(tracks), onProgress, cacheDir, now, exec);
      var e := exec(MixCommand(ln, num, tracks, cacheDir, now));
      && (!onProgress ==> m.reports == [])
      && (onProgress && e.Executed? ==> m.reports == Feed(0.0, e.samples).reports)
      && (onProgress && e.Executed? && NonNegative(e.samples) ==>
            forall i :: 0 <= i < |m.reports| ==> 0.0 <= m.reports[i].ratio <= 1.0)
      && (onProgress && e.Executed? && NonNegative(e.samples) && Ascending(e.samples) ==>
            RatiosAscending(m.reports))
  {
    MixReports(ln, num, s, tracks, onProgress, cacheDir, now, exec);
    var e := exec(MixCommand(ln, num, tracks, cacheDir, now));
    if onProgress && e.Executed? && NonNegative(e.samples) {
      FeedRatiosInRange(0.0, e.samples);
      if Ascending(e.samples) {
        FeedRatiosAscending(0.0, e.samples);
      }
    }
  }

  /** A path without spaces keeps none after stripping. */
  lemma UriToPathNoSpace(uri: string)
    requires ' ' !in uri
    ensures ' ' !in UriToPath(uri)
  {
    if FilePrefix <= uri {
      assert forall k :: 0 <= k < |uri| - 7 ==> UriToPath(uri)[k] == uri[k + 7];
    }
  }

  /** When the cache directory and the track URIs hold no spaces, the command
      line cuts at spaces into exactly the web variant's arguments over the
      tracks' paths, with the stripped output path as the last token. */
  lemma MixCommandTokens(ln: real -> real, num: real -> string, tracks: seq<MixTrack>, cacheDir: string, now: nat)
    requires UsableLog(ln) && ValidTracks(tracks) && NumberText(num)
    requires ' ' !in cacheDir
    requires forall i :: 0 <= i < |tracks| ==> ' ' !in tracks[i].uri
    ensures var out := UriToPath(OutputPath(cacheDir, now));
      var args := Split(MixCommand(ln, num, tracks, cacheDir, now), ' ');
      && args == WebMixCommand(ln, num, tracks, InputPaths(tracks), out)
      && args[|args| - 1] == out
  {
    var paths := InputPaths(tracks);
    forall i | 0 <= i < |paths|
      ensures ' ' !in paths[i]
    {
      UriToPathNoSpace(tracks[i].uri);
    }
    NatToStringExcludes(now, ' ');
    UriToPathNoSpace(OutputPath(cacheDir, now));
    NativeCommandIsSpaceJoined(ln, num, tracks, paths, UriToPath(OutputPath(cacheDir, now)));
  }

  /** After a `cancel` that FFmpegKit accepted, a second one asks for nothing
      and changes nothing. After one it rejected, the session id is still
      set, so the second asks FFmpegKit again for the same session. */
  lemma CancelTwice(s: NativeState, first: Option<string>, second: Option<string>)
    ensures var c := Cancel(s, first);
      && (c.error.None? ==> Cancel(c.state, second) == Cancelled(c.state, None, None))
      && (c.error.Some? ==> Cancel(c.state, second).asked == s.sessionId && s.sessionId.Some?)
  {
  }

  /** The session id outlives the mix that set it: cancelling after a mix
      has finished, even a successful one, still cancels that session. */
  lemma CancelAfterMixTargetsItsSession(ln: real -> real, num: real -> string, s: NativeState, tracks: seq<MixTrack>,
                                        onProgress: bool, cacheDir: string, now: nat, exec: string -> Exec, id: int,
                                        kit: Option<string>)
    requires UsableLog(ln) && ValidTracks(tracks) && |tracks| > 0
    requires exec(MixCommand(ln, num, tracks, cacheDir, now)).Executed?
    requires exec(MixCommand(ln, num, tracks, cacheDir, now)).id == id
    ensures Cancel(Mix(ln, num, s, Some(tracks), onProgress, cacheDir, now, exec).state, kit).asked == Some(id)
  {
  }
}
