/** The WebAssembly variant of the FFmpeg service: the `load` state machine
    (loaded / loading / failed-and-retryable), `isReady`, and `mix` as one
    sequential step over the instance's virtual file system.

    The FFmpeg runtime is not modelled: fetching a track, running FFmpeg and
    the outcome of `ffmpeg.load()` are inputs of the step (`WebEnv`,
    `LoadOutcome`). A file's contents are an opaque byte sequence. */
module WebService {
  import opened Text
  import opened Outcomes
  import opened Gain
  import opened FilterGraph
  import MixingProgress

  type Bytes = seq<int>

  /** Identifies a caller's `onProgress` function. */
  type Callback = int

  /** The service's fields: whether an FFmpeg instance exists, the two load
      flags, the instance's virtual file system, and the `onProgress` its
      `setProgress` handler forwards to, if one was ever installed. */
  datatype WebState = WebState(instance: bool, loaded: bool, loading: bool, files: map<string, Bytes>,
                               handler: Option<Callback>)

  /** A freshly constructed service. */
  const Initial: WebState := WebState(false, false, false, map[], None)

  /** The new state after a step, and what the call returned or threw. */
  datatype Done<+T> = Done(state: WebState, result: Result<T>)

  /** The flag combinations the service can reach. */
  predicate Consistent(s: WebState) {
    (s.loaded ==> s.instance) && !(s.loaded && s.loading)
  }

  /** `isReady()`. */
  function IsReady(s: WebState): bool {
    s.loaded && s.instance
  }

  const AlreadyLoading: AudioError :=
    AudioError(MixingFailed, "FFmpeg is already loading", "Please wait for FFmpeg to finish loading")

  const NotInitialized: AudioError :=
    AudioError(MixingFailed, "FFmpeg not initialized", "FFmpeg is not ready")

  function LoadFailure(cause: string): (e: AudioError)
    ensures e.code == MixingFailed
    ensures e.message == "Failed to load FFmpeg: " + cause
  {
    AudioError(MixingFailed, "Failed to load FFmpeg: " + cause,
               "FFmpeg could not be initialized. Your browser may not support WebAssembly.")
  }

  // ---------------------------------------------------------------------
  // load

  /** How `ffmpeg.load()` settles. */
  datatype LoadOutcome = LoadOk | LoadFailed(message: string)

  /** The synchronous part of `load`, up to the `await`. */
  datatype LoadStart = AlreadyLoaded | Refused(error: AudioError) | Started(state: WebState)

  function BeginLoad(s: WebState): (r: LoadStart)
    ensures r.AlreadyLoaded? <==> s.loaded
    ensures r.Refused? <==> !s.loaded && s.loading
    ensures r.Refused? ==> r.error == AlreadyLoading
    ensures r.Started? ==> r.state.instance && r.state.loading && !r.state.loaded && r.state.files == map[]
    ensures r.Started? ==> r.state.handler.None?
  {
    if s.loaded then AlreadyLoaded
    else if s.loading then Refused(AlreadyLoading)
    else Started(WebState(true, false, true, map[], None))
  }

  /** The part of `load` after `ffmpeg.load()` settles; it resumes the state
      `BeginLoad` left. */
  function FinishLoad(s: WebState, outcome: LoadOutcome): (d: Done<()>)
    requires s.instance && s.loading && !s.loaded
    ensures !d.state.loading && d.state.instance == s.instance && d.state.files == s.files
    ensures d.result.Ok? <==> outcome.LoadOk?
    ensures d.state.loaded <==> outcome.LoadOk?
    ensures outcome.LoadFailed? ==> d.result.error == LoadFailure(outcome.message)
  {
    match outcome
    case LoadOk => Done(s.(loaded := true, loading := false), Ok(()))
    case LoadFailed(m) => Done(s.(loading := false), Err(LoadFailure(m)))
  }

  /** `load()` run to completion without another call in between. */
  function Load(s: WebState, outcome: LoadOutcome): Done<()> {
    match BeginLoad(s)
    case AlreadyLoaded => Done(s, Ok(()))
    case Refused(e) => Done(s, Err(e))
    case Started(t) => FinishLoad(t, outcome)
  }

  /** `ensureLoaded()`. */
  function EnsureLoaded(s: WebState, outcome: LoadOutcome): Done<()> {
    if s.loaded then Done(s, Ok(())) else Load(s, outcome)
  }

  /** Loading an already-loaded service changes nothing and succeeds. */
  lemma LoadWhenLoaded(s: WebState, outcome: LoadOutcome)
    requires s.loaded
    ensures Load(s, outcome) == Done(s, Ok(()))
    ensures EnsureLoaded(s, outcome) == Load(s, outcome)
  {
  }

  /** A second `load` issued while the first is awaiting is refused and
      leaves the state as it is. */
  lemma LoadWhileLoadingRefused(s: WebState, second: LoadOutcome)
    requires BeginLoad(s).Started?
    ensures var t := BeginLoad(s).state;
      Load(t, second) == Done(t, Err(AlreadyLoading))
  {
  }

  /** Every load step keeps the flags consistent. */
  lemma LoadKeepsConsistent(s: WebState, outcome: LoadOutcome)
    requires Consistent(s)
    ensures BeginLoad(s).Started? ==> Consistent(BeginLoad(s).state)
    ensures BeginLoad(s).Started? ==> Consistent(FinishLoad(BeginLoad(s).state, outcome).state)
    ensures Consistent(Load(s, outcome).state)
    ensures Consistent(EnsureLoaded(s, outcome).state)
  {
  }

  /** A failed load leaves the service neither loaded nor loading, so a later
      attempt starts afresh and, if it succeeds, leaves the service ready. */
  lemma FailedLoadCanBeRetried(s: WebState, cause: string)
    requires Consistent(s) && !s.loaded && !s.loading
    ensures var t := Load(s, LoadFailed(cause)).state;
      && !t.loaded && !t.loading && !IsReady(t)
      && BeginLoad(t).Started?
      && Load(t, LoadOk).result.Ok? && IsReady(Load(t, LoadOk).state)
  {
  }

  /** Within consistent states readiness is exactly the loaded flag. */
  lemma ReadyIsLoaded(s: WebState)
    requires Consistent(s)
    ensures IsReady(s) <==> s.loaded
  {
  }

  /** After `ensureLoaded` succeeds the service is ready; it fails only with
      the refusal of a second concurrent load or with a load error. */
  lemma EnsureLoadedReady(s: WebState, outcome: LoadOutcome)
    requires Consistent(s)
    ensures var d := EnsureLoaded(s, outcome);
      && (d.result.Ok? <==> IsReady(d.state))
      && (d.result.Err? && s.loading ==> d.result.error == AlreadyLoading && d.state == s)
      && (d.result.Err? && !s.loading ==> outcome.LoadFailed? && d.result.error == LoadFailure(outcome.message))
  {
  }

  // ---------------------------------------------------------------------
  // mix

  /** What `fetchFile(uri)` yields. */
  datatype Fetch = Fetched(data: Bytes) | FetchFailed(message: string)

  /** What `ffmpeg.run(...)` does: it finishes or fails, in either case
      having written `output.mp3` or not (`-y` opens the output before the
      encoding can fail). */
  datatype Run = Ran(output: Option<Bytes>) | RunFailed(message: string, written: Option<Bytes>)

  /** A run that failed after it had written `output.mp3`. */
  predicate FailedAfterWriting(run: Run) {
    run.RunFailed? && run.written.Some?
  }

  /** The foreign calls of one `mix`: fetching by URI, running a command, and
      the message `FS('readFile')` throws for a missing file. */
  datatype WebEnv = WebEnv(fetch: string -> Fetch, run: seq<string> -> Run, readError: string)

  /** The decoded mix result, a `Blob` of type `audio/mpeg`. */
  datatype Blob = Blob(data: Bytes, mime: string)

  const OutputName: string := "output.mp3"

  /** `input${i}.mp3`, the staging name of track i. */
  function InputName(i: nat): (name: string)
    ensures |name| >= 10
    ensures name[..5] == "input" && name[|name| - 4..] == ".mp3"
    ensures ParseNat(name[5..|name| - 4]) == i
  {
    var name := "input" + NatToString(i) + ".mp3";
    assert name[5..|name| - 4] == NatToString(i);
    ParseNatToString(i);
    name
  }

  /** Distinct tracks are staged under distinct names, none of them the
      output name. */
  lemma InputNamesDistinct(a: nat, b: nat)
    ensures InputName(a) == InputName(b) <==> a == b
    ensures InputName(a) != OutputName
  {
    var x, y := InputName(a), InputName(b);
    assert x[0] == 'i' && OutputName[0] == 'o';
    if x == y {
      assert x[5..|x| - 4] == NatToString(a);
      assert y[5..|y| - 4] == NatToString(b);
      NatToStringInjective(a, b);
    }
  }

  // The ensures only hand the element-wise view to the verifier; they carry no property.
  function InputNames(n: nat): (names: seq<string>)
    ensures |names| == n
    ensures forall i :: 0 <= i < n ==> names[i] == InputName(i)
  {
    seq(n, i requires 0 <= i < n => InputName(i))
  }

  /** A name is one of the first n staging names. */
  predicate IsStaged(name: string, n: nat) {
    exists i :: 0 <= i < n && InputName(i) == name
  }

  /** The file system after staging: how many tracks were written, and the
      message of the first fetch that failed, if one did. */
  datatype Staged = Staged(files: map<string, Bytes>, count: nat, failure: Option<string>)

  /** The staging loop from track i on: each track is fetched and written
      under its staging name, and the first failed fetch ends the loop. */
  function StageFrom(files: map<string, Bytes>, tracks: seq<MixTrack>, fetch: string -> Fetch, i: nat): (r: Staged)
    requires i <= |tracks|
    ensures i <= r.count <= |tracks|
    ensures r.failure.None? <==> r.count == |tracks|
    ensures r.failure.Some? ==> fetch(tracks[r.count].uri) == FetchFailed(r.failure.value)
    ensures forall j :: i <= j < r.count ==> fetch(tracks[j].uri).Fetched?
    decreases |tracks| - i
  {
    if i == |tracks| then Staged(files, i, None)
    else
      match fetch(tracks[i].uri)
      case FetchFailed(m) => Staged(files, i, Some(m))
      case Fetched(data) => StageFrom(files[InputName(i) := data], tracks, fetch, i + 1)
  }

  /** Staging writes each fetched track under its own name and touches no
      other file. */
  lemma StageFromFiles(files: map<string, Bytes>, tracks: seq<MixTrack>, fetch: string -> Fetch,
                       i: nat, name: string)
    requires i <= |tracks|
    ensures var r := StageFrom(files, tracks, fetch, i);
      forall j :: i <= j < r.count ==>
        InputName(j) in r.files && r.files[InputName(j)] == fetch(tracks[j].uri).data
    ensures var r := StageFrom(files, tracks, fetch, i);
      (forall j :: i <= j < r.count ==> InputName(j) != name) ==>
        (name in r.files <==> name in files) && (name in files ==> r.files[name] == files[name])
  {
    StageFromWrites(files, tracks, fetch, i);
    StageFromKeeps(files, tracks, fetch, i, name);
  }

  lemma {:induction false} StageFromWrites(files: map<string, Bytes>, tracks: seq<MixTrack>, fetch: string -> Fetch, i: nat)
    requires i <= |tracks|
    ensures var r := StageFrom(files, tracks, fetch, i);
      forall j :: i <= j < r.count ==>
        InputName(j) in r.files && r.files[InputName(j)] == fetch(tracks[j].uri).data
    decreases |tracks| - i
  {
    if i < |tracks| && fetch(tracks[i].uri).Fetched? {
      var data := fetch(tracks[i].uri).data;
      var r := StageFrom(files, tracks, fetch, i);
      StageFromWrites(files[InputName(i) := data], tracks, fetch, i + 1);
      StageFromKeeps(files[InputName(i) := data], tracks, fetch, i + 1, InputName(i));
      forall j | i + 1 <= j < r.count
        ensures InputName(j) != InputName(i)
      {
        InputNamesDistinct(j, i);
      }
    }
  }

  lemma {:induction false} StageFromKeeps(files: map<string, Bytes>, tracks: seq<MixTrack>, fetch: string -> Fetch,
                                          i: nat, name: string)
    requires i <= |tracks|
    ensures var r := StageFrom(files, tracks, fetch, i);
      (forall j :: i <= j < r.count ==> InputName(j) != name) ==>
        (name in r.files <==> name in files) && (name in files ==> r.files[name] == files[name])
    decreases |tracks| - i
  {
    if i < |tracks| && fetch(tracks[i].uri).Fetched? {
      StageFromKeeps(files[InputName(i) := fetch(tracks[i].uri).data], tracks, fetch, i + 1, name);
    }
  }

  /** The files left after a successful mix: every staged input and the
      output removed, all else kept. */
  function Unlink(files: map<string, Bytes>, n: nat): (r: map<string, Bytes>)
    ensures forall name :: name in r <==> name in files && !IsStaged(name, n) && name != OutputName
    ensures forall name :: name in r ==> r[name] == files[name]
  {
    map name | name in files && !IsStaged(name, n) && name != OutputName :: files[name]
  }

  /** What follows `ffmpeg.run` once all n inputs are staged in `files`:
      reading `output.mp3`, then unlinking. */
  function AfterRun(s: WebState, files: map<string, Bytes>, n: nat, run: Run, readError: string): (d: Done<Blob>)
    ensures run.RunFailed? ==> d.result == Err(MixFailure(run.message))
    ensures run.RunFailed? ==> forall name :: name != OutputName ==>
      (name in d.state.files <==> name in files) && (name in files ==> d.state.files[name] == files[name])
    ensures FailedAfterWriting(run) ==> OutputName in d.state.files && d.state.files[OutputName] == run.written.value
    ensures run.RunFailed? && run.written.None? ==> d.state.files == files
    ensures d.result.Ok? <==> run.Ran? && (run.output.Some? || OutputName in files)
    ensures d.result.Ok? ==> d.result.value.mime == "audio/mpeg"
    ensures run == Ran(None) && OutputName !in files ==>
      d == Done(s.(files := files), Err(MixFailure(readError)))
    ensures d.state == s.(files := d.state.files)
    ensures OutputName !in files && OutputName in d.state.files ==> FailedAfterWriting(run)
    ensures d.result.Ok? ==> forall name :: name in d.state.files <==>
      name in files && !IsStaged(name, n) && name != OutputName
    ensures d.result.Ok? && run.output.Some? ==> d.result.value.data == run.output.value
  {
    match run
    case RunFailed(m, written) =>
      Done(s.(files := if written.Some? then files[OutputName := written.value] else files), Err(MixFailure(m)))
    case Ran(output) =>
      var written := if output.Some? then files[OutputName := output.value] else files;
      if OutputName !in written then Done(s.(files := written), Err(MixFailure(readError)))
      else Done(s.(files := Unlink(written, n)), Ok(Blob(written[OutputName], "audio/mpeg")))
  }

  /** Every track's fetch succeeds. */
  predicate AllFetched(tracks: seq<MixTrack>, fetch: string -> Fetch) {
    forall i :: 0 <= i < |tracks| ==> fetch(tracks[i].uri).Fetched?
  }

  /** The body of `mix` past its checks, on a loaded service and a non-empty
      track list. A given `onProgress` is installed as the `setProgress`
      handler once every track is staged, just before the run. */
  function MixTracks(ln: real -> real, num: real -> string, s: WebState, tracks: seq<MixTrack>,
                     onProgress: Option<Callback>, env: WebEnv): (d: Done<Blob>)
    requires UsableLog(ln) && ValidTracks(tracks)
    ensures d.state == s.(files := d.state.files, handler := d.state.handler)
  {
    var staged := StageFrom(s.files, tracks, env.fetch, 0);
    if staged.failure.Some? then Done(s.(files := staged.files), Err(MixFailure(staged.failure.value)))
    else
      var running := if onProgress.Some? then s.(handler := onProgress) else s;
      AfterRun(running, staged.files, |tracks|, env.run(WebMixCommand(ln, num, tracks, InputNames(|tracks|), OutputName)), env.readError)
  }

  /** `mix(options)`: the load outcome is used only if the service still has
      to load. */
  function Mix(ln: real -> real, num: real -> string, s: WebState, tracks: Option<seq<MixTrack>>,
               onProgress: Option<Callback>, load: LoadOutcome, env: WebEnv): Done<Blob>
    requires UsableLog(ln)
    requires tracks.Some? ==> ValidTracks(tracks.value)
  {
    var loaded := EnsureLoaded(s, load);
    if loaded.result.Err? then Done(loaded.state, Err(loaded.result.error))
    else if tracks.None? || |tracks.value| == 0 then Done(loaded.state, Err(NoTracks))
    else if !loaded.state.instance then Done(loaded.state, Err(NotInitialized))
    else MixTracks(ln, num, loaded.state, tracks.value, onProgress, env)
  }

  /** `mix` loads first: when the load fails its error is what the caller
      sees, even for an empty track list, and no file is staged. */
  lemma MixLoadsFirst(ln: real -> real, num: real -> string, s: WebState, tracks: Option<seq<MixTrack>>,
                      onProgress: Option<Callback>, cause: string, env: WebEnv)
    requires UsableLog(ln)
    requires tracks.Some? ==> ValidTracks(tracks.value)
    requires Consistent(s) && !s.loaded && !s.loading
    ensures var d := Mix(ln, num, s, tracks, onProgress, LoadFailed(cause), env);
      d.result == Err(LoadFailure(cause)) && d.state.files == map[] && !IsReady(d.state)
  {
  }

  /** A missing or empty track list is refused once loading succeeded, before
      any file is staged. */
  lemma MixWithoutTracks(ln: real -> real, num: real -> string, s: WebState, tracks: Option<seq<MixTrack>>,
                         onProgress: Option<Callback>, load: LoadOutcome, env: WebEnv)
    requires UsableLog(ln)
    requires tracks.None? || tracks.value == []
    requires EnsureLoaded(s, load).result.Ok?
    ensures var d := Mix(ln, num, s, tracks, onProgress, load, env);
      d.result == Err(NoTracks) && d.state == EnsureLoaded(s, load).state
  {
  }

  /** Every `mix` keeps the flags consistent, and a consistent service is
      never refused as uninitialised. */
  lemma MixKeepsConsistent(ln: real -> real, num: real -> string, s: WebState, tracks: Option<seq<MixTrack>>,
                           onProgress: Option<Callback>, load: LoadOutcome, env: WebEnv)
    requires UsableLog(ln)
    requires tracks.Some? ==> ValidTracks(tracks.value)
    requires Consistent(s)
    ensures Consistent(Mix(ln, num, s, tracks, onProgress, load, env).state)
    ensures Mix(ln, num, s, tracks, onProgress, load, env).result != Err(NotInitialized)
  {
    LoadKeepsConsistent(s, load);
    EnsureLoadedReady(s, load);
  }

  /** Past its checks `mix` is `MixTracks` on the loaded state. */
  lemma MixIsMixTracks(ln: real -> real, num: real -> string, s: WebState, tracks: seq<MixTrack>,
                       onProgress: Option<Callback>, load: LoadOutcome, env: WebEnv)
    requires UsableLog(ln) && ValidTracks(tracks) && |tracks| > 0
    requires Consistent(s) && EnsureLoaded(s, load).result.Ok?
    ensures Mix(ln, num, s, Some(tracks), onProgress, load, env)
            == MixTracks(ln, num, EnsureLoaded(s, load).state, tracks, onProgress, env)
  {
    EnsureLoadedReady(s, load);
  }

  /** A successful mix staged every track, ran the command built from the
      tracks over their staging names, returns what that run wrote, and
      removes every staged input and the output while keeping every other
      file. */
  lemma MixTracksSuccess(ln: real -> real, num: real -> string, s: WebState, tracks: seq<MixTrack>,
                         onProgress: Option<Callback>, env: WebEnv)
    requires UsableLog(ln) && ValidTracks(tracks)
    requires OutputName !in s.files
    requires MixTracks(ln, num, s, tracks, onProgress, env).result.Ok?
    ensures var d := MixTracks(ln, num, s, tracks, onProgress, env);
      && AllFetched(tracks, env.fetch)
      && env.run(WebMixCommand(ln, num, tracks, InputNames(|tracks|), OutputName)) == Ran(Some(d.result.value.data))
      && d.result.value.mime == "audio/mpeg"
      && (forall name :: name in d.state.files <==> name in s.files && !IsStaged(name, |tracks|) && name != OutputName)
  {
    var d := MixTracks(ln, num, s, tracks, onProgress, env);
    var staged := StageFrom(s.files, tracks, env.fetch, 0);
    StageFromFiles(s.files, tracks, env.fetch, 0, OutputName);
    forall j | 0 <= j < |tracks|
      ensures InputName(j) != OutputName
    {
      InputNamesDistinct(j, j);
    }
    forall name | !IsStaged(name, |tracks|)
      ensures name in staged.files <==> name in s.files
    {
      StageFromFiles(s.files, tracks, env.fetch, 0, name);
    }
  }

  /** A mix on a loaded service with an empty file system that succeeds
      leaves the file system empty again. */
  lemma MixSuccessLeavesNoFiles(ln: real -> real, num: real -> string, s: WebState, tracks: seq<MixTrack>,
                                onProgress: Option<Callback>, load: LoadOutcome, env: WebEnv)
    requires UsableLog(ln) && ValidTracks(tracks)
    requires Consistent(s) && s.files == map[]
    requires Mix(ln, num, s, Some(tracks), onProgress, load, env).result.Ok?
    ensures Mix(ln, num, s, Some(tracks), onProgress, load, env).state.files == map[]
  {
    EnsureLoadedReady(s, load);
    MixIsMixTracks(ln, num, s, tracks, onProgress, load, env);
    MixTracksSuccess(ln, num, EnsureLoaded(s, load).state, tracks, onProgress, env);
  }

  /** When FFmpeg itself fails, the error wraps its message and every staged
      input stays in the file system: the web variant cleans up only on
      success. An `output.mp3` the failed run had written stays too. */
  lemma FailedRunLeavesInputs(ln: real -> real, num: real -> string, s: WebState, tracks: seq<MixTrack>,
                              onProgress: Option<Callback>, env: WebEnv, message: string, written: Option<Bytes>)
    requires UsableLog(ln) && ValidTracks(tracks)
    requires AllFetched(tracks, env.fetch)
    requires env.run(WebMixCommand(ln, num, tracks, InputNames(|tracks|), OutputName)) == RunFailed(message, written)
    ensures var d := MixTracks(ln, num, s, tracks, onProgress, env);
      && d.result == Err(MixFailure(message))
      && (forall i :: 0 <= i < |tracks| ==> InputName(i) in d.state.files)
      && (written.Some? ==> OutputName in d.state.files && d.state.files[OutputName] == written.value)
  {
    StagesAll(s.files, tracks, env.fetch);
    MixTracksRuns(ln, num, s, tracks, onProgress, env);
    var running := if onProgress.Some? then s.(handler := onProgress) else s;
    FailedRunKeepsFiles(running, StageFrom(s.files, tracks, env.fetch, 0).files, |tracks|,
                        env.run(WebMixCommand(ln, num, tracks, InputNames(|tracks|), OutputName)), env.readError);
  }

  /** Staging completes exactly when every fetch succeeds, and then every
      track is written. */
  lemma StagesAll(files: map<string, Bytes>, tracks: seq<MixTrack>, fetch: string -> Fetch)
    ensures StageFrom(files, tracks, fetch, 0).failure.None? <==> AllFetched(tracks, fetch)
    ensures AllFetched(tracks, fetch) ==>
      forall i :: 0 <= i < |tracks| ==> InputName(i) in StageFrom(files, tracks, fetch, 0).files
  {
    var staged := StageFrom(files, tracks, fetch, 0);
    assert staged.failure.Some? ==> !fetch(tracks[staged.count].uri).Fetched?;
    StageFromFiles(files, tracks, fetch, 0, "");
  }

  /** With every track staged, `MixTracks` installs the handler and runs. */
  lemma MixTracksRuns(ln: real -> real, num: real -> string, s: WebState, tracks: seq<MixTrack>,
                      onProgress: Option<Callback>, env: WebEnv)
    requires UsableLog(ln) && ValidTracks(tracks)
    requires StageFrom(s.files, tracks, env.fetch, 0).failure.None?
    ensures MixTracks(ln, num, s, tracks, onProgress, env)
            == AfterRun(if onProgress.Some? then s.(handler := onProgress) else s,
                        StageFrom(s.files, tracks, env.fetch, 0).files, |tracks|,
                        env.run(WebMixCommand(ln, num, tracks, InputNames(|tracks|), OutputName)), env.readError)
  {
  }

  /** A failed run removes nothing: every staged input stays, and so does an
      output the run wrote. */
  lemma FailedRunKeepsFiles(s: WebState, files: map<string, Bytes>, n: nat, run: Run, readError: string)
    requires run.RunFailed?
    requires forall i :: 0 <= i < n ==> InputName(i) in files
    ensures var d := AfterRun(s, files, n, run, readError);
      && d.result == Err(MixFailure(run.message))
      && (forall i :: 0 <= i < n ==> InputName(i) in d.state.files)
      && (run.written.Some? ==> OutputName in d.state.files && d.state.files[OutputName] == run.written.value)
  {
    forall i | 0 <= i < n
      ensures InputName(i) != OutputName
    {
      InputNamesDistinct(i, i);
    }
  }

  /** A fetch failure at track k stops staging there: tracks before k are
      staged, track k and the ones after it are not, and the error wraps the
      fetch message. */
  lemma FetchFailureStopsStaging(ln: real -> real, num: real -> string, s: WebState, tracks: seq<MixTrack>,
                                 onProgress: Option<Callback>, env: WebEnv, k: nat, message: string)
    requires UsableLog(ln) && ValidTracks(tracks) && k < |tracks|
    requires forall i :: 0 <= i < k ==> env.fetch(tracks[i].uri).Fetched?
    requires env.fetch(tracks[k].uri) == FetchFailed(message)
    ensures var d := MixTracks(ln, num, s, tracks, onProgress, env);
      && d.result == Err(MixFailure(message))
      && (forall i :: 0 <= i < k ==> InputName(i) in d.state.files)
      && (forall i :: k <= i < |tracks| ==> (InputName(i) in d.state.files <==> InputName(i) in s.files))
  {
    var staged := StageFrom(s.files, tracks, env.fetch, 0);
    StageFromFiles(s.files, tracks, env.fetch, 0, "");
    assert staged.count == k;
    forall i | k <= i < |tracks|
      ensures InputName(i) in staged.files <==> InputName(i) in s.files
    {
      forall j | 0 <= j < k
        ensures InputName(j) != InputName(i)
      {
        InputNamesDistinct(j, i);
      }
      StageFromFiles(s.files, tracks, env.fetch, 0, InputName(i));
    }
  }

  /** `output.mp3` outlives a mix only when FFmpeg failed after writing it:
      if it is absent before, it is absent after on every other path. */
  lemma MixTracksLeavesNoOutput(ln: real -> real, num: real -> string, s: WebState, tracks: seq<MixTrack>,
                                onProgress: Option<Callback>, env: WebEnv)
    requires UsableLog(ln) && ValidTracks(tracks)
    requires OutputName !in s.files
    ensures OutputName in MixTracks(ln, num, s, tracks, onProgress, env).state.files ==>
      AllFetched(tracks, env.fetch) && FailedAfterWriting(env.run(WebMixCommand(ln, num, tracks, InputNames(|tracks|), OutputName)))
  {
    forall j | 0 <= j < |tracks|
      ensures InputName(j) != OutputName
    {
      InputNamesDistinct(j, j);
    }
    StageFromFiles(s.files, tracks, env.fetch, 0, OutputName);
    StagesAll(s.files, tracks, env.fetch);
    if AllFetched(tracks, env.fetch) {
      MixTracksRuns(ln, num, s, tracks, onProgress, env);
    }
  }

  lemma OutputNeverLingers(ln: real -> real, num: real -> string, s: WebState, tracks: Option<seq<MixTrack>>,
                           onProgress: Option<Callback>, load: LoadOutcome, env: WebEnv)
    requires UsableLog(ln)
    requires tracks.Some? ==> ValidTracks(tracks.value)
    requires OutputName !in s.files
    ensures OutputName in Mix(ln, num, s, tracks, onProgress, load, env).state.files ==>
      tracks.Some? && FailedAfterWriting(env.run(WebMixCommand(ln, num, tracks.value, InputNames(|tracks.value|), OutputName)))
  {
    var loaded := EnsureLoaded(s, load);
    assert OutputName !in loaded.state.files;
    if loaded.result.Ok? && tracks.Some? && |tracks.value| > 0 && loaded.state.instance {
      assert Mix(ln, num, s, tracks, onProgress, load, env) == MixTracks(ln, num, loaded.state, tracks.value, onProgress, env);
      MixTracksLeavesNoOutput(ln, num, loaded.state, tracks.value, onProgress, env);
    } else {
      assert Mix(ln, num, s, tracks, onProgress, load, env).state == loaded.state;
    }
  }

  /** The `setProgress` handler changes only when a mix given `onProgress`
      has staged every track; a fresh load starts without one. */
  lemma MixTracksHandler(ln: real -> real, num: real -> string, s: WebState, tracks: seq<MixTrack>,
                         onProgress: Option<Callback>, env: WebEnv)
    requires UsableLog(ln) && ValidTracks(tracks)
    ensures MixTracks(ln, num, s, tracks, onProgress, env).state.handler
            == if onProgress.Some? && AllFetched(tracks, env.fetch) then onProgress else s.handler
  {
    StagesAll(s.files, tracks, env.fetch);
    if AllFetched(tracks, env.fetch) {
      MixTracksRuns(ln, num, s, tracks, onProgress, env);
    }
  }

  /** On a loaded service, a mix given `c` whose fetches all succeed leaves
      `c` installed and the service still loaded. */
  lemma MixInstallsHandler(ln: real -> real, num: real -> string, s: WebState, tracks: seq<MixTrack>, c: Callback,
                           load: LoadOutcome, env: WebEnv)
    requires UsableLog(ln) && ValidTracks(tracks) && |tracks| > 0
    requires Consistent(s) && s.loaded
    requires AllFetched(tracks, env.fetch)
    ensures var t := Mix(ln, num, s, Some(tracks), Some(c), load, env).state;
      t.handler == Some(c) && t.loaded && Consistent(t)
  {
    assert EnsureLoaded(s, load) == Done(s, Ok(()));
    assert Mix(ln, num, s, Some(tracks), Some(c), load, env) == MixTracks(ln, num, s, tracks, Some(c), env);
    MixTracksHandler(ln, num, s, tracks, Some(c), env);
  }

  /** On a loaded service, a mix without `onProgress` leaves the installed
      handler as it is. */
  lemma HandlerSurvivesMix(ln: real -> real, num: real -> string, s: WebState, tracks: Option<seq<MixTrack>>,
                           load: LoadOutcome, env: WebEnv)
    requires UsableLog(ln)
    requires tracks.Some? ==> ValidTracks(tracks.value)
    requires Consistent(s) && s.loaded
    ensures Mix(ln, num, s, tracks, None, load, env).state.handler == s.handler
  {
    assert EnsureLoaded(s, load) == Done(s, Ok(()));
    if tracks.Some? && |tracks.value| > 0 {
      assert Mix(ln, num, s, tracks, None, load, env) == MixTracks(ln, num, s, tracks.value, None, env);
      MixTracksHandler(ln, num, s, tracks.value, None, env);
    }
  }

  /** The handler is never removed: after a mix that installed `c` and ran,
      a later mix on the same loaded service without `onProgress` still
      forwards FFmpeg's progress to `c`. */
  lemma StaleProgressHandler(ln: real -> real, num: real -> string, s: WebState, first: seq<MixTrack>, c: Callback,
                             env: WebEnv, second: Option<seq<MixTrack>>, load: LoadOutcome, env2: WebEnv)
    requires UsableLog(ln) && ValidTracks(first) && |first| > 0
    requires second.Some? ==> ValidTracks(second.value)
    requires Consistent(s) && s.loaded
    requires AllFetched(first, env.fetch)
    ensures var t := Mix(ln, num, s, Some(first), Some(c), load, env).state;
      Mix(ln, num, t, second, None, load, env2).state.handler == Some(c)
  {
    MixInstallsHandler(ln, num, s, first, c, load, env);
    HandlerSurvivesMix(ln, num, Mix(ln, num, s, Some(first), Some(c), load, env).state, second, load, env2);
  }

  // ---------------------------------------------------------------------
  // progress

  /** The `setProgress` handler `mix` installs when it is given `onProgress`:
      FFmpeg's ratio passes through, its time in seconds becomes
      milliseconds, and the duration is always 0. */
  function ForwardProgress(ratio: real, seconds: real): (p: Progress)
    ensures p.ratio == ratio && p.duration == 0.0
    ensures p.time / 1000.0 == seconds
  {
    Progress(ratio, seconds * 1000.0, 0.0)
  }

  /** A forwarded report shown in the progress modal: the time row appears,
      its elapsed time is FFmpeg's whole seconds, and because the duration is
      0 the estimate never leaves "Calculating...". */
  lemma WebEstimateAlwaysCalculating(ratio: real, seconds: real)
    ensures var p := ForwardProgress(ratio, seconds);
      && MixingProgress.EstimateRemaining(p.ratio, Some(p.time), Some(p.duration)) == MixingProgress.Calculating
      && MixingProgress.TimeRow(p.ratio, Some(p.time), Some(p.duration))
         == Some(("Time: " + MixingProgress.FormatTime(p.time), "Remaining: Calculating..."))
      && MixingProgress.WholeSeconds(p.time) == seconds.Floor
  {
    var p := ForwardProgress(ratio, seconds);
    assert MixingProgress.RemainingText(p.ratio, Some(p.time), Some(p.duration)) == "Calculating...";
    assert "Remaining: " + "Calculating..." == "Remaining: Calculating...";
  }
}
