/** The legacy Android track-row adapter. Its two copies in the repository
    (the root project and the `app` module) carry the same mapping from seek
    bar progress to volume and playback speed, the same row binding and the
    same item count, so they are modelled once.

    `Math.log` is the same abstract `ln` as in the gain mapper; Java's
    `"%.2f"` is round-half-up to hundredths with a `.` separator, and the
    float arithmetic around it is exact here. */
module SoundControls {
  import opened Text
  import opened Numbers
  import opened Outcomes
  import opened Gain
  import SpeedSlider

  /** `Build.VERSION_CODES.M`. */
  const Marshmallow: int := 23

  /** What a volume change does to the row's text and its player. */
  datatype VolumeUpdate =
    | Mute
    | Level(text: string, gain: real)
    /** Progress at or beyond 100: the logarithm of a non-positive number,
        which Java turns into an infinite or undefined gain. */
    | OffCurve(text: string)

  /** The volume branch of `onProgressChanged`. */
  function OnVolumeProgress(ln: real -> real, progress: int): (u: VolumeUpdate)
    requires UsableLog(ln)
    ensures u.Mute? <==> progress <= 0
    ensures u.Level? <==> 0 < progress < MaxVolume
    ensures !u.Mute? ==> u.text == NatToString(progress)
  {
    if progress <= 0 then Mute
    else if progress < MaxVolume then Level(NatToString(progress), LogCurve(ln, progress))
    else OffCurve(NatToString(progress))
  }

  /** Within the curve's range the adapter's gain is the web mixer's: the
      adapter applies the log curve unclamped, the mixer clamps it, and where
      the curve lies in [0, 1] the two coincide. */
  lemma AdapterGainMatchesMixer(ln: real -> real, progress: int)
    requires UsableLog(ln) && 0 < progress < MaxVolume
    requires 0.0 <= LogCurve(ln, progress) <= 1.0
    ensures OnVolumeProgress(ln, progress).gain == VolumeMultiplier(ln, progress)
  {
    GainClampsAdapterCurve(ln, progress);
  }

  /** A silent bar mutes in both: the adapter sets volume (0, 0) and the
      mixer's gain for 0 is 0. */
  lemma MutedEverywhere(ln: real -> real)
    requires UsableLog(ln)
    ensures OnVolumeProgress(ln, 0) == Mute && VolumeMultiplier(ln, 0) == 0.0
  {
  }

  /** What a speed change does: nothing, or a text shown and a playback
      speed in hundredths applied. */
  datatype SpeedUpdate = Unchanged | Speed(text: string, playback: nat)

  const OverriddenText: string := "2.44"
  const OverrideText: string := "2.50"

  /** The speed branch of `onProgressChanged` on a device at SDK level
      `sdk`: progress / 41 formatted with two decimals, that text parsed back
      as the playback speed, and "2.44" shown as "2.50". */
  function OnSpeedProgress(progress: int, sdk: int): (u: SpeedUpdate)
    ensures u.Speed? <==> progress > 2 && sdk >= Marshmallow
    ensures u.Speed? ==> |u.text| >= 4
    ensures u.Speed? ==> -0.005 < u.playback as real / 100.0 - progress as real / 41.0 <= 0.005
    ensures u.Speed? && u.text != OverrideText ==> ParseFixed2(u.text) == u.playback
  {
    if progress > 2 && sdk >= Marshmallow then
      var h := Round2(progress as real / 41.0);
      var formatted := ToFixed2(h);
      ParseFixed2ToFixed2(h);
      Speed(if formatted == OverriddenText then OverrideText else formatted, h)
    else Unchanged
  }

  lemma Text244()
    ensures ToFixed2(244) == OverriddenText
  {
    assert NatToString(2) == "2";
  }

  /** Across the seek bar's positions 3..102 the override fires at exactly
      one position, 100: it shows "2.50" there while playing at 2.44, and
      everywhere else the text shown is the speed played. */
  lemma OverrideOnlyAtHundred(progress: int, sdk: int)
    requires SpeedSlider.SpeedMin <= progress <= SpeedSlider.SpeedMax && sdk >= Marshmallow
    ensures var u := OnSpeedProgress(progress, sdk);
      && (u.text == OverrideText <==> progress == 100)
      && (progress == 100 ==> u.playback == 244)
      && (progress != 100 ==> ParseFixed2(u.text) == u.playback)
  {
    var h := Round2(progress as real / 41.0);
    Text244();
    ToFixed2Injective(h, 244);
    ParseFixed2ToFixed2(h);
    if h == 244 {
      assert 24350.0 <= 10000.0 * progress as real / 41.0 < 24450.0;
      assert progress == 100;
    }
    if progress == 100 {
      assert h == 244;
    } else if ToFixed2(h) == OverrideText {
      assert false;
    }
  }

  /** The adapter and the new speed slider label every position alike except
      100, where only the adapter shows "2.50". */
  lemma AdapterAgreesWithSlider(progress: int)
    requires SpeedSlider.SpeedMin <= progress <= SpeedSlider.SpeedMax && progress != 100
    ensures "Speed: " + OnSpeedProgress(progress, Marshmallow).text + "x" ==
            SpeedSlider.SpeedLabel(SpeedSlider.SliderValueToSpeed(progress))
  {
    OverrideOnlyAtHundred(progress, Marshmallow);
  }

  /** What one `onProgressChanged` does: it first reports the row's
      position to the listener, then applies the change of the bar it came
      from, the volume bar or the speed bar. */
  datatype ProgressChange = ProgressChange(reported: int, volume: Option<VolumeUpdate>, speed: SpeedUpdate)

  /** `onProgressChanged` on the bar tagged `tag` of the row at `position`. */
  function OnProgressChanged(ln: real -> real, tag: string, position: int, progress: int, sdk: int): (c: ProgressChange)
    requires UsableLog(ln)
    ensures c.reported == position
    ensures c.volume.Some? <==> tag == "volume"
    ensures c.volume.Some? ==> c.volume.value == OnVolumeProgress(ln, progress)
    ensures c.speed.Speed? ==> tag == "speed" && c.speed == OnSpeedProgress(progress, sdk)
    ensures tag == "speed" ==> c.speed == OnSpeedProgress(progress, sdk)
  {
    ProgressChange(position,
                   if tag == "volume" then Some(OnVolumeProgress(ln, progress)) else None,
                   if tag == "speed" then OnSpeedProgress(progress, sdk) else Unchanged)
  }

  /** Every bar movement, like every click, reports the row's position
      before anything else; a movement of a bar that is neither the volume
      nor the speed bar does nothing more. */
  lemma ProgressReportsPositionLikeClick(ln: real -> real, tag: string, position: int, progress: int, sdk: int,
                                         button: string, looping: bool)
    requires UsableLog(ln)
    ensures OnProgressChanged(ln, tag, position, progress, sdk).reported == OnClick(button, position, looping)[0].position
    ensures tag != "volume" && tag != "speed" ==>
      OnProgressChanged(ln, tag, position, progress, sdk) == ProgressChange(position, None, Unchanged)
  {
  }

  /** How `onBindViewHolder` leaves a row. */
  datatype Row = Row(volumeProgress: int, speedProgress: int, title: string, speedBarVisible: bool)

  function OnBind(position: int, sdk: int): (r: Row)
    ensures r.volumeProgress == MaxVolume
    ensures r.speedProgress == 41
    ensures r.speedBarVisible <==> sdk > Marshmallow
    ensures |r.title| >= 7 && r.title[..6] == "Track " && r.title[6..] == IntToString(position)
  {
    var title := "Track " + IntToString(position);
    assert title[6..] == IntToString(position);
    Row(MaxVolume, 41, title, sdk > Marshmallow)
  }

  /** A freshly bound row's speed bar stands for normal speed: moving it to
      its bound position plays at 1.00 and shows "1.00". */
  lemma BoundSpeedIsNormal(position: int, sdk: int)
    requires sdk >= Marshmallow
    ensures OnSpeedProgress(OnBind(position, sdk).speedProgress, sdk) == Speed("1.00", 100)
    ensures SpeedSlider.SliderValueToSpeed(OnBind(position, sdk).speedProgress) == 1.0
  {
    assert Round2(41.0 / 41.0) == 100;
    assert ToFixed2(100) == "1.00" by {
      assert NatToString(1) == "1";
    }
  }

  /** A visible speed bar always takes effect; at SDK level 23 itself the
      bar is hidden although the handler would still apply it. */
  lemma VisibleSpeedBarApplies(position: int, sdk: int, progress: int)
    requires progress > 2
    ensures OnBind(position, sdk).speedBarVisible ==> OnSpeedProgress(progress, sdk).Speed?
    ensures !OnBind(position, Marshmallow).speedBarVisible && OnSpeedProgress(progress, Marshmallow).Speed?
  {
  }

  /** Rows of different positions get different titles. */
  lemma TitlesDistinct(a: nat, b: nat)
    ensures OnBind(a, Marshmallow).title == OnBind(b, Marshmallow).title <==> a == b
  {
    if OnBind(a, Marshmallow).title == OnBind(b, Marshmallow).title {
      NatToStringInjective(a, b);
    }
  }

  /** `getItemCount()`: 0 for a missing list, else its size. */
  function ItemCount<T>(list: Option<seq<T>>): (n: nat)
    ensures list.None? ==> n == 0
    ensures list.Some? ==> n == |list.value|
  {
    match list
    case None => 0
    case Some(items) => |items|
  }

  /** What a click does, in order. */
  datatype Action =
    | ReportPosition(position: int)
    | SetLooping
    | Start
    | Pause
    | DeleteRequested(position: int)

  /** `onClick` on the button tagged `tag` in the row at `position`, whose
      player is looping or not. */
  function OnClick(tag: string, position: int, looping: bool): (actions: seq<Action>)
    ensures |actions| >= 1 && actions[0] == ReportPosition(position)
    ensures DeleteRequested(position) in actions <==> tag == "delete"
    ensures Start in actions <==> tag == "play"
    ensures SetLooping in actions <==> tag == "play" && !looping
    ensures Pause in actions <==> tag == "pause"
  {
    [ReportPosition(position)]
    + (if tag == "play" then (if !looping then [SetLooping] else []) + [Start] else [])
    + (if tag == "pause" then [Pause] else [])
    + (if tag == "delete" then [DeleteRequested(position)] else [])
  }

  /** Whether the player loops after a click's actions. */
  function LoopingAfter(actions: seq<Action>, looping: bool): bool
    decreases |actions|
  {
    if |actions| == 0 then looping
    else LoopingAfter(actions[1..], looping || actions[0] == SetLooping)
  }

  /** Once `play` has run, the player is looping whether or not it was, and
      it is started only after that. */
  lemma {:induction false} PlayLoops(position: int, looping: bool)
    ensures var actions := OnClick("play", position, looping);
      && LoopingAfter(actions, looping)
      && actions[|actions| - 1] == Start
  {
    var actions := OnClick("play", position, looping);
    if looping {
      assert actions == [ReportPosition(position), Start];
      assert LoopingAfter(actions[1..], looping);
    } else {
      assert actions == [ReportPosition(position), SetLooping, Start];
      assert LoopingAfter(actions[2..], true);
    }
  }

  /** Delete hands the row's own position to the listener, once. */
  lemma DeleteForwardsPosition(position: int, looping: bool)
    ensures OnClick("delete", position, looping) == [ReportPosition(position), DeleteRequested(position)]
  {
  }
}
