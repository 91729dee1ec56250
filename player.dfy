/**
 * The player arithmetic of main.py's `play_video` (volume stepping, the time
 * label of `update_playback_ui`) and the state kept by test.py's
 * `VideoPlayerApp`: the mute flag and its button label, the progress slider
 * and the time label.
 *
 * VLC is not modelled. Every call the application makes into the media player
 * is recorded, in order, as a `Command`; the player's real mute state is then
 * the parity of the mute toggles sent to it (VLC starts unmuted).
 */
module Player {
  import opened Optional

  // ---------------------------------------------------------------------------
  // Volume stepping in main.py (the Up and Down keys)

  const MaxVolume: int := 200
  const VolumeStep: int := 10

  /** `min(current_volume + 10, 200)`. */
  function VolumeUp(current: int): (v: int)
    ensures v <= MaxVolume && v <= current + VolumeStep
    ensures v == MaxVolume || v == current + VolumeStep
  {
    if current + VolumeStep < MaxVolume then current + VolumeStep else MaxVolume
  }

  /** `max(current_volume - 10, 0)`. */
  function VolumeDown(current: int): (v: int)
    ensures v >= 0 && v >= current - VolumeStep
    ensures v == 0 || v == current - VolumeStep
  {
    if current - VolumeStep > 0 then current - VolumeStep else 0
  }

  /** From any volume in 0..200 both steps stay in 0..200. */
  lemma VolumeStaysInRange(v: int)
    requires 0 <= v <= MaxVolume
    ensures 0 <= VolumeUp(v) <= MaxVolume && 0 <= VolumeDown(v) <= MaxVolume
  {
  }

  /** Up does nothing at 200 and Down does nothing at 0. */
  lemma VolumeFixedAtBounds()
    ensures VolumeUp(MaxVolume) == MaxVolume && VolumeDown(0) == 0
  {
  }

  /** Away from the bounds the two steps undo each other. */
  lemma VolumeStepsInverse(v: int)
    ensures 0 <= v <= MaxVolume - VolumeStep ==> VolumeDown(VolumeUp(v)) == v
    ensures VolumeStep <= v <= MaxVolume ==> VolumeUp(VolumeDown(v)) == v
  {
  }

  // ---------------------------------------------------------------------------
  // Time labels. Python's `//` and `%` floor; with the positive divisors used
  // here that is what Dafny's Euclidean `/` and `%` compute.

  /** `divmod(ms // 1000, 60)`: whole minutes and the seconds left over. */
  function MinSec(ms: int): (r: (int, int))
    ensures 0 <= r.1 < 60
    ensures r.0 * 60 + r.1 == ms / 1000
  {
    var s := ms / 1000;
    (s / 60, s % 60)
  }

  /** Any minutes/seconds split of `ms div 1000` with seconds below 60 is `MinSec`'s. */
  lemma MinSecUnique(ms: int, m: int, s: int)
    requires 0 <= s < 60 && m * 60 + s == ms / 1000
    ensures MinSec(ms) == (m, s)
  {
    var r := MinSec(ms);
    assert (r.0 - m) * 60 == s - r.1;
  }

  function DigitChar(d: nat): char
    requires d < 10
  {
    ('0' as int + d) as char
  }

  predicate IsDigit(c: char) {
    '0' <= c <= '9'
  }

  /** The decimal digits of `n`, most significant first. */
  function Digits(n: nat): (s: string)
    ensures |s| >= 1 && forall i :: 0 <= i < |s| ==> IsDigit(s[i])
  {
    if n < 10 then [DigitChar(n)] else Digits(n / 10) + [DigitChar(n % 10)]
  }

  /** The number a string of decimal digits stands for. */
  function ValueOf(s: string): nat
    requires forall i :: 0 <= i < |s| ==> IsDigit(s[i])
  {
    if s == [] then 0
    else
      var last := s[|s| - 1];
      assert IsDigit(last);
      ValueOf(s[..|s| - 1]) * 10 + (last as int - '0' as int)
  }

  /** Reading back the digits of `n` gives `n`. */
  lemma {:induction false} DigitsRoundTrip(n: nat)
    ensures ValueOf(Digits(n)) == n
  {
    if n >= 10 {
      var s := Digits(n);
      assert s[..|s| - 1] == Digits(n / 10);
      DigitsRoundTrip(n / 10);
    }
  }

  /** `f"{n:02}"`: at least two characters, zero-padded after the sign. */
  function Pad2(n: int): string {
    if n < 0 then "-" + Digits(-n)
    else if n < 10 then "0" + Digits(n)
    else Digits(n)
  }

  /** A non-negative field shows as at least two digits that read back as the number; below 100, exactly two. */
  lemma Pad2RoundTrip(n: int)
    requires n >= 0
    ensures |Pad2(n)| >= 2 && forall i :: 0 <= i < |Pad2(n)| ==> IsDigit(Pad2(n)[i])
    ensures ValueOf(Pad2(n)) == n
    ensures n < 100 ==> |Pad2(n)| == 2
  {
    if n < 10 {
      var p := Pad2(n);
      assert p == ['0', DigitChar(n)];
      assert p[..1] == ['0'];
      assert ValueOf(['0']) == 0 by {
        assert ['0'][..0] == [];
      }
    } else {
      DigitsRoundTrip(n);
      assert |Digits(n)| >= 2;
    }
  }

  /** `f"{m:02}:{s:02}"` for the minutes and seconds of `ms`. */
  function Clock(ms: int): string {
    var (m, s) := MinSec(ms);
    Pad2(m) + ":" + Pad2(s)
  }

  /** A clock reading decodes back: the last two characters are the seconds, the part before ':' the minutes. */
  lemma ClockRoundTrip(ms: int)
    requires ms >= 0
    ensures var c := Clock(ms);
            |c| >= 5 && c[|c| - 3] == ':' &&
            (forall i :: 0 <= i < |c| - 3 ==> IsDigit(c[i])) &&
            (forall i :: |c| - 2 <= i < |c| ==> IsDigit(c[i])) &&
            ValueOf(c[..|c| - 3]) * 60 + ValueOf(c[|c| - 2..]) == ms / 1000 &&
            ValueOf(c[|c| - 2..]) < 60
  {
    var (m, s) := MinSec(ms);
    Pad2RoundTrip(m);
    Pad2RoundTrip(s);
    var c := Clock(ms);
    assert c == Pad2(m) + ":" + Pad2(s);
    assert c[..|c| - 3] == Pad2(m);
    assert c[|c| - 2..] == Pad2(s);
  }

  const ResetLabel: string := "00:00 / 00:00"

  function TimeText(currentMs: int, totalMs: int): string {
    Clock(currentMs) + " / " + Clock(totalMs)
  }

  /** At the start of a video the computed label is the reset label. */
  lemma StartShowsReset(currentMs: int, totalMs: int)
    requires 0 <= currentMs < 1000 && 0 <= totalMs < 1000
    ensures TimeText(currentMs, totalMs) == ResetLabel
  {
    assert MinSec(currentMs) == (0, 0) && MinSec(totalMs) == (0, 0);
    assert Digits(0) == "0";
    assert Pad2(0) == "00";
  }

  /**
   * `update_playback_ui` in main.py: nothing while the player is not
   * playing; otherwise the label for the time and length, or the reset label
   * when the length is not positive.
   */
  function PlaybackLabel(playing: bool, lengthMs: int, currentMs: int): (text: Option<string>)
    ensures !playing <==> text.None?
    ensures playing && lengthMs <= 0 ==> text == Some(ResetLabel)
    ensures playing && lengthMs > 0 ==> text == Some(TimeText(currentMs, lengthMs))
  {
    if !playing then None
    else if lengthMs > 0 then Some(TimeText(currentMs, lengthMs))
    else Some(ResetLabel)
  }

  /** The time label of test.py's `update_progress_bar`: -1 for either time means "unknown". */
  function ProgressLabel(currentMs: int, totalMs: int): (text: string)
    ensures currentMs == -1 || totalMs == -1 ==> text == ResetLabel
    ensures currentMs != -1 && totalMs != -1 ==> text == TimeText(currentMs, totalMs)
  {
    if currentMs != -1 && totalMs != -1 then TimeText(currentMs, totalMs) else ResetLabel
  }

  /** The two players agree whenever main.py's shows a time and test.py's does too. */
  lemma LabelsAgree(lengthMs: int, currentMs: int)
    requires lengthMs > 0 && currentMs != -1
    ensures PlaybackLabel(true, lengthMs, currentMs) == Some(ProgressLabel(currentMs, lengthMs))
  {
  }

  /** A zero length shows the reset label in test.py too, though by computation rather than by the guard. */
  lemma ZeroLengthLabelsAgree(currentMs: int)
    requires 0 <= currentMs < 1000
    ensures PlaybackLabel(true, 0, currentMs) == Some(ProgressLabel(currentMs, 0))
  {
    StartShowsReset(currentMs, 0);
  }

  /** Two decimal digits read back as tens and units. */
  lemma ValueOfTwo(a: char, b: char)
    requires IsDigit(a) && IsDigit(b)
    ensures ValueOf([a, b]) == (a as int - '0' as int) * 10 + (b as int - '0' as int)
  {
    var s := [a, b];
    assert s[..|s| - 1] == [a] && s[|s| - 1] == b;
    assert ValueOf([a]) == a as int - '0' as int by {
      assert [a][..0] == [];
    }
  }

  /** From one second on, the clock no longer reads "00:00". */
  lemma ClockPastFirstSecond(ms: int)
    requires ms >= 1000
    ensures Clock(ms) != "00:00"
  {
    ClockRoundTrip(ms);
    var c := Clock(ms);
    if |c| == 5 {
      assert c[..2] == [c[0], c[1]] && c[3..] == [c[3], c[4]];
      ValueOfTwo(c[0], c[1]);
      ValueOfTwo(c[3], c[4]);
      assert c[0] != '0' || c[1] != '0' || c[3] != '0' || c[4] != '0';
    }
  }

  /**
   * From one second on, a zero length makes the players disagree: main.py's
   * guard shows the reset label, test.py shows the elapsed time.
   */
  lemma ZeroLengthLabelsDisagree(currentMs: int)
    requires currentMs >= 1000
    ensures PlaybackLabel(true, 0, currentMs) != Some(ProgressLabel(currentMs, 0))
  {
    ClockPastFirstSecond(currentMs);
    var c := Clock(currentMs);
    var shown := ProgressLabel(currentMs, 0);
    assert Clock(0) == "00:00" by {
      assert MinSec(0) == (0, 0);
      assert Digits(0) == "0";
      assert Pad2(0) == "00";
    }
    assert shown == c + " / " + "00:00";
    if |c| == 5 {
      assert shown[..5] == c && ResetLabel[..5] == "00:00";
    } else {
      assert |shown| != |ResetLabel|;
    }
  }

  // ---------------------------------------------------------------------------
  // VideoPlayerApp (test.py)

  /** A call into the VLC media player. */
  datatype Command =
    | SetVolume(level: int)
    | SetMedia(path: string)
    | Play
    | Pause
    | Stop
    | ToggleMute
    | SetPosition(fraction: real)

  /** How many mute toggles a command trace sends. */
  function Toggles(commands: seq<Command>): nat {
    if commands == [] then 0
    else Toggles(commands[..|commands| - 1]) + (if commands[|commands| - 1] == ToggleMute then 1 else 0)
  }

  lemma {:induction false} TogglesAppend(a: seq<Command>, b: seq<Command>)
    ensures Toggles(a + b) == Toggles(a) + Toggles(b)
    decreases |b|
  {
    if b == [] {
      assert a + b == a;
    } else {
      var n := |b| - 1;
      assert (a + b)[..|a| + n] == a + b[..n];
      TogglesAppend(a, b[..n]);
    }
  }

  /** `int(value)`: truncation toward zero. */
  function Trunc(x: real): (n: int)
    ensures x >= 0.0 ==> n as real <= x < n as real + 1.0
    ensures x < 0.0 ==> n as real - 1.0 < x <= n as real
  {
    if x >= 0.0 then x.Floor else -((-x).Floor)
  }

  function MuteLabelFor(muted: bool): string {
    if muted then "Unmute" else "Mute"
  }

  class VideoPlayerApp {
    /** The media set on the player, `None` until a file has been opened. */
    var media: Option<string>
    var isMuted: bool
    var muteLabel: string
    var progress: real
    var timeLabel: string
    /** Every call made into the player so far, oldest first. */
    var commands: seq<Command>

    /** The mute button always names the action opposite to `is_muted`. */
    ghost predicate Valid()
      reads this
    {
      muteLabel == MuteLabelFor(isMuted)
    }

    /** The player's own mute state. */
    function PlayerMuted(): bool
      reads this
    {
      Toggles(commands) % 2 == 1
    }

    /** The flag no longer says what the player does. */
    function Drifted(): bool
      reads this
    {
      isMuted != PlayerMuted()
    }

    constructor ()
      ensures Valid() && !Drifted()
      ensures media == None && !isMuted && muteLabel == "Mute"
      ensures progress == 0.0 && timeLabel == ResetLabel
      ensures commands == [SetVolume(70)]
    {
      assert [SetVolume(70)][..0] == [];
      media := None;
      commands := [SetVolume(70)];
      isMuted := false;
      muteLabel := "Mute";
      progress := 0.0;
      timeLabel := ResetLabel;
    }

    /** `play_video`: plays only when a media is loaded. */
    method PlayVideo()
      modifies this`commands
      ensures commands == old(commands) + (if media.Some? then [Play] else [])
    {
      if media.Some? {
        commands := commands + [Play];
      }
    }

    /** `pause_video`: pauses only when a media is loaded. */
    method PauseVideo()
      modifies this`commands
      ensures commands == old(commands) + (if media.Some? then [Pause] else [])
    {
      if media.Some? {
        commands := commands + [Pause];
      }
    }

    /** `stop_video`: with a media loaded, stops and resets the slider and the label. */
    method StopVideo()
      modifies this`commands, this`progress, this`timeLabel
      ensures media.None? ==> commands == old(commands) && progress == old(progress) && timeLabel == old(timeLabel)
      ensures media.Some? ==> commands == old(commands) + [Stop] && progress == 0.0 && timeLabel == ResetLabel
      ensures PlayerMuted() == old(PlayerMuted())
    {
      if media.Some? {
        commands := commands + [Stop];
        progress := 0.0;
        timeLabel := ResetLabel;
        TogglesAppend(old(commands), [Stop]);
        assert [Stop][..0] == [];
      }
    }

    /** `set_position`: the slider's 0..1000 becomes VLC's 0..1, only with a media loaded. */
    method SetPositionFromSlider(value: real)
      modifies this`commands
      ensures commands == old(commands) + (if media.Some? then [SetPosition(value / 1000.0)] else [])
    {
      if media.Some? {
        commands := commands + [SetPosition(value / 1000.0)];
      }
    }

    /**
     * `open_video`: a chosen file (the dialog gives "" on cancel) becomes the
     * media and is played, and the slider and label are reset.
     */
    method OpenVideo(path: string)
      modifies this`media, this`commands, this`progress, this`timeLabel
      ensures path == "" ==> media == old(media) && commands == old(commands)
                             && progress == old(progress) && timeLabel == old(timeLabel)
      ensures path != "" ==> media == Some(path) && commands == old(commands) + [SetMedia(path), Play]
                             && progress == 0.0 && timeLabel == ResetLabel
      ensures Drifted() == old(Drifted())
    {
      if path != "" {
        ghost var before := commands;
        media := Some(path);
        commands := commands + [SetMedia(path)];
        PlayVideo();
        progress := 0.0;
        timeLabel := ResetLabel;
        assert commands == before + [SetMedia(path), Play];
        TogglesAppend(before, [SetMedia(path), Play]);
        assert Toggles([SetMedia(path), Play]) == 0 by {
          assert [SetMedia(path), Play][..1] == [SetMedia(path)] && [SetMedia(path)][..0] == [];
        }
      }
    }

    /**
     * `set_volume`: the volume is always set; a muted app is unmuted (and the
     * player toggled) by any positive value; a zero value marks an unmuted
     * app muted without telling the player, which is the one way the flag
     * and the player come apart.
     */
    method SetVolumeFromSlider(value: real)
      requires Valid()
      modifies this`isMuted, this`muteLabel, this`commands
      ensures Valid()
      ensures old(isMuted) && value > 0.0 ==>
                !isMuted && commands == old(commands) + [SetVolume(Trunc(value)), ToggleMute]
      ensures !old(isMuted) && value == 0.0 ==>
                isMuted && commands == old(commands) + [SetVolume(0)]
      ensures !(old(isMuted) && value > 0.0) && !(!old(isMuted) && value == 0.0) ==>
                isMuted == old(isMuted) && commands == old(commands) + [SetVolume(Trunc(value))]
      ensures Drifted() <==> (old(Drifted()) != (!old(isMuted) && value == 0.0))
    {
      var before := commands;
      commands := commands + [SetVolume(Trunc(value))];
      if isMuted && value > 0.0 {
        commands := commands + [ToggleMute];
        isMuted := false;
        muteLabel := "Mute";
        TogglesAppend(before, [SetVolume(Trunc(value)), ToggleMute]);
        assert [SetVolume(Trunc(value)), ToggleMute][..1] == [SetVolume(Trunc(value))];
      } else {
        TogglesAppend(before, [SetVolume(Trunc(value))]);
        assert [SetVolume(Trunc(value))][..0] == [];
        if !isMuted && value == 0.0 {
          isMuted := true;
          muteLabel := "Unmute";
        }
      }
    }

    /** `toggle_mute`: with a media loaded, flips the flag and the player together; otherwise nothing. */
    method ToggleMuteButton()
      requires Valid()
      modifies this`isMuted, this`muteLabel, this`commands
      ensures Valid()
      ensures media.None? ==> isMuted == old(isMuted) && commands == old(commands)
      ensures media.Some? ==> isMuted == !old(isMuted) && commands == old(commands) + [ToggleMute]
      ensures muteLabel == MuteLabelFor(isMuted)
      ensures Drifted() == old(Drifted())
    {
      if media.Some? {
        TogglesAppend(commands, [ToggleMute]);
        assert [ToggleMute][..0] == [];
        commands := commands + [ToggleMute];
        isMuted := !isMuted;
        muteLabel := MuteLabelFor(isMuted);
      }
    }

    /**
     * `update_progress_bar`, for the position, time, length and end-of-media
     * state the player reports: with a media loaded the slider follows the
     * position (unless it is -1), the label shows the times, and a finished
     * video is stopped.
     */
    method UpdateProgressBar(position: real, currentMs: int, totalMs: int, ended: bool)
      modifies this`commands, this`progress, this`timeLabel
      ensures media.None? ==> commands == old(commands) && progress == old(progress) && timeLabel == old(timeLabel)
      ensures media.Some? && !ended ==>
                commands == old(commands) && timeLabel == ProgressLabel(currentMs, totalMs) &&
                progress == (if position != -1.0 then position * 1000.0 else old(progress))
      ensures media.Some? && ended ==>
                commands == old(commands) + [Stop] && progress == 0.0 && timeLabel == ResetLabel
    {
      if media.Some? {
        if position != -1.0 {
          progress := position * 1000.0;
        }
        timeLabel := ProgressLabel(currentMs, totalMs);
        if ended {
          StopVideo();
        }
      }
    }
  }

  /**
   * The flag and the player disagree after: open a file, drag the volume to
   * 0 (flag set, player untouched), press the mute button (flag cleared,
   * player muted), drag the volume to 50 (flag already clear, no toggle).
   * The button reads "Mute" and the volume is 50, yet the player is muted.
   */
  method MuteDriftScenario() returns (isMuted: bool, buttonLabel: string, playerMuted: bool, lastVolume: int)
    ensures !isMuted && buttonLabel == "Mute" && playerMuted && lastVolume == 50
  {
    var app := new VideoPlayerApp();
    app.OpenVideo("clip.mp4");
    app.SetVolumeFromSlider(0.0);
    assert app.Drifted();
    app.ToggleMuteButton();
    app.SetVolumeFromSlider(50.0);
    assert Trunc(50.0) == 50;
    isMuted, buttonLabel, playerMuted := app.isMuted, app.muteLabel, app.PlayerMuted();
    lastVolume := app.commands[|app.commands| - 1].level;
  }
}
