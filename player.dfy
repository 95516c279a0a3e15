/** The player window of mainwindow.cc: seeking with the arrow keys (clamped to
    the video), play/pause with Space, closing at the end of the media, and
    the progress bar that follows the duration and the position. The Qt media
    player is reduced to the state these handlers read and write. Times are
    milliseconds. */
module Player {

  /** QMediaPlayer::State. */
  datatype PlaybackState = Stopped | Playing | Paused

  /** QMediaPlayer::MediaStatus. */
  datatype MediaStatus =
    | UnknownMediaStatus | NoMedia | LoadingMedia | LoadedMedia | StalledMedia
    | BufferingMedia | BufferedMedia | EndOfMedia | InvalidMedia

  /** The Qt::KeyboardModifier flags; a keyboard state is a set of them. */
  datatype Modifier = Shift | Control | Alt | Meta | Keypad | GroupSwitch

  /** The keys keyPressEvent tells apart; every other key is `OtherKey`. */
  datatype Key = RightKey | LeftKey | SpaceKey | OtherKey(code: int)

  /** One second: the end margin of a seek. */
  const SeekEndMargin: int := 1000

  function Max(a: int, b: int): int
  {
    if a < b then b else a
  }

  /** The latest position a seek may reach: one second before the end, and
      never below zero. */
  function LatestSeekPosition(duration: int): (latest: int)
    ensures latest >= 0
    ensures latest >= duration - SeekEndMargin
  {
    Max(0, duration - SeekEndMargin)
  }

  /** std::clamp(position, 0, max(0, duration - 1s)), the target of set_video_position. */
  function ClampedPosition(requested: int, duration: int): (p: int)
    ensures 0 <= p <= LatestSeekPosition(duration)
    ensures 0 <= requested <= LatestSeekPosition(duration) ==> p == requested
    ensures requested < 0 ==> p == 0
    ensures requested > LatestSeekPosition(duration) ==> p == LatestSeekPosition(duration)
  {
    if requested < 0 then 0
    else if LatestSeekPosition(duration) < requested then LatestSeekPosition(duration)
    else requested
  }

  /** Clamping twice is clamping once. */
  lemma ClampIdempotent(requested: int, duration: int)
    ensures ClampedPosition(ClampedPosition(requested, duration), duration) == ClampedPosition(requested, duration)
  {
  }

  /** A later request never lands earlier. */
  lemma ClampMonotonic(a: int, b: int, duration: int)
    requires a <= b
    ensures ClampedPosition(a, duration) <= ClampedPosition(b, duration)
  {
  }

  /** A video shorter than a second can only be at its start. */
  lemma ShortVideoSeeksToStart(requested: int, duration: int)
    requires duration <= SeekEndMargin
    ensures ClampedPosition(requested, duration) == 0
  {
  }

  /** video_seek_duration: Shift alone is a fine step, Control alone a coarse
      one, Control with Shift does not move, and every other keyboard state
      (none, or any other combination) is the default ten seconds. */
  function SeekDuration(modifiers: set<Modifier>): (ms: int)
    ensures ms in {0, 3_000, 10_000, 60_000}
  {
    if modifiers == {Control, Shift} then 0
    else if modifiers == {Shift} then 3_000
    else if modifiers == {Control} then 60_000
    else 10_000
  }

  /** The seek table, case by case. */
  lemma SeekDurations(modifiers: set<Modifier>)
    ensures SeekDuration({}) == 10_000
    ensures SeekDuration({Shift}) == 3_000
    ensures SeekDuration({Control}) == 60_000
    ensures SeekDuration({Shift, Control}) == 0
    ensures modifiers !in {{}, {Shift}, {Control}, {Shift, Control}} ==> SeekDuration(modifiers) == 10_000
  {
  }

  /** What Space does to the playback state: playing pauses, paused plays,
      stopped stays stopped. */
  function ToggledState(state: PlaybackState): (next: PlaybackState)
    ensures (next == Playing) == (state == Paused)
    ensures (next == Paused) == (state == Playing)
    ensures (next == Stopped) == (state == Stopped)
  {
    match state
    case Playing => Paused
    case Paused => Playing
    case Stopped => Stopped
  }

  /** Pressing Space twice gives the state back. */
  lemma ToggleTwice(state: PlaybackState)
    ensures ToggledState(ToggledState(state)) == state
  {
  }

  /** qint64 milliseconds divided by 1000, as C++ does it (truncating toward zero). */
  function SecondsOf(ms: int): (s: int)
    ensures ms >= 0 ==> 0 <= s && s * 1000 <= ms < (s + 1) * 1000
    ensures ms < 0 ==> s <= 0 && (s - 1) * 1000 < ms <= s * 1000
  {
    if ms >= 0 then ms / 1000 else -((-ms) / 1000)
  }

  /** static_cast<int>: the value modulo 2^32, read as a signed 32-bit integer. */
  function ToInt32(x: int): (r: int)
    ensures -0x8000_0000 <= r < 0x8000_0000
    ensures (r - x) % 0x1_0000_0000 == 0
    ensures -0x8000_0000 <= x < 0x8000_0000 ==> r == x
  {
    (x + 0x8000_0000) % 0x1_0000_0000 - 0x8000_0000
  }

  /** Truncating division is symmetric: a negative duration maps to the
      negated whole seconds of its magnitude. */
  lemma SecondsOfOdd(ms: int)
    ensures SecondsOf(-ms) == -SecondsOf(ms)
  {
  }

  /** The part of QMediaPlayer the window uses. */
  class MediaPlayer {
    var position: int
    var duration: int
    var state: PlaybackState
    var seekable: bool

    constructor (duration: int, seekable: bool)
      ensures this.position == 0 && this.duration == duration
      ensures this.state == Stopped && this.seekable == seekable
    {
      this.position := 0;
      this.duration := duration;
      this.state := Stopped;
      this.seekable := seekable;
    }

    /** QMediaPlayer::setPosition. */
    method SetPosition(position: int)
      modifies this
      ensures this.position == position
      ensures duration == old(duration) && state == old(state) && seekable == old(seekable)
    {
      this.position := position;
    }

    /** QMediaPlayer::play. */
    method Play()
      modifies this
      ensures state == Playing
      ensures position == old(position) && duration == old(duration) && seekable == old(seekable)
    {
      state := Playing;
    }

    /** QMediaPlayer::pause. */
    method Pause()
      modifies this
      ensures state == Paused
      ensures position == old(position) && duration == old(duration) && seekable == old(seekable)
    {
      state := Paused;
    }
  }

  /** set_video_position: move to the requested position, clamped to
      [0, max(0, duration - 1s)]. The seekability assertion is a debug-build
      check only; as in a release build, the seek is made regardless. */
  method SetVideoPosition(player: MediaPlayer, position: int)
    modifies player
    ensures player.position == ClampedPosition(position, old(player.duration))
    ensures player.duration == old(player.duration) && player.state == old(player.state)
    ensures player.seekable == old(player.seekable)
  {
    var maxPosition := player.duration;
    var finalPosition := ClampedPosition(position, maxPosition);
    player.SetPosition(finalPosition);
  }

  /** change_video_position: seek relative to the current position. */
  method ChangeVideoPosition(player: MediaPlayer, positionChange: int)
    modifies player
    ensures player.position == ClampedPosition(old(player.position) + positionChange, old(player.duration))
    ensures player.duration == old(player.duration) && player.state == old(player.state)
    ensures player.seekable == old(player.seekable)
  {
    SetVideoPosition(player, player.position + positionChange);
  }

  /** Seeking forward then back by the same step returns to the start point
      when neither seek was clamped. */
  lemma SeekForwardThenBack(position: int, step: int, duration: int)
    requires 0 <= step && 0 <= position && position + step <= LatestSeekPosition(duration)
    ensures ClampedPosition(ClampedPosition(position + step, duration) - step, duration) == position
  {
  }

  /** The window: its media player, whether it has been closed, and the last
      values in whole seconds passed to the progress bar's setValue and
      setMaximum (QProgressBar's own range handling is not part of this model). */
  class MainWindow {
    const player: MediaPlayer
    var closed: bool
    var progressValue: int
    var progressMaximum: int

    constructor (player: MediaPlayer)
      ensures this.player == player
      ensures !closed && progressValue == 0 && progressMaximum == 0
    {
      this.player := player;
      closed := false;
      progressValue := 0;
      progressMaximum := 0;
    }

    /** keyPressEvent: Right seeks forward by the seek duration of the
        keyboard state, Left back by the same amount, Space toggles between
        playing and paused (a stopped player is left alone); other keys do
        nothing. */
    method KeyPressEvent(key: Key, modifiers: set<Modifier>)
      modifies player
      ensures key == RightKey ==> player.position == ClampedPosition(old(player.position) + SeekDuration(modifiers), old(player.duration))
      ensures key == LeftKey ==> player.position == ClampedPosition(old(player.position) - SeekDuration(modifiers), old(player.duration))
      ensures key != RightKey && key != LeftKey ==> player.position == old(player.position)
      ensures key == SpaceKey ==> player.state == ToggledState(old(player.state))
      ensures key != SpaceKey ==> player.state == old(player.state)
      ensures player.duration == old(player.duration) && player.seekable == old(player.seekable)
    {
      match key
      case RightKey =>
        ChangeVideoPosition(player, SeekDuration(modifiers));
      case LeftKey =>
        ChangeVideoPosition(player, -SeekDuration(modifiers));
      case SpaceKey =>
        match player.state {
          case Playing => player.Pause();
          case Paused => player.Play();
          case Stopped =>
        }
      case OtherKey(_) =>
    }

    /** on_video_media_status_changed: the end of the media closes the window. */
    method OnVideoMediaStatusChanged(newStatus: MediaStatus)
      modifies this
      ensures closed == (old(closed) || newStatus == EndOfMedia)
      ensures progressValue == old(progressValue) && progressMaximum == old(progressMaximum)
    {
      if newStatus == EndOfMedia {
        closed := true;
      }
    }

    /** on_video_duration_changed: the duration in whole seconds is passed to setMaximum. */
    method OnVideoDurationChanged(durationChanged: int)
      modifies this
      ensures progressMaximum == ToInt32(SecondsOf(durationChanged))
      ensures progressValue == old(progressValue) && closed == old(closed)
    {
      progressMaximum := ToInt32(SecondsOf(durationChanged));
    }

    /** on_video_position_changed: the position in whole seconds is passed to setValue. */
    method OnVideoPositionChanged(newPosition: int)
      modifies this
      ensures progressValue == ToInt32(SecondsOf(newPosition))
      ensures progressMaximum == old(progressMaximum) && closed == old(closed)
    {
      progressValue := ToInt32(SecondsOf(newPosition));
    }
  }

  /** A position reached by seeking never exceeds the bar's maximum: whole
      seconds of a clamped position are at most those of the duration. */
  lemma ProgressWithinMaximum(requested: int, duration: int)
    requires duration >= 0
    ensures 0 <= SecondsOf(ClampedPosition(requested, duration)) <= SecondsOf(duration)
  {
    var p := ClampedPosition(requested, duration);
    assert p <= duration;
    DivMonotonic(p, duration);
  }

  lemma DivMonotonic(a: nat, b: nat)
    requires a <= b
    ensures a / 1000 <= b / 1000
  {
  }
}
