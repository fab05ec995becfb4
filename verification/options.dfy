/** The reporter's configuration and the `_.defaults` merge the constructor applies. */
module Options {
  import opened Wrappers

  /** An ffmpeg argument: the option schema admits strings and numbers. */
  datatype Arg = Text(text: string) | Number(number: int)

  /** The options after defaults are filled in. `baseDirectory` has no default. */
  datatype Options = Options(
    baseDirectory: Option<string>,
    saveSuccessVideos: bool,
    singleVideo: bool,
    createSubtitles: bool,
    ffmpegCmd: string,
    ffmpegArgs: seq<Arg>)

  /** The options object a user passes; `None` is a field left undefined. */
  datatype UserOptions = UserOptions(
    baseDirectory: Option<string>,
    saveSuccessVideos: Option<bool>,
    singleVideo: Option<bool>,
    createSubtitles: Option<bool>,
    ffmpegCmd: Option<string>,
    ffmpegArgs: Option<seq<Arg>>)

  /** The default ffmpeg arguments, an X11 screen grab of `display` at 30 frames per second. */
  function DefaultArgs(display: string): seq<Arg> {
    [Text("-y"), Text("-r"), Text("30"), Text("-f"), Text("x11grab"), Text("-s"), Text("1024x768"),
     Text("-i"), Text(display), Text("-g"), Text("300"), Text("-vcodec"), Text("qtrle")]
  }

  /** `_.defaults({}, options, {...})`: a field the user set is kept; a missing one takes
      its default (no success videos, one video for the whole run, subtitles on, `ffmpeg`). */
  function WithDefaults(user: UserOptions, display: string): (o: Options)
    ensures o.baseDirectory == user.baseDirectory
    ensures user.saveSuccessVideos.Some? ==> o.saveSuccessVideos == user.saveSuccessVideos.value
    ensures user.singleVideo.Some? ==> o.singleVideo == user.singleVideo.value
    ensures user.createSubtitles.Some? ==> o.createSubtitles == user.createSubtitles.value
    ensures user.ffmpegCmd.Some? ==> o.ffmpegCmd == user.ffmpegCmd.value
    ensures user.ffmpegArgs.Some? ==> o.ffmpegArgs == user.ffmpegArgs.value
    ensures user.saveSuccessVideos.None? ==> !o.saveSuccessVideos
    ensures user.singleVideo.None? ==> o.singleVideo
    ensures user.createSubtitles.None? ==> o.createSubtitles
    ensures user.ffmpegCmd.None? ==> o.ffmpegCmd == "ffmpeg"
    ensures user.ffmpegArgs.None? ==> |o.ffmpegArgs| == 13 && o.ffmpegArgs[8] == Text(display)
    ensures user.ffmpegArgs.None? ==> o.ffmpegArgs == DefaultArgs(display)
  {
    Options(
      user.baseDirectory,
      user.saveSuccessVideos.GetOr(false),
      user.singleVideo.GetOr(true),
      user.createSubtitles.GetOr(true),
      user.ffmpegCmd.GetOr("ffmpeg"),
      user.ffmpegArgs.GetOr(DefaultArgs(display)))
  }

  /** The same options written out in full, as a user could pass them. */
  function Explicit(o: Options): UserOptions {
    UserOptions(o.baseDirectory, Some(o.saveSuccessVideos), Some(o.singleVideo),
                Some(o.createSubtitles), Some(o.ffmpegCmd), Some(o.ffmpegArgs))
  }

  /** Defaults never override a field given explicitly, so merging again changes nothing. */
  lemma WithDefaultsIdempotent(user: UserOptions, d1: string, d2: string)
    ensures WithDefaults(Explicit(WithDefaults(user, d1)), d2) == WithDefaults(user, d1)
    ensures forall o: Options :: WithDefaults(Explicit(o), d2) == o
  {
  }
}
