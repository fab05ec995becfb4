/** The reporter's state and the screencast session: `_startScreencast` and `_stopScreencast`.

    The ffmpeg child process and the file system are abstract. Spawning and killing are
    entries appended to an effect log, a process handle is the index of its spawn entry in
    that log, and the files on disk are a set of paths. ffmpeg writes its output file
    asynchronously while it runs; whether that file has reached the disk by the time the
    process is killed is an input of the stop (`recorded`), like a clock reading. */
module Screencast {
  import opened Wrappers
  import opened Options
  import opened Subtitles

  /** A spawned ffmpeg process, named by the position of its spawn in the effect log. */
  datatype Handle = Handle(spawnIndex: nat)

  /** What the reporter does to the outside world, in order. */
  datatype Effect =
    | Spawned(cmd: string, args: seq<Arg>)  // ChildProcess.spawn(ffmpegCmd, args)
    | Killed(process: Handle)               // process.kill()
    | Reported(path: string)                // "Spec video is in: <path>" on the console

  /** The exceptions the event handlers would throw. */
  datatype Fault =
    | NoBaseDirectory    // Path.join with an undefined baseDirectory
    | NoProcess          // kill() on the null process of an idle session
    | NoSubtitleList     // the subtitle list used before jasmineStarted created it
    | NoCurrentSubtitle  // specDone before any specStarted opened a subtitle

  /** The subtitle list of a run and the clock reading it is timed from. */
  datatype Timeline = Timeline(origin: int, cues: seq<Cue>)

  /** The reporter object: its options, its session fields, the subtitle fields, and the
      parts of the environment it touches. `aliases` counts how many entries at the end
      of the subtitle list are the very object `current` refers to (the handler pushes the
      current subtitle object itself, so a second `specDone` rewrites those entries). */
  datatype Reporter = Reporter(
    options: Options,
    videoPath: Option<string>,
    process: Option<Handle>,
    files: set<string>,
    written: map<string, seq<Cue>>,
    effects: seq<Effect>,
    timeline: Option<Timeline>,
    current: Option<OpenCue>,
    aliases: nat)

  /** A freshly constructed reporter over the given files on disk. */
  function Init(options: Options, files: set<string>): (r: Reporter)
    ensures SessionInv(r) && r.process.None? && r.videoPath.None?
    ensures r.options == options && r.files == files && r.written == map[] && r.effects == []
    ensures r.timeline.None? && r.current.None?
  {
    Reporter(options, None, None, files, map[], [], None, None, 0)
  }

  /** How JavaScript string concatenation prints an optional path. */
  function PathText(path: Option<string>): string {
    match path
    case Some(p) => p
    case None => "null"
  }

  /** The spawn arguments: the configured ones, followed by the output path. */
  function SpawnArgs(options: Options, path: string): (args: seq<Arg>)
    ensures |args| == |options.ffmpegArgs| + 1
    ensures args[..|options.ffmpegArgs|] == options.ffmpegArgs
    ensures args[|options.ffmpegArgs|] == Text(path)
  {
    options.ffmpegArgs + [Text(path)]
  }

  /** `_startScreencast(videoPath)`: remember the path and spawn ffmpeg writing to it.
      A session that is already recording is overwritten, not refused. */
  function Start(r: Reporter, path: string): (r': Reporter)
    ensures r'.videoPath == Some(path)
    ensures r'.process == Some(Handle(|r.effects|))
    ensures r'.effects == r.effects + [Spawned(r.options.ffmpegCmd, SpawnArgs(r.options, path))]
    ensures r'.options == r.options
    ensures r'.(videoPath := r.videoPath, process := r.process, effects := r.effects) == r
  {
    r.(videoPath := Some(path),
       process := Some(Handle(|r.effects|)),
       effects := r.effects + [Spawned(r.options.ffmpegCmd, SpawnArgs(r.options, path))])
  }

  /** `fileExists(path)`: the stat of a null path throws, and the catch answers false. */
  function FileExists(files: set<string>, path: Option<string>): bool {
    path.Some? && path.value in files
  }

  /** The files on disk when ffmpeg is killed: those there before, and the recording at
      `path` when ffmpeg has written it. */
  function OnDisk(files: set<string>, path: Option<string>, recorded: bool): (disk: set<string>)
    ensures files <= disk
    ensures forall p :: p in disk ==> p in files || (recorded && path == Some(p))
    ensures recorded && path.Some? ==> path.value in disk
  {
    if recorded && path.Some? then files + {path.value} else files
  }

  /** `_stopScreencast(removeVideo)`: kill ffmpeg, then either delete the video if it
      exists or report where it is kept, and clear the session. `recorded` says whether
      ffmpeg's output file is on disk by then. */
  function Stop(r: Reporter, removeVideo: bool, recorded: bool): (res: Result<Reporter, Fault>)
    ensures res.Success? <==> r.process.Some?
    ensures res.Failure? ==> res.error == NoProcess
    ensures res.Success? ==> res.value.videoPath.None? && res.value.process.None?
    ensures res.Success? ==>
              var disk := OnDisk(r.files, r.videoPath, recorded);
              res.value.files == if removeVideo && r.videoPath.Some? then disk - {r.videoPath.value} else disk
    ensures res.Success? ==>
              res.value.effects == r.effects + [Killed(r.process.value)]
                                     + (if removeVideo then [] else [Reported(PathText(r.videoPath))])
    ensures res.Success? ==>
              res.value.(videoPath := r.videoPath, process := r.process, files := r.files, effects := r.effects) == r
  {
    if r.process.None? then Failure(NoProcess)
    else
      var killed := r.effects + [Killed(r.process.value)];
      var disk := OnDisk(r.files, r.videoPath, recorded);
      var r1 :=
        if removeVideo then
          if FileExists(disk, r.videoPath) then r.(files := disk - {r.videoPath.value}, effects := killed)
          else r.(files := disk, effects := killed)
        else r.(files := disk, effects := killed + [Reported(PathText(r.videoPath))]);
      Success(r1.(videoPath := None, process := None))
  }

  /** Stopping with removal leaves no file at the session's path, whether or not one was
      there (a pending spec may never have produced one), and every other file as it was. */
  lemma StopRemovalDeletesOnlyVideo(r: Reporter, p: string, recorded: bool)
    requires r.process.Some?
    ensures Stop(r, true, recorded).Success?
    ensures FileExists(Stop(r, true, recorded).value.files, Some(p)) <==> FileExists(r.files, Some(p)) && Some(p) != r.videoPath
  {
  }

  /** Spawns and kills alternate, beginning with a spawn; each kill ends the process
      spawned just before it; `live` is the process spawned and not yet killed. */
  predicate Paired(effects: seq<Effect>, live: Option<Handle>)
    decreases |effects|
  {
    if |effects| == 0 then live.None?
    else
      var init := effects[..|effects| - 1];
      match effects[|effects| - 1]
      case Spawned(_, _) => live == Some(Handle(|init|)) && Paired(init, None)
      case Killed(h) => live.None? && Paired(init, Some(h))
      case Reported(_) => Paired(init, live)
  }

  /** The session invariant: a path is stored exactly while a process runs, that process is
      the one the effect log leaves live, and it was spawned to write to that path. */
  predicate SessionInv(r: Reporter) {
    && (r.videoPath.Some? <==> r.process.Some?)
    && Paired(r.effects, r.process)
    && (r.process.Some? ==>
          && r.process.value.spawnIndex < |r.effects|
          && r.effects[r.process.value.spawnIndex] == Spawned(r.options.ffmpegCmd, SpawnArgs(r.options, r.videoPath.value)))
  }

  /** An effect log leaves at most one process live. */
  lemma {:induction false} PairedUnique(effects: seq<Effect>, a: Option<Handle>, b: Option<Handle>)
    requires Paired(effects, a) && Paired(effects, b)
    ensures a == b
    decreases |effects|
  {
    if |effects| > 0 {
      var init := effects[..|effects| - 1];
      match effects[|effects| - 1]
      case Spawned(_, _) =>
      case Killed(h) =>
      case Reported(_) => PairedUnique(init, a, b);
    }
  }

  /** Starting an idle session keeps the invariant. */
  lemma StartKeepsSession(r: Reporter, path: string)
    requires SessionInv(r) && r.process.None?
    ensures SessionInv(Start(r, path))
  {
    var e := Start(r, path).effects;
    assert e[..|e| - 1] == r.effects;
  }

  /** Stopping a recording session keeps the invariant and leaves it idle. */
  lemma StopKeepsSession(r: Reporter, removeVideo: bool, recorded: bool)
    requires SessionInv(r) && r.process.Some?
    ensures Stop(r, removeVideo, recorded).Success?
    ensures SessionInv(Stop(r, removeVideo, recorded).value)
    ensures Stop(r, removeVideo, recorded).value.process.None?
  {
    var e := r.effects + [Killed(r.process.value)];
    assert e[..|e| - 1] == r.effects;
    if !removeVideo {
      var e' := e + [Reported(PathText(r.videoPath))];
      assert e'[..|e'| - 1] == e;
    }
  }

  /** Starting a session that is already recording loses the running process: the
      invariant is broken, and the stop that follows kills only the new process, so the
      log is left with a spawn that no kill matches. */
  lemma DoubleStartLeaks(r: Reporter, path: string, removeVideo: bool, recorded: bool)
    requires SessionInv(r) && r.process.Some?
    ensures !SessionInv(Start(r, path))
    ensures var stopped := Stop(Start(r, path), removeVideo, recorded);
            && stopped.Success? && stopped.value.process.None?
            && !Paired(stopped.value.effects, None)
  {
    var e := Start(r, path).effects;
    assert e[..|e| - 1] == r.effects;
    if Paired(e, Start(r, path).process) {
      PairedUnique(r.effects, r.process, None);
    }
    var killed := e + [Killed(Handle(|r.effects|))];
    assert killed[..|killed| - 1] == e;
    if !removeVideo {
      var e' := killed + [Reported(PathText(Some(path)))];
      assert e'[..|e'| - 1] == killed;
    }
  }

  /** Start followed by stop returns the session to idle with nothing else changed but
      one spawn and its kill, the report and the recorded file of a kept video, and the
      deletion of a removed one. */
  lemma StartStopRoundTrip(r: Reporter, path: string, removeVideo: bool, recorded: bool)
    requires SessionInv(r) && r.process.None?
    ensures Stop(Start(r, path), removeVideo, recorded) ==
              Success(r.(files := if removeVideo then r.files - {path}
                                  else if recorded then r.files + {path} else r.files,
                         effects := r.effects
                                    + [Spawned(r.options.ffmpegCmd, SpawnArgs(r.options, path)), Killed(Handle(|r.effects|))]
                                    + (if removeVideo then [] else [Reported(path)])))
  {
    var spawn := Spawned(r.options.ffmpegCmd, SpawnArgs(r.options, path));
    assert r.effects + [spawn] + [Killed(Handle(|r.effects|))] == r.effects + [spawn, Killed(Handle(|r.effects|))];
    assert OnDisk(r.files, Some(path), recorded) - {path} == r.files - {path};
  }
}
