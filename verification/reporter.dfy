/** The Jasmine reporter callbacks: `jasmineStarted`, `specStarted`, `specDone`, `jasmineDone`.

    With `singleVideo` off, every spec is recorded into its own file and the file is
    removed or kept when the spec is done. With `singleVideo` on, one recording spans the
    whole run and, with `createSubtitles`, every spec adds a subtitle cue that is written
    next to the video at the end. Clock readings (milliseconds) are event parameters. */
module VideoReporter {
  import opened Wrappers
  import opened Options
  import opened Subtitles
  import opened Screencast
  import Naming
  import Retention

  /** The parts of Jasmine's spec result the reporter reads. */
  datatype SpecResult = SpecResult(fullName: string, description: string, status: string)

  const RunVideoName := "protractor-specs.mov"
  const SubtitlesName := "protractor-specs.srt"

  /** `Path.join(dir, name)`, without normalisation. */
  function JoinPath(dir: string, name: string): string {
    dir + "/" + name
  }

  /** The subtitle list after `specDone` pushes the current subtitle object `cue`: the last
      `aliases` entries are that same object, so they change with it. */
  function PushCurrent(cues: seq<Cue>, aliases: nat, cue: Cue): (cues': seq<Cue>)
    ensures |cues'| == |cues| + 1
    ensures cues'[|cues|] == cue
    ensures aliases == 0 ==> cues' == cues + [cue]
    ensures forall i :: 0 <= i < |cues| - aliases ==> cues'[i] == cues[i]
    ensures forall i :: |cues| - aliases <= i < |cues'| && 0 <= i ==> cues'[i] == cue
  {
    var k := if aliases <= |cues| then aliases else |cues|;
    cues[..|cues| - k] + seq(k + 1, _ => cue)
  }

  function JasmineStarted(r: Reporter, now: int): (res: Result<Reporter, Fault>)
    ensures !r.options.singleVideo ==> res == Success(r)
    ensures r.options.singleVideo ==> (res.Success? <==> r.options.baseDirectory.Some?)
    ensures r.options.singleVideo && res.Success? ==>
              var path := JoinPath(r.options.baseDirectory.value, RunVideoName);
              && res.value.videoPath == Some(path)
              && res.value.effects == r.effects + [Spawned(r.options.ffmpegCmd, SpawnArgs(r.options, path))]
              && res.value.process == Some(Handle(|r.effects|))
              && res.value.files == r.files && res.value.written == r.written
              && res.value.timeline == (if r.options.createSubtitles then Some(Timeline(now, [])) else r.timeline)
              && (r.options.createSubtitles ==> res.value.aliases == 0)
              && res.value.(videoPath := r.videoPath, process := r.process, effects := r.effects,
                            timeline := r.timeline, aliases := r.aliases) == r
  {
    if !r.options.singleVideo then Success(r)
    else if r.options.baseDirectory.None? then Failure(NoBaseDirectory)
    else
      var r1 := Start(r, JoinPath(r.options.baseDirectory.value, RunVideoName));
      if r.options.createSubtitles then Success(r1.(timeline := Some(Timeline(now, [])), aliases := 0))
      else Success(r1)
  }

  function SpecStarted(r: Reporter, spec: SpecResult, now: int): (res: Result<Reporter, Fault>)
    ensures !r.options.singleVideo ==>
              && (res.Success? <==> r.options.baseDirectory.Some?)
              && (res.Success? ==>
                    var path := JoinPath(r.options.baseDirectory.value, Naming.SpecVideoName(spec.fullName));
                    && res.value.videoPath == Some(path)
                    && res.value.effects == r.effects + [Spawned(r.options.ffmpegCmd, SpawnArgs(r.options, path))]
                    && res.value.process == Some(Handle(|r.effects|))
                    && res.value.files == r.files && res.value.written == r.written
                    && res.value.timeline == r.timeline && res.value.current == r.current
                    && res.value.(videoPath := r.videoPath, process := r.process, effects := r.effects) == r)
    ensures r.options.singleVideo && res.Success? ==>
              && res.value.effects == r.effects
              && res.value.videoPath == r.videoPath && res.value.process == r.process
              && res.value.timeline == r.timeline
              && res.value == r.(current := res.value.current, aliases := res.value.aliases)
    ensures r.options.singleVideo && !r.options.createSubtitles ==> res == Success(r)
    ensures r.options.singleVideo && r.options.createSubtitles ==>
              && (res.Success? <==> r.timeline.Some?)
              && (res.Success? ==>
                    && res.value.current.Some?
                    && res.value.current.value.id == |r.timeline.value.cues| + 1
                    && res.value.current.value.startTime == now - r.timeline.value.origin
                    && res.value.aliases == 0)
  {
    if !r.options.singleVideo then
      if r.options.baseDirectory.None? then Failure(NoBaseDirectory)
      else Success(Start(r, JoinPath(r.options.baseDirectory.value, Naming.SpecVideoName(spec.fullName))))
    else if r.options.createSubtitles then
      if r.timeline.None? then Failure(NoSubtitleList)
      else
        var t := r.timeline.value;
        Success(r.(current := Some(Open(t.cues, t.origin, now)), aliases := 0))
    else Success(r)
  }

  function SpecDone(r: Reporter, spec: SpecResult, now: int, recorded: bool): (res: Result<Reporter, Fault>)
    ensures !r.options.singleVideo ==>
              && (res.Success? <==> r.process.Some?)
              && (res.Success? ==>
                    && res.value.process.None? && res.value.videoPath.None?
                    && res.value.effects == r.effects + [Killed(r.process.value)]
                         + (if Retention.KeepVideo(spec.status, r.options.saveSuccessVideos)
                            then [Reported(PathText(r.videoPath))] else [])
                    && res.value.written == r.written
                    && res.value.timeline == r.timeline && res.value.current == r.current
                    && res.value.(videoPath := r.videoPath, process := r.process, files := r.files,
                                  effects := r.effects) == r
                    && (forall p :: p in res.value.files <==>
                          && (p in r.files || (recorded && Some(p) == r.videoPath))
                          && (Some(p) != r.videoPath || Retention.KeepVideo(spec.status, r.options.saveSuccessVideos))))
    ensures r.options.singleVideo && res.Success? ==>
              && res.value.effects == r.effects && res.value.files == r.files
              && res.value.videoPath == r.videoPath && res.value.process == r.process
              && res.value == r.(timeline := res.value.timeline, aliases := res.value.aliases)
    ensures r.options.singleVideo && !r.options.createSubtitles ==> res == Success(r)
    ensures r.options.singleVideo && r.options.createSubtitles ==>
              (res.Success? <==> r.current.Some? && r.timeline.Some?)
    ensures r.options.singleVideo && r.options.createSubtitles && r.current.Some? && r.timeline.Some? ==>
              var t := r.timeline.value;
              var cue := Seal(r.current.value, t.origin, now, spec.status, spec.description);
              && res.value.timeline == Some(Timeline(t.origin, PushCurrent(t.cues, r.aliases, cue)))
              && res.value.current == r.current
              && 0 < res.value.aliases <= |t.cues| + 1
              && (r.aliases == 0 ==> res.value.timeline == Some(Timeline(t.origin, t.cues + [cue])) && res.value.aliases == 1)
  {
    if !r.options.singleVideo then
      Stop(r, !Retention.KeepVideo(spec.status, r.options.saveSuccessVideos), recorded)
    else if r.options.createSubtitles then
      if r.current.None? then Failure(NoCurrentSubtitle)
      else if r.timeline.None? then Failure(NoSubtitleList)
      else
        var t := r.timeline.value;
        var cue := Seal(r.current.value, t.origin, now, spec.status, spec.description);
        var cues := PushCurrent(t.cues, r.aliases, cue);
        Success(r.(timeline := Some(Timeline(t.origin, cues)),
                   aliases := if r.aliases <= |t.cues| then r.aliases + 1 else |t.cues| + 1))
    else Success(r)
  }

  function JasmineDone(r: Reporter, recorded: bool): (res: Result<Reporter, Fault>)
    ensures !r.options.singleVideo ==> res == Success(r)
    ensures r.options.singleVideo && res.Success? ==>
              && r.process.Some?
              && res.value.process.None? && res.value.videoPath.None?
              && res.value.effects == r.effects + [Killed(r.process.value), Reported(PathText(r.videoPath))]
              && OnDisk(r.files, r.videoPath, recorded) <= res.value.files
              && res.value.(videoPath := r.videoPath, process := r.process, files := r.files,
                            effects := r.effects, written := r.written) == r
    ensures r.options.singleVideo && !r.options.createSubtitles ==>
              && (res.Success? <==> r.process.Some?)
              && (res.Success? ==> res.value.files == OnDisk(r.files, r.videoPath, recorded) && res.value.written == r.written)
    ensures r.options.singleVideo && r.options.createSubtitles ==>
              (res.Success? <==> r.process.Some? && r.options.baseDirectory.Some? && r.timeline.Some?)
    ensures r.options.singleVideo && r.options.createSubtitles && res.Success?
            && r.options.baseDirectory.Some? && r.timeline.Some? ==>
              var srt := JoinPath(r.options.baseDirectory.value, SubtitlesName);
              && res.value.files == OnDisk(r.files, r.videoPath, recorded) + {srt}
              && res.value.written == r.written[srt := r.timeline.value.cues]
  {
    if !r.options.singleVideo then Success(r)
    else
      var r1 :- Stop(r, false, recorded);
      if r.options.createSubtitles then
        if r.options.baseDirectory.None? then Failure(NoBaseDirectory)
        else if r.timeline.None? then Failure(NoSubtitleList)
        else
          var srt := JoinPath(r.options.baseDirectory.value, SubtitlesName);
          Success(r1.(files := r1.files + {srt}, written := r1.written[srt := r.timeline.value.cues]))
      else Success(r1)
  }

  /** A reporter callback, with the clock reading taken when it runs. */
  datatype Event =
    | JasmineStartedAt(now: int)
    | SpecStartedAt(spec: SpecResult, now: int)
    | SpecDoneAt(spec: SpecResult, now: int, recorded: bool)
    | JasmineDoneAt(recorded: bool)

  function Step(r: Reporter, e: Event): Result<Reporter, Fault> {
    match e
    case JasmineStartedAt(now) => JasmineStarted(r, now)
    case SpecStartedAt(spec, now) => SpecStarted(r, spec, now)
    case SpecDoneAt(spec, now, recorded) => SpecDone(r, spec, now, recorded)
    case JasmineDoneAt(recorded) => JasmineDone(r, recorded)
  }

  /** The callbacks applied in order; the first exception ends the run. */
  function Run(r: Reporter, events: seq<Event>): Result<Reporter, Fault>
    decreases |events|
  {
    if |events| == 0 then Success(r)
    else
      var r1 :- Step(r, events[0]);
      Run(r1, events[1..])
  }

  /** One spec as Jasmine reports it: its result, the clock at its start and end, and
      whether its recording is on disk when `specDone` kills ffmpeg. */
  datatype SpecRun = SpecRun(result: SpecResult, startedAt: int, doneAt: int, recorded: bool)

  /** `specStarted` then `specDone` for each spec in turn. */
  function SpecEvents(specs: seq<SpecRun>): seq<Event>
    decreases |specs|
  {
    if |specs| == 0 then []
    else [SpecStartedAt(specs[0].result, specs[0].startedAt), SpecDoneAt(specs[0].result, specs[0].doneAt, specs[0].recorded)]
         + SpecEvents(specs[1..])
  }

  /** A whole run: `jasmineStarted`, the specs, `jasmineDone`; `recorded` says whether the
      run's recording is on disk when `jasmineDone` kills ffmpeg. */
  function RunEvents(t0: int, specs: seq<SpecRun>, recorded: bool): seq<Event> {
    [JasmineStartedAt(t0)] + SpecEvents(specs) + [JasmineDoneAt(recorded)]
  }

  lemma {:induction false} RunAppend(r: Reporter, a: seq<Event>, b: seq<Event>)
    ensures Run(r, a + b) == (var ra :- Run(r, a); Run(ra, b))
    decreases |a|
  {
    if |a| > 0 {
      assert (a + b)[0] == a[0];
      assert (a + b)[1..] == a[1..] + b;
      match Step(r, a[0])
      case Success(r1) =>
        RunAppend(r1, a[1..], b);
        assert Run(r, a) == Run(r1, a[1..]);
        assert Run(r, a + b) == Run(r1, a[1..] + b);
      case Failure(e) =>
        assert Run(r, a) == Failure(e);
        assert Run(r, a + b) == Failure(e);
    } else {
      assert a + b == b;
    }
  }

  lemma RunPair(r: Reporter, e1: Event, e2: Event, rest: seq<Event>)
    ensures Run(r, [e1, e2] + rest) == (var r1 :- Step(r, e1); var r2 :- Step(r1, e2); Run(r2, rest))
  {
    var evs := [e1, e2] + rest;
    assert evs[0] == e1;
    assert evs[1..] == [e2] + rest;
    assert ([e2] + rest)[0] == e2;
    assert ([e2] + rest)[1..] == rest;
  }

  // ---------------------------------------------------------------------------------
  // Per-spec mode

  function SpecVideoPath(options: Options, spec: SpecRun): string
    requires options.baseDirectory.Some?
  {
    JoinPath(options.baseDirectory.value, Naming.SpecVideoName(spec.result.fullName))
  }

  function Kept(options: Options, spec: SpecRun): bool {
    Retention.KeepVideo(spec.result.status, options.saveSuccessVideos)
  }

  /** The effect log after recording `specs` one video each on top of `log`: per spec a
      spawn, its kill, and a report when the video is kept. */
  function PerSpecLog(options: Options, specs: seq<SpecRun>, log: seq<Effect>): seq<Effect>
    requires options.baseDirectory.Some?
    decreases |specs|
  {
    if |specs| == 0 then log
    else PerSpecLog(options, specs[1..], log + SpecEffects(options, specs[0], |log|))
  }

  /** The files on disk after one spec in per-spec mode: its recording joins them when
      it was written, and its video is deleted unless it is kept. */
  function SpecFiles(options: Options, spec: SpecRun, files: set<string>): set<string>
    requires options.baseDirectory.Some?
  {
    var path := SpecVideoPath(options, spec);
    var disk := OnDisk(files, Some(path), spec.recorded);
    if Kept(options, spec) then disk else disk - {path}
  }

  /** The files on disk after `specs`, one spec after the other. */
  function PerSpecFiles(options: Options, specs: seq<SpecRun>, files: set<string>): set<string>
    requires options.baseDirectory.Some?
    decreases |specs|
  {
    if |specs| == 0 then files
    else PerSpecFiles(options, specs[1..], SpecFiles(options, specs[0], files))
  }

  /** Every spec of `specs` recorded into `p` is kept. */
  predicate AllKeptAt(options: Options, specs: seq<SpecRun>, p: string)
    requires options.baseDirectory.Some?
  {
    forall i :: 0 <= i < |specs| && SpecVideoPath(options, specs[i]) == p ==> Kept(options, specs[i])
  }

  /** Some spec wrote its recording to `p`, and it and every later spec recorded into `p`
      are kept. */
  predicate WrittenAndKeptAt(options: Options, specs: seq<SpecRun>, p: string)
    requires options.baseDirectory.Some?
  {
    exists i :: 0 <= i < |specs| && SpecVideoPath(options, specs[i]) == p && specs[i].recorded
      && AllKeptAt(options, specs[i..], p)
  }

  lemma AllKeptAtCons(options: Options, specs: seq<SpecRun>, p: string)
    requires options.baseDirectory.Some? && |specs| > 0
    ensures AllKeptAt(options, specs, p) <==>
              (SpecVideoPath(options, specs[0]) == p ==> Kept(options, specs[0])) && AllKeptAt(options, specs[1..], p)
  {
    if AllKeptAt(options, specs[1..], p) && (SpecVideoPath(options, specs[0]) == p ==> Kept(options, specs[0])) {
      forall i | 0 <= i < |specs| && SpecVideoPath(options, specs[i]) == p ensures Kept(options, specs[i]) {
        if i > 0 {
          assert specs[1..][i - 1] == specs[i];
        }
      }
    }
    if AllKeptAt(options, specs, p) {
      forall i | 0 <= i < |specs[1..]| && SpecVideoPath(options, specs[1..][i]) == p
        ensures Kept(options, specs[1..][i])
      {
        assert specs[1..][i] == specs[i + 1];
      }
    }
  }

  lemma WrittenAndKeptAtCons(options: Options, specs: seq<SpecRun>, p: string)
    requires options.baseDirectory.Some? && |specs| > 0
    ensures WrittenAndKeptAt(options, specs, p) <==>
              || WrittenAndKeptAt(options, specs[1..], p)
              || (SpecVideoPath(options, specs[0]) == p && specs[0].recorded && AllKeptAt(options, specs, p))
  {
    var tail := specs[1..];
    if WrittenAndKeptAt(options, specs, p) {
      var i :| 0 <= i < |specs| && SpecVideoPath(options, specs[i]) == p && specs[i].recorded
                 && AllKeptAt(options, specs[i..], p);
      if i > 0 {
        assert tail[i - 1] == specs[i] && tail[i - 1..] == specs[i..];
      }
    }
    if WrittenAndKeptAt(options, tail, p) {
      var i :| 0 <= i < |tail| && SpecVideoPath(options, tail[i]) == p && tail[i].recorded
                 && AllKeptAt(options, tail[i..], p);
      assert specs[i + 1] == tail[i] && specs[i + 1..] == tail[i..];
    }
    if SpecVideoPath(options, specs[0]) == p && specs[0].recorded && AllKeptAt(options, specs, p) {
      assert specs[0..] == specs;
    }
  }

  /** The disk after per-spec recording, one path at a time: a file is there at the end
      exactly when it was there before and every spec recorded into it is kept, or some
      spec's recording reached it and that spec and every later one recorded into it are
      kept. A name shared by several specs is decided by the last deletion among them. */
  lemma {:induction false} PerSpecFilesMember(options: Options, specs: seq<SpecRun>, files: set<string>, p: string)
    requires options.baseDirectory.Some?
    ensures p in PerSpecFiles(options, specs, files) <==>
              || (p in files && AllKeptAt(options, specs, p))
              || WrittenAndKeptAt(options, specs, p)
    decreases |specs|
  {
    if |specs| > 0 {
      var files1 := SpecFiles(options, specs[0], files);
      PerSpecFilesMember(options, specs[1..], files1, p);
      AllKeptAtCons(options, specs, p);
      WrittenAndKeptAtCons(options, specs, p);
    }
  }

  /** The effects one spec adds in per-spec mode when its spawn lands at log index `n`. */
  function SpecEffects(options: Options, spec: SpecRun, n: nat): seq<Effect>
    requires options.baseDirectory.Some?
  {
    var path := SpecVideoPath(options, spec);
    [Spawned(options.ffmpegCmd, SpawnArgs(options, path)), Killed(Handle(n))]
    + (if Kept(options, spec) then [Reported(path)] else [])
  }

  /** The reporter after one spec in per-spec mode. */
  function AfterSpec(r: Reporter, spec: SpecRun): Reporter
    requires r.options.baseDirectory.Some?
  {
    r.(files := SpecFiles(r.options, spec, r.files),
       effects := r.effects + SpecEffects(r.options, spec, |r.effects|))
  }

  lemma PerSpecStartStep(r: Reporter, spec: SpecRun)
    requires !r.options.singleVideo && r.options.baseDirectory.Some?
    ensures SpecStarted(r, spec.result, spec.startedAt) == Success(Start(r, SpecVideoPath(r.options, spec)))
  {
  }

  lemma PerSpecDoneStep(r: Reporter, spec: SpecRun)
    requires !r.options.singleVideo && r.options.baseDirectory.Some?
    requires SessionInv(r) && r.process.None?
    ensures SpecDone(Start(r, SpecVideoPath(r.options, spec)), spec.result, spec.doneAt, spec.recorded) == Success(AfterSpec(r, spec))
    ensures SessionInv(AfterSpec(r, spec)) && AfterSpec(r, spec).process.None?
  {
    var path := SpecVideoPath(r.options, spec);
    var remove := !Kept(r.options, spec);
    StartKeepsSession(r, path);
    StopKeepsSession(Start(r, path), remove, spec.recorded);
    StartStopRoundTrip(r, path, remove, spec.recorded);
    var spawnKill := [Spawned(r.options.ffmpegCmd, SpawnArgs(r.options, path)), Killed(Handle(|r.effects|))];
    var report: seq<Effect> := if remove then [] else [Reported(path)];
    assert SpecEffects(r.options, spec, |r.effects|) == spawnKill + report;
    ConcatAssoc(r.effects, spawnKill, report);
  }

  /** One spec in per-spec mode: start to its own file, stop with the keep decision. */
  lemma PerSpecOne(r: Reporter, specs: seq<SpecRun>)
    requires !r.options.singleVideo && r.options.baseDirectory.Some?
    requires SessionInv(r) && r.process.None? && |specs| > 0
    ensures Run(r, SpecEvents(specs)) == Run(AfterSpec(r, specs[0]), SpecEvents(specs[1..]))
    ensures SessionInv(AfterSpec(r, specs[0])) && AfterSpec(r, specs[0]).process.None?
  {
    var s := specs[0];
    PerSpecStartStep(r, s);
    PerSpecDoneStep(r, s);
    RunPair(r, SpecStartedAt(s.result, s.startedAt), SpecDoneAt(s.result, s.doneAt, s.recorded), SpecEvents(specs[1..]));
  }

  /** Recording only appends to the log: two to three entries per spec, the earlier log untouched. */
  lemma {:induction false} PerSpecLogExtends(options: Options, specs: seq<SpecRun>, log: seq<Effect>)
    requires options.baseDirectory.Some?
    ensures var log' := PerSpecLog(options, specs, log);
            && |log| + 2 * |specs| <= |log'| <= |log| + 3 * |specs|
            && log'[..|log|] == log
    decreases |specs|
  {
    if |specs| > 0 {
      var mid := log + SpecEffects(options, specs[0], |log|);
      PerSpecLogExtends(options, specs[1..], mid);
      var log' := PerSpecLog(options, specs[1..], mid);
      assert log'[..|log|] == log'[..|mid|][..|log|];
    }
  }

  lemma ConcatAssoc<T>(a: seq<T>, b: seq<T>, c: seq<T>)
    ensures (a + b) + c == a + (b + c)
  {
  }

  /** In per-spec mode every spec spawns one recording to its own file and kills it when
      done; each written recording joins the disk and each video not kept is deleted, spec
      by spec; subtitles are never touched. */
  lemma {:induction false} PerSpecRun(r: Reporter, specs: seq<SpecRun>)
    requires !r.options.singleVideo && r.options.baseDirectory.Some?
    requires SessionInv(r) && r.process.None?
    ensures Run(r, SpecEvents(specs)).Success?
    ensures var r' := Run(r, SpecEvents(specs)).value;
            && SessionInv(r') && r'.process.None?
            && r'.effects == PerSpecLog(r.options, specs, r.effects)
            && r'.files == PerSpecFiles(r.options, specs, r.files)
            && r' == r.(effects := r'.effects, files := r'.files)
    decreases |specs|
  {
    if |specs| > 0 {
      var r2 := AfterSpec(r, specs[0]);
      PerSpecOne(r, specs);
      PerSpecRun(r2, specs[1..]);
    }
  }

  /** After a per-spec run a file is on disk exactly when it was there before and every
      spec recorded into it is kept, or some spec's recording reached it and that spec and
      every later spec recorded into it are kept. */
  lemma PerSpecRunFiles(r: Reporter, specs: seq<SpecRun>, p: string)
    requires !r.options.singleVideo && r.options.baseDirectory.Some?
    requires SessionInv(r) && r.process.None?
    ensures Run(r, SpecEvents(specs)).Success?
    ensures p in Run(r, SpecEvents(specs)).value.files <==>
              || (p in r.files && AllKeptAt(r.options, specs, p))
              || WrittenAndKeptAt(r.options, specs, p)
  {
    PerSpecRun(r, specs);
    PerSpecFilesMember(r.options, specs, r.files, p);
  }

  /** A spec that is not kept, with no later spec recorded to the same path, leaves
      nothing at that path, whatever the earlier specs did. */
  lemma LastUnkeptDeletes(options: Options, specs: seq<SpecRun>, i: nat, p: string)
    requires options.baseDirectory.Some?
    requires i < |specs| && SpecVideoPath(options, specs[i]) == p && !Kept(options, specs[i])
    requires forall j :: i < j < |specs| ==> SpecVideoPath(options, specs[j]) != p
    ensures !AllKeptAt(options, specs, p) && !WrittenAndKeptAt(options, specs, p)
  {
    forall k | 0 <= k <= i ensures !AllKeptAt(options, specs[k..], p) {
      assert specs[k..][i - k] == specs[i];
    }
  }

  /** A spec whose recording was written and is kept, with no later spec recorded to the
      same path, leaves its video at that path. */
  lemma LastWrittenKeptStays(options: Options, specs: seq<SpecRun>, i: nat, p: string)
    requires options.baseDirectory.Some?
    requires i < |specs| && SpecVideoPath(options, specs[i]) == p && specs[i].recorded && Kept(options, specs[i])
    requires forall j :: i < j < |specs| ==> SpecVideoPath(options, specs[j]) != p
    ensures WrittenAndKeptAt(options, specs, p)
  {
    forall j | 0 <= j < |specs[i..]| && SpecVideoPath(options, specs[i..][j]) == p
      ensures Kept(options, specs[i..][j])
    {
      assert specs[i..][j] == specs[i + j];
    }
  }

  /** The disk part of the scenario below, on the file sets alone. */
  lemma PerSpecScenarioFiles(o: Options, specs: seq<SpecRun>, files: set<string>)
    requires o.baseDirectory.Some? && !o.saveSuccessVideos && |specs| == 3
    requires specs[0].result.status == Retention.Passed
    requires specs[1].result.status == Retention.Failed && specs[1].recorded
    requires specs[2].result.status == Retention.Pending
    requires var passed, failed, pending := SpecVideoPath(o, specs[0]), SpecVideoPath(o, specs[1]), SpecVideoPath(o, specs[2]);
             passed != failed && failed != pending && passed != pending
    ensures var passed, failed, pending := SpecVideoPath(o, specs[0]), SpecVideoPath(o, specs[1]), SpecVideoPath(o, specs[2]);
            PerSpecFiles(o, specs, files) * {passed, failed, pending} == {failed}
  {
    var passed, failed, pending := SpecVideoPath(o, specs[0]), SpecVideoPath(o, specs[1]), SpecVideoPath(o, specs[2]);
    var files' := PerSpecFiles(o, specs, files);
    PerSpecFilesMember(o, specs, files, passed);
    PerSpecFilesMember(o, specs, files, failed);
    PerSpecFilesMember(o, specs, files, pending);
    LastUnkeptDeletes(o, specs, 0, passed);
    LastWrittenKeptStays(o, specs, 1, failed);
    LastUnkeptDeletes(o, specs, 2, pending);
    assert passed !in files' && failed in files' && pending !in files';
  }

  /** Three specs that pass, fail and are pending, without `saveSuccessVideos`: when the
      failed spec's recording was written, of their three videos only that one is on disk
      afterwards, whatever was there before. */
  lemma PerSpecScenario(r: Reporter, specs: seq<SpecRun>)
    requires !r.options.singleVideo && r.options.baseDirectory.Some? && !r.options.saveSuccessVideos
    requires SessionInv(r) && r.process.None?
    requires |specs| == 3
    requires specs[0].result.status == Retention.Passed
    requires specs[1].result.status == Retention.Failed && specs[1].recorded
    requires specs[2].result.status == Retention.Pending
    requires var passed, failed, pending := SpecVideoPath(r.options, specs[0]), SpecVideoPath(r.options, specs[1]),
                                            SpecVideoPath(r.options, specs[2]);
             passed != failed && failed != pending && passed != pending
    ensures Run(r, SpecEvents(specs)).Success?
    ensures var passed, failed, pending := SpecVideoPath(r.options, specs[0]), SpecVideoPath(r.options, specs[1]),
                                           SpecVideoPath(r.options, specs[2]);
            Run(r, SpecEvents(specs)).value.files * {passed, failed, pending} == {failed}
  {
    PerSpecRun(r, specs);
    PerSpecScenarioFiles(r.options, specs, r.files);
  }

  /** `jasmineStarted` and `jasmineDone` do nothing in per-spec mode, so a whole run is its specs. */
  lemma PerSpecWholeRun(r: Reporter, t0: int, specs: seq<SpecRun>, recorded: bool)
    requires !r.options.singleVideo && r.options.baseDirectory.Some?
    requires SessionInv(r) && r.process.None?
    ensures Run(r, RunEvents(t0, specs, recorded)) == Run(r, SpecEvents(specs))
  {
    RunWhole(r, t0, specs, recorded);
    PerSpecRun(r, specs);
  }

  /** Keeping the video of one spec: after `specDone` the video is on disk exactly when it
      was written and is kept; a removed one is gone whether or not it was ever written. */
  lemma SpecDoneKeepsIffDecided(r: Reporter, spec: SpecResult, now: int, recorded: bool)
    requires !r.options.singleVideo && SessionInv(r) && r.process.Some?
    ensures SpecDone(r, spec, now, recorded).Success?
    ensures r.videoPath.value in SpecDone(r, spec, now, recorded).value.files <==>
              (r.videoPath.value in r.files || recorded) && Retention.KeepVideo(spec.status, r.options.saveSuccessVideos)
  {
  }

  // ---------------------------------------------------------------------------------
  // Single-video mode

  /** The cues a run timed from `t0` builds for `specs`, numbered from `base + 1`. */
  function ExpectedCues(t0: int, specs: seq<SpecRun>, base: nat): (cues: seq<Cue>)
    ensures |cues| == |specs|
  {
    seq(|specs|, i requires 0 <= i < |specs| =>
      Cue(base + i + 1, specs[i].startedAt - t0, specs[i].doneAt - t0,
          SubtitleText(specs[i].result.status, specs[i].result.description)))
  }

  lemma ExpectedCuesCons(t0: int, specs: seq<SpecRun>, base: nat)
    requires |specs| > 0
    ensures ExpectedCues(t0, specs, base) == ExpectedCues(t0, specs[..1], base) + ExpectedCues(t0, specs[1..], base + 1)
  {
    var whole, head, tail := ExpectedCues(t0, specs, base), ExpectedCues(t0, specs[..1], base), ExpectedCues(t0, specs[1..], base + 1);
    assert head == [whole[0]];
    assert tail == whole[1..] by {
      forall i | 0 <= i < |tail| ensures tail[i] == whole[i + 1] {
        assert specs[1..][i] == specs[i + 1];
      }
    }
    assert whole == [whole[0]] + whole[1..];
  }

  /** The reporter after one spec of a single-video run with subtitles. */
  function AfterCue(r: Reporter, spec: SpecRun): Reporter
    requires r.timeline.Some?
  {
    var t := r.timeline.value;
    r.(timeline := Some(Timeline(t.origin, t.cues + ExpectedCues(t.origin, [spec], |t.cues|))),
       current := Some(Open(t.cues, t.origin, spec.startedAt)),
       aliases := 1)
  }

  lemma SingleStartStep(r: Reporter, spec: SpecRun)
    requires r.options.singleVideo && r.options.createSubtitles && r.timeline.Some?
    ensures SpecStarted(r, spec.result, spec.startedAt)
            == Success(r.(current := Some(Open(r.timeline.value.cues, r.timeline.value.origin, spec.startedAt)), aliases := 0))
  {
  }

  lemma SingleDoneStep(r: Reporter, spec: SpecRun)
    requires r.options.singleVideo && r.options.createSubtitles && r.timeline.Some?
    ensures var t := r.timeline.value;
            SpecDone(r.(current := Some(Open(t.cues, t.origin, spec.startedAt)), aliases := 0), spec.result, spec.doneAt, spec.recorded)
            == Success(AfterCue(r, spec))
  {
    var t := r.timeline.value;
    var cue := Seal(Open(t.cues, t.origin, spec.startedAt), t.origin, spec.doneAt, spec.result.status, spec.result.description);
    assert ExpectedCues(t.origin, [spec], |t.cues|) == [cue];
  }

  lemma SingleSpecOne(r: Reporter, specs: seq<SpecRun>)
    requires r.options.singleVideo && r.options.createSubtitles && r.timeline.Some? && |specs| > 0
    ensures Run(r, SpecEvents(specs)) == Run(AfterCue(r, specs[0]), SpecEvents(specs[1..]))
  {
    var s := specs[0];
    SingleStartStep(r, s);
    SingleDoneStep(r, s);
    RunPair(r, SpecStartedAt(s.result, s.startedAt), SpecDoneAt(s.result, s.doneAt, s.recorded), SpecEvents(specs[1..]));
  }

  /** With subtitles, the specs of a single-video run never spawn or kill and append one
      cue each, in order, numbered after the cues already there. */
  lemma {:induction false} SingleVideoSpecs(r: Reporter, specs: seq<SpecRun>)
    requires r.options.singleVideo && r.options.createSubtitles && r.timeline.Some?
    ensures Run(r, SpecEvents(specs)).Success?
    ensures var r' := Run(r, SpecEvents(specs)).value;
            var t := r.timeline.value;
            && r'.timeline == Some(Timeline(t.origin, t.cues + ExpectedCues(t.origin, specs, |t.cues|)))
            && r'.effects == r.effects && r'.files == r.files && r'.written == r.written
            && r'.videoPath == r.videoPath && r'.process == r.process && r'.options == r.options
    decreases |specs|
  {
    var t := r.timeline.value;
    if |specs| == 0 {
      assert t.cues + ExpectedCues(t.origin, specs, |t.cues|) == t.cues;
    } else {
      var r2 := AfterCue(r, specs[0]);
      SingleSpecOne(r, specs);
      SingleVideoSpecs(r2, specs[1..]);
      ExpectedCuesCons(t.origin, specs, |t.cues|);
      assert specs[..1] == [specs[0]];
      ConcatAssoc(t.cues, ExpectedCues(t.origin, [specs[0]], |t.cues|), ExpectedCues(t.origin, specs[1..], |t.cues| + 1));
    }
  }

  /** Without subtitles, the specs of a single-video run change nothing. */
  lemma {:induction false} SingleVideoSpecsSilent(r: Reporter, specs: seq<SpecRun>)
    requires r.options.singleVideo && !r.options.createSubtitles
    ensures Run(r, SpecEvents(specs)) == Success(r)
    decreases |specs|
  {
    if |specs| > 0 {
      var s := specs[0];
      RunPair(r, SpecStartedAt(s.result, s.startedAt), SpecDoneAt(s.result, s.doneAt, s.recorded), SpecEvents(specs[1..]));
      SingleVideoSpecsSilent(r, specs[1..]);
    }
  }

  /** A whole run is `jasmineStarted`, then the specs, then `jasmineDone`. */
  lemma RunWhole(r: Reporter, t0: int, specs: seq<SpecRun>, recorded: bool)
    ensures Run(r, RunEvents(t0, specs, recorded))
            == (var r1 :- JasmineStarted(r, t0); var r2 :- Run(r1, SpecEvents(specs)); JasmineDone(r2, recorded))
  {
    RunAppend(r, [JasmineStartedAt(t0)] + SpecEvents(specs), [JasmineDoneAt(recorded)]);
    RunAppend(r, [JasmineStartedAt(t0)], SpecEvents(specs));
    assert Run(r, [JasmineStartedAt(t0)]) == JasmineStarted(r, t0) by {
      assert [JasmineStartedAt(t0)][1..] == [];
    }
    forall r2: Reporter ensures Run(r2, [JasmineDoneAt(recorded)]) == JasmineDone(r2, recorded) {
      assert [JasmineDoneAt(recorded)][1..] == [];
    }
  }

  /** `jasmineStarted` of a single-video run starts the one recording of the run. */
  lemma SingleVideoOpen(r: Reporter, t0: int)
    requires r.options.singleVideo && r.options.baseDirectory.Some?
    requires SessionInv(r) && r.process.None?
    ensures JasmineStarted(r, t0).Success?
    ensures var r1 := JasmineStarted(r, t0).value;
            var video := JoinPath(r.options.baseDirectory.value, RunVideoName);
            && SessionInv(r1) && r1.options == r.options
            && r1.process == Some(Handle(|r.effects|)) && r1.videoPath == Some(video)
            && r1.effects == r.effects + [Spawned(r.options.ffmpegCmd, SpawnArgs(r.options, video))]
            && r1.files == r.files && r1.written == r.written
            && (r.options.createSubtitles ==> r1.timeline == Some(Timeline(t0, [])))
  {
    StartKeepsSession(r, JoinPath(r.options.baseDirectory.value, RunVideoName));
  }

  /** `jasmineDone` of a single-video run stops the recording, keeps the video, and with
      subtitles writes the cue list beside it. */
  lemma SingleVideoClose(r: Reporter, before: seq<Effect>, video: string, recorded: bool)
    requires r.options.singleVideo && r.options.baseDirectory.Some?
    requires SessionInv(r) && r.process == Some(Handle(|before|)) && r.videoPath == Some(video)
    requires r.effects == before + [Spawned(r.options.ffmpegCmd, SpawnArgs(r.options, video))]
    requires r.options.createSubtitles ==> r.timeline.Some?
    ensures JasmineDone(r, recorded).Success?
    ensures var r' := JasmineDone(r, recorded).value;
            var srt := JoinPath(r.options.baseDirectory.value, SubtitlesName);
            var disk := OnDisk(r.files, Some(video), recorded);
            && SessionInv(r') && r'.process.None?
            && r'.effects == before + [Spawned(r.options.ffmpegCmd, SpawnArgs(r.options, video)),
                                       Killed(Handle(|before|)), Reported(video)]
            && (r.options.createSubtitles ==>
                  r'.files == disk + {srt} && r'.written == r.written[srt := r.timeline.value.cues])
            && (!r.options.createSubtitles ==> r'.files == disk && r'.written == r.written)
  {
    var spawn := Spawned(r.options.ffmpegCmd, SpawnArgs(r.options, video));
    assert before + [spawn] + [Killed(Handle(|before|))] + [Reported(video)]
        == before + [spawn, Killed(Handle(|before|)), Reported(video)];
    var e := JasmineDone(r, recorded).value.effects;
    assert e[..|e| - 1] == r.effects + [Killed(Handle(|before|))];
    assert e[..|e| - 1][..|e| - 2] == r.effects;
  }

  /** A single-video run records one video at the fixed run name, spawned once and killed
      once at the end and always kept, so it is on disk afterwards when ffmpeg wrote it; with
      subtitles it also writes one cue per spec, in run order, to the subtitle file beside it. */
  lemma SingleVideoRun(r: Reporter, t0: int, specs: seq<SpecRun>, recorded: bool)
    requires r.options.singleVideo && r.options.baseDirectory.Some?
    requires SessionInv(r) && r.process.None?
    ensures Run(r, RunEvents(t0, specs, recorded)).Success?
    ensures var r' := Run(r, RunEvents(t0, specs, recorded)).value;
            var base := r.options.baseDirectory.value;
            var video := JoinPath(base, RunVideoName);
            var srt := JoinPath(base, SubtitlesName);
            var disk := if recorded then r.files + {video} else r.files;
            && SessionInv(r') && r'.process.None?
            && r'.effects == r.effects + [Spawned(r.options.ffmpegCmd, SpawnArgs(r.options, video)),
                                          Killed(Handle(|r.effects|)), Reported(video)]
            && (r.options.createSubtitles ==>
                  r'.files == disk + {srt} && r'.written == r.written[srt := ExpectedCues(t0, specs, 0)])
            && (!r.options.createSubtitles ==> r'.files == disk && r'.written == r.written)
  {
    var video := JoinPath(r.options.baseDirectory.value, RunVideoName);
    RunWhole(r, t0, specs, recorded);
    SingleVideoOpen(r, t0);
    var r1 := JasmineStarted(r, t0).value;
    var r2: Reporter;
    if r.options.createSubtitles {
      SingleVideoSpecs(r1, specs);
      r2 := Run(r1, SpecEvents(specs)).value;
      assert r2.timeline.value.cues == ExpectedCues(t0, specs, 0) by {
        assert [] + ExpectedCues(t0, specs, 0) == ExpectedCues(t0, specs, 0);
      }
    } else {
      SingleVideoSpecsSilent(r1, specs);
      r2 := r1;
    }
    SingleVideoClose(r2, r.effects, video, recorded);
  }

  /** A single-video run of two specs with subtitles whose recording was written: one
      recording, one report, the video on disk, and a subtitle file of two cues that read
      back as the two specs' verdicts and descriptions in run order. */
  lemma SingleVideoScenario(r: Reporter, t0: int, specs: seq<SpecRun>)
    requires r.options.singleVideo && r.options.createSubtitles && r.options.baseDirectory.Some?
    requires SessionInv(r) && r.process.None? && |specs| == 2
    ensures Run(r, RunEvents(t0, specs, true)).Success?
    ensures var r' := Run(r, RunEvents(t0, specs, true)).value;
            var video := JoinPath(r.options.baseDirectory.value, RunVideoName);
            var srt := JoinPath(r.options.baseDirectory.value, SubtitlesName);
            && |r'.effects| == |r.effects| + 3
            && video in r'.files
            && srt in r'.files && srt in r'.written && |r'.written[srt]| == 2
            && forall i :: 0 <= i < 2 ==>
                 ParseSubtitleText(r'.written[srt][i].text)
                 == Some((VerdictOf(specs[i].result.status), specs[i].result.description))
  {
    SingleVideoRun(r, t0, specs, true);
    var cues := ExpectedCues(t0, specs, 0);
    forall i | 0 <= i < 2
      ensures ParseSubtitleText(cues[i].text) == Some((VerdictOf(specs[i].result.status), specs[i].result.description))
    {
      ParseSubtitleTextRoundTrip(specs[i].result.status, specs[i].result.description);
    }
  }

  /** Clock readings that never go backwards over a run started at `t0`. */
  predicate ClockOrdered(t0: int, specs: seq<SpecRun>) {
    && (forall i :: 0 <= i < |specs| ==> t0 <= specs[i].startedAt <= specs[i].doneAt)
    && (forall i :: 0 <= i < |specs| - 1 ==> specs[i].doneAt <= specs[i + 1].startedAt)
  }

  lemma {:induction false} StartsOrdered(t0: int, specs: seq<SpecRun>, i: int, j: int)
    requires ClockOrdered(t0, specs) && 0 <= i <= j < |specs|
    ensures specs[i].startedAt <= specs[j].startedAt
    decreases j - i
  {
    if i < j {
      StartsOrdered(t0, specs, i, j - 1);
      assert specs[j - 1].startedAt <= specs[j - 1].doneAt <= specs[j].startedAt;
    }
  }

  /** The written cues are numbered 1..n in run order, and with a clock that never goes
      backwards every cue ends no earlier than it starts and start times never decrease. */
  lemma ExpectedCuesWellFormed(t0: int, specs: seq<SpecRun>)
    ensures Numbered(ExpectedCues(t0, specs, 0))
    ensures ClockOrdered(t0, specs) ==> Timed(ExpectedCues(t0, specs, 0))
  {
    var cues := ExpectedCues(t0, specs, 0);
    if ClockOrdered(t0, specs) {
      forall i, j | 0 <= i <= j < |cues| ensures cues[i].startTime <= cues[j].startTime {
        StartsOrdered(t0, specs, i, j);
      }
    }
  }

  /** `specDone` twice without a `specStarted` between pushes the same subtitle object
      twice: the first entry is rewritten with the second spec's end time and text. */
  lemma RepeatedSpecDoneRewritesCue(r: Reporter, a: SpecResult, b: SpecResult, t1: int, t2: int, t3: int, w: bool)
    requires r.options.singleVideo && r.options.createSubtitles && r.timeline.Some?
    ensures Run(r, [SpecStartedAt(a, t1), SpecDoneAt(a, t2, w), SpecDoneAt(b, t3, w)]).Success?
    ensures var t := r.timeline.value;
            var cue := Seal(Open(t.cues, t.origin, t1), t.origin, t3, b.status, b.description);
            Run(r, [SpecStartedAt(a, t1), SpecDoneAt(a, t2, w), SpecDoneAt(b, t3, w)]).value.timeline
              == Some(Timeline(t.origin, t.cues + [cue, cue]))
  {
    var t := r.timeline.value;
    var s := SpecRun(a, t1, t2, w);
    SingleStartStep(r, s);
    SingleDoneStep(r, s);
    RunPair(r, SpecStartedAt(a, t1), SpecDoneAt(a, t2, w), [SpecDoneAt(b, t3, w)]);
    assert [SpecStartedAt(a, t1), SpecDoneAt(a, t2, w)] + [SpecDoneAt(b, t3, w)]
        == [SpecStartedAt(a, t1), SpecDoneAt(a, t2, w), SpecDoneAt(b, t3, w)];
    var r2 := AfterCue(r, s);
    assert Run(r2, [SpecDoneAt(b, t3, w)]) == SpecDone(r2, b, t3, w) by {
      assert [SpecDoneAt(b, t3, w)][1..] == [];
    }
    var cue := Seal(Open(t.cues, t.origin, t1), t.origin, t3, b.status, b.description);
    PushCurrentOnce(t.cues, ExpectedCues(t.origin, [s], |t.cues|), cue);
  }

  /** Pushing the current subtitle while it is the last entry rewrites that entry too. */
  lemma PushCurrentOnce(cues: seq<Cue>, last: seq<Cue>, cue: Cue)
    requires |last| == 1
    ensures PushCurrent(cues + last, 1, cue) == cues + [cue, cue]
  {
    assert (cues + last)[..|cues|] == cues;
  }
}
