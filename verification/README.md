# protractor-video-reporter, modelled in Dafny

This project models `lib/VideoReporter.js`, a Jasmine reporter for Protractor. The
reporter records the screen with ffmpeg while end-to-end specs run. It has two modes:

- **Per-spec mode** (`singleVideo` off). Every spec is recorded into its own `.mov` file,
  named after the spec's full name. When the spec is done, the file is kept or deleted
  according to the spec's status and `saveSuccessVideos`.
- **Single-video mode** (`singleVideo` on, the default). One recording spans the whole
  run. With `createSubtitles`, every spec also adds a subtitle cue: a number, start and
  end times relative to the run start, and a coloured status tag followed by the spec
  description. The cue list is written beside the video when the run ends.

The modules follow the source's structure:

| module | file | what it holds |
|---|---|---|
| `Wrappers` | `wrappers.dfy` | `Option` and `Result` |
| `Naming` | `naming.dfy` | `specVideoName`: whitespace runs to '-', lower-casing, the `.mov` suffix |
| `Retention` | `retention.dfy` | the keep-or-remove decision of `specDone` |
| `Subtitles` | `subtitles.dfy` | cue text, cue numbering and timing |
| `Options` | `options.dfy` | the `_.defaults` merge of the constructor |
| `Screencast` | `screencast.dfy` | reporter state, `_startScreencast`, `_stopScreencast`, `fileExists` |
| `VideoReporter` | `reporter.dfy` | the four callbacks and whole-run traces in both modes |

How the outside world is represented:

- **ffmpeg and the console.** These are an effect log: `Spawned(cmd, args)`, `Killed(handle)`
  and `Reported(path)`. `Reported(path)` stands for the "Spec video is in:" console line.
  A process handle is the index of its spawn entry in the log.
- **The file system.** It is a set of paths. The reporter deletes videos from it and adds
  the subtitle file, recorded as the cue list written to its path. ffmpeg writes its
  output file asynchronously while it runs. Whether that file has reached the disk by the
  time the process is killed is an input of the stop, `recorded`, like a clock reading.
  When it is true, the video's path joins the set just before the reporter decides whether
  to delete it. The environment changes the set in no other way. In a run trace,
  `SpecDoneAt` and `JasmineDoneAt` events carry this flag.
- **The clock.** Every callback takes its clock reading (milliseconds) as a parameter.
- **`process.env.DISPLAY`.** It is the `display` parameter of the option merge.
- **Exceptions.** A JavaScript exception (a `TypeError` from a null process, an undefined
  list or an undefined `baseDirectory`) is a `Failure` carrying a `Fault`. It is not a
  precondition.
- **Subtitle aliasing.** `specDone` pushes the current subtitle object itself onto the
  list. A second `specDone` without a `specStarted` in between therefore changes entries
  already in the list. The state models this with an `aliases` count.

## Model

`specVideoName` (lines 15-17) is modelled by `Naming.SpecVideoName`, whose properties are
the `Naming.SpecVideoName*` rows. `fileExists` (lines 19-29) is modelled by
`Screencast.FileExists`, membership in the set of files; its use is stated by
`Screencast.Stop` and `Screencast.StopRemovalDeletesOnlyVideo`.

| member | source | states |
|---|---|---|
| Naming.ReplaceSpaceRuns | lib/VideoReporter.js:16 | The global `/\s+/` replacement leaves no whitespace (JavaScript's `\s` set), never lengthens the name, and a trailing whitespace run ends the result in '-' |
| Naming.ReplaceSpaceRunsIsCollapse | lib/VideoReporter.js:16 | The left-to-right scan equals an independent definition that replaces each maximal whitespace run with one '-' at once |
| Naming.ReplaceSpaceRunsKeepsOthers | lib/VideoReporter.js:16 | Every character that is neither whitespace nor '-' survives the replacement, in the same order |
| Naming.ReplaceSpaceRunsDashCount | lib/VideoReporter.js:16 | The result has exactly one more '-' than the name for each maximal whitespace run |
| Naming.ReplaceSpaceRunsFixpoint | lib/VideoReporter.js:16 | A name without whitespace is left unchanged |
| Naming.ToLowerShape | lib/VideoReporter.js:16 | `toLowerCase` keeps the length, leaves no 'A'..'Z', keeps other characters in place and maps each upper-case letter to its lower-case partner |
| Naming.ToLowerIdempotent | lib/VideoReporter.js:16 | A name with no upper-case letter is its own lower case, and lower-casing twice equals lower-casing once |
| Naming.SpecVideoNameShape | lib/VideoReporter.js:15-17 | A spec video name is the replaced name's length plus 4, ends in ".mov", and has no whitespace and no upper-case letter |
| Naming.SpecVideoNameStem | lib/VideoReporter.js:15-17 | The name before ".mov" is the lower case of the full name with each whitespace run collapsed to one '-' |
| Naming.SpecVideoNameOfNormalName | lib/VideoReporter.js:15-17 | A full name already free of whitespace and upper case only gains ".mov" |
| Naming.SpecVideoNameIgnoresRunShape | lib/VideoReporter.js:15-17 | Full names that differ only in how their whitespace runs are spelt share one video file |
| Retention.KeepVideo | lib/VideoReporter.js:149-150 | A video is kept only for a failed or passed spec: always for a failed one, and for a passed one exactly when `saveSuccessVideos` is set |
| Retention.KeepVideoTable | lib/VideoReporter.js:149-150 | Pending, disabled and every other status other than failed and passed remove the video |
| Retention.KeepVideoMonotone | lib/VideoReporter.js:149-150 | Setting `saveSuccessVideos` never removes a video that would be kept, and it changes the decision only for passed specs |
| Subtitles.SubtitleText | lib/VideoReporter.js:156-168 | The cue text is the status tag, one space, then the whole description; an untagged status gives a leading space only |
| Subtitles.ParseSubtitleTextRoundTrip | lib/VideoReporter.js:156-168 | Every cue text reads back as its status's verdict (green SUCCESS, red FAILED, yellow PENDING, none) and the exact description |
| Subtitles.SubtitleTextInjective | lib/VideoReporter.js:156-168 | Equal cue texts come from equal descriptions with the same verdict |
| Subtitles.Open | lib/VideoReporter.js:139-142 | `specStarted` opens a cue numbered one past the list length, starting at the clock minus the run start |
| Subtitles.Seal | lib/VideoReporter.js:154-169 | `specDone` keeps the cue's number and start, ends it at the clock minus the run start, and gives it a text that reads back as the status's verdict and the description |
| Subtitles.OpenSealKeepsTimeline | lib/VideoReporter.js:139-171 | Opening and sealing a cue at non-decreasing clock readings keeps the list numbered 1..n, each cue ending no earlier than it starts, with start times in order |
| Options.WithDefaults | lib/VideoReporter.js:35-49 | A field the user gives wins; a missing one defaults to no success videos, single video, subtitles, `ffmpeg`, and the X11-grab argument list `-y -r 30 -f x11grab -s 1024x768 -i <display> -g 300 -vcodec qtrle` |
| Options.WithDefaultsIdempotent | lib/VideoReporter.js:35-49 | Merging the merged options again, under any display, changes nothing |
| Screencast.SpawnArgs | lib/VideoReporter.js:86-87 | The spawn arguments are the configured ones, unchanged, followed by the output path |
| Screencast.Init | lib/VideoReporter.js:31-74 | A new reporter holds the given options and files, has no recording, no subtitle list, no current subtitle, an empty log and nothing written, and satisfies the session invariant |
| Screencast.Start | lib/VideoReporter.js:76-104 | `_startScreencast` stores the path, makes the new spawn the current process, logs one spawn of the configured command with the path appended, and changes nothing else |
| Screencast.Stop | lib/VideoReporter.js:107-129 | `_stopScreencast` fails exactly when no process runs. Otherwise it logs the kill, and the video joins the disk if ffmpeg wrote it. The video is then deleted when removal is asked and reported otherwise, and the path and the process are cleared |
| Screencast.StopRemovalDeletesOnlyVideo | lib/VideoReporter.js:113-118 | After a stop with removal, `fileExists` holds of a path exactly when it held before and the path is not the session's video, whether or not the video was ever written |
| Screencast.StartKeepsSession | lib/VideoReporter.js:76-90 | Starting an idle session keeps the invariant: a path is stored exactly while a process runs, and that process is the last one spawned, writing to that path |
| Screencast.StopKeepsSession | lib/VideoReporter.js:107-129 | Stopping a recording session succeeds, keeps the invariant and leaves the session idle |
| Screencast.DoubleStartLeaks | lib/VideoReporter.js:76-129 | Starting a session that is already recording overwrites the running process and breaks the invariant; the stop that follows succeeds and ends idle, but leaves the earlier spawn with no matching kill in the log |
| Screencast.StartStopRoundTrip | lib/VideoReporter.js:76-129 | Start then stop returns an idle session to its state, with one spawn and its kill. A kept video is reported and is on disk when ffmpeg wrote it; a removed one is gone |
| VideoReporter.PushCurrent | lib/VideoReporter.js:171 | Pushing the current subtitle appends it, and also rewrites the entries at the end of the list that are the same object |
| VideoReporter.JasmineStarted | lib/VideoReporter.js:175-186 | Does nothing in per-spec mode. In single-video mode it fails exactly without a base directory. Otherwise it starts recording `protractor-specs.mov`, the new spawn becomes the current process, and with subtitles it starts an empty cue list timed from now. Nothing else changes |
| VideoReporter.SpecStarted | lib/VideoReporter.js:132-144 | Per spec: fails exactly without a base directory. Otherwise it starts recording to the spec's video name, the new spawn becomes the current process, and nothing else changes. Single video with subtitles: fails exactly without a cue list, otherwise opens a fresh cue object that no list entry shares; nothing else changes. Single video without subtitles: does nothing |
| VideoReporter.SpecDone | lib/VideoReporter.js:146-173 | Per spec: fails exactly when nothing records. Otherwise it logs the kill of the current process, plus the report line exactly when the video is kept. A file is on disk afterwards exactly when it was there or is the written video, and it is not the video or the video is kept. Nothing else changes. Single video with subtitles: fails exactly without an open cue or a list. Otherwise it pushes the sealed cue, rewriting the aliased entries at the end of the list, and keeps the same current subtitle object; with no alias it simply appends the cue. Nothing but the list changes. Single video without subtitles: does nothing |
| VideoReporter.JasmineDone | lib/VideoReporter.js:188-201 | Does nothing in per-spec mode. In single-video mode it stops and keeps the recording with a report, and the video is on disk when ffmpeg wrote it. With subtitles it writes the cue list to `protractor-specs.srt`; without them nothing is written. Nothing else changes |
| VideoReporter.PerSpecRun | lib/VideoReporter.js:132-151 | A per-spec run of any specs succeeds and ends idle. Each spec logs a spawn to its own file and its kill, plus a report when kept. Spec by spec, each written recording joins the disk and each video not kept is deleted; nothing else changes |
| VideoReporter.PerSpecLogExtends | lib/VideoReporter.js:132-151 | Recording specs only appends to the effect log, two or three entries per spec |
| VideoReporter.PerSpecRunFiles | lib/VideoReporter.js:146-151 | After a per-spec run a file is on disk exactly when it was there before and every spec recorded into it was kept, or some spec wrote it and that spec and every later spec recorded into it were kept |
| VideoReporter.PerSpecFilesMember | lib/VideoReporter.js:146-151 | The spec-by-spec disk fold equals an independent per-path description: there before and all kept, or written by some spec and kept by it and every later spec at that path |
| VideoReporter.LastUnkeptDeletes | lib/VideoReporter.js:146-151 | When the last spec recorded to a path is not kept, nothing is left at that path, whatever earlier specs did |
| VideoReporter.LastWrittenKeptStays | lib/VideoReporter.js:146-151 | When the last spec recorded to a path wrote its video and is kept, the video is at that path |
| VideoReporter.PerSpecScenario | lib/VideoReporter.js:146-151 | Specs that pass, fail and are pending, without `saveSuccessVideos`, leave only the failed spec's video of the three on disk once its recording was written |
| VideoReporter.PerSpecWholeRun | lib/VideoReporter.js:175-201 | In per-spec mode the run-level callbacks do nothing, so a whole run is its specs |
| VideoReporter.SpecDoneKeepsIffDecided | lib/VideoReporter.js:146-151 | After `specDone` the spec's video is on disk exactly when it was written and the keep decision says keep |
| VideoReporter.SingleVideoSpecs | lib/VideoReporter.js:138-172 | In single-video mode with subtitles, specs never touch the recording and append one cue each, in order, numbered after the existing ones |
| VideoReporter.SingleVideoSpecsSilent | lib/VideoReporter.js:132-173 | In single-video mode without subtitles, the spec callbacks change nothing |
| VideoReporter.SingleVideoRun | lib/VideoReporter.js:175-201 | A single-video run spawns one recording to `protractor-specs.mov`, kills it at the end, keeps and reports it, and the video is on disk afterwards when ffmpeg wrote it. With subtitles it writes exactly the expected cues to `protractor-specs.srt` |
| VideoReporter.SingleVideoScenario | lib/VideoReporter.js:138-201 | A two-spec run with subtitles whose recording was written logs three effects, leaves the video on disk, and writes two cues that read back as the two specs' verdicts and descriptions, in run order |
| VideoReporter.ExpectedCuesWellFormed | lib/VideoReporter.js:139-171 | The written cues are numbered 1..n; with a clock that never goes backwards each ends no earlier than it starts and the start times are in order |
| VideoReporter.RepeatedSpecDoneRewritesCue | lib/VideoReporter.js:153-171 | Two `specDone` calls after one `specStarted` push the same subtitle twice, so the first entry takes the second spec's end time and text |

## Behaviour of the code worth knowing

- **Double start.** `_startScreencast` does not check for a running process. A start while
  recording overwrites the stored process handle, and `Screencast.Start` does the same.
  `Screencast.DoubleStartLeaks` shows that the stop that follows kills only the new
  process, so the earlier spawn is never matched by a kill.
- **Deleting a missing video.** `_stopScreencast` always checks `fileExists` before it
  deletes. There is one removal path, and it leaves a missing file alone.
- **Subtitle tags.** For passed, failed and pending specs the cue text starts with a
  literal `<font color="...">` tag for the status, not a bare status word. Any other
  status gives no tag, so the text starts with the space before the description.

## Left out

- **Validation.** Joi validation in the constructor is left out: unknown keys and
  ill-typed values are not rejected. The `Options` types admit only the shapes the schema
  allows, with string or number ffmpeg arguments.
- **Number arguments.** Numeric ffmpeg arguments are unbounded integers, not JavaScript
  doubles.
- **Creating the directory.** `Mkdirp.sync` is left out. The model cannot observe that the
  directory exists.
- **Process listeners.** The ffmpeg stdout, stderr and close listeners, and all `debug`
  output, are left out. They only log.
- **Path joining.** `Path.join` is plain concatenation with '/', without normalisation.
- **Video contents.** A video is either on disk when ffmpeg is killed or it is not. Its
  contents, and a file that reaches the disk only after the kill, are not modelled.
- **SRT rendering.** `SubtitlesParser.toSrt` is left out. The subtitle file is recorded as
  the cue list it renders.
- **Real time.** The clock is a parameter, and `new Date()` differences are integer
  milliseconds.
- **State after an exception.** A callback that throws returns a `Failure`, and the state
  it had already changed is dropped. For example, `jasmineDone` kills ffmpeg before a
  missing base directory throws.
- **VideoReporter.JasmineDone:** it treats a missing cue list at `jasmineDone` as a failure.
  Whether `toSrt` throws on an undefined list is not part of this model.
- **Naming.ToLowerShape:** only 'A'..'Z' are lower-cased. `toLowerCase` also maps other
  Unicode upper-case letters, and Dafny strings carry no Unicode case tables.
- **Screencast.FileExists:** the set of files stands for the regular files on disk, so a
  directory at the video path counts as absent, as `isFile()` would.
