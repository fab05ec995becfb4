/** Subtitle cues of the single-video mode: their text, their numbering and their timing. */
module Subtitles {
  import opened Wrappers
  import Retention

  /** The three statuses that get a coloured tag, and everything else. */
  datatype Verdict = Succeeded | Failed | Pending | Untagged

  function VerdictOf(status: string): Verdict {
    if status == Retention.Passed then Succeeded
    else if status == Retention.Failed then Failed
    else if status == Retention.Pending then Pending
    else Untagged
  }

  /** The HTML font tag the `switch` on the status writes. */
  function Tag(v: Verdict): string {
    match v
    case Succeeded => "<font color=\"green\">SUCCESS</font>"
    case Failed => "<font color=\"red\">FAILED</font>"
    case Pending => "<font color=\"yellow\">PENDING</font>"
    case Untagged => ""
  }

  /** The cue text: the status tag, a space, then the spec description. */
  function SubtitleText(status: string, description: string): (text: string)
    ensures |text| == |Tag(VerdictOf(status))| + 1 + |description|
    ensures text[|text| - |description|..] == description
    ensures VerdictOf(status) == Untagged ==> text == " " + description
  {
    var text := Tag(VerdictOf(status)) + " " + description;
    assert text[|text| - |description|..] == description;
    text
  }

  predicate StartsWith(s: string, prefix: string) {
    |prefix| <= |s| && s[..|prefix|] == prefix
  }

  /** Reads a cue text back into its verdict and description; `None` for a text
      `SubtitleText` cannot produce. */
  function ParseSubtitleText(text: string): Option<(Verdict, string)> {
    if StartsWith(text, Tag(Succeeded) + " ") then Some((Succeeded, text[|Tag(Succeeded)| + 1..]))
    else if StartsWith(text, Tag(Failed) + " ") then Some((Failed, text[|Tag(Failed)| + 1..]))
    else if StartsWith(text, Tag(Pending) + " ") then Some((Pending, text[|Tag(Pending)| + 1..]))
    else if StartsWith(text, " ") then Some((Untagged, text[1..]))
    else None
  }

  lemma ParseTagged(v: Verdict, description: string)
    ensures ParseSubtitleText(Tag(v) + " " + description) == Some((v, description))
  {
    var text := Tag(v) + " " + description;
    var k := |Tag(v)| + 1;
    assert text[..k] == Tag(v) + " ";
    assert text[k..] == description;
    match v
    case Succeeded =>
    case Failed =>
      assert text[13] == 'r' != (Tag(Succeeded) + " ")[13];
    case Pending =>
      assert text[13] == 'y' != (Tag(Succeeded) + " ")[13];
      assert text[13] != (Tag(Failed) + " ")[13];
    case Untagged =>
      assert text[0] == ' ';
      assert text[0] != (Tag(Succeeded) + " ")[0];
      assert text[0] != (Tag(Failed) + " ")[0];
      assert text[0] != (Tag(Pending) + " ")[0];
  }

  /** Every cue text reads back as the verdict of its status and the full description. */
  lemma ParseSubtitleTextRoundTrip(status: string, description: string)
    ensures ParseSubtitleText(SubtitleText(status, description)) == Some((VerdictOf(status), description))
  {
    ParseTagged(VerdictOf(status), description);
  }

  /** Two cues with the same text describe the same spec description with the same tag. */
  lemma SubtitleTextInjective(s1: string, d1: string, s2: string, d2: string)
    requires SubtitleText(s1, d1) == SubtitleText(s2, d2)
    ensures d1 == d2 && VerdictOf(s1) == VerdictOf(s2)
  {
    ParseSubtitleTextRoundTrip(s1, d1);
    ParseSubtitleTextRoundTrip(s2, d2);
  }

  /** A cue `{id, startTime}` opened by `specStarted`, not yet given its end and text. */
  datatype OpenCue = OpenCue(id: int, startTime: int)

  /** A cue as pushed by `specDone`; times are milliseconds since the run started. */
  datatype Cue = Cue(id: int, startTime: int, endTime: int, text: string)

  /** The cue list as the run builds it: numbered 1, 2, ... in order. */
  predicate Numbered(cues: seq<Cue>) {
    forall i :: 0 <= i < |cues| ==> cues[i].id == i + 1
  }

  /** Every cue ends no earlier than it starts, and start times never decrease. */
  predicate Timed(cues: seq<Cue>) {
    && (forall i :: 0 <= i < |cues| ==> 0 <= cues[i].startTime <= cues[i].endTime)
    && (forall i, j :: 0 <= i <= j < |cues| ==> cues[i].startTime <= cues[j].startTime)
  }

  /** The cue `specStarted` opens: id one past the list length, start relative to the run start. */
  function Open(cues: seq<Cue>, origin: int, now: int): (c: OpenCue)
    ensures c.id == |cues| + 1
    ensures c.startTime + origin == now
  {
    OpenCue(|cues| + 1, now - origin)
  }

  /** The cue `specDone` completes from the open one. */
  function Seal(c: OpenCue, origin: int, now: int, status: string, description: string): (cue: Cue)
    ensures cue.id == c.id && cue.startTime == c.startTime
    ensures cue.endTime + origin == now
    ensures ParseSubtitleText(cue.text) == Some((VerdictOf(status), description))
  {
    ParseSubtitleTextRoundTrip(status, description);
    Cue(c.id, c.startTime, now - origin, SubtitleText(status, description))
  }

  /** Opening then sealing a cue at two clock readings no earlier than the last one
      extends a numbered, well-timed list to one that is again numbered and well-timed. */
  lemma OpenSealKeepsTimeline(cues: seq<Cue>, origin: int, t1: int, t2: int, status: string, description: string)
    requires Numbered(cues) && Timed(cues)
    requires origin <= t1 <= t2
    requires |cues| > 0 ==> cues[|cues| - 1].startTime + origin <= t1
    ensures var cues' := cues + [Seal(Open(cues, origin, t1), origin, t2, status, description)];
            Numbered(cues') && Timed(cues')
  {
  }
}
