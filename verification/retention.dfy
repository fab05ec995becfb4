/** Whether a per-spec video survives its spec (the keep decision of `specDone`). */
module Retention {

  /** Jasmine's spec status strings that the reporter distinguishes. */
  const Passed := "passed"
  const Failed := "failed"
  const Pending := "pending"
  const Disabled := "disabled"

  /** `keepVideo`: failed specs are kept; passed specs only when `saveSuccessVideos`. */
  function KeepVideo(status: string, saveSuccessVideos: bool): (keep: bool)
    ensures keep ==> status == Failed || status == Passed
    ensures status == Failed ==> keep
    ensures status == Passed ==> (keep <==> saveSuccessVideos)
  {
    status == Failed || (status == Passed && saveSuccessVideos)
  }

  /** The decision table row by row: pending, disabled and every other status are removed. */
  lemma KeepVideoTable(save: bool)
    ensures KeepVideo(Failed, save)
    ensures KeepVideo(Passed, save) == save
    ensures !KeepVideo(Pending, save)
    ensures !KeepVideo(Disabled, save)
    ensures forall s :: s != Failed && s != Passed ==> !KeepVideo(s, save)
  {
  }

  /** Turning `saveSuccessVideos` on never discards a video that would otherwise be kept,
      and it changes the decision for passed specs only. */
  lemma KeepVideoMonotone(status: string)
    ensures KeepVideo(status, false) ==> KeepVideo(status, true)
    ensures KeepVideo(status, false) != KeepVideo(status, true) ==> status == Passed
  {
  }
}
