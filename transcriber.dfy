/** The transcript event that every speech-to-text back end produces
    (voicebots/asr/transcriber.py). */
module Transcriber {
  import opened Wrappers

  /** One unit of transcription progress.  `overwriteChars` is the run of
      spaces a console needs to blank out a longer previous interim line. */
  datatype Transcript = Transcript(
    text: Option<string>,
    isFinal: bool,
    deadlineExceeded: bool := false,
    overwriteChars: string := "")

  /** An event without text is exactly the deadline event, and that event is
      final. */
  predicate WellFormed(t: Transcript) {
    && (t.deadlineExceeded <==> t.text.None?)
    && (t.deadlineExceeded ==> t.isFinal)
  }
}
