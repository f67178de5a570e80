/** The streaming decoder of Google Cloud Speech responses
    (voicebots/asr/google_transcriber.py).

    `_handle_transcription_stream` is a Python generator: it keeps its
    variables between pulls and resumes right after the `yield` it last
    executed.  It is modelled by the class TranscriptionStream, whose method
    Next is one pull, and by the pure function Resume over the generator's
    state, which Next is proved to implement.  `GoogleTranscriber.Listen`
    pulls until the first final event, as the `while not is_final` loop
    does.  The wall-clock reading `time.time() - start_time` arrives with
    each response as its `elapsed` field. */
module GoogleTranscriber {
  import opened Wrappers
  import opened PyStr
  import opened TextUtils
  import opened Transcriber

  /** Seconds to wait for speech before giving up (SILENCE_TIMEOUT_SEC). */
  const SilenceTimeoutSec: int := 10

  datatype SpeechEventType = SpeechEventUnspecified | EndOfSingleUtterance

  datatype Alternative = Alternative(transcript: string)

  datatype StreamingResult = StreamingResult(alternatives: seq<Alternative>, isFinal: bool)

  /** One inbound response, with the seconds elapsed since the decoder
      started when it arrived. */
  datatype Response = Response(
    results: seq<StreamingResult>,
    speechEventType: SpeechEventType,
    elapsed: real)

  /** `_is_supported_command`: the normalised text is one of the phrases as
      they were given (the phrases themselves are not normalised). */
  predicate IsSupportedCommand(text: string, supportedPhrases: seq<string>): (supported: bool)
    ensures supported ==> exists p :: p in supportedPhrases && Trimmed(p) && NoUpper(p) && |p| <= |text|
  {
    NormalizeText(text) in supportedPhrases
  }

  /** Padding and case of the text do not matter: a text is a supported
      command exactly when its normalised form is. */
  lemma SupportedCommandNormalised(text: string, supportedPhrases: seq<string>)
    ensures IsSupportedCommand(text, supportedPhrases) <==> IsSupportedCommand(NormalizeText(text), supportedPhrases)
  {
    NormalizeIdempotent(text);
  }

  /** The decoder's running variables: `num_chars_printed`, `transcript`
      and `is_final`. */
  datatype Decoder = Decoder(numCharsPrinted: nat, transcript: Option<string>, isFinal: bool)

  const Start := Decoder(0, None, false)

  datatype Stepped = Stepped(decoder: Decoder, event: Option<Transcript>)

  predicate NoResultTimesOut(response: Response, deadline: int) {
    response.speechEventType == EndOfSingleUtterance || response.elapsed > deadline as real
  }

  /** One iteration of the `for response in responses` loop: the new
      variables and the event it yields, if any. */
  function Step(d: Decoder, response: Response, phrases: seq<string>, deadline: int): (r: Stepped)
    ensures d.isFinal ==> r == Stepped(d, None)
    ensures r.event.None? ==> r.decoder == d
    ensures r.event.Some? ==> WellFormed(r.event.value)
    ensures r.event.Some? ==> r.event.value.isFinal == r.decoder.isFinal
    ensures r.event.Some? && r.event.value.deadlineExceeded ==> d.transcript.None?
  {
    if d.isFinal then Stepped(d, None)
    else if response.results == [] then
      if NoResultTimesOut(response, deadline) then
        Stepped(d.(isFinal := true),
                Some(Transcript(d.transcript, true, deadlineExceeded := d.transcript.None?)))
      else
        Stepped(d, None)
    else
      var result := response.results[0];
      if result.alternatives == [] then Stepped(d, None)
      else
        var t := result.alternatives[0].transcript;
        if !result.isFinal then
          var hit := IsSupportedCommand(t, phrases);
          Stepped(Decoder(|t|, Some(t), hit),
                  Some(Transcript(Some(t), hit, overwriteChars := Spaces(d.numCharsPrinted - |t|))))
        else
          Stepped(Decoder(0, Some(t), true), Some(Transcript(Some(t), true)))
  }

  /** The generator's state between pulls: the responses not yet read, the
      decoder variables, and whether it is suspended at the deadline
      `yield`, after which it would go on to `response.results[0]` on the
      same (empty) result list. */
  datatype Generator = Generator(pending: seq<Response>, decoder: Decoder, atDeadlineYield: bool)

  /** What one `next()` on the generator gives. */
  datatype Pull = Yielded(event: Transcript) | Exhausted | Raised(error: Error)

  /** One `next()`: run loop iterations until one yields, the responses run
      out, or an exception is raised. */
  function Resume(g: Generator, phrases: seq<string>, deadline: int): (r: (Pull, Generator))
    ensures |r.1.pending| <= |g.pending|
    ensures r.0.Yielded? ==> |r.1.pending| < |g.pending|
    ensures r.0.Raised? <==> g.atDeadlineYield
    ensures r.0.Raised? ==> r.0.error == IndexError && r.1.pending == []
    ensures r.1.atDeadlineYield ==> r.0.Yielded? && r.0.event.isFinal
    ensures r.0.Yielded? ==> WellFormed(r.0.event)
    ensures r.0.Yielded? ==> r.0.event.isFinal == r.1.decoder.isFinal
    decreases |g.pending|
  {
    if g.atDeadlineYield then (Raised(IndexError), Generator([], g.decoder, false))
    else if g.pending == [] then (Exhausted, g)
    else
      var s := Step(g.decoder, g.pending[0], phrases, deadline);
      match s.event
      case Some(e) =>
        (Yielded(e), Generator(g.pending[1..], s.decoder, g.pending[0].results == []))
      case None =>
        Resume(Generator(g.pending[1..], s.decoder, false), phrases, deadline)
  }

  datatype Ending = FinalEvent | ResponsesExhausted

  /** What `listen` yields: the events, and whether it stopped at a final
      event or because `next()` found the responses exhausted (a
      StopIteration that surfaces from `listen` as a RuntimeError). */
  datatype Heard = Heard(events: seq<Transcript>, ending: Ending)

  /** The `while not is_final` loop of `listen`, from a generator state. */
  function ListenFrom(g: Generator, phrases: seq<string>, deadline: int): (h: Heard)
    requires !g.atDeadlineYield
    decreases |g.pending|
  {
    var (p, g') := Resume(g, phrases, deadline);
    if p.Yielded? then
      if p.event.isFinal then Heard([p.event], FinalEvent)
      else
        var rest := ListenFrom(g', phrases, deadline);
        Heard([p.event] + rest.events, rest.ending)
    else
      Heard([], ResponsesExhausted)
  }

  /** What a consumer that kept pulling would get: every event, and the
      exception that ended the stream, if any. */
  datatype Drained = Drained(events: seq<Transcript>, error: Option<Error>)

  function DrainFrom(g: Generator, phrases: seq<string>, deadline: int): Drained
    decreases |g.pending|, g.atDeadlineYield
  {
    var (p, g') := Resume(g, phrases, deadline);
    match p
    case Yielded(e) =>
      var rest := DrainFrom(g', phrases, deadline);
      Drained([e] + rest.events, rest.error)
    case Exhausted => Drained([], None)
    case Raised(err) => Drained([], Some(err))
  }

  /** `_handle_transcription_stream` as a suspended generator. */
  class TranscriptionStream {
    const supportedPhrases: seq<string>
    const deadline: int
    var pending: seq<Response>
    var numCharsPrinted: nat
    var transcript: Option<string>
    var isFinal: bool
    var atDeadlineYield: bool

    function State(): Generator
      reads this
    {
      Generator(pending, Decoder(numCharsPrinted, transcript, isFinal), atDeadlineYield)
    }

    /** Creating the generator runs none of its body. */
    constructor (responses: seq<Response>, supportedPhrases: seq<string>, deadline: int := SilenceTimeoutSec)
      ensures State() == Generator(responses, Start, false)
      ensures this.supportedPhrases == supportedPhrases && this.deadline == deadline
    {
      this.supportedPhrases := supportedPhrases;
      this.deadline := deadline;
      pending := responses;
      numCharsPrinted := 0;
      transcript := None;
      isFinal := false;
      atDeadlineYield := false;
    }

    /** One `next()` on the generator. */
    method Next() returns (p: Pull)
      modifies this
      ensures (p, State()) == Resume(old(State()), supportedPhrases, deadline)
    {
      if atDeadlineYield {
        // Resumed after the deadline event: `response.results[0]` on the
        // empty result list of that same response.
        atDeadlineYield := false;
        pending := [];
        return Raised(IndexError);
      }
      while pending != []
        invariant !atDeadlineYield
        invariant Resume(State(), supportedPhrases, deadline) == Resume(old(State()), supportedPhrases, deadline)
        decreases |pending|
      {
        ghost var g := State();
        var response := pending[0];
        pending := pending[1..];
        if !isFinal {
          var event := Handle(response);
          if event.Some? {
            ResumeYields(g, supportedPhrases, deadline, event.value, State().decoder);
            return Yielded(event.value);
          }
        }
        ResumeSkips(g, supportedPhrases, deadline);
      }
      return Exhausted;
    }

    /** The body of the `for response in responses` loop for one response
        while `is_final` is false: it updates the decoder variables as Step
        does and gives the event it yields, if any; at the deadline `yield`
        it records that the generator is suspended there. */
    method Handle(response: Response) returns (event: Option<Transcript>)
      requires !isFinal && !atDeadlineYield
      modifies this
      ensures Stepped(Decoder(numCharsPrinted, transcript, isFinal), event)
           == Step(old(Decoder(numCharsPrinted, transcript, isFinal)), response, supportedPhrases, deadline)
      ensures atDeadlineYield == (event.Some? && response.results == [])
      ensures pending == old(pending)
    {
      ghost var d := Decoder(numCharsPrinted, transcript, isFinal);
      if response.results == [] {
        if response.speechEventType == EndOfSingleUtterance || response.elapsed > deadline as real {
          isFinal := true;
          atDeadlineYield := true;
          assert Step(d, response, supportedPhrases, deadline) == Stepped(d.(isFinal := true), Some(Transcript(transcript, true, deadlineExceeded := transcript.None?)));
          return Some(Transcript(transcript, isFinal, deadlineExceeded := transcript.None?));
        }
        return None;
      }
      var result := response.results[0];
      if result.alternatives == [] {
        return None;
      }
      var t := result.alternatives[0].transcript;
      transcript := Some(t);
      if !result.isFinal {
        var overwriteChars := Spaces(numCharsPrinted - |t|);
        numCharsPrinted := |t|;
        if IsSupportedCommand(t, supportedPhrases) {
          isFinal := true;
        }
        return Some(Transcript(Some(t), isFinal, overwriteChars := overwriteChars));
      } else {
        numCharsPrinted := 0;
        isFinal := true;
        return Some(Transcript(Some(t), isFinal));
      }
    }
  }

  /** A pull whose first response yields an event stops there. */
  lemma ResumeYields(g: Generator, phrases: seq<string>, deadline: int, e: Transcript, d: Decoder)
    requires !g.atDeadlineYield && g.pending != []
    requires Step(g.decoder, g.pending[0], phrases, deadline) == Stepped(d, Some(e))
    ensures Resume(g, phrases, deadline)
         == (Yielded(e), Generator(g.pending[1..], d, g.pending[0].results == []))
  {
  }

  /** A pull whose first response yields nothing goes on with the rest. */
  lemma ResumeSkips(g: Generator, phrases: seq<string>, deadline: int)
    requires !g.atDeadlineYield && g.pending != []
    requires Step(g.decoder, g.pending[0], phrases, deadline).event.None?
    ensures Resume(g, phrases, deadline)
         == Resume(Generator(g.pending[1..], g.decoder, false), phrases, deadline)
  {
  }

  /** `GoogleTranscriber`: the recogniser configuration and `listen`. */
  class GoogleTranscriber {
    const supportedPhrases: seq<string>
    const singleUtterance: bool

    constructor (supportedPhrases: Option<seq<string>> := None, singleUtterance: bool := true)
      ensures this.supportedPhrases == if supportedPhrases.Some? then supportedPhrases.value else []
      ensures this.singleUtterance == singleUtterance
    {
      this.supportedPhrases := if supportedPhrases.Some? then supportedPhrases.value else [];
      this.singleUtterance := singleUtterance;
    }

    /** `listen`, given the responses the service sends back. */
    method Listen(responses: seq<Response>) returns (heard: Heard)
      ensures heard == ListenFrom(Generator(responses, Start, false), supportedPhrases, SilenceTimeoutSec)
      ensures forall i :: 0 <= i < |heard.events| ==>
                (heard.events[i].isFinal <==> heard.ending == FinalEvent && i == |heard.events| - 1)
      ensures heard.ending == FinalEvent ==> heard.events != []
      ensures forall i :: 0 <= i < |heard.events| ==> WellFormed(heard.events[i])
    {
      ghost var whole := ListenFrom(Generator(responses, Start, false), supportedPhrases, SilenceTimeoutSec);
      var transcriptions := new TranscriptionStream(responses, supportedPhrases);
      var events: seq<Transcript> := [];
      var isFinal := false;
      while !isFinal
        invariant transcriptions.supportedPhrases == supportedPhrases
        invariant transcriptions.deadline == SilenceTimeoutSec
        invariant !isFinal ==> !transcriptions.atDeadlineYield
        invariant !isFinal ==>
          var rest := ListenFrom(transcriptions.State(), supportedPhrases, SilenceTimeoutSec);
          whole == Heard(events + rest.events, rest.ending)
        invariant isFinal ==> whole == Heard(events, FinalEvent)
        decreases if isFinal then 0 else 1, |transcriptions.pending|
      {
        ghost var before := transcriptions.State();
        var p := transcriptions.Next();
        if p.Exhausted? {
          assert events + [] == events;
          heard := Heard(events, ResponsesExhausted);
          ListenShape(Generator(responses, Start, false), supportedPhrases, SilenceTimeoutSec);
          ListenWellFormed(Generator(responses, Start, false), supportedPhrases, SilenceTimeoutSec);
          return;
        }
        var transcript := p.event;
        if !transcript.isFinal {
          var rest := ListenFrom(transcriptions.State(), supportedPhrases, SilenceTimeoutSec);
          assert events + ([transcript] + rest.events) == events + [transcript] + rest.events;
        }
        events := events + [transcript];
        isFinal := transcript.isFinal;
      }
      heard := Heard(events, FinalEvent);
      ListenShape(Generator(responses, Start, false), supportedPhrases, SilenceTimeoutSec);
      ListenWellFormed(Generator(responses, Start, false), supportedPhrases, SilenceTimeoutSec);
    }
  }

  // -----------------------------------------------------------------------
  // Lemmas about one response

  /** A response without results, without the end-of-utterance event and
      within the deadline changes nothing and yields nothing. */
  lemma QuietResponseIsSkipped(d: Decoder, response: Response, phrases: seq<string>, deadline: int)
    requires response.results == []
    requires response.speechEventType == SpeechEventUnspecified
    requires response.elapsed <= deadline as real
    ensures Step(d, response, phrases, deadline) == Stepped(d, None)
  {
  }

  /** A response without results that ends the utterance or comes after the
      deadline (strictly) ends decoding with the last transcript seen; the
      deadline is reported exceeded exactly when no transcript was seen. */
  lemma NoResultEndsDecoding(d: Decoder, response: Response, phrases: seq<string>, deadline: int)
    requires !d.isFinal
    requires response.results == []
    requires response.speechEventType == EndOfSingleUtterance || response.elapsed > deadline as real
    ensures Step(d, response, phrases, deadline)
         == Stepped(d.(isFinal := true), Some(Transcript(d.transcript, true, d.transcript.None?, "")))
  {
  }

  /** Only the first result is looked at. */
  lemma OnlyFirstResultCounts(d: Decoder, response: Response, phrases: seq<string>, deadline: int)
    requires response.results != []
    ensures Step(d, response, phrases, deadline)
         == Step(d, response.(results := [response.results[0]]), phrases, deadline)
  {
  }

  /** A first result without alternatives is ignored. */
  lemma NoAlternativesIgnored(d: Decoder, response: Response, phrases: seq<string>, deadline: int)
    requires response.results != [] && response.results[0].alternatives == []
    ensures Step(d, response, phrases, deadline) == Stepped(d, None)
  {
  }

  /** An interim result: the overwrite padding is max(0, previous length -
      new length) spaces, the printed length becomes the new length, and the
      event is final exactly when the normalised text is a supported phrase. */
  lemma InterimResult(d: Decoder, response: Response, phrases: seq<string>, deadline: int)
    requires !d.isFinal
    requires response.results != [] && response.results[0].alternatives != []
    requires !response.results[0].isFinal
    ensures var t := response.results[0].alternatives[0].transcript;
            var r := Step(d, response, phrases, deadline);
            && r.event.Some?
            && r.event.value.text == Some(t)
            && |r.event.value.overwriteChars| == (if d.numCharsPrinted <= |t| then 0 else d.numCharsPrinted - |t|)
            && (forall i :: 0 <= i < |r.event.value.overwriteChars| ==> r.event.value.overwriteChars[i] == ' ')
            && r.decoder.numCharsPrinted == |t|
            && (r.event.value.isFinal <==> NormalizeText(t) in phrases)
            && !r.event.value.deadlineExceeded
  {
  }

  /** A final result ends decoding and resets the printed length. */
  lemma ProviderFinalResult(d: Decoder, response: Response, phrases: seq<string>, deadline: int)
    requires !d.isFinal
    requires response.results != [] && response.results[0].alternatives != []
    requires response.results[0].isFinal
    ensures var t := response.results[0].alternatives[0].transcript;
            (Step(d, response, phrases, deadline)
             == Stepped(Decoder(0, Some(t), true), Some(Transcript(Some(t), true, false, ""))))
  {
  }

  function InterimResponse(t: string): Response {
    Response([StreamingResult([Alternative(t)], false)], SpeechEventUnspecified, 0.0)
  }

  /** Growing text needs no padding; "hello" then "hi" needs three spaces. */
  lemma OverwriteExamples()
    ensures var s := Step(Start, InterimResponse("hel"), [], SilenceTimeoutSec);
            Step(s.decoder, InterimResponse("hello"), [], SilenceTimeoutSec).event.value.overwriteChars == ""
    ensures var s := Step(Start, InterimResponse("hello"), [], SilenceTimeoutSec);
            Step(s.decoder, InterimResponse("hi"), [], SilenceTimeoutSec).event.value.overwriteChars == "   "
  {
    var s1 := Step(Start, InterimResponse("hello"), [], SilenceTimeoutSec);
    assert s1.decoder.numCharsPrinted == 5;
    assert Spaces(3) == "   " by {
      assert Spaces(1) == " ";
      assert Spaces(2) == "  ";
    }
  }

  /** " Exit " as an interim result ends decoding when "exit" is a
      supported phrase, without waiting for the service's final result. */
  lemma EarlyExitOnSupportedPhrase(d: Decoder)
    requires !d.isFinal
    ensures Step(d, InterimResponse(" Exit "), ["exit"], SilenceTimeoutSec)
         == Stepped(Decoder(6, Some(" Exit "), true), Some(Transcript(Some(" Exit "), true, false, Spaces(d.numCharsPrinted - 6))))
  {
    NormalizeExitCommand();
    assert IsSupportedCommand(" Exit ", ["exit"]);
    var r := Step(d, InterimResponse(" Exit "), ["exit"], SilenceTimeoutSec);
    var e := r.event.value;
    assert e.text == Some(" Exit ") && e.isFinal && !e.deadlineExceeded;
    assert e.overwriteChars == Spaces(d.numCharsPrinted - 6);
  }

  /** The phrases are compared as given: a capitalised phrase never matches. */
  lemma CapitalisedPhraseNeverMatches(text: string)
    ensures !IsSupportedCommand(text, ["Exit"])
  {
    var n := NormalizeText(text);
    assert n == [] || n[0] != 'E';
    assert "Exit"[0] == 'E';
  }

  // -----------------------------------------------------------------------
  // Lemmas about the generator and `listen`

  /** After a final event (other than the deadline one) the generator reads
      the remaining responses without yielding anything more. */
  lemma {:induction false} NothingAfterFinal(g: Generator, phrases: seq<string>, deadline: int)
    requires g.decoder.isFinal && !g.atDeadlineYield
    ensures Resume(g, phrases, deadline).0 == Exhausted
    decreases |g.pending|
  {
    if g.pending != [] {
      NothingAfterFinal(Generator(g.pending[1..], g.decoder, false), phrases, deadline);
    }
  }

  /** Only the last event is final, and it is final exactly when listening
      ended at a final event, which needs at least one event. */
  predicate FinalOnlyAtEnd(h: Heard) {
    && (h.ending == FinalEvent ==> h.events != [])
    && forall i :: 0 <= i < |h.events| ==>
         (h.events[i].isFinal <==> h.ending == FinalEvent && i == |h.events| - 1)
  }

  /** A non-final event in front keeps the shape. */
  lemma NonFinalInFront(e: Transcript, rest: Heard)
    requires !e.isFinal && FinalOnlyAtEnd(rest)
    ensures FinalOnlyAtEnd(Heard([e] + rest.events, rest.ending))
  {
    var events := [e] + rest.events;
    assert forall i :: 1 <= i < |events| ==> events[i] == rest.events[i - 1];
  }

  /** `listen` yields non-final events and then, unless the responses run
      out first, exactly one final event, at the end. */
  lemma {:induction false} ListenShape(g: Generator, phrases: seq<string>, deadline: int)
    requires !g.atDeadlineYield
    ensures FinalOnlyAtEnd(ListenFrom(g, phrases, deadline))
    decreases |g.pending|
  {
    var (p, g') := Resume(g, phrases, deadline);
    if p.Yielded? && !p.event.isFinal {
      ListenShape(g', phrases, deadline);
      NonFinalInFront(p.event, ListenFrom(g', phrases, deadline));
    }
  }

  /** Every event `listen` yields is well formed: no text exactly on the
      deadline event, which is final. */
  lemma {:induction false} ListenWellFormed(g: Generator, phrases: seq<string>, deadline: int)
    requires !g.atDeadlineYield
    ensures forall e :: e in ListenFrom(g, phrases, deadline).events ==> WellFormed(e)
    decreases |g.pending|
  {
    var (p, g') := Resume(g, phrases, deadline);
    var h := ListenFrom(g, phrases, deadline);
    if p.Yielded? {
      assert WellFormed(p.event);
      if !p.event.isFinal {
        ListenWellFormed(g', phrases, deadline);
        var rest := ListenFrom(g', phrases, deadline);
        assert h.events == [p.event] + rest.events;
      } else {
        assert h.events == [p.event];
      }
    } else {
      assert h.events == [];
    }
  }

  /** `listen` yields what the generator yields, up to and including the
      first final event; it never pulls again after that. */
  lemma {:induction false} ListenIsPrefixOfStream(g: Generator, phrases: seq<string>, deadline: int)
    requires !g.atDeadlineYield
    ensures var h := ListenFrom(g, phrases, deadline);
            var all := DrainFrom(g, phrases, deadline);
            && h.events <= all.events
            && (h.ending == ResponsesExhausted ==> h.events == all.events && all.error == None)
    decreases |g.pending|
  {
    var (p, g') := Resume(g, phrases, deadline);
    if p.Yielded? && !p.event.isFinal {
      ListenIsPrefixOfStream(g', phrases, deadline);
    }
  }

  /** When no speech ever arrives, `listen` yields one final event with no
      text and the deadline exceeded, at the first response that ends the
      utterance or comes after the deadline. */
  lemma {:induction false} SilenceEndsAtDeadline(rs: seq<Response>, k: nat, d: Decoder, phrases: seq<string>, deadline: int)
    requires k < |rs| && !d.isFinal
    requires forall j :: 0 <= j <= k ==> rs[j].results == []
    requires forall j :: 0 <= j < k ==> !NoResultTimesOut(rs[j], deadline)
    requires NoResultTimesOut(rs[k], deadline)
    ensures ListenFrom(Generator(rs, d, false), phrases, deadline)
         == Heard([Transcript(d.transcript, true, d.transcript.None?, "")], FinalEvent)
    decreases k
  {
    if k > 0 {
      SilenceEndsAtDeadline(rs[1..], k - 1, d, phrases, deadline);
    }
  }

  /** From the start, that event has no text and the deadline exceeded. */
  lemma SilenceFromStart(rs: seq<Response>, k: nat, phrases: seq<string>)
    requires k < |rs|
    requires forall j :: 0 <= j <= k ==> rs[j].results == []
    requires forall j :: 0 <= j < k ==> !NoResultTimesOut(rs[j], SilenceTimeoutSec)
    requires NoResultTimesOut(rs[k], SilenceTimeoutSec)
    ensures ListenFrom(Generator(rs, Start, false), phrases, SilenceTimeoutSec)
         == Heard([Transcript(None, true, true, "")], FinalEvent)
  {
    SilenceEndsAtDeadline(rs, k, Start, phrases, SilenceTimeoutSec);
  }

  /** Pulling once more after the deadline event raises IndexError, which
      `listen` avoids by stopping at the final event. */
  lemma DeadlineThenPullRaises()
    ensures var rs := [Response([], EndOfSingleUtterance, 0.0)];
            && DrainFrom(Generator(rs, Start, false), [], SilenceTimeoutSec)
               == Drained([Transcript(None, true, true, "")], Some(IndexError))
            && ListenFrom(Generator(rs, Start, false), [], SilenceTimeoutSec)
               == Heard([Transcript(None, true, true, "")], FinalEvent)
  {
    var rs := [Response([], EndOfSingleUtterance, 0.0)];
    var (p, g') := Resume(Generator(rs, Start, false), [], SilenceTimeoutSec);
    assert g' == Generator([], Start.(isFinal := true), true);
  }
}
