/** The speech hook used for pronunciation practice: text-to-speech with voice
    selection, and continuous Dutch dictation whose state is driven by the
    recognition object's callbacks. The platform is abstract: recognition
    objects are numbered sessions whose callbacks arrive as method calls, and
    calls into the platform are recorded in two logs. */
module WebSpeech {
  import opened Wrappers
  import opened Text

  const NotSupportedMessage: string := "Speech recognition not supported in this browser."
  const DeniedMessage: string := "Microphone access denied"
  const StartFailedMessage: string := "Failed to start recording"
  const DefaultLang: string := "nl-NL"
  const DefaultRate: real := 0.85

  datatype Voice = Voice(name: string, lang: string)

  /** An utterance as handed to the synthesiser; `voice` stays unset (`None`)
      when no installed voice suits the language. */
  datatype Utterance = Utterance(text: string, voice: Option<Voice>, lang: string, rate: real)

  /** `speechSynthesis.cancel()` and `speechSynthesis.speak(utterance)`. */
  datatype SynthesisCall = Cancel | Queue(utterance: Utterance)

  datatype RecognitionConfig = RecognitionConfig(continuous: bool, interimResults: bool, lang: string)

  /** The configuration of every recognition object the hook creates. */
  const ListeningConfig: RecognitionConfig := RecognitionConfig(true, true, "nl-NL")

  /** Calls on recognition objects; sessions are numbered in creation order. */
  datatype RecognitionCall = Create(session: nat, config: RecognitionConfig) | Start(session: nat) | Stop(session: nat)

  datatype Alternative = Alternative(transcript: string)
  datatype RecognitionResult = RecognitionResult(isFinal: bool, alternatives: seq<Alternative>)
  datatype ResultEvent = ResultEvent(resultIndex: nat, results: seq<RecognitionResult>)

  /** Where creating and starting a recognition object can throw. */
  datatype StartFault = NoFault | ConstructorThrows | StartThrows

  // --------------------------------------------------------- voice selection

  /** `voices.find(matches)`, as the index of the first match. */
  function FindVoice(voices: seq<Voice>, matches: Voice -> bool): (r: Option<nat>)
    ensures r.Some? ==> r.value < |voices| && matches(voices[r.value])
    ensures r.Some? ==> forall j :: 0 <= j < r.value ==> !matches(voices[j])
    ensures r.None? ==> forall j :: 0 <= j < |voices| ==> !matches(voices[j])
  {
    if voices == [] then None
    else if matches(voices[0]) then Some(0)
    else
      match FindVoice(voices[1..], matches)
      case None => None
      case Some(k) => Some(k + 1)
  }

  /** `lang.split('-')[0]`. */
  function PrimarySubtag(lang: string): string
  {
    FirstField(lang, '-')
  }

  function SameLang(lang: string): Voice -> bool
  {
    (v: Voice) => v.lang == lang
  }

  function SamePrimary(lang: string): Voice -> bool
  {
    (v: Voice) => StartsWith(v.lang, PrimarySubtag(lang))
  }

  /** The voice `speak` sets: the first voice with exactly `lang`, failing
      that the first whose language starts with the primary subtag of `lang`,
      failing that none. */
  function SelectVoice(voices: seq<Voice>, lang: string): (r: Option<Voice>)
    ensures r.Some? ==> r.value in voices && StartsWith(r.value.lang, PrimarySubtag(lang))
    ensures r.None? <==> forall v :: v in voices ==> !StartsWith(v.lang, PrimarySubtag(lang))
    ensures (exists v :: v in voices && v.lang == lang) ==> r.Some? && r.value.lang == lang
  {
    match FindVoice(voices, SameLang(lang))
    case Some(i) => Some(voices[i])
    case None =>
      match FindVoice(voices, SamePrimary(lang))
      case Some(i) => Some(voices[i])
      case None => None
  }

  /** An exact match wins, and the first one is taken. */
  lemma SelectVoiceExact(voices: seq<Voice>, lang: string, k: nat)
    requires k < |voices| && voices[k].lang == lang
    requires forall j :: 0 <= j < k ==> voices[j].lang != lang
    ensures SelectVoice(voices, lang) == Some(voices[k])
  {
    assert SameLang(lang)(voices[k]);
  }

  /** Without an exact match, the first voice of the same primary language
      is taken. */
  lemma SelectVoiceFallback(voices: seq<Voice>, lang: string, k: nat)
    requires forall j :: 0 <= j < |voices| ==> voices[j].lang != lang
    requires k < |voices| && StartsWith(voices[k].lang, PrimarySubtag(lang))
    requires forall j :: 0 <= j < k ==> !StartsWith(voices[j].lang, PrimarySubtag(lang))
    ensures SelectVoice(voices, lang) == Some(voices[k])
  {
    assert SamePrimary(lang)(voices[k]);
  }

  // --------------------------------------------------------------- synthesis

  /** The utterances queued since the last cancel: what can still be heard. */
  function Playing(calls: seq<SynthesisCall>): seq<Utterance>
  {
    if calls == [] then []
    else
      match calls[|calls| - 1]
      case Cancel => []
      case Queue(u) => Playing(calls[..|calls| - 1]) + [u]
  }

  lemma PlayingAfterSpeak(calls: seq<SynthesisCall>, u: Utterance)
    ensures Playing(calls + [Cancel, Queue(u)]) == [u]
  {
    var after := calls + [Cancel, Queue(u)];
    assert after[..|after| - 1] == calls + [Cancel];
  }

  // ------------------------------------------------------------- recognition

  /** Every result from `resultIndex` on has a first alternative. */
  predicate HasAlternatives(results: seq<RecognitionResult>)
  {
    forall i :: 0 <= i < |results| ==> |results[i].alternatives| > 0
  }

  /** The first alternatives of `results`, concatenated. */
  function Transcript(results: seq<RecognitionResult>): string
    requires HasAlternatives(results)
  {
    if results == [] then ""
    else Transcript(results[..|results| - 1]) + results[|results| - 1].alternatives[0].transcript
  }

  /** `results[resultIndex..length)`, empty when the index is past the end. */
  function Pending(event: ResultEvent): seq<RecognitionResult>
  {
    if event.resultIndex <= |event.results| then event.results[event.resultIndex..] else []
  }

  /** The transcript of consecutive runs of results is the concatenation of
      their transcripts. */
  lemma {:induction false} TranscriptAppend(a: seq<RecognitionResult>, b: seq<RecognitionResult>)
    requires HasAlternatives(a) && HasAlternatives(b)
    ensures HasAlternatives(a + b)
    ensures Transcript(a + b) == Transcript(a) + Transcript(b)
    decreases |b|
  {
    if b != [] {
      var ab := a + b;
      assert ab[..|ab| - 1] == a + b[..|b| - 1];
      TranscriptAppend(a, b[..|b| - 1]);
    } else {
      assert a + b == a;
    }
  }

  /** Final and interim results are treated alike: the transcript depends on
      the alternatives only. */
  lemma {:induction false} TranscriptIgnoresFinality(a: seq<RecognitionResult>, b: seq<RecognitionResult>)
    requires HasAlternatives(a) && |a| == |b|
    requires forall i :: 0 <= i < |a| ==> a[i].alternatives == b[i].alternatives
    ensures HasAlternatives(b) && Transcript(a) == Transcript(b)
    decreases |a|
  {
    if a != [] {
      TranscriptIgnoresFinality(a[..|a| - 1], b[..|b| - 1]);
    }
  }

  /** The loop of the result handler. */
  method CollectTranscript(event: ResultEvent) returns (text: string)
    requires HasAlternatives(Pending(event))
    ensures text == Transcript(Pending(event))
  {
    var results := event.results;
    text := "";
    var i := event.resultIndex;
    while i < |results|
      invariant event.resultIndex <= i
      invariant i <= |results| || i == event.resultIndex
      invariant i <= |results| ==> HasAlternatives(results[event.resultIndex..i])
      invariant i <= |results| ==> text == Transcript(results[event.resultIndex..i])
      invariant i > |results| ==> text == ""
    {
      assert results[i] == Pending(event)[i - event.resultIndex];
      if results[i].isFinal {
        text := text + results[i].alternatives[0].transcript;
      } else {
        text := text + results[i].alternatives[0].transcript;
      }
      assert results[event.resultIndex..i + 1][..i - event.resultIndex] == results[event.resultIndex..i];
      i := i + 1;
    }
    if i == |results| {
      assert results[event.resultIndex..i] == Pending(event);
    }
  }

  /** How an error code reaches the state: `no-speech` is ignored (`None`),
      `not-allowed` becomes a fixed message, any other code is kept verbatim. */
  function ErrorMessage(code: string): (m: Option<string>)
    ensures m.None? <==> code == "no-speech"
    ensures code == "not-allowed" ==> m == Some(DeniedMessage)
    ensures m.Some? && code != "not-allowed" ==> m.value == code
  {
    if code == "no-speech" then None
    else if code == "not-allowed" then Some(DeniedMessage)
    else Some(code)
  }

  // -------------------------------------------------------------- the hook

  class SpeechHook {
    /** `window.SpeechRecognition || window.webkitSpeechRecognition` exists. */
    const hasRecognition: bool
    /** `'speechSynthesis' in window`. */
    const hasSynthesis: bool

    var isListening: bool
    var transcript: string
    var isSupported: bool
    var error: Option<string>

    /** `synthesisRef.current !== null`. */
    var synthesis: bool
    /** `recognitionRef.current`, as the number of the session it holds. */
    var recognition: Option<nat>
    /** Number of recognition objects created so far. */
    var sessions: nat

    var recognitionCalls: seq<RecognitionCall>
    var synthesisCalls: seq<SynthesisCall>

    ghost predicate Valid()
      reads this
    {
      && (recognition.Some? ==> recognition.value < sessions)
      && (!hasRecognition ==> sessions == 0 && recognitionCalls == [])
      && (synthesis ==> hasSynthesis)
      && (!synthesis ==> synthesisCalls == [])
      && |Playing(synthesisCalls)| <= 1
    }

    /** The state before the capability check has run. */
    constructor (hasRecognition: bool, hasSynthesis: bool)
      ensures Valid()
      ensures this.hasRecognition == hasRecognition && this.hasSynthesis == hasSynthesis
      ensures !isListening && transcript == "" && !isSupported && error.None?
      ensures !synthesis && recognition.None? && sessions == 0
      ensures recognitionCalls == [] && synthesisCalls == []
    {
      this.hasRecognition := hasRecognition;
      this.hasSynthesis := hasSynthesis;
      isListening, transcript, isSupported, error := false, "", false, None;
      synthesis, recognition, sessions := false, None, 0;
      recognitionCalls, synthesisCalls := [], [];
    }

    /** The mount effect: keep the synthesiser if there is one, and record
        whether recognition is supported (with a message when it is not). */
    method Mount()
      requires Valid()
      modifies this`synthesis, this`isSupported, this`error
      ensures Valid()
      ensures synthesis == (old(synthesis) || hasSynthesis)
      ensures isSupported == hasRecognition
      ensures error == if hasRecognition then old(error) else Some(NotSupportedMessage)
    {
      if hasSynthesis {
        synthesis := true;
      }
      if hasRecognition {
        isSupported := true;
      } else {
        isSupported := false;
        error := Some(NotSupportedMessage);
      }
    }

    /** `speak(text, rate, lang)`; `voices` is what `getVoices()` returns at
        the time. Any speech in progress is cancelled first, so only the new
        utterance can be heard; without a synthesiser nothing happens. */
    method Speak(text: string, rate: real, lang: string, voices: seq<Voice>)
      requires Valid()
      modifies this`synthesisCalls
      ensures Valid()
      ensures synthesisCalls == if synthesis
        then old(synthesisCalls) + [Cancel, Queue(Utterance(text, SelectVoice(voices, lang), lang, rate))]
        else old(synthesisCalls)
      ensures synthesis ==> Playing(synthesisCalls) == [Utterance(text, SelectVoice(voices, lang), lang, rate)]
    {
      if synthesis {
        synthesisCalls := synthesisCalls + [Cancel];
        var voice := SelectVoice(voices, lang);
        var utterance := Utterance(text, voice, lang, rate);
        synthesisCalls := synthesisCalls + [Queue(utterance)];
        assert synthesisCalls == old(synthesisCalls) + [Cancel, Queue(utterance)];
        PlayingAfterSpeak(old(synthesisCalls), utterance);
      }
    }

    /** `stopListening`: stop and release the held session, if any. */
    method StopListening()
      requires Valid()
      modifies this`recognition, this`recognitionCalls, this`isListening
      ensures Valid()
      ensures recognitionCalls == match old(recognition)
        case Some(id) => old(recognitionCalls) + [Stop(id)]
        case None => old(recognitionCalls)
      ensures recognition.None? && !isListening
    {
      if recognition.Some? {
        recognitionCalls := recognitionCalls + [Stop(recognition.value)];
        recognition := None;
      }
      isListening := false;
    }

    /** `startListening`. Without recognition support nothing happens.
        Otherwise the held session is stopped (but not released), and a new
        session is created, held and started; `fault` says where the platform
        throws, in which case the error message is set. */
    method StartListening(fault: StartFault)
      requires Valid()
      modifies this`recognition, this`recognitionCalls, this`sessions, this`error
      ensures Valid()
      ensures !hasRecognition ==> recognitionCalls == old(recognitionCalls) && recognition == old(recognition)
                                  && sessions == old(sessions) && error == old(error)
      ensures hasRecognition ==>
        var stopped := old(recognitionCalls) + (if old(recognition).Some? then [Stop(old(recognition).value)] else []);
        match fault
        case ConstructorThrows =>
          recognitionCalls == stopped && recognition == old(recognition) && sessions == old(sessions)
          && error == Some(StartFailedMessage)
        case StartThrows =>
          recognitionCalls == stopped + [Create(old(sessions), ListeningConfig)]
          && recognition == Some(old(sessions)) && sessions == old(sessions) + 1
          && error == Some(StartFailedMessage)
        case NoFault =>
          recognitionCalls == stopped + [Create(old(sessions), ListeningConfig), Start(old(sessions))]
          && recognition == Some(old(sessions)) && sessions == old(sessions) + 1
          && error == old(error)
    {
      if !hasRecognition {
        return;
      }
      if recognition.Some? {
        recognitionCalls := recognitionCalls + [Stop(recognition.value)];
      }
      if fault == ConstructorThrows {
        error := Some(StartFailedMessage);
        return;
      }
      var id := sessions;
      sessions := sessions + 1;
      recognitionCalls := recognitionCalls + [Create(id, ListeningConfig)];
      recognition := Some(id);
      if fault == StartThrows {
        error := Some(StartFailedMessage);
        return;
      }
      recognitionCalls := recognitionCalls + [Start(id)];
    }

    // The callbacks below are those of session `from`. Like the source, they
    // do not look at which session fired.

    method OnStart(from: nat)
      requires Valid() && from < sessions
      modifies this`isListening, this`error
      ensures Valid()
      ensures isListening && error.None?
    {
      isListening := true;
      error := None;
    }

    /** The transcript becomes the concatenation of the first alternatives of
        the results from `resultIndex` on, final or not. */
    method OnResult(from: nat, event: ResultEvent)
      requires Valid() && from < sessions
      requires HasAlternatives(Pending(event))
      modifies this`transcript
      ensures Valid()
      ensures transcript == Transcript(Pending(event))
    {
      var text := CollectTranscript(event);
      transcript := text;
    }

    /** `no-speech` changes nothing; any other error ends listening and is
        reported through `ErrorMessage`. */
    method OnError(from: nat, code: string)
      requires Valid() && from < sessions
      modifies this`isListening, this`error
      ensures Valid()
      ensures code == "no-speech" ==> isListening == old(isListening) && error == old(error)
      ensures code != "no-speech" ==> !isListening && error == ErrorMessage(code)
    {
      if code == "no-speech" {
        return;
      }
      isListening := false;
      error := ErrorMessage(code);
    }

    /** Clears the held session whichever session ended. */
    method OnEnd(from: nat)
      requires Valid() && from < sessions
      modifies this`isListening, this`recognition
      ensures Valid()
      ensures !isListening && recognition.None?
    {
      isListening := false;
      recognition := None;
    }
  }
}
