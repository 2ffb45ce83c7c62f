/** The narration hook of the web client (frontend/src/hooks/useTTS.js): two
    flags, `isSpeaking` and `isPaused`, in front of the browser's speech
    service. The service is replaced by the log of commands the hook sends
    to it; its start, end and error notifications are methods the
    environment may call in any order, for any utterance it was given. */
module Narration {
  import opened Text

  /** An entry of the platform's voice list. */
  datatype Voice = Voice(name: string, lang: string)

  /** What `new SpeechSynthesisUtterance(text)` holds once `speak` is done with it. */
  datatype Utterance = Utterance(text: string, voice: Option<Voice>)

  /** The commands the hook sends to the speech service. */
  datatype Command = CancelSpeech | Submit(utterance: Utterance) | PauseSpeech | ResumeSpeech

  /** The predicate handed to `voices.find`: any one of three tests, with no ranking between them. */
  predicate Preferred(v: Voice) {
    Contains(v.name, "Google US English") || Contains(v.name, "Microsoft David") || StartsWith(v.lang, "en-")
  }

  /** Index of the first voice in list order that `Preferred` accepts, if any. */
  function FirstPreferred(voices: seq<Voice>): (r: Option<nat>)
    ensures r.Some? ==> r.value < |voices| && Preferred(voices[r.value])
    ensures r.Some? ==> forall j :: 0 <= j < r.value ==> !Preferred(voices[j])
    ensures r.None? ==> forall j :: 0 <= j < |voices| ==> !Preferred(voices[j])
  {
    if |voices| == 0 then None
    else if Preferred(voices[0]) then Some(0)
    else match FirstPreferred(voices[1..])
      case None => None
      case Some(k) => Some(k + 1)
  }

  /** The voice `speak` puts on the utterance (`Array.prototype.find`); None leaves the service's default. */
  function PickVoice(voices: seq<Voice>): (r: Option<Voice>)
    ensures r.None? <==> forall j :: 0 <= j < |voices| ==> !Preferred(voices[j])
    ensures r.Some? ==> r.value in voices && Preferred(r.value)
  {
    match FirstPreferred(voices)
    case None => None
    case Some(i) => Some(voices[i])
  }

  /** The voice picked is the one at the first index the predicate accepts,
      whatever comes after it in the list. */
  lemma PickVoiceIsFirst(voices: seq<Voice>, i: nat)
    requires i < |voices| && Preferred(voices[i])
    requires forall j :: 0 <= j < i ==> !Preferred(voices[j])
    ensures PickVoice(voices) == Some(voices[i])
  {
  }

  /** A voice whose language starts with "en-" is picked over a later
      "Google US English" voice: list order decides, not the kind of match. */
  lemma ListOrderBeatsName(v: Voice, w: Voice)
    requires StartsWith(v.lang, "en-")
    ensures PickVoice([v, w]) == Some(v)
  {
    PickVoiceIsFirst([v, w], 0);
  }

  class Narrator {
    var isSpeaking: bool
    var isPaused: bool
    /** `utteranceRef.current`: the utterance submitted last, if any. */
    var current: Option<Utterance>
    /** The commands sent to the speech service, oldest first. */
    var log: seq<Command>

    /** The flags never say "paused" without "speaking". */
    ghost predicate Valid()
      reads this
    {
      isPaused ==> isSpeaking
    }

    /** The hook's first render: both flags false, nothing sent. */
    constructor ()
      ensures Valid()
      ensures !isSpeaking && !isPaused && current == None && log == []
    {
      isSpeaking, isPaused := false, false;
      current := None;
      log := [];
    }

    /** `speak(text)`: an empty text does nothing; any other text cancels what
        is playing and submits one utterance holding the whole text. The flags
        are left to the service's notifications. `voices` is what
        `getVoices()` answers at that moment. */
    method Speak(text: string, voices: seq<Voice>)
      requires Valid()
      modifies this
      ensures Valid()
      ensures isSpeaking == old(isSpeaking) && isPaused == old(isPaused)
      ensures text == [] ==> log == old(log) && current == old(current)
      ensures text != [] ==> current == Some(Utterance(text, PickVoice(voices)))
      ensures text != [] ==> log == old(log) + [CancelSpeech, Submit(Utterance(text, PickVoice(voices)))]
    {
      if text == [] {
        return;
      }
      log := log + [CancelSpeech];
      var utterance := Utterance(text, PickVoice(voices));
      current := Some(utterance);
      log := log + [Submit(utterance)];
    }

    /** The `onstart` notification of any submitted utterance. */
    method OnStart(u: Utterance)
      requires Valid() && Submit(u) in log
      modifies this`isSpeaking, this`isPaused
      ensures Valid()
      ensures isSpeaking && !isPaused
    {
      isSpeaking, isPaused := true, false;
    }

    /** The `onend` notification of any submitted utterance, the current one or an older one. */
    method OnEnd(u: Utterance)
      requires Valid() && Submit(u) in log
      modifies this`isSpeaking, this`isPaused
      ensures Valid()
      ensures !isSpeaking && !isPaused
    {
      isSpeaking, isPaused := false, false;
    }

    /** The `onerror` notification, whatever the error: the same effect as `onend`. */
    method OnError(u: Utterance)
      requires Valid() && Submit(u) in log
      modifies this`isSpeaking, this`isPaused
      ensures Valid()
      ensures !isSpeaking && !isPaused
    {
      isSpeaking, isPaused := false, false;
    }

    /** `cancel()`: stop the service and clear both flags, from any state. */
    method Cancel()
      requires Valid()
      modifies this`isSpeaking, this`isPaused, this`log
      ensures Valid()
      ensures !isSpeaking && !isPaused
      ensures log == old(log) + [CancelSpeech]
    {
      log := log + [CancelSpeech];
      isSpeaking, isPaused := false, false;
    }

    /** `pause()`: acts only while speaking and not yet paused. */
    method Pause()
      requires Valid()
      modifies this`isPaused, this`log
      ensures Valid()
      ensures old(isSpeaking && !isPaused) ==> isPaused && log == old(log) + [PauseSpeech]
      ensures !old(isSpeaking && !isPaused) ==> isPaused == old(isPaused) && log == old(log)
    {
      if isSpeaking && !isPaused {
        log := log + [PauseSpeech];
        isPaused := true;
      }
    }

    /** `resume()`: acts only while speaking and paused. */
    method Resume()
      requires Valid()
      modifies this`isPaused, this`log
      ensures Valid()
      ensures old(isSpeaking && isPaused) ==> !isPaused && log == old(log) + [ResumeSpeech]
      ensures !old(isSpeaking && isPaused) ==> isPaused == old(isPaused) && log == old(log)
    {
      if isSpeaking && isPaused {
        log := log + [ResumeSpeech];
        isPaused := false;
      }
    }

    /** The effect cleanup run when the hosting component unmounts. */
    method Unmount()
      requires Valid()
      modifies this`log
      ensures Valid()
      ensures log == old(log) + [CancelSpeech]
    {
      log := log + [CancelSpeech];
    }
  }

  /** Cancelling twice in a row ends in the same flags as cancelling once,
      with one more stop sent to the service. */
  method CancelTwice(n: Narrator)
    requires n.Valid()
    modifies n
    ensures n.Valid() && !n.isSpeaking && !n.isPaused
    ensures n.log == old(n.log) + [CancelSpeech, CancelSpeech]
  {
    n.Cancel();
    var speaking, paused := n.isSpeaking, n.isPaused;
    n.Cancel();
    assert n.isSpeaking == speaking && n.isPaused == paused;
  }

  /** A late `onend` from a superseded utterance clears the flags of the
      narration that replaced it: nothing ties a notification to the
      utterance that is current. */
  method StaleEndClearsNewNarration(n: Narrator, first: string, second: string, voices: seq<Voice>)
    requires n.Valid() && first != [] && second != []
    modifies n
    ensures n.Valid() && !n.isSpeaking && !n.isPaused
    ensures n.current == Some(Utterance(second, PickVoice(voices)))
  {
    n.Speak(first, voices);
    var old_utterance := Utterance(first, PickVoice(voices));
    n.Speak(second, voices);
    n.OnStart(n.current.value);
    assert n.isSpeaking;
    assert Submit(old_utterance) in n.log;
    n.OnEnd(old_utterance);
  }
}
