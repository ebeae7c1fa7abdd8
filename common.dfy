/**
 * The audio helpers of the English page: the input check of
 * `generateAudio`, the byte-buffer to base 64 conversion, the data URL
 * handed to the player and to the download link, the download file name
 * and `trimText`.
 *
 * The remote text-to-speech call is an input (its reply), as are the
 * browser capabilities and the playback callbacks; what the code does to
 * the outside world is returned as a sequence of effects.
 */
module Common {
  import opened Wrappers
  import Ascii
  import Base64
  import DataUri
  import Playback

  type byte = Base64.byte

  /** `typeof window !== 'undefined'`, and whether an AudioContext can be built there. */
  datatype Env = Env(isBrowser: bool, hasAudioContext: bool)

  // ------------------------------------------------------ binary string, btoa

  /** The "binary string" of a buffer: one character per byte, whose code is that byte. */
  function BinaryString(bytes: seq<byte>): (s: string)
    ensures |s| == |bytes|
    ensures forall i :: 0 <= i < |bytes| ==> s[i] as int == bytes[i] as int
  {
    seq(|bytes|, i requires 0 <= i < |bytes| => bytes[i] as int as char)
  }

  predicate IsLatin1(s: string) {
    forall i :: 0 <= i < |s| ==> s[i] as int < 256
  }

  function Latin1Bytes(s: string): (bytes: seq<byte>)
    requires IsLatin1(s)
    ensures |bytes| == |s|
    ensures forall i :: 0 <= i < |s| ==> bytes[i] as int == s[i] as int
  {
    seq(|s|, i requires 0 <= i < |s| => s[i] as int as byte)
  }

  datatype DomError = InvalidCharacterError

  /**
   * `window.btoa`: the base 64 encoding of the bytes a binary string
   * stands for; a character above U+00FF makes it throw.
   */
  function Btoa(binary: string): (r: Result<string, DomError>)
    ensures r.Success? <==> IsLatin1(binary)
    ensures r.Success? ==> Base64.Decode(r.value) == Some(Latin1Bytes(binary))
  {
    if IsLatin1(binary) then
      Base64.DecodeEncode(Latin1Bytes(binary));
      Success(Base64.Encode(Latin1Bytes(binary)))
    else Failure(InvalidCharacterError)
  }

  /** The binary string built from a buffer never makes `btoa` throw, and `btoa` then encodes exactly those bytes. */
  lemma BtoaOfBinaryString(bytes: seq<byte>)
    ensures Btoa(BinaryString(bytes)) == Success(Base64.Encode(bytes))
  {
    var s := BinaryString(bytes);
    assert Latin1Bytes(s) == bytes;
  }

  /** What `arrayBufferToBase64` returns: "" outside a browser. */
  function ToBase64(isBrowser: bool, bytes: seq<byte>): (s: string)
    ensures isBrowser ==> |s| == 4 * ((|bytes| + 2) / 3)
    ensures !isBrowser ==> s == ""
  {
    if isBrowser then Base64.Encode(bytes) else ""
  }

  /** In a browser the result is the base 64 text of the buffer: it decodes back to the same bytes. */
  lemma ToBase64Decodes(bytes: seq<byte>)
    ensures Base64.Decode(ToBase64(true, bytes)) == Some(bytes)
  {
    Base64.DecodeEncode(bytes);
  }

  /**
   * `arrayBufferToBase64`: the loop appends one character per byte, then
   * the binary string goes through `btoa`.
   */
  method ArrayBufferToBase64(isBrowser: bool, buffer: array<byte>) returns (base64: string)
    ensures base64 == ToBase64(isBrowser, buffer[..])
  {
    if !isBrowser {
      return "";
    }
    var binary: string := "";
    var i := 0;
    while i < buffer.Length
      invariant 0 <= i <= buffer.Length
      invariant binary == BinaryString(buffer[..i])
    {
      binary := binary + [buffer[i] as int as char];
      i := i + 1;
    }
    assert buffer[..i] == buffer[..];
    BtoaOfBinaryString(buffer[..]);
    var r := Btoa(binary);
    base64 := r.value;
  }

  // ----------------------------------------------------------------- effects

  datatype Notice = EnterWord | GenerationFailed

  datatype Effect =
    | Alert(notice: Notice)
    | Synthesize(text: string)              // the remote text-to-speech call
    | Play(source: string)                  // `playBase64Audio(source)`
    | Save(href: string, filename: string)  // a link clicked to download `href`

  /**
   * What an asynchronous call did and whether its promise settled:
   * `Done` (resolved), `Threw` (rejected) or `Pending` (never settles).
   */
  datatype Completion = Done | Threw | Pending

  datatype Run = Run(effects: seq<Effect>, completion: Completion)

  /** The data URL played and downloaded for the bytes the speech service returned. */
  function AudioSourceOf(bytes: seq<byte>): string {
    DataUri.AudioSource(ToBase64(true, bytes))
  }

  /** A player decoding the data URL gets back exactly the bytes. */
  lemma AudioSourceOfDecodes(bytes: seq<byte>)
    ensures DataUri.DecodeAudio(AudioSourceOf(bytes)) == Some(bytes)
  {
    DataUri.AudioSourceRoundTrip(bytes);
  }

  /** The playback promise as `await` sees it: resolved, rejected, or never settled. */
  function Awaited(settled: Option<Playback.Outcome>): Completion {
    match settled
    case None => Pending
    case Some(Resolved) => Done
    case Some(Rejected(_)) => Threw
  }

  /**
   * `handleAudioData`: nothing outside a browser; otherwise play the data
   * URL and wait for the promise of `playBase64Audio`, which `playback`
   * says how it settles (the Playback module computes it from the
   * element's callbacks).
   */
  function HandleAudioData(env: Env, bytes: seq<byte>, playback: Option<Playback.Outcome>): Run {
    if !env.isBrowser then Run([], Done)
    else Run([Play(AudioSourceOf(bytes))], Awaited(playback))
  }

  /**
   * `generateAudio`: a blank word only alerts; otherwise the untrimmed word
   * goes to the speech service, and a failure of the service or of playback
   * is caught and alerted.
   */
  function GenerateAudio(env: Env, inputWord: string, reply: Result<seq<byte>, string>,
                         playback: Option<Playback.Outcome>): Run
  {
    var alert := if env.isBrowser then [Alert(GenerationFailed)] else [];
    if Ascii.Trim(inputWord) == [] then
      Run(if env.isBrowser then [Alert(EnterWord)] else [], Done)
    else
      match reply
      case Failure(_) => Run([Synthesize(inputWord)] + alert, Done)
      case Success(bytes) =>
        var h := HandleAudioData(env, bytes, playback);
        match h.completion
        case Threw => Run([Synthesize(inputWord)] + h.effects + alert, Done)
        case _ => Run([Synthesize(inputWord)] + h.effects, h.completion)
  }

  predicate Synthesizes(effects: seq<Effect>) {
    exists i :: 0 <= i < |effects| && effects[i].Synthesize?
  }

  predicate Plays(effects: seq<Effect>) {
    exists i :: 0 <= i < |effects| && effects[i].Play?
  }

  /** A blank word never reaches the speech service or the player. */
  lemma BlankWordDoesNothing(env: Env, inputWord: string, reply: Result<seq<byte>, string>,
                             playback: Option<Playback.Outcome>)
    requires Ascii.IsBlank(inputWord)
    ensures var r := GenerateAudio(env, inputWord, reply, playback);
      && r.completion == Done
      && r.effects == (if env.isBrowser then [Alert(EnterWord)] else [])
      && !Synthesizes(r.effects) && !Plays(r.effects)
  {
    Ascii.TrimEmptyIffBlank(inputWord);
  }

  /** The speech service is asked for the word as typed, not for its trim. */
  lemma SynthesizesUntrimmedWord(env: Env, inputWord: string, reply: Result<seq<byte>, string>,
                                 playback: Option<Playback.Outcome>)
    requires !Ascii.IsBlank(inputWord)
    ensures var r := GenerateAudio(env, inputWord, reply, playback);
      |r.effects| > 0 && r.effects[0] == Synthesize(inputWord)
  {
    Ascii.TrimEmptyIffBlank(inputWord);
  }

  /** A failed speech request: one request, an alert in a browser, no playback; the error does not escape. */
  lemma SynthesisFailure(env: Env, inputWord: string, error: string, playback: Option<Playback.Outcome>)
    requires !Ascii.IsBlank(inputWord)
    ensures GenerateAudio(env, inputWord, Failure(error), playback)
      == Run([Synthesize(inputWord)] + (if env.isBrowser then [Alert(GenerationFailed)] else []), Done)
  {
    Ascii.TrimEmptyIffBlank(inputWord);
  }

  /** Outside a browser nothing is played and nothing is alerted. */
  lemma NoBrowserNoPlayback(inputWord: string, hasAudioContext: bool, reply: Result<seq<byte>, string>,
                            playback: Option<Playback.Outcome>)
    requires !Ascii.IsBlank(inputWord)
    ensures GenerateAudio(Env(false, hasAudioContext), inputWord, reply, playback) == Run([Synthesize(inputWord)], Done)
  {
    Ascii.TrimEmptyIffBlank(inputWord);
  }

  /**
   * In a browser `generateAudio` plays the reply's data URL and then
   * follows the playback promise: resolved ends quietly, rejected is caught
   * and alerted, unsettled never completes.
   */
  lemma AwaitsPlayback(hasAudioContext: bool, inputWord: string, bytes: seq<byte>,
                       playback: Option<Playback.Outcome>)
    requires !Ascii.IsBlank(inputWord)
    ensures var r := GenerateAudio(Env(true, hasAudioContext), inputWord, Success(bytes), playback);
      var played := [Synthesize(inputWord), Play(AudioSourceOf(bytes))];
      && (playback == None ==> r == Run(played, Pending))
      && (playback == Some(Playback.Resolved) ==> r == Run(played, Done))
      && (playback.Some? && playback.value.Rejected? ==> r == Run(played + [Alert(GenerationFailed)], Done))
  {
    Ascii.TrimEmptyIffBlank(inputWord);
    var src := AudioSourceOf(bytes);
    var played := [Synthesize(inputWord), Play(src)];
    assert [Synthesize(inputWord)] + [Play(src)] == played;
    var r := GenerateAudio(Env(true, hasAudioContext), inputWord, Success(bytes), playback);
    match playback
    case None => assert r == Run(played, Pending);
    case Some(Resolved) => assert r == Run(played, Done);
    case Some(Rejected(_)) => assert r == Run(played + [Alert(GenerationFailed)], Done);
  }

  /**
   * In a browser the reply's bytes are played from their data URL, which
   * (AudioSourceOfDecodes) decodes back to exactly those bytes.
   */
  lemma PlaysReply(hasAudioContext: bool, inputWord: string, bytes: seq<byte>,
                   playback: Option<Playback.Outcome>)
    requires !Ascii.IsBlank(inputWord)
    ensures var r := GenerateAudio(Env(true, hasAudioContext), inputWord, Success(bytes), playback);
      && |r.effects| >= 2
      && r.effects[0] == Synthesize(inputWord)
      && r.effects[1] == Play(AudioSourceOf(bytes))
  {
    AwaitsPlayback(hasAudioContext, inputWord, bytes, playback);
  }

  /**
   * The outcome of `generateAudio` in a browser is decided by the first
   * `ended`, `error` or rejected play(): success ends quietly, a rejection
   * is caught and alerted, and with none of them the call never completes.
   */
  lemma PlaybackOutcome(hasAudioContext: bool, inputWord: string, bytes: seq<byte>,
                        events: seq<Playback.PrimaryEvent>)
    requires !Ascii.IsBlank(inputWord)
    ensures var playback := Playback.PrimaryRun(Playback.PrimaryStart(AudioSourceOf(bytes), true, hasAudioContext), events).settled;
      var r := GenerateAudio(Env(true, hasAudioContext), inputWord, Success(bytes), playback);
      var played := [Synthesize(inputWord), Play(AudioSourceOf(bytes))];
      && (Playback.FirstPrimarySignal(events) == None ==> r == Run(played, Pending))
      && (Playback.FirstPrimarySignal(events) == Some(Playback.Resolved) ==> r == Run(played, Done))
      && (Playback.FirstPrimarySignal(events).Some? && Playback.FirstPrimarySignal(events).value.Rejected?
          ==> r == Run(played + [Alert(GenerationFailed)], Done))
  {
    var playback := Playback.PrimaryRun(Playback.PrimaryStart(AudioSourceOf(bytes), true, hasAudioContext), events).settled;
    Playback.PrimaryOutcomeIsFirstSignal(AudioSourceOf(bytes), hasAudioContext, events);
    assert playback == Playback.FirstPrimarySignal(events);
    AwaitsPlayback(hasAudioContext, inputWord, bytes, playback);
  }

  // ---------------------------------------------------------------- download

  /** `filename || \`${inputWord}.wav\``: an absent or empty override falls back. */
  function DownloadName(inputWord: string, filename: Option<string>): (name: string)
    ensures |name| > 0
    ensures filename.Some? && filename.value != "" ==> name == filename.value
    ensures (filename.None? || filename.value == "") ==> name == inputWord + ".wav"
  {
    if filename.Some? && filename.value != "" then filename.value else inputWord + ".wav"
  }

  /**
   * `downloadAudio`: no input check; a failed speech request is rethrown;
   * outside a browser nothing is saved.
   */
  function DownloadAudio(env: Env, inputWord: string, filename: Option<string>,
                         reply: Result<seq<byte>, string>): (r: Run)
    ensures |r.effects| > 0 && r.effects[0] == Synthesize(inputWord)
    ensures r.completion == Threw <==> reply.Failure?
    ensures r.completion != Pending
    ensures env.isBrowser && reply.Success? ==>
      r.effects == [Synthesize(inputWord), Save(AudioSourceOf(reply.value), DownloadName(inputWord, filename))]
    ensures !env.isBrowser || reply.Failure? ==> r.effects == [Synthesize(inputWord)]
  {
    match reply
    case Failure(_) => Run([Synthesize(inputWord)], Threw)
    case Success(bytes) =>
      if !env.isBrowser then Run([Synthesize(inputWord)], Done)
      else
        var href := DataUri.AudioSource(ToBase64(env.isBrowser, bytes));
        Run([Synthesize(inputWord), Save(href, DownloadName(inputWord, filename))], Done)
  }

  /** The downloaded file is the same data URL that is played (AudioSourceOfDecodes: it decodes to the reply's bytes). */
  lemma DownloadMatchesPlayback(hasAudioContext: bool, inputWord: string, filename: Option<string>,
                                bytes: seq<byte>, playback: Option<Playback.Outcome>)
    requires !Ascii.IsBlank(inputWord)
    ensures var d := DownloadAudio(Env(true, hasAudioContext), inputWord, filename, Success(bytes));
      var g := GenerateAudio(Env(true, hasAudioContext), inputWord, Success(bytes), playback);
      && d.effects == [Synthesize(inputWord), Save(AudioSourceOf(bytes), DownloadName(inputWord, filename))]
      && g.effects[1] == Play(d.effects[1].href)
  {
    PlaysReply(hasAudioContext, inputWord, bytes, playback);
  }

  // ---------------------------------------------------------------- trimText

  /** `trimText`: drop every '.' and ',', lower-case, trim. */
  function TrimText(text: string): string {
    Ascii.Trim(Ascii.ToLower(Ascii.RemoveAll(Ascii.RemoveAll(text, '.'), ',')))
  }

  predicate IsNormalized(s: string) {
    && '.' !in s && ',' !in s
    && Ascii.IsTrimmed(s)
    && forall i :: 0 <= i < |s| ==> !Ascii.IsUpper(s[i])
  }

  /** Every character of a trim comes from the trimmed string. */
  lemma TrimChars(s: string)
    ensures forall i :: 0 <= i < |Ascii.Trim(s)| ==> Ascii.Trim(s)[i] in s
  {
    var t := Ascii.TrimStart(s);
    var r := Ascii.TrimEnd(t);
    assert r == Ascii.Trim(s);
    var a := |s| - |t|;
    forall i | 0 <= i < |r| ensures r[i] in s {
      assert r[i] == t[i];
      assert t[i] == s[a + i];
    }
  }

  /** Lower-casing keeps every character that is not a letter. */
  lemma ToLowerChars(s: string, c: char)
    requires !Ascii.IsUpper(c) && !('a' <= c <= 'z')
    ensures c in Ascii.ToLower(s) <==> c in s
  {
    var t := Ascii.ToLower(s);
    if c in t {
      var i :| 0 <= i < |t| && t[i] == c;
      assert Ascii.LowerChar(s[i]) == c;
      assert s[i] == c;
    }
    if c in s {
      var i :| 0 <= i < |s| && s[i] == c;
      assert t[i] == c;
    }
  }

  /** The result has no '.', no ',', no white space at its ends and no upper-case letter. */
  lemma TrimTextNormalizes(text: string)
    ensures IsNormalized(TrimText(text))
  {
    var u := Ascii.RemoveAll(Ascii.RemoveAll(text, '.'), ',');
    var t := Ascii.ToLower(u);
    var r := Ascii.Trim(t);
    assert '.' !in u && ',' !in u;
    ToLowerChars(u, '.');
    ToLowerChars(u, ',');
    TrimChars(t);
    forall i | 0 <= i < |r| ensures !Ascii.IsUpper(r[i]) {
      assert r[i] in t;
    }
  }

  /** A normalized string is its own `trimText`. */
  lemma TrimTextOfNormalized(s: string)
    requires IsNormalized(s)
    ensures TrimText(s) == s
  {
    assert Ascii.ToLower(s) == s;
    Ascii.TrimOfTrimmed(s);
  }

  /** `trimText` is idempotent. */
  lemma TrimTextIdempotent(text: string)
    ensures TrimText(TrimText(text)) == TrimText(text)
  {
    TrimTextNormalizes(text);
    TrimTextOfNormalized(TrimText(text));
  }
}
