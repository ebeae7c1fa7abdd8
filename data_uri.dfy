/**
 * The "data" URL scheme of section 3 of RFC 2397,
 *   dataurl := "data:" [ mediatype ] [ ";base64" ] "," data
 * and the audio URL the page builds from a base 64 payload.
 */
module DataUri {
  import opened Wrappers
  import Lists
  import Base64

  datatype DataUrl = DataUrl(mediaType: string, isBase64: bool, data: string)

  const Scheme: string := "data:"
  const Base64Marker: string := ";base64"
  const WavMediaType: string := "audio/wav"

  /** The prefix the page writes in front of the payload. */
  const AudioWavPrefix: string := "data:audio/wav;base64,"

  /** The `src` of the audio element and the `href` of the download link. */
  function AudioSource(base64: string): string {
    AudioWavPrefix + base64
  }

  /** Split a data URL into its media type, encoding flag and data, at the first ','. */
  function Parse(url: string): Option<DataUrl> {
    if |url| < |Scheme| || url[..|Scheme|] != Scheme then None
    else
      var rest := url[|Scheme|..];
      var k := Lists.IndexOf(rest, ',');
      if k < 0 then None
      else
        var header := rest[..k];
        var n := |header|;
        if n >= |Base64Marker| && header[n - |Base64Marker|..] == Base64Marker then
          Some(DataUrl(header[..n - |Base64Marker|], true, rest[k + 1..]))
        else Some(DataUrl(header, false, rest[k + 1..]))
  }

  /** What a player recovers from a URL: the bytes of a base 64 "audio/wav" data URL. */
  function DecodeAudio(url: string): Option<seq<Base64.byte>> {
    match Parse(url)
    case Some(d) => if d.mediaType == WavMediaType && d.isBase64 then Base64.Decode(d.data) else None
    case None => None
  }

  /** The prefix is a well-formed data URL header: whatever follows it is the data, untouched. */
  lemma {:induction false} ParseAudioSource(payload: string)
    ensures Parse(AudioSource(payload)) == Some(DataUrl(WavMediaType, true, payload))
  {
    var url := AudioSource(payload);
    var rest := url[|Scheme|..];
    var header := "audio/wav;base64";
    assert url[..|Scheme|] == Scheme;
    assert rest == header + "," + payload;
    assert ',' !in header;
    assert rest[..|header|] == header;
    assert rest[|header|] == ',';
    var k := Lists.IndexOf(rest, ',');
    assert k == |header|;
    assert rest[..k] == header;
    assert header[|header| - |Base64Marker|..] == Base64Marker;
    assert header[..|header| - |Base64Marker|] == WavMediaType;
    assert rest[k + 1..] == payload;
  }

  /** The audio URL carries the bytes losslessly: a player decodes exactly the synthesized bytes. */
  lemma AudioSourceRoundTrip(bytes: seq<Base64.byte>)
    ensures DecodeAudio(AudioSource(Base64.Encode(bytes))) == Some(bytes)
  {
    ParseAudioSource(Base64.Encode(bytes));
    Base64.DecodeEncode(bytes);
  }
}
