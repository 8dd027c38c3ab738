/** `get_transcript`: metadata lookup, track and format selection, the
    subtitle download and decoding, with every failure turned into its
    message. The metadata extractor and the download are parameters. */
module Transcript {
  import opened Wrappers
  import opened Errors
  import opened Subtitles
  import opened Json3
  import Text
  import VideoId

  /** `extract_info(url)`: the metadata, or `str(e)` of the exception it raised. */
  type Extractor = string -> Result<Info, string>

  /** The GET of the subtitle URL and `response.json()`: the payload, or the
      exception raised on the way. */
  type Fetcher = string -> Result<Payload, FetchException>

  /** The dict `get_transcript` returns. */
  datatype Response =
    | Retrieved(transcript: seq<Segment>, message: string)
    | Failed(error: string)

  /** The steps in source order, each failure carried as its kind. A
      selection failure is reported only when the metadata was obtained, and
      an empty transcript only when the payload was downloaded. */
  function Run(videoId: string, extract: Extractor, fetch: Fetcher): (r: Result<seq<Segment>, ErrorKind>)
    ensures r.Success? ==> r.value != [] && forall k :: 0 <= k < |r.value| ==>
      r.value[k].text != [] && Text.Trimmed(r.value[k].text)
    ensures r.Failure? && (r.error == NoCaptions || r.error == UnsupportedFormat) ==>
      && extract(VideoId.WatchUrl(videoId)).Success?
      && SubtitleUrl(extract(VideoId.WatchUrl(videoId)).value) == Failure(r.error)
    ensures r.Failure? && r.error == EmptyTranscript ==>
      && extract(VideoId.WatchUrl(videoId)).Success?
      && SubtitleUrl(extract(VideoId.WatchUrl(videoId)).value).Success?
      && fetch(SubtitleUrl(extract(VideoId.WatchUrl(videoId)).value).value).Success?
    ensures
      && extract(VideoId.WatchUrl(videoId)).Success?
      && SubtitleUrl(extract(VideoId.WatchUrl(videoId)).value).Success?
      && fetch(SubtitleUrl(extract(VideoId.WatchUrl(videoId)).value).value).Success?
      ==> r == BuildTranscript(fetch(SubtitleUrl(extract(VideoId.WatchUrl(videoId)).value).value).value)
  {
    match extract(VideoId.WatchUrl(videoId))
    case Failure(text) => Failure(ClassifyUncaught(text))
    case Success(info) =>
      match SubtitleUrl(info)
      case Failure(k) => Failure(k)
      case Success(url) =>
        match fetch(url)
        case Failure(e) => Failure(ClassifyFetch(e))
        case Success(payload) => BuildTranscript(payload)
  }

  /** `get_transcript(video_id)`. */
  function GetTranscript(videoId: string, extract: Extractor, fetch: Fetcher): (r: Response)
    ensures r.Retrieved? ==> r.transcript != [] && r.message == SuccessMessage
    ensures r.Retrieved? ==> forall k :: 0 <= k < |r.transcript| ==>
      r.transcript[k].text != [] && Text.Trimmed(r.transcript[k].text)
    ensures r.Failed? ==> exists k :: r.error == Message(k)
  {
    match Run(videoId, extract, fetch)
    case Success(segs) => Retrieved(segs, SuccessMessage)
    case Failure(k) => Failed(Message(k))
  }

  /** Success exactly when every step succeeds; the transcript is then the
      decoded events of the payload fetched from the selected URL. */
  lemma RetrievedIff(videoId: string, extract: Extractor, fetch: Fetcher)
    ensures GetTranscript(videoId, extract, fetch).Retrieved? <==>
      && extract(VideoId.WatchUrl(videoId)).Success?
      && SubtitleUrl(extract(VideoId.WatchUrl(videoId)).value).Success?
      && fetch(SubtitleUrl(extract(VideoId.WatchUrl(videoId)).value).value).Success?
      && BuildTranscript(fetch(SubtitleUrl(extract(VideoId.WatchUrl(videoId)).value).value).value).Success?
    ensures GetTranscript(videoId, extract, fetch).Retrieved? ==>
      GetTranscript(videoId, extract, fetch).transcript ==
        BuildTranscript(fetch(SubtitleUrl(extract(VideoId.WatchUrl(videoId)).value).value).value).value
  {
  }

  /** The extractor is consulted only on the watch URL of the ID. */
  lemma ExtractorOnlyAtWatchUrl(videoId: string, e1: Extractor, e2: Extractor, fetch: Fetcher)
    requires e1(VideoId.WatchUrl(videoId)) == e2(VideoId.WatchUrl(videoId))
    ensures GetTranscript(videoId, e1, fetch) == GetTranscript(videoId, e2, fetch)
  {
    assert Run(videoId, e1, fetch) == Run(videoId, e2, fetch);
  }

  /** The download is consulted only on the selected subtitle URL. */
  lemma FetchOnlyAtSubtitleUrl(videoId: string, extract: Extractor, f1: Fetcher, f2: Fetcher)
    requires extract(VideoId.WatchUrl(videoId)).Success?
    requires var s := SubtitleUrl(extract(VideoId.WatchUrl(videoId)).value);
      s.Success? ==> f1(s.value) == f2(s.value)
    ensures GetTranscript(videoId, extract, f1) == GetTranscript(videoId, extract, f2)
  {
  }

  /** When selection fails nothing is downloaded, and its own message is returned. */
  lemma SelectionFailureSkipsFetch(videoId: string, extract: Extractor, fetch: Fetcher)
    requires extract(VideoId.WatchUrl(videoId)).Success?
    requires SubtitleUrl(extract(VideoId.WatchUrl(videoId)).value).Failure?
    ensures GetTranscript(videoId, extract, fetch) ==
      Failed(Message(SubtitleUrl(extract(VideoId.WatchUrl(videoId)).value).error))
  {
  }

  /** A failing extractor is reported through the outer handler. */
  lemma ExtractorFailure(videoId: string, extract: Extractor, fetch: Fetcher)
    requires extract(VideoId.WatchUrl(videoId)).Failure?
    ensures GetTranscript(videoId, extract, fetch) ==
      Failed(Message(ClassifyUncaught(extract(VideoId.WatchUrl(videoId)).error)))
  {
  }

  /** A downloaded payload without `events`, or whose every event is
      dropped, is reported as unparsable transcript data. */
  lemma DecodeFailure(videoId: string, extract: Extractor, fetch: Fetcher, url: string)
    requires extract(VideoId.WatchUrl(videoId)).Success?
    requires SubtitleUrl(extract(VideoId.WatchUrl(videoId)).value) == Success(url)
    requires fetch(url).Success?
    requires fetch(url).value.events.None? ||
      forall i :: 0 <= i < |fetch(url).value.events.value| ==> Decode(fetch(url).value.events.value[i]).None?
    ensures GetTranscript(videoId, extract, fetch) == Failed(Message(EmptyTranscript))
  {
  }

  /** A failing download is reported through the fetch handlers in source order. */
  lemma FetchFailure(videoId: string, extract: Extractor, fetch: Fetcher, url: string)
    requires extract(VideoId.WatchUrl(videoId)).Success?
    requires SubtitleUrl(extract(VideoId.WatchUrl(videoId)).value) == Success(url)
    requires fetch(url).Failure?
    ensures GetTranscript(videoId, extract, fetch) == Failed(Message(ClassifyFetch(fetch(url).error)))
  {
  }
}
