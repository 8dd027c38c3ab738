/** The failures `get_transcript` reports, the exact message it returns for
    each, and the order in which its `except` clauses classify a raised
    exception. */
module Errors {
  import opened Wrappers
  import opened Text

  datatype ErrorKind =
    | NoCaptions                 // no English track, or an empty one
    | UnsupportedFormat          // no usable json3 entry in the chosen track
    | Timeout
    | ConnectionFailed
    | RateLimited                // HTTP 429
    | AccessDenied               // HTTP 403
    | HttpError(code: int)       // any other HTTP status
    | RequestFailed(detail: string)
    | MalformedPayload           // body is not JSON
    | EmptyTranscript            // nothing survived decoding
    | VideoUnavailable
    | UnknownError(detail: string)

  const SuccessMessage := "Transcript retrieved successfully!"

  const HttpErrorTail := " while fetching subtitles."

  /** The `'error'` string returned for each failure. A detail is shown at
      the end of its message, an HTTP status between `HTTP error ` and the
      tail. */
  function Message(k: ErrorKind): (m: string)
    ensures k.RequestFailed? ==> |m| >= 27 && m[27..] == k.detail
    ensures k.UnknownError? ==> |m| >= 7 && m[7..] == k.detail
    ensures k.HttpError? ==>
      && |m| >= 11 + |HttpErrorTail|
      && m[11..|m| - |HttpErrorTail|] == IntToString(k.code)
      && m[|m| - |HttpErrorTail|..] == HttpErrorTail
  {
    match k
    case HttpError(code) =>
      Between("HTTP error ", IntToString(code), HttpErrorTail);
      "HTTP error " + IntToString(code) + HttpErrorTail
    case RequestFailed(detail) =>
      After("Failed to fetch subtitles: ", detail);
      "Failed to fetch subtitles: " + detail
    case UnknownError(detail) =>
      After("Error: ", detail);
      "Error: " + detail
    case _ => FixedMessage(k)
  }

  /** The messages without a detail. Each is written as its first word
      followed by the rest, so that a proof can read the first characters
      without unfolding the whole literal. */
  function FixedMessage(k: ErrorKind): string
    requires !k.HttpError? && !k.RequestFailed? && !k.UnknownError?
  {
    match k
    case NoCaptions => "No " + "English transcript or captions available for this video."
    case UnsupportedFormat => "JSON " + "subtitle format not available. This video may only have VTT/SRT captions."
    case Timeout => "Connection " + "timed out while fetching subtitles. Please try again."
    case ConnectionFailed => "Network " + "connection failed. Please check your internet connection."
    case RateLimited => "Rate " + "limited by YouTube. Please wait a few minutes and try again."
    case AccessDenied => "Access " + "denied. Video may be age-restricted or geo-blocked."
    case MalformedPayload => "Invalid " + "subtitle format received."
    case EmptyTranscript => "Could " + "not parse transcript data."
    case VideoUnavailable => "Video " + "is unavailable. It may be private, deleted, or restricted."
  }

  lemma After(a: string, b: string)
    ensures (a + b)[|a|..] == b
  {
  }

  lemma Between(a: string, b: string, c: string)
    ensures var s := a + b + c; s[|a|..|s| - |c|] == b && s[|s| - |c|..] == c
  {
  }

  /** The first and third characters tell every kind's message apart. */
  function Tag(k: ErrorKind): (char, char) {
    match k
    case NoCaptions => ('N', ' ')
    case UnsupportedFormat => ('J', 'O')
    case Timeout => ('C', 'n')
    case ConnectionFailed => ('N', 't')
    case RateLimited => ('R', 't')
    case AccessDenied => ('A', 'c')
    case HttpError(_) => ('H', 'T')
    case RequestFailed(_) => ('F', 'i')
    case MalformedPayload => ('I', 'v')
    case EmptyTranscript => ('C', 'u')
    case VideoUnavailable => ('V', 'd')
    case UnknownError(_) => ('E', 'r')
  }

  lemma MessageTagFixed(k: ErrorKind)
    requires !k.HttpError? && !k.RequestFailed? && !k.UnknownError?
    ensures |FixedMessage(k)| >= 3 && (FixedMessage(k)[0], FixedMessage(k)[2]) == Tag(k)
  {
    match k
    case NoCaptions =>
    case UnsupportedFormat =>
    case Timeout =>
    case ConnectionFailed =>
    case RateLimited =>
    case AccessDenied =>
    case MalformedPayload =>
    case EmptyTranscript =>
    case VideoUnavailable =>
  }

  /** Every kind's message starts with its tag. */
  lemma MessageTag(k: ErrorKind)
    ensures |Message(k)| >= 3 && (Message(k)[0], Message(k)[2]) == Tag(k)
  {
    if !k.HttpError? && !k.RequestFailed? && !k.UnknownError? {
      MessageTagFixed(k);
      assert Message(k) == FixedMessage(k);
    }
  }

  /** Equal tags mean the same constructor, and the same kind for the
      kinds without a detail. */
  lemma SameTag(k1: ErrorKind, k2: ErrorKind)
    requires Tag(k1) == Tag(k2)
    ensures k1.HttpError? == k2.HttpError?
    ensures k1.RequestFailed? == k2.RequestFailed?
    ensures k1.UnknownError? == k2.UnknownError?
    ensures !k1.HttpError? && !k1.RequestFailed? && !k1.UnknownError? ==> k1 == k2
  {
  }

  /** A rendered integer can be read back, sign included. */
  lemma IntToStringInjective(a: int, b: int)
    requires IntToString(a) == IntToString(b)
    ensures a == b
  {
    var s := IntToString(a);
    if a < 0 {
      assert !IsDigit(s[0]);
      assert b < 0;
    } else {
      assert IsDigit(s[0]);
      assert b >= 0;
    }
  }

  /** Every failure path produces its own message: two kinds with the same
      message are the same kind, details included. */
  lemma MessagesDistinct(k1: ErrorKind, k2: ErrorKind)
    requires Message(k1) == Message(k2)
    ensures k1 == k2
  {
    MessageTag(k1);
    MessageTag(k2);
    SameTag(k1, k2);
    match k1
    case HttpError(c1) =>
      var m1 := Message(k1);
      assert m1[11..|m1| - |HttpErrorTail|] == IntToString(c1);
      assert m1[11..|m1| - |HttpErrorTail|] == IntToString(k2.code);
      IntToStringInjective(c1, k2.code);
    case RequestFailed(d1) =>
    case UnknownError(d1) =>
    case _ =>
  }

  /** The `except` clauses around the subtitle download, in source order. */
  datatype ExceptionClass =
    | TimeoutClass              // requests.exceptions.Timeout
    | ConnectionErrorClass      // requests.exceptions.ConnectionError
    | HttpErrorClass            // requests.exceptions.HTTPError
    | RequestExceptionClass     // requests.exceptions.RequestException
    | JsonDecodeErrorClass      // json.JSONDecodeError

  const FetchHandlers: seq<ExceptionClass> :=
    [TimeoutClass, ConnectionErrorClass, HttpErrorClass, RequestExceptionClass, JsonDecodeErrorClass]

  /** An exception raised while downloading or parsing the subtitle payload:
      the handler classes it is an instance of (the library's class hierarchy
      is not modelled, so any combination may be given), the HTTP status of
      its response, and `str(e)`. */
  datatype FetchException = FetchException(classes: set<ExceptionClass>, status: int, text: string)

  /** The HTTP status branch of the `HTTPError` handler: 429 and 403 have
      their own kinds, every other status is kept as its code. */
  function ClassifyStatus(status: int): (k: ErrorKind)
    ensures k == RateLimited <==> status == 429
    ensures k == AccessDenied <==> status == 403
    ensures status != 429 && status != 403 ==> k == HttpError(status)
  {
    if status == 429 then RateLimited
    else if status == 403 then AccessDenied
    else HttpError(status)
  }

  /** The outer `except Exception` handler, given `str(e)`. */
  function ClassifyUncaught(text: string): (k: ErrorKind)
    ensures k == VideoUnavailable <==>
      (exists p :: OccursAt(text, "Private video", p)) || (exists p :: OccursAt(text, "This video is unavailable", p))
    ensures k != VideoUnavailable ==> k == UnknownError(text)
  {
    if Contains(text, "Private video") || Contains(text, "This video is unavailable") then VideoUnavailable
    else UnknownError(text)
  }

  /** What the handler for `cls` returns. */
  function Handle(cls: ExceptionClass, e: FetchException): ErrorKind {
    match cls
    case TimeoutClass => Timeout
    case ConnectionErrorClass => ConnectionFailed
    case HttpErrorClass => ClassifyStatus(e.status)
    case RequestExceptionClass => RequestFailed(e.text)
    case JsonDecodeErrorClass => MalformedPayload
  }

  /** Index of the first handler, at or after `i`, whose class `e` belongs to. */
  function FirstHandler(e: FetchException, i: nat): (r: Option<nat>)
    requires i <= |FetchHandlers|
    ensures r.Some? ==> i <= r.value < |FetchHandlers| && FetchHandlers[r.value] in e.classes
    ensures r.Some? ==> forall j :: i <= j < r.value ==> FetchHandlers[j] !in e.classes
    ensures r.None? ==> forall j :: i <= j < |FetchHandlers| ==> FetchHandlers[j] !in e.classes
    decreases |FetchHandlers| - i
  {
    if i == |FetchHandlers| then None
    else if FetchHandlers[i] in e.classes then Some(i)
    else FirstHandler(e, i + 1)
  }

  /** Clause `i` of the fetch block is the first whose class `e` belongs to. */
  predicate CaughtFirstBy(e: FetchException, i: int) {
    0 <= i < |FetchHandlers| && FetchHandlers[i] in e.classes &&
    forall j :: 0 <= j < i ==> FetchHandlers[j] !in e.classes
  }

  /** The fetch block's handlers tried first-match in source order: the
      result is the handler of the earliest clause whose class the exception
      belongs to, and an exception none of them catches gets the outer
      handler's result. */
  function ClassifyFetch(e: FetchException): (k: ErrorKind)
    ensures forall i :: CaughtFirstBy(e, i) ==> k == Handle(FetchHandlers[i], e)
    ensures (forall c :: c in e.classes ==> c !in FetchHandlers) ==> k == ClassifyUncaught(e.text)
  {
    match FirstHandler(e, 0)
    case Some(i) =>
      assert forall i' :: CaughtFirstBy(e, i') ==> i' == i by {
        forall i' | CaughtFirstBy(e, i') ensures i' == i {
          assert !(i' < i) && !(i < i');
        }
      }
      Handle(FetchHandlers[i], e)
    case None =>
      ClassifyUncaught(e.text)
  }

  /** The HTTP handler's branches: 429 and 403 have their own messages, every
      other status is reported with its code; and a timeout is reported as
      such whatever else the exception is. */
  lemma StatusMessages(e: FetchException)
    ensures TimeoutClass in e.classes ==> ClassifyFetch(e) == Timeout
    ensures TimeoutClass !in e.classes && ConnectionErrorClass !in e.classes && HttpErrorClass in e.classes ==>
      && (e.status == 429 <==> ClassifyFetch(e) == RateLimited)
      && (e.status == 403 <==> ClassifyFetch(e) == AccessDenied)
      && (e.status != 429 && e.status != 403 ==>
            Message(ClassifyFetch(e)) == "HTTP error " + IntToString(e.status) + HttpErrorTail)
  {
    if TimeoutClass in e.classes {
      assert CaughtFirstBy(e, 0);
    }
    if TimeoutClass !in e.classes && ConnectionErrorClass !in e.classes && HttpErrorClass in e.classes {
      assert CaughtFirstBy(e, 2);
    }
  }

  lemma HttpErrorExample()
    ensures Message(ClassifyStatus(404)) == "HTTP error " + "404" + " while fetching subtitles."
  {
    assert Digits(4) == "4" && Digits(40) == "40";
    assert IntToString(404) == Digits(404) == "404";
  }
}
