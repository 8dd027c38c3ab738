/** Choosing the English subtitle track from the video metadata, and the
    json3 download URL within it. */
module Subtitles {
  import opened Wrappers
  import opened Errors

  /** One downloadable format of a track; a key missing from the entry is `None`. */
  datatype Entry = Entry(ext: Option<string>, url: Option<string>)

  type Track = seq<Entry>

  /** The part of the metadata `extract_info` returns that selection reads:
      the `subtitles` and `automatic_captions` maps from language to track,
      `None` when the key is absent. */
  datatype Info = Info(subtitles: Option<map<string, Track>>, automaticCaptions: Option<map<string, Track>>)

  const English := "en"

  /** The map is present and has an English track. */
  predicate HasEnglish(m: Option<map<string, Track>>) {
    m.Some? && English in m.value
  }

  /** The manual English track if there is one, else the automatic one. */
  function SelectTrack(info: Info): (t: Option<Track>)
    ensures t.Some? <==> HasEnglish(info.subtitles) || HasEnglish(info.automaticCaptions)
    ensures HasEnglish(info.subtitles) ==> t == Some(info.subtitles.value[English])
    ensures !HasEnglish(info.subtitles) && t.Some? ==> t.value == info.automaticCaptions.value[English]
  {
    if HasEnglish(info.subtitles) then Some(info.subtitles.value[English])
    else if HasEnglish(info.automaticCaptions) then Some(info.automaticCaptions.value[English])
    else None
  }

  predicate IsJson3(e: Entry) {
    e.ext == Some("json3")
  }

  /** Entry `i` is the first json3 entry of the track. */
  predicate FirstJson3At(track: Track, i: int) {
    0 <= i < |track| && IsJson3(track[i]) && forall j :: 0 <= j < i ==> !IsJson3(track[j])
  }

  /** Index of the first json3 entry at or after `from`. */
  function FindJson3(track: Track, from: nat): (r: Option<nat>)
    requires from <= |track|
    ensures r.Some? ==> from <= r.value < |track| && IsJson3(track[r.value])
    ensures r.Some? ==> forall j :: from <= j < r.value ==> !IsJson3(track[j])
    ensures r.None? ==> forall j :: from <= j < |track| ==> !IsJson3(track[j])
    decreases |track| - from
  {
    if from == |track| then None
    else if IsJson3(track[from]) then Some(from)
    else FindJson3(track, from + 1)
  }

  /** A `url` that Python treats as true: present and non-empty. */
  predicate UsableUrl(u: Option<string>) {
    u.Some? && u.value != []
  }

  /** The `url` of the first json3 entry, which must be usable; the loop
      stops at that entry whatever its `url` holds. */
  function Json3Url(track: Track): (r: Result<string, ErrorKind>)
    ensures r.Success? <==> exists i :: FirstJson3At(track, i) && UsableUrl(track[i].url)
    ensures r.Success? ==> exists i :: FirstJson3At(track, i) && track[i].url == Some(r.value)
    ensures r.Success? ==> r.value != []
    ensures r.Failure? ==> r.error == UnsupportedFormat
  {
    match FindJson3(track, 0)
    case None => Failure(UnsupportedFormat)
    case Some(i) =>
      assert FirstJson3At(track, i);
      if UsableUrl(track[i].url) then Success(track[i].url.value) else Failure(UnsupportedFormat)
  }

  /** The subtitle URL `get_transcript` downloads, or why there is none. */
  function SubtitleUrl(info: Info): (r: Result<string, ErrorKind>)
    ensures r.Failure? ==> r.error == NoCaptions || r.error == UnsupportedFormat
    ensures r.Failure? && r.error == NoCaptions <==> SelectTrack(info).None? || SelectTrack(info) == Some([])
    ensures SelectTrack(info).Some? && SelectTrack(info) != Some([]) ==> r == Json3Url(SelectTrack(info).value)
    ensures r.Success? ==> r.value != []
  {
    match SelectTrack(info)
    case None => Failure(NoCaptions)
    case Some(t) => if t == [] then Failure(NoCaptions) else Json3Url(t)
  }

  /** The manual English track wins: when it exists, the automatic captions
      play no part in the selection. */
  lemma ManualPreferred(info: Info, automatic: Option<map<string, Track>>)
    requires HasEnglish(info.subtitles)
    ensures SelectTrack(info) == Some(info.subtitles.value[English])
    ensures SubtitleUrl(info) == SubtitleUrl(info.(automaticCaptions := automatic))
  {
  }

  /** The automatic English track is chosen exactly when there is no manual
      one and there is an automatic one. */
  lemma AutomaticOnlyWhenManualAbsent(info: Info)
    ensures SelectTrack(info).Some? <==> HasEnglish(info.subtitles) || HasEnglish(info.automaticCaptions)
    ensures !HasEnglish(info.subtitles) && HasEnglish(info.automaticCaptions) ==>
      SelectTrack(info) == Some(info.automaticCaptions.value[English])
    ensures !HasEnglish(info.subtitles) ==> SelectTrack(info) == SelectTrack(info.(subtitles := None))
  {
  }

  /** An empty manual English track is reported as missing captions; the
      automatic track is not tried. */
  lemma EmptyManualNoFallback(info: Info)
    requires HasEnglish(info.subtitles) && info.subtitles.value[English] == []
    ensures SubtitleUrl(info) == Failure(NoCaptions)
  {
  }

  /** Entries after the first json3 entry are never looked at. */
  lemma {:induction false} FindJson3Prefix(track: Track, rest: Track, from: nat, i: nat)
    requires from <= i < |track| && FindJson3(track, from) == Some(i)
    ensures FindJson3(track[..i + 1] + rest, from) == Some(i)
    decreases i - from
  {
    var t := track[..i + 1] + rest;
    assert t[from] == track[from];
    if from < i {
      FindJson3Prefix(track, rest, from + 1, i);
    }
  }

  /** Only the first json3 entry is used: replacing everything after it
      leaves the chosen URL, or the failure, unchanged. */
  lemma OnlyFirstJson3Used(track: Track, i: nat, rest: Track)
    requires FirstJson3At(track, i)
    ensures Json3Url(track[..i + 1] + rest) == Json3Url(track)
  {
    var r := FindJson3(track, 0);
    assert r == Some(i) by {
      if r.Some? {
        assert !(r.value < i) && !(i < r.value);
      }
    }
    FindJson3Prefix(track, rest, 0, i);
    assert (track[..i + 1] + rest)[i] == track[i];
  }

  /** The two selection failures are told apart by their messages. */
  lemma SelectionFailuresDistinct()
    ensures Message(NoCaptions) != Message(UnsupportedFormat)
  {
    MessageTag(NoCaptions);
    MessageTag(UnsupportedFormat);
  }
}
