/** `extract_video_id`: the two regular expressions tried in order with
    `re.search`, written out as scans over the URL. Pattern 1 is one of
    three literal markers followed by a capture; pattern 2 is the literal
    `youtube.com/watch?`, any characters but a newline, `v=`, and the same
    capture.

    `re.search` reports the match that starts leftmost. The capture group is
    greedy, so it takes the maximal run of characters other than `&`, `\n`,
    `?` and `#`. In pattern 2 the greedy `.*` backtracks from the end of the
    line, so the LAST qualifying `v=` on that line is the one used. */
module VideoId {
  import opened Wrappers
  import opened Text

  const WatchMarker := "youtube.com/watch?v="
  const ShortMarker := "youtu.be/"
  const EmbedMarker := "youtube.com/embed/"

  /** Pattern 1's alternatives, in the order the regex tries them. */
  const Markers := [WatchMarker, ShortMarker, EmbedMarker]

  /** The literal part of pattern 2 before `.*`. */
  const WatchQuery := "youtube.com/watch?"

  /** Characters the capture class `[^&\n?#]` excludes. */
  predicate IsStop(c: char) {
    c == '&' || c == '\n' || c == '?' || c == '#'
  }

  predicate NoStops(t: string) {
    forall k :: 0 <= k < |t| ==> !IsStop(t[k])
  }

  /** Length of the maximal run of non-stop characters starting at `i`. */
  function RunLength(s: string, i: nat): (n: nat)
    requires i <= |s|
    ensures i + n <= |s|
    ensures forall k :: i <= k < i + n ==> !IsStop(s[k])
    ensures i + n < |s| ==> IsStop(s[i + n])
    decreases |s| - i
  {
    if i < |s| && !IsStop(s[i]) then 1 + RunLength(s, i + 1) else 0
  }

  /** What `([^&\n?#]+)` captures when it starts at `e`: the maximal run of
      capturable characters there, non-empty when `s[e]` is capturable. */
  function Capture(s: string, e: nat): (id: string)
    requires e <= |s|
    ensures OccursAt(s, id, e) && NoStops(id)
    ensures e + |id| == |s| || IsStop(s[e + |id|])
    ensures e < |s| && !IsStop(s[e]) ==> |id| > 0
  {
    s[e..e + RunLength(s, e)]
  }

  /** Alternative `m` of pattern 1 matches at `p`: the marker, then at least
      one capturable character. */
  predicate MarkerMatch(s: string, m: string, p: int) {
    OccursAt(s, m, p) && p + |m| < |s| && !IsStop(s[p + |m|])
  }

  /** Pattern 1 matches at `p`. */
  predicate Matches1At(s: string, p: int) {
    MarkerMatch(s, WatchMarker, p) || MarkerMatch(s, ShortMarker, p) || MarkerMatch(s, EmbedMarker, p)
  }

  /** Pattern 1 anchored at `p`: the alternatives tried in order. */
  function Pattern1At(s: string, p: nat): (r: Option<string>)
    requires p <= |s|
    ensures r.Some? <==> Matches1At(s, p)
    ensures r.Some? ==> r.value != [] && NoStops(r.value)
  {
    if MarkerMatch(s, WatchMarker, p) then Some(Capture(s, p + |WatchMarker|))
    else if MarkerMatch(s, ShortMarker, p) then Some(Capture(s, p + |ShortMarker|))
    else if MarkerMatch(s, EmbedMarker, p) then Some(Capture(s, p + |EmbedMarker|))
    else None
  }

  /** No two of pattern 1's markers occur at the same position, so the order
      of the alternatives never decides the result. */
  lemma MarkersExclusive(s: string, p: int)
    ensures !(OccursAt(s, WatchMarker, p) && OccursAt(s, ShortMarker, p))
    ensures !(OccursAt(s, WatchMarker, p) && OccursAt(s, EmbedMarker, p))
    ensures !(OccursAt(s, ShortMarker, p) && OccursAt(s, EmbedMarker, p))
  {
    if OccursAt(s, WatchMarker, p) {
      assert s[p + 5] == WatchMarker[5] == 'b' && s[p + 12] == WatchMarker[12] == 'w';
    }
    if OccursAt(s, EmbedMarker, p) {
      assert s[p + 5] == EmbedMarker[5] == 'b' && s[p + 12] == EmbedMarker[12] == 'e';
    }
    if OccursAt(s, ShortMarker, p) {
      assert s[p + 5] == ShortMarker[5] == '.';
    }
  }

  /** `s[e..q]` holds no newline: the part `.*` can consume. */
  predicate NoNewline(s: string, e: int, q: int) {
    forall k :: e <= k < q && 0 <= k < |s| ==> s[k] != '\n'
  }

  /** `v=` at `q`, followed by a capturable character. */
  predicate VTail(s: string, q: int) {
    0 <= q && q + 2 < |s| && s[q] == 'v' && s[q + 1] == '=' && !IsStop(s[q + 2])
  }

  /** Pattern 2, with `.*` starting at `e`, can place its `v=` at `q`. */
  predicate VAt(s: string, e: int, q: int) {
    e <= q && NoNewline(s, e, q) && VTail(s, q)
  }

  /** Some `v=` reachable from `e` qualifies. */
  ghost predicate SomeVFrom(s: string, e: int) {
    exists q :: VAt(s, e, q)
  }

  /** `q` is the last qualifying `v=` reachable from `e`: the one the
      backtracking `.*` settles on. */
  ghost predicate LastVFrom(s: string, e: int, q: int) {
    VAt(s, e, q) && forall j :: q < j ==> !VAt(s, e, j)
  }

  /** Pattern 2 matches at `p`. */
  ghost predicate Matches2At(s: string, p: int) {
    OccursAt(s, WatchQuery, p) && SomeVFrom(s, p + |WatchQuery|)
  }

  /** Index of the first newline at or after `e`, or `|s|`: how far the
      greedy `.*` reaches. */
  function LineEnd(s: string, e: nat): (l: nat)
    requires e <= |s|
    ensures e <= l <= |s|
    ensures NoNewline(s, e, l)
    ensures l < |s| ==> s[l] == '\n'
    decreases |s| - e
  {
    if e == |s| || s[e] == '\n' then e else LineEnd(s, e + 1)
  }

  /** Greedy backtracking: give characters back from `q` down to `e` until
      `v=` plus one capturable character follows. */
  function Backtrack(s: string, e: nat, q: nat): (r: Option<nat>)
    requires e <= q <= |s|
    ensures r.Some? ==> e <= r.value <= q && VTail(s, r.value)
    ensures r.Some? ==> forall j :: r.value < j <= q ==> !VTail(s, j)
    ensures r.None? ==> forall j :: e <= j <= q ==> !VTail(s, j)
    decreases q
  {
    if VTail(s, q) then Some(q)
    else if q == e then None
    else Backtrack(s, e, q - 1)
  }

  /** Pattern 2 anchored at `p`: it needs the literal at `p`, and captures
      a non-empty run of capturable characters. */
  function Pattern2At(s: string, p: nat): (r: Option<string>)
    requires p <= |s|
    ensures r.Some? ==> OccursAt(s, WatchQuery, p)
    ensures r.Some? ==> r.value != [] && NoStops(r.value)
  {
    if !OccursAt(s, WatchQuery, p) then None
    else
      var e := p + |WatchQuery|;
      match Backtrack(s, e, LineEnd(s, e))
      case Some(q) => Some(Capture(s, q + 2))
      case None => None
  }

  /** A `v=` that `.*` can reach from `e` lies no further than the line end. */
  lemma VAtWithinLine(s: string, e: nat)
    requires e <= |s|
    ensures forall q :: VAt(s, e, q) <==> e <= q <= LineEnd(s, e) && VTail(s, q)
  {
  }

  /** Pattern 2 anchored at `p` finds a match exactly when it matches there. */
  lemma Pattern2AtMeaning(s: string, p: nat)
    requires p <= |s|
    ensures Pattern2At(s, p).Some? <==> Matches2At(s, p)
  {
    if OccursAt(s, WatchQuery, p) {
      var e := p + |WatchQuery|;
      VAtWithinLine(s, e);
      var b := Backtrack(s, e, LineEnd(s, e));
      if b.Some? {
        assert VAt(s, e, b.value);
      }
    }
  }

  /** Anchored at a match, pattern 2 captures after the last `v=` that the
      greedy `.*` can reach. */
  lemma Pattern2AtGreedy(s: string, p: nat, q: int)
    requires p <= |s| && OccursAt(s, WatchQuery, p)
    requires LastVFrom(s, p + |WatchQuery|, q)
    ensures Pattern2At(s, p) == Some(Capture(s, q + 2))
  {
    var e := p + |WatchQuery|;
    VAtWithinLine(s, e);
    var b := Backtrack(s, e, LineEnd(s, e));
    assert b == Some(q) by {
      if b.Some? {
        assert VAt(s, e, b.value);
      }
    }
  }

  /** Pattern 2 anchored at `p` finds a match. */
  predicate Pattern2Finds(s: string, p: nat) {
    p <= |s| && Pattern2At(s, p).Some?
  }

  lemma Pattern2AtMeaningAll(s: string)
    ensures forall p: nat :: p <= |s| ==> (Pattern2Finds(s, p) <==> Matches2At(s, p))
  {
    forall p: nat | p <= |s| ensures Pattern2Finds(s, p) <==> Matches2At(s, p) {
      Pattern2AtMeaning(s, p);
    }
  }

  /** The leftmost start position, at or after `from`, where pattern 1
      matches: `re.search` trying one start position after another. */
  function Leftmost1(s: string, from: nat): (r: Option<nat>)
    requires from <= |s|
    ensures r.Some? ==> from <= r.value <= |s| && Matches1At(s, r.value)
    ensures r.Some? ==> forall q :: from <= q < r.value ==> !Matches1At(s, q)
    ensures r.None? ==> forall q :: from <= q <= |s| ==> !Matches1At(s, q)
    decreases |s| - from
  {
    if Matches1At(s, from) then Some(from)
    else if from == |s| then None
    else Leftmost1(s, from + 1)
  }

  /** The leftmost start position, at or after `from`, where pattern 2 finds a match. */
  function Leftmost2(s: string, from: nat): (r: Option<nat>)
    requires from <= |s|
    ensures r.Some? ==> from <= r.value <= |s| && Pattern2Finds(s, r.value)
    ensures r.Some? ==> forall q :: from <= q < r.value ==> !Pattern2Finds(s, q)
    ensures r.None? ==> forall q :: from <= q <= |s| ==> !Pattern2Finds(s, q)
    decreases |s| - from
  {
    if Pattern2Finds(s, from) then Some(from)
    else if from == |s| then None
    else Leftmost2(s, from + 1)
  }

  /** `extract_video_id(url)`: pattern 1 at its leftmost match, else pattern 2
      at its leftmost match, else `None`. */
  function ExtractVideoId(url: string): (r: Option<string>)
    ensures r.Some? ==> |r.value| > 0 && NoStops(r.value) && Contains(url, r.value)
    ensures r.None? <==> forall p :: 0 <= p <= |url| ==> !Matches1At(url, p) && !Matches2At(url, p)
  {
    match Leftmost1(url, 0)
    case Some(p) =>
      Pattern1AtFacts(url, p);
      Pattern1At(url, p)
    case None =>
      Pattern2AtMeaningAll(url);
      match Leftmost2(url, 0)
      case Some(p) =>
        Pattern2AtFacts(url, p);
        Pattern2At(url, p)
      case None => None
  }

  /** Where pattern 1 matches, its capture is a non-empty, stop-free piece of the input. */
  lemma Pattern1AtFacts(s: string, p: nat)
    requires p <= |s| && Matches1At(s, p)
    ensures Pattern1At(s, p).Some?
    ensures var id := Pattern1At(s, p).value; |id| > 0 && NoStops(id) && Contains(s, id)
  {
    var e := if MarkerMatch(s, WatchMarker, p) then p + |WatchMarker|
      else if MarkerMatch(s, ShortMarker, p) then p + |ShortMarker|
      else p + |EmbedMarker|;
    assert OccursAt(s, Capture(s, e), e);
  }

  /** Where pattern 2 finds a match, its capture is a non-empty, stop-free piece of the input. */
  lemma Pattern2AtFacts(s: string, p: nat)
    requires p <= |s| && Pattern2At(s, p).Some?
    ensures var id := Pattern2At(s, p).value; |id| > 0 && NoStops(id) && Contains(s, id)
  {
    var e := p + |WatchQuery|;
    var q := Backtrack(s, e, LineEnd(s, e)).value;
    assert OccursAt(s, Capture(s, q + 2), q + 2);
  }

  /** The run starting at `e` is exactly `id`: `id` sits at `e` and is
      followed by the end of the input or a stop character. */
  predicate MaximalRunAt(s: string, e: int, id: string) {
    OccursAt(s, id, e) && NoStops(id) && (e + |id| == |s| || IsStop(s[e + |id|]))
  }

  /** Where a marker of pattern 1 matches, pattern 1 captures after that marker. */
  lemma Pattern1AtMarker(s: string, p: nat, m: string)
    requires m in Markers && MarkerMatch(s, m, p)
    ensures Matches1At(s, p)
    ensures Pattern1At(s, p) == Some(Capture(s, p + |m|))
  {
    assert m == WatchMarker || m == ShortMarker || m == EmbedMarker;
    MarkersExclusive(s, p);
  }

  /** Pattern 1 decides: when a marker of pattern 1 is followed by a
      capturable character at `p`, and pattern 1 matches nowhere before `p`,
      the ID is the maximal run after that marker. */
  lemma Pattern1Leftmost(url: string, p: nat, m: string)
    requires m in Markers && MarkerMatch(url, m, p)
    requires forall q :: 0 <= q < p ==> !Matches1At(url, q)
    ensures ExtractVideoId(url).Some?
    ensures MaximalRunAt(url, p + |m|, ExtractVideoId(url).value)
  {
    Pattern1AtMarker(url, p, m);
    assert Leftmost1(url, 0) == Some(p);
  }

  /** The leftmost pattern-2 match, given the `v=` that witnesses it. */
  lemma Leftmost2At(url: string, p: nat, q: int)
    requires OccursAt(url, WatchQuery, p) && VAt(url, p + |WatchQuery|, q)
    requires forall i :: 0 <= i < p ==> !Matches2At(url, i)
    ensures Leftmost2(url, 0) == Some(p)
  {
    Pattern2AtMeaningAll(url);
    assert Matches2At(url, p);
  }

  /** With pattern 1 matching nowhere, its search finds nothing. */
  lemma NoPattern1(url: string)
    requires forall i :: 0 <= i <= |url| ==> !Matches1At(url, i)
    ensures Leftmost1(url, 0).None?
  {
  }

  /** With pattern 1 matching nowhere, the result is pattern 2 at its leftmost match. */
  lemma ExtractViaPattern2(url: string, p: nat)
    requires Leftmost1(url, 0).None? && Leftmost2(url, 0) == Some(p)
    ensures ExtractVideoId(url) == Pattern2At(url, p)
  {
  }

  /** Pattern 2 is the fallback: when pattern 1 matches nowhere, the ID is
      the maximal run after the last qualifying `v=` on the line of the
      leftmost `youtube.com/watch?` from which one is reachable. */
  lemma Pattern2Fallback(url: string, p: nat, q: int)
    requires forall i :: 0 <= i <= |url| ==> !Matches1At(url, i)
    requires OccursAt(url, WatchQuery, p) && LastVFrom(url, p + |WatchQuery|, q)
    requires forall i :: 0 <= i < p ==> !Matches2At(url, i)
    ensures ExtractVideoId(url).Some?
    ensures MaximalRunAt(url, q + 2, ExtractVideoId(url).value)
  {
    Leftmost2At(url, p, q);
    NoPattern1(url);
    ExtractViaPattern2(url, p);
    Pattern2AtGreedy(url, p, q);
  }

  /** The fallback result, given the run it should be. */
  lemma Pattern2FallbackRun(url: string, p: nat, q: int, id: string)
    requires forall i :: 0 <= i <= |url| ==> !Matches1At(url, i)
    requires OccursAt(url, WatchQuery, p) && LastVFrom(url, p + |WatchQuery|, q)
    requires forall i :: 0 <= i < p ==> !Matches2At(url, i)
    requires MaximalRunAt(url, q + 2, id)
    ensures ExtractVideoId(url) == Some(id)
  {
    Leftmost2At(url, p, q);
    NoPattern1(url);
    Pattern2AtRun(url, p, q, id);
    ExtractViaPattern2(url, p);
  }

  /** Anchored at a match, pattern 2's capture is the run after the last `v=`. */
  lemma Pattern2AtRun(s: string, p: nat, q: int, id: string)
    requires p <= |s| && OccursAt(s, WatchQuery, p)
    requires LastVFrom(s, p + |WatchQuery|, q)
    requires MaximalRunAt(s, q + 2, id)
    ensures Pattern2At(s, p) == Some(id)
  {
    Pattern2AtGreedy(s, p, q);
    MaximalRunUnique(s, q + 2, id, Capture(s, q + 2));
  }

  /** Every position covered by a stop-free piece at `e` holds a capturable character. */
  lemma PieceHasNoStops(s: string, e: int, a: string)
    requires OccursAt(s, a, e) && NoStops(a)
    ensures forall k :: e <= k < e + |a| ==> !IsStop(s[k])
  {
    forall k | e <= k < e + |a| ensures !IsStop(s[k]) {
      assert s[k] == a[k - e];
    }
  }

  /** The run after `e` is unique. */
  lemma MaximalRunUnique(s: string, e: int, a: string, b: string)
    requires MaximalRunAt(s, e, a) && MaximalRunAt(s, e, b)
    ensures a == b
  {
    PieceHasNoStops(s, e, a);
    PieceHasNoStops(s, e, b);
    assert |a| == |b|;
  }

  /** Every marker of pattern 1 begins with `y`. */
  lemma NoMatchWithoutY(s: string, q: int)
    requires 0 <= q < |s| && s[q] != 'y'
    ensures !Matches1At(s, q)
  {
    assert WatchMarker[0] == ShortMarker[0] == EmbedMarker[0] == 'y';
  }

  /** The watch URL `get_transcript` builds from an ID. */
  function WatchUrl(id: string): string {
    "https://www." + WatchMarker + id
  }

  /** Round trip: the ID is recovered from the watch URL built from it, for
      every ID `extract_video_id` can return (non-empty, no stop characters). */
  lemma WatchUrlRoundTrip(id: string)
    requires |id| > 0 && NoStops(id)
    ensures ExtractVideoId(WatchUrl(id)) == Some(id)
  {
    var url := WatchUrl(id);
    var head := "https://www.";
    assert url[12..32] == WatchMarker;
    assert url[32] == id[0];
    forall q | 0 <= q < 12 ensures !Matches1At(url, q) {
      assert url[q] == head[q];
      NoMatchWithoutY(url, q);
    }
    Pattern1Leftmost(url, 12, WatchMarker);
    assert url[32..32 + |id|] == id;
    assert MaximalRunAt(url, 32, id);
    MaximalRunUnique(url, 32, id, ExtractVideoId(url).value);
  }

  /** Extraction is stable: an extracted ID, put back into a watch URL,
      extracts to itself. */
  lemma ExtractIdempotent(url: string)
    requires ExtractVideoId(url).Some?
    ensures ExtractVideoId(WatchUrl(ExtractVideoId(url).value)) == ExtractVideoId(url)
  {
    WatchUrlRoundTrip(ExtractVideoId(url).value);
  }

  /** A watch URL whose query starts with another parameter:
      `youtube.com/watch?` + `a` + `v=` + `id`. */
  function QueryLink(a: string, id: string): string {
    WatchQuery + a + "v=" + id
  }

  /** Pattern 1 cannot match a query link whose parameters before `v=`
      start with something other than `v` and hold no `y`, when the ID holds
      no `y` either. */
  lemma QueryLinkMissesPattern1(a: string, id: string)
    requires a != [] && a[0] != 'v' && 'y' !in a && 'y' !in id
    ensures forall i :: 0 <= i <= |QueryLink(a, id)| ==> !Matches1At(QueryLink(a, id), i)
  {
    var url := QueryLink(a, id);
    var n := |WatchQuery| + |a|;
    assert url[..18] == WatchQuery;
    assert url[18] == a[0];
    assert !Matches1At(url, 0) by {
      assert url[18] != WatchMarker[18];
      assert url[5] != ShortMarker[5];
      assert url[12] != EmbedMarker[12];
    }
    forall i | 0 < i < |url| ensures !Matches1At(url, i) {
      if i < 18 {
        assert url[i] == WatchQuery[i];
      } else if i < n {
        assert url[i] == a[i - 18];
      } else if i >= n + 2 {
        assert url[i] == id[i - n - 2];
      }
      NoMatchWithoutY(url, i);
    }
  }

  /** In a query link whose parameters before `v=` hold no `v` and no
      newline, and whose ID holds no `v`, the `v=` before the ID is the last
      one pattern 2 can reach. */
  lemma QueryLinkLastV(a: string, id: string)
    requires 'v' !in a && '\n' !in a && 'v' !in id && |id| > 0 && NoStops(id)
    ensures OccursAt(QueryLink(a, id), WatchQuery, 0)
    ensures LastVFrom(QueryLink(a, id), |WatchQuery|, |WatchQuery| + |a|)
    ensures MaximalRunAt(QueryLink(a, id), |WatchQuery| + |a| + 2, id)
  {
    var url := QueryLink(a, id);
    var n := |WatchQuery| + |a|;
    assert url[..18] == WatchQuery;
    assert url[n] == 'v' && url[n + 1] == '=' && url[n + 2] == id[0];
    forall k | 18 <= k < n ensures url[k] != '\n' {
      assert url[k] == a[k - 18];
    }
    assert VAt(url, 18, n);
    forall j | n < j ensures !VAt(url, 18, j) {
      if n + 2 <= j < |url| {
        assert url[j] == id[j - n - 2];
      }
    }
    assert url[n + 2..] == id;
  }

  /** A query link yields its ID through the fallback pattern. */
  lemma QueryLinkFallback(a: string, id: string)
    requires a != [] && 'v' !in a && 'y' !in a && '\n' !in a
    requires |id| > 0 && NoStops(id) && 'v' !in id && 'y' !in id
    ensures ExtractVideoId(QueryLink(a, id)) == Some(id)
  {
    assert a[0] in a;
    QueryLinkMissesPattern1(a, id);
    QueryLinkLastV(a, id);
    Pattern2FallbackRun(QueryLink(a, id), 0, |WatchQuery| + |a|, id);
  }

  /** `youtube.com/watch?feature=share&v=abc` misses pattern 1 and yields
      `abc` through pattern 2. */
  lemma ShareLinkExample()
    ensures ExtractVideoId("youtube.com/watch?feature=share&v=abc") == Some("abc")
  {
    ShareLinkForm();
    QueryLinkFallback("feature=share&", "abc");
  }

  lemma ShareLinkForm()
    ensures QueryLink("feature=share&", "abc") == "youtube.com/watch?feature=share&v=abc"
  {
  }
}
