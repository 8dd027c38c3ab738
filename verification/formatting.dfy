/** `format_transcript`: a transcript as plain text, or as one
    `[MM:SS] text` line per segment. */
module Formatting {
  import opened Text
  import opened Json3

  /** Whole minutes of the start time: `start // 60` with `start` in seconds. */
  function Minutes(ms: int): int {
    ms / 60000
  }

  /** Whole seconds within the minute: `int(start % 60)`. */
  function Seconds(ms: int): (s: int)
    ensures 0 <= s < 60
  {
    (ms / 1000) % 60
  }

  /** `s` holds no newline. */
  predicate SingleLine(s: string) {
    forall k :: 0 <= k < |s| ==> s[k] != '\n'
  }

  lemma ConcatSingleLine(a: string, b: string)
    requires SingleLine(a) && SingleLine(b)
    ensures SingleLine(a + b)
  {
    forall k | |a| <= k < |a + b| ensures (a + b)[k] != '\n' {
      assert (a + b)[k] == b[k - |a|];
    }
  }

  /** A `{n:02d}` field holds digits and at most a sign. */
  lemma Pad2SingleLine(n: int)
    ensures SingleLine(Pad2(n))
  {
    var r := Pad2(n);
    if n < 0 {
      forall k | 0 < k < |r| ensures r[k] != '\n' {
        assert r[k] == r[1..][k - 1];
      }
    }
  }

  /** The layout of `[mm:ss]` with a two-character seconds field. */
  lemma StampLayout(mm: string, ss: string)
    requires |ss| == 2 && |mm| >= 2 && SingleLine(mm) && SingleLine(ss)
    ensures var r := "[" + mm + ":" + ss + "]";
      && |r| == |mm| + 5 && r[0] == '[' && r[|r| - 4] == ':' && r[|r| - 1] == ']'
      && r[1..|r| - 4] == mm && r[|r| - 3..|r| - 1] == ss && SingleLine(r)
      && r[1] == mm[0] && r[2] == mm[1] && r[2..|r| - 4] == mm[1..]
  {
    ConcatSingleLine("[", mm);
    ConcatSingleLine("[" + mm, ":");
    ConcatSingleLine("[" + mm + ":", ss);
    ConcatSingleLine("[" + mm + ":" + ss, "]");
  }

  /** `[MM:SS]` for a start time given in milliseconds. The minutes field
      is zero-padded to two characters and no further; a negative start
      shows its minutes with a sign. */
  function Timestamp(ms: int): (r: string)
    ensures |r| >= 7 && r[0] == '[' && r[|r| - 4] == ':' && r[|r| - 1] == ']'
    ensures AllDigits(r[|r| - 3..|r| - 1]) && DigitsValue(r[|r| - 3..|r| - 1]) == Seconds(ms)
    ensures ms >= 0 ==> AllDigits(r[1..|r| - 4]) && DigitsValue(r[1..|r| - 4]) == Minutes(ms)
    ensures Minutes(ms) >= 10 ==> r[1] != '0'
    ensures 0 <= Minutes(ms) < 100 ==> |r| == 7
    ensures ms < 0 ==>
      && r[1] == '-' && AllDigits(r[2..|r| - 4]) && r[2] != '0'
      && DigitsValue(r[2..|r| - 4]) == -Minutes(ms)
    ensures SingleLine(r)
  {
    var mm := Pad2(Minutes(ms));
    var ss := Pad2(Seconds(ms));
    Pad2SingleLine(Minutes(ms));
    Pad2SingleLine(Seconds(ms));
    StampLayout(mm, ss);
    "[" + mm + ":" + ss + "]"
  }

  /** One line of timestamped output. */
  function Line(s: Segment): string {
    Timestamp(s.startMs) + " " + s.text
  }

  function Lines(segs: seq<Segment>): (r: seq<string>)
    ensures |r| == |segs|
    ensures forall k :: 0 <= k < |segs| ==> r[k] == Line(segs[k])
  {
    seq(|segs|, k requires 0 <= k < |segs| => Line(segs[k]))
  }

  function Texts(segs: seq<Segment>): (r: seq<string>)
    ensures |r| == |segs|
    ensures forall k :: 0 <= k < |segs| ==> r[k] == segs[k].text
  {
    seq(|segs|, k requires 0 <= k < |segs| => segs[k].text)
  }

  lemma LinesAppend(a: seq<Segment>, b: seq<Segment>)
    ensures Lines(a + b) == Lines(a) + Lines(b)
  {
    forall k | 0 <= k < |a + b| ensures Lines(a + b)[k] == (Lines(a) + Lines(b))[k] {
      if k < |a| {
        assert (a + b)[k] == a[k];
      } else {
        assert (a + b)[k] == b[k - |a|];
      }
    }
  }

  lemma TextsAppend(a: seq<Segment>, b: seq<Segment>)
    ensures Texts(a + b) == Texts(a) + Texts(b)
  {
    forall k | 0 <= k < |a + b| ensures Texts(a + b)[k] == (Texts(a) + Texts(b))[k] {
      if k < |a| {
        assert (a + b)[k] == a[k];
      } else {
        assert (a + b)[k] == b[k - |a|];
      }
    }
  }

  /** The texts joined by single spaces. */
  function FormatPlain(segs: seq<Segment>): string {
    Join(" ", Texts(segs))
  }

  /** One line per segment, joined by newlines. */
  function FormatTimestamped(segs: seq<Segment>): string {
    Join("\n", Lines(segs))
  }

  /** What stands between two pieces of output. */
  function Separator(includeTimestamps: bool): string {
    if includeTimestamps then "\n" else " "
  }

  /** The pieces of output, one per segment: its line, or its bare text. */
  function Pieces(segs: seq<Segment>, includeTimestamps: bool): (r: seq<string>)
    ensures |r| == |segs|
  {
    if includeTimestamps then Lines(segs) else Texts(segs)
  }

  /** `format_transcript(transcript_data, include_timestamps)`: the output
      holds each segment's piece, in segment order, with one separator after
      every piece but the last and nothing else. */
  function FormatTranscript(segs: seq<Segment>, includeTimestamps: bool): (r: string)
    ensures segs == [] ==> r == []
    ensures JoinedLayout(r, Separator(includeTimestamps), Pieces(segs, includeTimestamps))
  {
    JoinLayout(Separator(includeTimestamps), Pieces(segs, includeTimestamps));
    if includeTimestamps then FormatTimestamped(segs) else FormatPlain(segs)
  }

  /** Start 65 s is shown as `[01:05]`. */
  lemma TimestampExample()
    ensures Timestamp(65000) == "[01:05]"
  {
  }

  /** A start time under 100 minutes gives a seven-character stamp whose
      two fields read back as the minutes and the seconds. */
  lemma TimestampFields(ms: int)
    requires 0 <= ms < 6000000
    ensures var r := Timestamp(ms);
      && |r| == 7 && r[3] == ':'
      && DigitsValue(r[1..3]) == ms / 60000 && DigitsValue(r[4..6]) == (ms / 1000) % 60
  {
    assert 0 <= Minutes(ms) < 100;
  }

  /** A segment's line holds a newline only where its text does. */
  lemma LineSingleLine(s: Segment)
    requires SingleLine(s.text)
    ensures '\n' !in Line(s)
  {
    ConcatSingleLine(Timestamp(s.startMs), " ");
    ConcatSingleLine(Timestamp(s.startMs) + " ", s.text);
    assert SingleLine(Line(s));
  }

  /** Timestamped output has exactly one line per segment, in order, with
      no trailing newline, provided no text holds a newline of its own. */
  lemma TimestampedLines(segs: seq<Segment>)
    requires segs != []
    requires forall k :: 0 <= k < |segs| ==> SingleLine(segs[k].text)
    ensures Split('\n', FormatTimestamped(segs)) == Lines(segs)
  {
    var lines := Lines(segs);
    forall k | 0 <= k < |lines| ensures '\n' !in lines[k] {
      LineSingleLine(segs[k]);
    }
    SplitJoin('\n', lines);
  }

  /** Plain output neither merges nor reorders texts: it splits back at the
      spaces into the texts, provided no text holds a space of its own. */
  lemma PlainWords(segs: seq<Segment>)
    requires segs != []
    requires forall k :: 0 <= k < |segs| ==> ' ' !in segs[k].text
    ensures Split(' ', FormatPlain(segs)) == Texts(segs)
  {
    SplitJoin(' ', Texts(segs));
  }

  /** Plain output of two transcripts one after the other is their plain
      outputs joined by one space. */
  lemma PlainAppend(a: seq<Segment>, b: seq<Segment>)
    requires a != [] && b != []
    ensures FormatPlain(a + b) == FormatPlain(a) + " " + FormatPlain(b)
  {
    TextsAppend(a, b);
    JoinAppend(" ", Texts(a), Texts(b));
  }

  /** Timestamped output of two transcripts one after the other is their
      outputs joined by one newline. */
  lemma TimestampedAppend(a: seq<Segment>, b: seq<Segment>)
    requires a != [] && b != []
    ensures FormatTimestamped(a + b) == FormatTimestamped(a) + "\n" + FormatTimestamped(b)
  {
    LinesAppend(a, b);
    JoinAppend("\n", Lines(a), Lines(b));
  }
}
