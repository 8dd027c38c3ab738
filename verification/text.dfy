/** String helpers with Python semantics: `str.isspace`, `str.strip`,
    `sep.join(parts)`, `str.split(sep)`, the `in` substring test and the
    decimal rendering used by f-strings (`{n}` and `{n:02d}`). */
module Text {

  /** Python's `str.isspace` for one character: the controls TAB..CR and
      U+001C..U+001F, SPACE, NEL, NO-BREAK SPACE, and the Unicode space,
      line and paragraph separators. */
  predicate IsSpace(c: char) {
    || ('\t' <= c <= '\r')
    || ('\U{1C}' <= c <= '\U{1F}')
    || c == ' ' || c == '\U{85}' || c == '\U{A0}' || c == '\U{1680}'
    || ('\U{2000}' <= c <= '\U{200A}')
    || c == '\U{2028}' || c == '\U{2029}' || c == '\U{202F}' || c == '\U{205F}'
    || c == '\U{3000}'
  }

  /** Every character of `s[lo..hi]` is whitespace. */
  predicate AllSpace(s: string, lo: int, hi: int)
    requires 0 <= lo <= hi <= |s|
  {
    forall k :: lo <= k < hi ==> IsSpace(s[k])
  }

  /** No whitespace at either end (the empty string qualifies). */
  predicate Trimmed(t: string) {
    t == [] || (!IsSpace(t[0]) && !IsSpace(t[|t| - 1]))
  }

  /** `r` is what remains of `s` once whitespace is removed from both ends,
      `r` starting at index `i`: `s` is blank + `r` + blank with `r` trimmed. */
  predicate StripsAt(s: string, i: int, r: string) {
    && 0 <= i && i + |r| <= |s| && s[i..i + |r|] == r
    && AllSpace(s, 0, i) && AllSpace(s, i + |r|, |s|) && Trimmed(r)
  }

  /** Number of leading whitespace characters of `s`. */
  function LeadingSpace(s: string): (n: nat)
    ensures n <= |s|
    ensures AllSpace(s, 0, n)
    ensures n < |s| ==> !IsSpace(s[n])
  {
    if s != [] && IsSpace(s[0]) then 1 + LeadingSpace(s[1..]) else 0
  }

  /** Number of trailing whitespace characters of `s`. */
  function TrailingSpace(s: string): (n: nat)
    ensures n <= |s|
    ensures AllSpace(s, |s| - n, |s|)
    ensures n < |s| ==> !IsSpace(s[|s| - 1 - n])
  {
    if s != [] && IsSpace(s[|s| - 1]) then 1 + TrailingSpace(s[..|s| - 1]) else 0
  }

  /** Python's `s.strip()` with no argument. */
  function Strip(s: string): (r: string)
    ensures StripsAt(s, LeadingSpace(s), r)
  {
    var a := LeadingSpace(s);
    var t := s[a..];
    var b := TrailingSpace(t);
    assert AllSpace(s, a + (|t| - b), |s|) by {
      forall k | a + (|t| - b) <= k < |s| ensures IsSpace(s[k]) {
        assert s[k] == t[k - a];
      }
    }
    assert t[..|t| - b] != [] ==> !IsSpace(t[..|t| - b][0]) by {
      if |t| - b > 0 {
        assert b < |t|;
      }
    }
    t[..|t| - b]
  }

  /** The strip of a string is unique: any blank + `r` + blank split of `s`
      with `r` trimmed has `r == Strip(s)`. */
  lemma StripUnique(s: string, i: int, r: string)
    requires StripsAt(s, i, r)
    ensures r == Strip(s)
  {
    var a := LeadingSpace(s);
    var r' := Strip(s);
    if r != [] {
      assert s[i] == r[0];
      assert a == i;
      assert s[i + |r| - 1] == r[|r| - 1] && s[i + |r'| - 1] == r'[|r'| - 1];
    }
  }

  /** `s.strip()` is falsy exactly when `s` is blank. */
  lemma StripEmptyIffBlank(s: string)
    ensures Strip(s) == [] <==> AllSpace(s, 0, |s|)
  {
    if AllSpace(s, 0, |s|) {
      assert StripsAt(s, 0, []);
      StripUnique(s, 0, []);
    }
  }

  /** Total length of the parts. */
  function TotalLength(parts: seq<string>): nat {
    if parts == [] then 0 else |parts[0]| + TotalLength(parts[1..])
  }

  /** Python's `sep.join(parts)`. */
  function Join(sep: string, parts: seq<string>): (r: string)
    ensures parts == [] ==> r == []
    ensures |parts| == 1 ==> r == parts[0]
    ensures parts != [] ==> |r| == TotalLength(parts) + (|parts| - 1) * |sep|
  {
    if |parts| == 0 then []
    else if |parts| == 1 then parts[0]
    else parts[0] + sep + Join(sep, parts[1..])
  }

  /** Where part `k` starts in `sep.join(parts)`: after the parts before it
      and one separator after each of them. */
  function JoinOffset(sep: string, parts: seq<string>, k: nat): nat
    requires k <= |parts|
  {
    TotalLength(parts[..k]) + k * |sep|
  }

  /** Dropping the first part moves every later offset back by that part and one separator. */
  lemma JoinOffsetShift(sep: string, parts: seq<string>, k: nat)
    requires 1 <= k <= |parts|
    ensures JoinOffset(sep, parts, k) == |parts[0]| + |sep| + JoinOffset(sep, parts[1..], k - 1)
  {
    assert parts[..k][0] == parts[0];
    assert parts[..k][1..] == parts[1..][..k - 1];
  }

  /** An occurrence stays an occurrence, shifted, behind a prefix. */
  lemma OccursBehind(pre: string, hay: string, needle: string, p: int)
    requires OccursAt(hay, needle, p)
    ensures OccursAt(pre + hay, needle, |pre| + p)
  {
    assert (pre + hay)[|pre| + p..|pre| + p + |needle|] == hay[p..p + |needle|];
  }

  /** `r` is laid out as `sep.join(parts)`: it is empty for no parts, and
      otherwise holds every part in order at its offset, one separator right
      after every part but the last, and nothing else. */
  predicate JoinedLayout(r: string, sep: string, parts: seq<string>) {
    && (parts == [] ==> r == [])
    && (parts != [] ==> |r| == TotalLength(parts) + (|parts| - 1) * |sep|)
    && (forall k :: 0 <= k < |parts| ==> OccursAt(r, parts[k], JoinOffset(sep, parts, k)))
    && (forall k :: 0 <= k < |parts| - 1 ==> OccursAt(r, sep, JoinOffset(sep, parts, k) + |parts[k]|))
  }

  /** A piece that sits at offset `o` in the join of all parts but the
      first sits `|parts[0]| + |sep|` further on in the join of all parts. */
  lemma JoinShift(sep: string, parts: seq<string>, piece: string, o: int)
    requires |parts| >= 2
    requires OccursAt(Join(sep, parts[1..]), piece, o)
    ensures OccursAt(Join(sep, parts), piece, |parts[0]| + |sep| + o)
  {
    assert Join(sep, parts) == (parts[0] + sep) + Join(sep, parts[1..]);
    OccursBehind(parts[0] + sep, Join(sep, parts[1..]), piece, o);
  }

  /** The first part opens the join, and a separator follows it when more parts come. */
  lemma JoinHead(sep: string, parts: seq<string>)
    requires parts != []
    ensures JoinOffset(sep, parts, 0) == 0
    ensures OccursAt(Join(sep, parts), parts[0], 0)
    ensures |parts| >= 2 ==> OccursAt(Join(sep, parts), sep, |parts[0]|)
  {
    assert parts[..0] == [];
    var r := Join(sep, parts);
    if |parts| >= 2 {
      assert r == parts[0] + sep + Join(sep, parts[1..]);
      assert r[|parts[0]|..|parts[0]| + |sep|] == sep;
    }
    assert r[0..|parts[0]|] == parts[0];
  }

  /** Every part sits at its offset in the join. */
  lemma {:induction false} JoinParts(sep: string, parts: seq<string>)
    ensures forall k :: 0 <= k < |parts| ==> OccursAt(Join(sep, parts), parts[k], JoinOffset(sep, parts, k))
  {
    if parts != [] {
      JoinHead(sep, parts);
      if |parts| >= 2 {
        var rest := parts[1..];
        JoinParts(sep, rest);
        forall k | 1 <= k < |parts|
          ensures OccursAt(Join(sep, parts), parts[k], JoinOffset(sep, parts, k))
        {
          JoinOffsetShift(sep, parts, k);
          assert parts[k] == rest[k - 1];
          JoinShift(sep, parts, rest[k - 1], JoinOffset(sep, rest, k - 1));
        }
      }
    }
  }

  lemma SeparatorShift(sep: string, parts: seq<string>, k: nat)
    requires 1 <= k < |parts| - 1
    requires OccursAt(Join(sep, parts[1..]), sep, JoinOffset(sep, parts[1..], k - 1) + |parts[k]|)
    ensures OccursAt(Join(sep, parts), sep, JoinOffset(sep, parts, k) + |parts[k]|)
  {
    JoinOffsetShift(sep, parts, k);
    JoinShift(sep, parts, sep, JoinOffset(sep, parts[1..], k - 1) + |parts[k]|);
  }

  /** A separator follows every part but the last in the join. */
  lemma {:induction false} JoinSeparators(sep: string, parts: seq<string>)
    ensures forall k :: 0 <= k < |parts| - 1 ==>
      OccursAt(Join(sep, parts), sep, JoinOffset(sep, parts, k) + |parts[k]|)
  {
    if |parts| >= 2 {
      JoinHead(sep, parts);
      var rest := parts[1..];
      JoinSeparators(sep, rest);
      forall k | 1 <= k < |parts| - 1
        ensures OccursAt(Join(sep, parts), sep, JoinOffset(sep, parts, k) + |parts[k]|)
      {
        assert parts[k] == rest[k - 1];
        SeparatorShift(sep, parts, k);
      }
    }
  }

  /** The layout of `sep.join(parts)`. */
  lemma JoinLayout(sep: string, parts: seq<string>)
    ensures JoinedLayout(Join(sep, parts), sep, parts)
  {
    JoinParts(sep, parts);
    JoinSeparators(sep, parts);
  }

  /** Joining two non-empty lists puts exactly one separator between the two joins. */
  lemma {:induction false} JoinAppend(sep: string, a: seq<string>, b: seq<string>)
    requires a != [] && b != []
    ensures Join(sep, a + b) == Join(sep, a) + sep + Join(sep, b)
  {
    if |a| == 1 {
      assert (a + b)[1..] == b;
    } else {
      assert (a + b)[1..] == a[1..] + b;
      JoinAppend(sep, a[1..], b);
    }
  }

  /** Python's `s.split(sep)` for a one-character separator. */
  function Split(sep: char, s: string): (r: seq<string>)
    ensures |r| >= 1
    decreases |s|
  {
    if s == [] then [[]]
    else
      var rest := Split(sep, s[1..]);
      if s[0] == sep then [[]] + rest
      else [[s[0]] + rest[0]] + rest[1..]
  }

  /** A separator-free prefix is glued to the first piece of what follows. */
  lemma {:induction false} SplitPrefix(sep: char, p: string, x: string)
    requires sep !in p
    ensures Split(sep, p + x) == [p + Split(sep, x)[0]] + Split(sep, x)[1..]
    decreases |p|
  {
    if p != [] {
      assert p[0] in p;
      assert (p + x)[0] == p[0] && (p + x)[1..] == p[1..] + x;
      SplitPrefix(sep, p[1..], x);
      assert [p[0]] + (p[1..] + Split(sep, x)[0]) == p + Split(sep, x)[0];
    } else {
      assert p + x == x && p + Split(sep, x)[0] == Split(sep, x)[0];
      assert [Split(sep, x)[0]] + Split(sep, x)[1..] == Split(sep, x);
    }
  }

  /** Splitting undoes joining when no part contains the separator. */
  lemma {:induction false} SplitJoin(sep: char, parts: seq<string>)
    requires parts != []
    requires forall i :: 0 <= i < |parts| ==> sep !in parts[i]
    ensures Split(sep, Join([sep], parts)) == parts
  {
    if |parts| == 1 {
      SplitPrefix(sep, parts[0], []);
      assert parts[0] + [] == parts[0];
    } else {
      var rest := Join([sep], parts[1..]);
      SplitJoin(sep, parts[1..]);
      assert parts[0] + [sep] + rest == parts[0] + ([sep] + rest);
      SplitPrefix(sep, parts[0], [sep] + rest);
      assert ([sep] + rest)[1..] == rest;
      assert parts[0] + [] == parts[0];
      assert [parts[0]] + parts[1..] == parts;
    }
  }

  /** `needle` occurs in `hay` starting at index `p`. */
  predicate OccursAt(hay: string, needle: string, p: int) {
    0 <= p && p + |needle| <= |hay| && hay[p..p + |needle|] == needle
  }

  /** `needle` occurs in `hay` at some index `q >= p`. */
  function OccursFrom(hay: string, needle: string, p: nat): (b: bool)
    ensures b <==> exists q :: p <= q && OccursAt(hay, needle, q)
    decreases |hay| - p
  {
    if p + |needle| > |hay| then false
    else if OccursAt(hay, needle, p) then true
    else OccursFrom(hay, needle, p + 1)
  }

  /** Python's `needle in hay` for strings. */
  function Contains(hay: string, needle: string): (b: bool)
    ensures b <==> exists p :: OccursAt(hay, needle, p)
  {
    OccursFrom(hay, needle, 0)
  }

  predicate IsDigit(c: char) { '0' <= c <= '9' }

  predicate AllDigits(s: string) { forall i :: 0 <= i < |s| ==> IsDigit(s[i]) }

  function DigitChar(d: nat): (c: char)
    requires d < 10
    ensures IsDigit(c) && c as int - '0' as int == d
  {
    ('0' as int + d) as char
  }

  /** Shortest decimal numeral of `n`, as Python's `str(n)` for `n >= 0`. */
  function Digits(n: nat): (r: string)
    ensures |r| >= 1 && AllDigits(r)
    ensures n >= 10 ==> |r| >= 2
    ensures n < 100 ==> |r| <= 2
    ensures r[0] != '0' || n == 0
  {
    if n < 10 then [DigitChar(n)] else Digits(n / 10) + [DigitChar(n % 10)]
  }

  /** The number a string of decimal digits denotes (leading zeros allowed). */
  function DigitsValue(s: string): nat
    requires AllDigits(s)
  {
    if s == [] then 0
    else DigitsValue(s[..|s| - 1]) * 10 + (s[|s| - 1] as int - '0' as int)
  }

  /** Reading back a rendered numeral gives the number. */
  lemma {:induction false} DigitsRoundTrip(n: nat)
    ensures DigitsValue(Digits(n)) == n
  {
    if n >= 10 {
      var s := Digits(n);
      assert s[..|s| - 1] == Digits(n / 10);
      DigitsRoundTrip(n / 10);
    }
  }

  /** A leading zero does not change the value of a numeral. */
  lemma {:induction false} LeadingZero(s: string)
    requires AllDigits(s)
    ensures AllDigits("0" + s) && DigitsValue("0" + s) == DigitsValue(s)
    decreases |s|
  {
    if s != [] {
      assert ("0" + s)[..|"0" + s| - 1] == "0" + s[..|s| - 1];
      LeadingZero(s[..|s| - 1]);
    }
  }

  /** Python's `f"{n}"` for an integer: the shortest numeral of `|n|`,
      with a `-` in front when `n` is negative. */
  function IntToString(n: int): (r: string)
    ensures n >= 0 ==> |r| >= 1 && AllDigits(r) && DigitsValue(r) == n && (r[0] != '0' || n == 0)
    ensures n < 0 ==> |r| >= 2 && r[0] == '-' && AllDigits(r[1..]) && DigitsValue(r[1..]) == -n && r[1] != '0'
  {
    if n < 0 then
      DigitsRoundTrip(-n);
      assert ("-" + Digits(-n))[1..] == Digits(-n);
      "-" + Digits(-n)
    else
      DigitsRoundTrip(n);
      Digits(n)
  }

  /** Python's `f"{n:02d}"`: zeros are inserted after the sign until the
      field is two characters wide. */
  function Pad2(n: int): (r: string)
    ensures |r| >= 2
    ensures 0 <= n < 100 ==> |r| == 2
    ensures n >= 0 ==> AllDigits(r) && DigitsValue(r) == n
    ensures n >= 10 ==> r[0] != '0'
    ensures n < 0 ==> r[0] == '-' && AllDigits(r[1..]) && DigitsValue(r[1..]) == -n && r[1] != '0'
  {
    var d := IntToString(n);
    if n >= 0 then
      assert d == Digits(n);
      if n < 10 then LeadingZero(d); "0" + d else d
    else d
  }
}
