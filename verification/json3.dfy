/** Decoding a json3 subtitle payload into transcript segments. */
module Json3 {
  import opened Wrappers
  import opened Text
  import opened Errors

  /** One piece of an event's text; `None` when the `utf8` key is absent. */
  datatype Seg = Seg(utf8: Option<string>)

  /** One caption event; a missing key is `None`. Times are milliseconds. */
  datatype Event = Event(tStartMs: Option<int>, dDurationMs: Option<int>, segs: Option<seq<Seg>>)

  /** The decoded JSON object; `None` when it has no `events` key. */
  datatype Payload = Payload(events: Option<seq<Event>>)

  /** One transcript entry. The source stores seconds as `ms / 1000.0`;
      the model keeps the milliseconds. */
  datatype Segment = Segment(text: string, startMs: int, durationMs: int)

  /** The `utf8` fields of the pieces, `""` for a missing one. */
  function Utf8s(segs: seq<Seg>): (r: seq<string>)
    ensures |r| == |segs|
    ensures forall k :: 0 <= k < |segs| ==> r[k] == segs[k].utf8.GetOr("")
  {
    if segs == [] then [] else [segs[0].utf8.GetOr("")] + Utf8s(segs[1..])
  }

  /** The event's text before stripping: its pieces concatenated. */
  function RawText(segs: seq<Seg>): string {
    Join("", Utf8s(segs))
  }

  /** The segment an event contributes, if any: events without `segs`, and
      events whose text is blank, contribute nothing. */
  function Decode(e: Event): (r: Option<Segment>)
    ensures r.Some? ==> r.value.text != [] && Trimmed(r.value.text)
  {
    match e.segs
    case None => None
    case Some(segs) =>
      var text := Strip(RawText(segs));
      if text == [] then None
      else Some(Segment(text, e.tStartMs.GetOr(0), e.dDurationMs.GetOr(0)))
  }

  /** An event is dropped exactly when it has no `segs` or its text is
      blank; otherwise its text is the stripped concatenation of its pieces
      and its times are the event's, `0` when missing. */
  lemma DecodeMeaning(e: Event)
    ensures Decode(e).None? <==> e.segs.None? || AllSpace(RawText(e.segs.value), 0, |RawText(e.segs.value)|)
    ensures Decode(e).Some? ==>
      StripsAt(RawText(e.segs.value), LeadingSpace(RawText(e.segs.value)), Decode(e).value.text)
    ensures Decode(e).Some? ==>
      Decode(e).value.startMs == e.tStartMs.GetOr(0) && Decode(e).value.durationMs == e.dDurationMs.GetOr(0)
  {
    if e.segs.Some? {
      StripEmptyIffBlank(RawText(e.segs.value));
    }
  }

  /** The segments of the events that contribute one, in event order. */
  function DecodeEvents(events: seq<Event>): (r: seq<Segment>)
    ensures |r| <= |events|
    ensures forall k :: 0 <= k < |r| ==> r[k].text != [] && Trimmed(r[k].text)
  {
    if events == [] then []
    else
      match Decode(events[0])
      case Some(s) => [s] + DecodeEvents(events[1..])
      case None => DecodeEvents(events[1..])
  }

  /** Decoding works event by event: the segments of two event lists are
      the segments of the first followed by those of the second. */
  lemma {:induction false} DecodeAppend(a: seq<Event>, b: seq<Event>)
    ensures DecodeEvents(a + b) == DecodeEvents(a) + DecodeEvents(b)
  {
    if a != [] {
      assert (a + b)[0] == a[0] && (a + b)[1..] == a[1..] + b;
      DecodeEventsCons(a + b);
      DecodeEventsCons(a);
      DecodeAppend(a[1..], b);
    } else {
      assert a + b == b;
    }
  }

  /** The segments of a non-empty event list: those of its first event, then the rest. */
  lemma DecodeEventsCons(events: seq<Event>)
    requires events != []
    ensures DecodeEvents(events) == AsSeq(Decode(events[0])) + DecodeEvents(events[1..])
  {
  }

  function AsSeq(o: Option<Segment>): seq<Segment> {
    if o.Some? then [o.value] else []
  }

  /** For each event, whether it contributes a segment. */
  function Contributing(events: seq<Event>): (r: seq<bool>)
    ensures |r| == |events|
    ensures forall i :: 0 <= i < |events| ==> r[i] == Decode(events[i]).Some?
  {
    seq(|events|, i requires 0 <= i < |events| => Decode(events[i]).Some?)
  }

  /** The positions, from `from` on, where `flags` holds. */
  function KeptFrom(flags: seq<bool>, from: nat): (r: seq<nat>)
    requires from <= |flags|
    ensures forall k :: 0 <= k < |r| ==> from <= r[k] < |flags| && flags[r[k]]
    ensures forall j, k :: 0 <= j < k < |r| ==> r[j] < r[k]
    ensures forall i :: from <= i < |flags| && flags[i] ==> i in r
    decreases |flags| - from
  {
    if from == |flags| then []
    else if flags[from] then [from] + KeptFrom(flags, from + 1)
    else KeptFrom(flags, from + 1)
  }

  /** Decoding is an order-preserving filter: the k-th segment is decoded
      from the k-th contributing event, and every contributing event gives
      exactly one segment. */
  lemma {:induction false} DecodeIsOrderedFilter(events: seq<Event>, from: nat)
    requires from <= |events|
    ensures |DecodeEvents(events[from..])| == |KeptFrom(Contributing(events), from)|
    ensures forall k :: 0 <= k < |KeptFrom(Contributing(events), from)| ==>
      Decode(events[KeptFrom(Contributing(events), from)[k]]) == Some(DecodeEvents(events[from..])[k])
    decreases |events| - from
  {
    var flags := Contributing(events);
    if from < |events| {
      var tail := events[from..];
      assert tail[0] == events[from];
      assert tail[1..] == events[from + 1..];
      DecodeEventsCons(tail);
      DecodeIsOrderedFilter(events, from + 1);
      var kept := KeptFrom(flags, from + 1);
      var rest := DecodeEvents(events[from + 1..]);
      assert flags[from] == Decode(events[from]).Some?;
      if Decode(events[from]).Some? {
        var seg := Decode(events[from]).value;
        assert DecodeEvents(tail) == [seg] + rest;
        assert KeptFrom(flags, from) == [from] + kept;
        forall k | 0 < k < |kept| + 1
          ensures Decode(events[([from] + kept)[k]]) == Some(([seg] + rest)[k])
        {
          assert ([from] + kept)[k] == kept[k - 1];
          assert ([seg] + rest)[k] == rest[k - 1];
        }
      } else {
        assert DecodeEvents(tail) == rest;
        assert KeptFrom(flags, from) == kept;
      }
    } else {
      assert events[from..] == [];
    }
  }

  /** Nothing is decoded exactly when no event contributes. */
  lemma {:induction false} DecodeEmptyIff(events: seq<Event>)
    ensures DecodeEvents(events) == [] <==> forall i :: 0 <= i < |events| ==> Decode(events[i]).None?
  {
    if events != [] {
      DecodeEmptyIff(events[1..]);
      if Decode(events[0]).None? {
        forall i | 0 < i < |events| ensures Decode(events[i]) == Decode(events[1..][i - 1]) {
        }
      }
    }
  }

  /** The transcript built from a payload; an empty one is a failure. */
  function BuildTranscript(p: Payload): (r: Result<seq<Segment>, ErrorKind>)
    ensures r.Success? ==> p.events.Some? && r.value == DecodeEvents(p.events.value) && r.value != []
    ensures r.Failure? ==> r.error == EmptyTranscript
    ensures r.Failure? <==> p.events.None? || forall i :: 0 <= i < |p.events.value| ==> Decode(p.events.value[i]).None?
  {
    if p.events.None? then Failure(EmptyTranscript)
    else
      var segs := DecodeEvents(p.events.value);
      DecodeEmptyIff(p.events.value);
      if segs == [] then Failure(EmptyTranscript) else Success(segs)
  }
}
