/**
 * Transcript acquisition and normalisation for one video
 * (backend/yt.py, _fetch_youtube_transcript_chunks up to the chunking loop).
 *
 * The transcript service is abstract: whether listing the video's transcripts
 * succeeds, and, for every attempt, what that attempt yields.
 */
module Transcripts {
  import opened Basics
  import opened PyStr

  /**
   * One raw caption segment, as read by s.get("start", 0) and s.get("text", ""):
   * a missing key reads as its default, so it is not told apart from it here.
   * The start is the whole number int(float(...)) makes of it: the float value
   * truncated toward zero.
   */
  datatype RawSegment = RawSegment(start: int, text: string)

  /** A normalised segment: whole seconds and non-blank, stripped text. */
  datatype Unit = Unit(start: int, text: string)

  // ---------------------------------------------------------------- normalisation

  /** s.get("text", "").strip() */
  function SegmentText(s: RawSegment): string {
    Strip(s.text)
  }

  /** What one raw segment contributes: its unit, or nothing when its text is blank. */
  function NormaliseOne(s: RawSegment): (us: seq<Unit>)
    ensures |us| <= 1
    ensures us == [] <==> SegmentText(s) == []
    ensures us != [] ==> us[0].start == s.start && us[0].text == SegmentText(s) && Trimmed(us[0].text)
  {
    var text := SegmentText(s);
    if text != [] then [Unit(s.start, text)] else []
  }

  /** The units of a segment list: each segment's contribution, in input order. */
  function Normalised(segs: seq<RawSegment>): seq<Unit> {
    FlatMap(NormaliseOne, segs)
  }

  /** The normalisation loop: strip, truncate, keep the non-blank. */
  method Normalise(segments: seq<RawSegment>) returns (sents: seq<Unit>)
    ensures sents == Normalised(segments)
  {
    sents := [];
    for i := 0 to |segments|
      invariant sents == Normalised(segments[..i])
    {
      var s := segments[i];
      var text := Strip(s.text);
      var start := s.start;
      if text != [] {
        sents := sents + [Unit(start, text)];
      }
      assert segments[..i + 1][..i] == segments[..i];
    }
    assert segments[..|segments|] == segments;
  }

  /**
   * Segment s, wherever it sits, contributes exactly its own unit (or nothing,
   * when blank) at its own place: nothing is reordered, merged or invented.
   */
  lemma NormalisedAt(a: seq<RawSegment>, s: RawSegment, b: seq<RawSegment>)
    ensures Normalised(a + [s] + b) == Normalised(a) + NormaliseOne(s) + Normalised(b)
  {
    FlatMapAppend(NormaliseOne, a + [s], b);
    assert (a + [s])[..|a|] == a;
  }

  /** Every unit is non-blank and stripped. */
  lemma {:induction false} NormalisedTrimmed(segs: seq<RawSegment>)
    ensures forall k :: 0 <= k < |Normalised(segs)| ==> Trimmed(Normalised(segs)[k].text)
    decreases |segs|
  {
    if segs != [] {
      var front, last := segs[..|segs| - 1], segs[|segs| - 1];
      NormalisedTrimmed(front);
      assert Normalised(segs) == Normalised(front) + NormaliseOne(last);
    }
  }

  /** No units come out exactly when every segment's text is blank. */
  lemma {:induction false} NormalisedEmpty(segs: seq<RawSegment>)
    ensures Normalised(segs) == [] <==> forall k :: 0 <= k < |segs| ==> SegmentText(segs[k]) == []
    decreases |segs|
  {
    if segs != [] {
      var front, last := segs[..|segs| - 1], segs[|segs| - 1];
      NormalisedEmpty(front);
      assert Normalised(segs) == Normalised(front) + NormaliseOne(last);
      assert forall k :: 0 <= k < |front| ==> front[k] == segs[k];
    }
  }

  // ---------------------------------------------------------------- acquisition

  /**
   * The service calls that can yield segments, in the source's order:
   * find_generated_transcript(['en']), find_transcript(['en']), then a direct
   * fetch with one language list.
   */
  datatype Attempt = Generated | AnyEnglish | Direct(languages: seq<string>)

  /**
   * What an attempt does: returns segments, raises TranscriptsDisabled or
   * NoTranscriptFound (NotFound), or raises anything else (Failed).
   */
  datatype FetchOutcome = Fetched(segments: seq<RawSegment>) | NotFound | Failed

  /** The language lists of the direct fallback, in order. */
  const DirectLanguages: seq<seq<string>> := [["en"], ["en-US"], ["en-GB"], ["auto"]]

  /** The segments obtained and the attempts made, in the order they were made. */
  datatype Acquisition = Acquisition(segments: seq<RawSegment>, calls: seq<Attempt>)

  /**
   * The listing phase, entered only when listing the transcripts succeeded.
   * Any exception from the generated-English attempt falls back to any English
   * transcript; any exception from that one gives up on the phase.
   */
  function ListPhase(listed: bool, service: Attempt -> FetchOutcome): Acquisition {
    if !listed then Acquisition([], [])
    else if service(Generated).Fetched? then Acquisition(service(Generated).segments, [Generated])
    else if service(AnyEnglish).Fetched? then Acquisition(service(AnyEnglish).segments, [Generated, AnyEnglish])
    else Acquisition([], [Generated, AnyEnglish])
  }

  /**
   * The direct phase over the remaining language lists: a fetch that returns
   * ends the loop (break), a missing transcript moves on (continue), any other
   * exception leaves the whole function, which then returns [].
   */
  function DirectPhase(langs: seq<seq<string>>, service: Attempt -> FetchOutcome): (r: Acquisition)
    ensures |r.calls| <= |langs|
    decreases |langs|
  {
    if langs == [] then Acquisition([], [])
    else
      var attempt := Direct(langs[0]);
      match service(attempt)
      case Fetched(segs) => Acquisition(segs, [attempt])
      case Failed => Acquisition([], [attempt])
      case NotFound =>
        var rest := DirectPhase(langs[1..], service);
        Acquisition(rest.segments, [attempt] + rest.calls)
  }

  /** The whole acquisition: the direct phase runs only when the listing phase produced no segments. */
  function Acquire(listed: bool, service: Attempt -> FetchOutcome): (r: Acquisition)
    ensures |ListPhase(listed, service).calls| <= |r.calls| <= |ListPhase(listed, service).calls| + |DirectLanguages|
  {
    var first := ListPhase(listed, service);
    if first.segments != [] then first
    else
      var second := DirectPhase(DirectLanguages, service);
      Acquisition(second.segments, first.calls + second.calls)
  }

  /** The direct phase from language list i on, one step unfolded. */
  lemma DirectPhaseStep(langs: seq<seq<string>>, i: nat, service: Attempt -> FetchOutcome)
    requires i < |langs|
    ensures var d, x := DirectPhase(langs[i..], service), Direct(langs[i]);
      && (service(x).Fetched? ==> d == Acquisition(service(x).segments, [x]))
      && (service(x).Failed? ==> d == Acquisition([], [x]))
      && (service(x).NotFound? ==>
            d == Acquisition(DirectPhase(langs[i + 1..], service).segments, [x] + DirectPhase(langs[i + 1..], service).calls))
  {
    assert langs[i..][0] == langs[i];
    assert langs[i..][1..] == langs[i + 1..];
  }

  /** The listing phase as the source performs it: nested fallbacks. */
  method ListAttempts(listed: bool, service: Attempt -> FetchOutcome)
    returns (segments: seq<RawSegment>, calls: seq<Attempt>)
    ensures Acquisition(segments, calls) == ListPhase(listed, service)
  {
    segments, calls := [], [];
    if listed {
      calls := calls + [Generated];
      var generated := service(Generated);
      if generated.Fetched? {
        segments := generated.segments;
      } else {
        calls := calls + [AnyEnglish];
        var english := service(AnyEnglish);
        if english.Fetched? {
          segments := english.segments;
        }
      }
    }
  }

  /** The direct phase as performed: a loop over the language lists that stops at a return or an unexpected exception. */
  method DirectAttemptsLoop(langs: seq<seq<string>>, service: Attempt -> FetchOutcome)
    returns (segments: seq<RawSegment>, calls: seq<Attempt>)
    ensures Acquisition(segments, calls) == DirectPhase(langs, service)
  {
    segments, calls := [], [];
    ghost var whole := DirectPhase(langs, service);
    var i := 0;
    assert langs[i..] == langs && calls + whole.calls == whole.calls;
    while i < |langs|
      invariant 0 <= i <= |langs|
      invariant segments == []
      invariant Remaining(langs, i, calls, whole, service)
      decreases |langs| - i
    {
      var attempt := Direct(langs[i]);
      DirectLoopStep(langs, i, calls, whole, service);
      calls := calls + [attempt];
      var outcome := service(attempt);
      if outcome.Fetched? {
        // break: nothing follows the loop in this phase
        segments := outcome.segments;
        return;
      } else if outcome.NotFound? {
        i := i + 1;
        continue;
      } else {
        // any other exception: the enclosing handler returns []
        return;
      }
    }
    DirectLoopEnd(langs, calls, whole, service);
  }

  /** The loop invariant: the calls made so far followed by the rest of the direct phase make the whole phase. */
  predicate Remaining(langs: seq<seq<string>>, i: nat, calls: seq<Attempt>, whole: Acquisition, service: Attempt -> FetchOutcome)
    requires i <= |langs|
  {
    var rest := DirectPhase(langs[i..], service);
    rest.segments == whole.segments && calls + rest.calls == whole.calls
  }

  /** One pass of the direct loop keeps the invariant, or ends with the whole phase. */
  lemma DirectLoopStep(langs: seq<seq<string>>, i: nat, calls: seq<Attempt>, whole: Acquisition, service: Attempt -> FetchOutcome)
    requires i < |langs| && Remaining(langs, i, calls, whole, service)
    ensures var x := Direct(langs[i]);
      && (service(x).Fetched? ==> whole == Acquisition(service(x).segments, calls + [x]))
      && (service(x).Failed? ==> whole == Acquisition([], calls + [x]))
      && (service(x).NotFound? ==> Remaining(langs, i + 1, calls + [x], whole, service))
  {
    DirectPhaseStep(langs, i, service);
    var x := Direct(langs[i]);
    var rest := DirectPhase(langs[i + 1..], service);
    assert calls + ([x] + rest.calls) == (calls + [x]) + rest.calls;
  }

  /** When every language list was tried, the calls made are the whole phase. */
  lemma DirectLoopEnd(langs: seq<seq<string>>, calls: seq<Attempt>, whole: Acquisition, service: Attempt -> FetchOutcome)
    requires Remaining(langs, |langs|, calls, whole, service)
    ensures whole == Acquisition([], calls)
  {
    assert langs[|langs|..] == [];
    assert calls + [] == calls;
  }

  /** Acquisition as the source performs it: the listing phase, then the direct phase when it produced nothing. */
  method AcquireSegments(listed: bool, service: Attempt -> FetchOutcome)
    returns (segments: seq<RawSegment>, calls: seq<Attempt>)
    ensures Acquisition(segments, calls) == Acquire(listed, service)
  {
    segments, calls := ListAttempts(listed, service);
    if segments == [] {
      var direct, more := DirectAttemptsLoop(DirectLanguages, service);
      segments, calls := direct, calls + more;
    }
  }

  // ---------------------------------------------------------------- properties of acquisition

  /** The order in which attempts may be made. */
  function Order(listed: bool): seq<Attempt> {
    (if listed then [Generated, AnyEnglish] else []) + DirectAttempts(DirectLanguages)
  }

  function DirectAttempts(langs: seq<seq<string>>): (r: seq<Attempt>)
    ensures |r| == |langs| && forall k :: 0 <= k < |langs| ==> r[k] == Direct(langs[k])
  {
    seq(|langs|, k requires 0 <= k < |langs| => Direct(langs[k]))
  }

  /** An attempt that produced a non-empty segment list. */
  predicate Succeeds(outcome: FetchOutcome) {
    outcome.Fetched? && outcome.segments != []
  }

  /**
   * Reference behaviour: try the attempts of `order` one after another and
   * stop at the first that produces a non-empty segment list.
   */
  function FirstSuccess(order: seq<Attempt>, service: Attempt -> FetchOutcome): Acquisition
    decreases |order|
  {
    if order == [] then Acquisition([], [])
    else if Succeeds(service(order[0])) then Acquisition(service(order[0]).segments, [order[0]])
    else
      var rest := FirstSuccess(order[1..], service);
      Acquisition(rest.segments, [order[0]] + rest.calls)
  }

  /** A service that never answers with an empty list and never raises anything but a missing-transcript error. */
  ghost predicate WellBehaved(service: Attempt -> FetchOutcome) {
    forall a :: service(a) == NotFound || Succeeds(service(a))
  }

  lemma {:induction false} DirectPhaseIsFirstSuccess(langs: seq<seq<string>>, service: Attempt -> FetchOutcome)
    requires WellBehaved(service)
    ensures DirectPhase(langs, service) == FirstSuccess(DirectAttempts(langs), service)
    decreases |langs|
  {
    if langs != [] {
      assert DirectAttempts(langs)[1..] == DirectAttempts(langs[1..]);
      DirectPhaseIsFirstSuccess(langs[1..], service);
    }
  }

  /**
   * With a well-behaved service, acquisition is exactly "first success over
   * Order(listed)": auto-generated English, any English, then the direct
   * language lists, stopping at the first non-empty segment list.
   */
  lemma AcquireIsFirstSuccess(listed: bool, service: Attempt -> FetchOutcome)
    requires WellBehaved(service)
    ensures Acquire(listed, service) == FirstSuccess(Order(listed), service)
  {
    var d := DirectAttempts(DirectLanguages);
    DirectPhaseIsFirstSuccess(DirectLanguages, service);
    ListPhaseIsFirstSuccess(listed, service);
    FirstSuccessAppend(if listed then [Generated, AnyEnglish] else [], d, service);
  }

  /** With a well-behaved service the listing phase is "first success" over its two attempts. */
  lemma ListPhaseIsFirstSuccess(listed: bool, service: Attempt -> FetchOutcome)
    requires WellBehaved(service)
    ensures ListPhase(listed, service) == FirstSuccess(if listed then [Generated, AnyEnglish] else [], service)
  {
    if listed {
      assert service(Generated) == NotFound || Succeeds(service(Generated));
      assert service(AnyEnglish) == NotFound || Succeeds(service(AnyEnglish));
      FirstSuccessCons(AnyEnglish, [], service);
      FirstSuccessCons(Generated, [AnyEnglish], service);
      assert [Generated, AnyEnglish] == [Generated] + [AnyEnglish] && [AnyEnglish] == [AnyEnglish] + [];
    }
  }

  /** Trying x first, then the rest. */
  lemma FirstSuccessCons(x: Attempt, rest: seq<Attempt>, service: Attempt -> FetchOutcome)
    ensures var r := FirstSuccess(rest, service);
      FirstSuccess([x] + rest, service) ==
        if Succeeds(service(x)) then Acquisition(service(x).segments, [x]) else Acquisition(r.segments, [x] + r.calls)
  {
    assert ([x] + rest)[0] == x && ([x] + rest)[1..] == rest;
  }

  /** Trying xs, then ys: ys is tried only when xs produced nothing, and every attempt of xs was then made. */
  lemma {:induction false} FirstSuccessAppend(xs: seq<Attempt>, ys: seq<Attempt>, service: Attempt -> FetchOutcome)
    ensures var a, b := FirstSuccess(xs, service), FirstSuccess(ys, service);
      FirstSuccess(xs + ys, service) == if a.segments != [] then a else Acquisition(b.segments, a.calls + b.calls)
    ensures FirstSuccess(xs, service).segments == [] ==> FirstSuccess(xs, service).calls == xs
    decreases |xs|
  {
    if xs == [] {
      assert xs + ys == ys;
    } else {
      FirstSuccessAppend(xs[1..], ys, service);
      FirstSuccessCons(xs[0], xs[1..] + ys, service);
      FirstSuccessCons(xs[0], xs[1..], service);
      assert xs + ys == [xs[0]] + (xs[1..] + ys);
      assert xs == [xs[0]] + xs[1..];
    }
  }

  /** The segments obtained, when there are any, are those of the last attempt made. */
  lemma {:induction false} DirectPhaseFromLastCall(langs: seq<seq<string>>, service: Attempt -> FetchOutcome)
    ensures var d := DirectPhase(langs, service);
      d.segments != [] ==> d.calls != [] && service(d.calls[|d.calls| - 1]) == Fetched(d.segments)
    ensures var d := DirectPhase(langs, service);
      forall k :: 0 <= k < |d.calls| - 1 ==> service(d.calls[k]) == NotFound
    ensures DirectPhase(langs, service).calls == DirectAttempts(langs)[..|DirectPhase(langs, service).calls|]
    decreases |langs|
  {
    if langs != [] && service(Direct(langs[0])).NotFound? {
      DirectPhaseFromLastCall(langs[1..], service);
      var rest := DirectPhase(langs[1..], service);
      var d := DirectPhase(langs, service);
      assert d.calls == [Direct(langs[0])] + rest.calls;
      assert DirectAttempts(langs) == [Direct(langs[0])] + DirectAttempts(langs[1..]);
      forall k | 1 <= k < |d.calls| - 1 ensures service(d.calls[k]) == NotFound {
        assert d.calls[k] == rest.calls[k - 1];
      }
    }
  }

  /**
   * What the acquisition guarantees for any service: a non-empty result comes
   * from the last call made, and no earlier call produced non-empty segments.
   */
  lemma AcquireShape(listed: bool, service: Attempt -> FetchOutcome)
    ensures var a := Acquire(listed, service);
      a.segments != [] ==> a.calls != [] && service(a.calls[|a.calls| - 1]) == Fetched(a.segments)
    ensures var a := Acquire(listed, service);
      forall k :: 0 <= k < |a.calls| - 1 ==> !Succeeds(service(a.calls[k]))
  {
    var l := ListPhase(listed, service);
    if l.segments == [] {
      DirectPhaseFromLastCall(DirectLanguages, service);
      var d := DirectPhase(DirectLanguages, service);
      AppendCalls(l, d, service);
    }
  }

  /** Listing calls that all failed, followed by direct calls of which all but the last failed. */
  lemma AppendCalls(l: Acquisition, d: Acquisition, service: Attempt -> FetchOutcome)
    requires forall k :: 0 <= k < |l.calls| ==> !Succeeds(service(l.calls[k]))
    requires forall k :: 0 <= k < |d.calls| - 1 ==> service(d.calls[k]) == NotFound
    ensures var calls := l.calls + d.calls;
      forall k :: 0 <= k < |calls| - 1 ==> !Succeeds(service(calls[k]))
  {
    var calls := l.calls + d.calls;
    forall k | 0 <= k < |calls| - 1 ensures !Succeeds(service(calls[k])) {
      if k >= |l.calls| {
        assert calls[k] == d.calls[k - |l.calls|];
      }
    }
  }

  /**
   * The calls made are a prefix of the two listing attempts (empty exactly
   * when listing failed) followed by a prefix of the direct attempts: each
   * attempt at most once, in the source's order.
   */
  lemma AcquireCallOrder(listed: bool, service: Attempt -> FetchOutcome)
    ensures var a := Acquire(listed, service); var l := ListPhase(listed, service);
      && a.calls[..|l.calls|] == l.calls
      && l.calls == [Generated, AnyEnglish][..|l.calls|]
      && (listed <==> l.calls != [])
      && a.calls[|l.calls|..] == DirectAttempts(DirectLanguages)[..|a.calls| - |l.calls|]
  {
    var a := Acquire(listed, service);
    var l := ListPhase(listed, service);
    if l.segments == [] {
      DirectPhaseFromLastCall(DirectLanguages, service);
      var d := DirectPhase(DirectLanguages, service);
      assert a.calls == l.calls + d.calls;
      assert a.calls[|l.calls|..] == d.calls;
    } else {
      assert a.calls == l.calls;
    }
  }

  /** An empty list from the generated-English attempt ends the listing phase: find_transcript(['en']) is not tried. */
  lemma EmptyGeneratedSkipsAnyEnglish(service: Attempt -> FetchOutcome)
    requires service(Generated) == Fetched([])
    ensures AnyEnglish !in Acquire(true, service).calls
  {
    var d := DirectPhase(DirectLanguages, service);
    DirectPhaseFromLastCall(DirectLanguages, service);
    assert Acquire(true, service).calls == [Generated] + d.calls;
    assert forall k :: 0 <= k < |d.calls| ==> d.calls[k].Direct?;
  }

  /** An unexpected exception from a direct fetch ends acquisition with no segments, whatever later language lists would give. */
  lemma FailedDirectAborts(listed: bool, service: Attempt -> FetchOutcome)
    requires ListPhase(listed, service).segments == []
    requires service(Direct(["en"])) == Failed
    ensures Acquire(listed, service).segments == []
  {
  }
}
