/**
 * The chunking loop of _fetch_youtube_transcript_chunks (backend/yt.py):
 * normalised units are packed greedily into chunks of at most MaxChars
 * characters, joined by single spaces; a unit that does not fit closes the
 * current chunk and opens the next one behind the closed chunk's last
 * OverlapChars characters (left-stripped) and a space.
 *
 * The specification is a plan: the list of pieces the loop builds, each with
 * its anchor, its overlap prefix (none for the first) and the units of its body.
 */
module Chunking {
  import opened Basics
  import opened PyStr
  import opened Transcripts

  /** MAX of the source. */
  const MaxChars: nat := 800
  /** OVERLAP of the source. */
  const OverlapChars: nat := 120

  /** One chunk as the loop produces it: (start, content). */
  datatype Chunk = Chunk(start: int, content: string)

  /** One chunk before it is rendered: anchor time, overlap prefix, and the units of its body. */
  datatype Piece = Piece(anchor: int, overlap: Option<string>, body: seq<Unit>)

  function Texts(us: seq<Unit>): (ts: seq<string>)
    ensures |ts| == |us| && forall k :: 0 <= k < |us| ==> ts[k] == us[k].text
  {
    seq(|us|, k requires 0 <= k < |us| => us[k].text)
  }

  /** The body's unit texts joined by single spaces. */
  function BodyText(p: Piece): string {
    Join(Texts(p.body))
  }

  /** The text of a piece: overlap prefix and a space when there is one, then the body. */
  function Content(p: Piece): string {
    if p.overlap.Some? then p.overlap.value + " " + BodyText(p) else BodyText(p)
  }

  /** The piece opened by the first unit. */
  function First(u: Unit): Piece {
    Piece(u.start, None, [u])
  }

  /** The piece opened by unit u when it does not fit in `prev`: tail = cur_text[-OVERLAP:], then f"{tail} {text}".strip(). */
  function Next(prev: Piece, u: Unit): Piece {
    Piece(u.start, Some(LStrip(Tail(Content(prev), OverlapChars))), [u])
  }

  /** Appending u to p stays within MaxChars: len(cur_text) + 1 + len(text) <= MAX. */
  predicate Fits(p: Piece, u: Unit) {
    |Content(p)| + 1 + |u.text| <= MaxChars
  }

  function Extend(p: Piece, u: Unit): Piece {
    p.(body := p.body + [u])
  }

  /**
   * Greedy packing for a fit test `fits` and a way `next` of opening a piece
   * behind a closed one: a unit that fits extends the open piece, any other
   * closes it and opens the next.
   */
  function Pack(fits: (Piece, Unit) -> bool, next: (Piece, Unit) -> Piece, open: Piece, rest: seq<Unit>): (plan: seq<Piece>)
    ensures plan != []
    decreases |rest|
  {
    if rest == [] then [open]
    else if fits(open, rest[0]) then Pack(fits, next, Extend(open, rest[0]), rest[1..])
    else [open] + Pack(fits, next, next(open, rest[0]), rest[1..])
  }

  /** The pieces the loop builds from the open piece `open` and the units still to come. */
  function PlanFrom(open: Piece, rest: seq<Unit>): seq<Piece> {
    Pack(Fits, Next, open, rest)
  }

  /** The plan for a whole unit list: no pieces for no units. */
  function Plan(units: seq<Unit>): (plan: seq<Piece>)
    ensures plan == [] <==> units == []
  {
    if units == [] then [] else PlanFrom(First(units[0]), units[1..])
  }

  function ChunkOf(p: Piece): Chunk {
    Chunk(p.anchor, Content(p))
  }

  function ChunksOf(plan: seq<Piece>): (cs: seq<Chunk>)
    ensures |cs| == |plan| && forall k :: 0 <= k < |plan| ==> cs[k] == ChunkOf(plan[k])
  {
    seq(|plan|, k requires 0 <= k < |plan| => ChunkOf(plan[k]))
  }

  /** The chunks the loop produces for `units`. */
  function Chunks(units: seq<Unit>): seq<Chunk> {
    ChunksOf(Plan(units))
  }

  /** All units have non-blank, stripped text, as normalisation leaves them. */
  predicate AllTrimmed(units: seq<Unit>) {
    forall k :: 0 <= k < |units| ==> Trimmed(units[k].text)
  }

  // ---------------------------------------------------------------- the loop

  /**
   * push_chunk(): append (cur_start, cur_text.strip()) when cur_text is non-empty,
   * with 0 for a missing start. The text is always already stripped here.
   */
  function PushChunk(chunks: seq<Chunk>, cur: string, curStart: Option<int>): (r: seq<Chunk>)
    ensures cur == [] ==> r == chunks
    ensures Trimmed(cur) && curStart.Some? ==> r == chunks + [Chunk(curStart.value, cur)]
  {
    if cur != [] then chunks + [Chunk(if curStart.Some? then curStart.value else 0, Strip(cur))] else chunks
  }

  /** Extending a piece appends a space and the unit's text to its content. */
  lemma ExtendContent(p: Piece, u: Unit)
    requires p.body != []
    ensures Content(Extend(p, u)) == Content(p) + " " + u.text
  {
    var ts := Texts(p.body + [u]);
    assert ts[..|ts| - 1] == Texts(p.body);
  }

  /** The first unit opens the plan. */
  lemma {:induction false} StepFirst(units: seq<Unit>)
    requires units != []
    ensures [] + PlanFrom(First(units[0]), units[1..]) == Plan(units)
    ensures Content(First(units[0])) == units[0].text
  {
  }

  /** A unit that fits extends the open piece. */
  lemma {:induction false} StepExtend(done: seq<Piece>, open: Piece, units: seq<Unit>, i: nat)
    requires i < |units| && done + PlanFrom(open, units[i..]) == Plan(units)
    requires Fits(open, units[i])
    ensures done + PlanFrom(Extend(open, units[i]), units[i + 1..]) == Plan(units)
  {
    assert units[i..][1..] == units[i + 1..];
  }

  /** A unit that does not fit closes the open piece and opens the next. */
  lemma {:induction false} StepNext(done: seq<Piece>, open: Piece, units: seq<Unit>, i: nat)
    requires i < |units| && done + PlanFrom(open, units[i..]) == Plan(units)
    requires !Fits(open, units[i])
    ensures (done + [open]) + PlanFrom(Next(open, units[i]), units[i + 1..]) == Plan(units)
  {
    assert units[i..][1..] == units[i + 1..];
  }

  /** The last open piece closes the plan. */
  lemma {:induction false} StepLast(done: seq<Piece>, open: Piece, units: seq<Unit>)
    requires done + PlanFrom(open, units[|units|..]) == Plan(units)
    ensures done + [open] == Plan(units)
  {
    assert units[|units|..] == [];
  }

  /** What f"{tail} {text}".strip() computes when the closed chunk's text and the unit's text are stripped. */
  lemma RolloverText(cur: string, open: Piece, u: Unit)
    requires Trimmed(cur) && cur == Content(open) && Trimmed(u.text)
    ensures Strip(Tail(cur, OverlapChars) + " " + u.text) == Content(Next(open, u))
    ensures Trimmed(Content(Next(open, u)))
  {
    var tail := Tail(cur, OverlapChars);
    assert tail[|tail| - 1] == cur[|cur| - 1];
    StripJoined(tail, u.text);
    var c := Content(Next(open, u));
    assert c == LStrip(tail) + " " + u.text;
    assert c[|c| - 1] == u.text[|u.text| - 1];
  }

  lemma {:induction false} ChunksOfSnoc(done: seq<Piece>, p: Piece)
    ensures ChunksOf(done + [p]) == ChunksOf(done) + [ChunkOf(p)]
  {
  }

  /** The chunking loop, with cur_text, cur_start and push_chunk as in the source. */
  method ChunkUnits(units: seq<Unit>) returns (chunks: seq<Chunk>)
    requires AllTrimmed(units)
    ensures chunks == Chunks(units)
  {
    chunks := [];
    var cur: string := "";
    var curStart: Option<int> := None;
    ghost var done: seq<Piece> := [];
    ghost var open: Piece := First(Unit(0, "x"));
    for i := 0 to |units|
      invariant i == 0 ==> cur == [] && curStart == None && chunks == [] && done == []
      invariant i > 0 ==> Trimmed(cur) && cur == Content(open) && curStart == Some(open.anchor)
      invariant i > 0 ==> open.body != [] && chunks == ChunksOf(done)
      invariant i > 0 ==> done + PlanFrom(open, units[i..]) == Plan(units)
    {
      var u := units[i];
      assert Trimmed(u.text);
      if cur == [] {
        StepFirst(units);
        cur := u.text;
        curStart := Some(u.start);
        open := First(u);
      } else if |cur| + 1 + |u.text| <= MaxChars {
        ExtendContent(open, u);
        StepExtend(done, open, units, i);
        cur := cur + " " + u.text;
        open := Extend(open, u);
      } else {
        chunks := PushChunk(chunks, cur, curStart);
        ChunksOfSnoc(done, open);
        StepNext(done, open, units, i);
        RolloverText(cur, open, u);
        var tail := Tail(cur, OverlapChars);
        cur := Strip(tail + " " + u.text);
        curStart := Some(u.start);
        done := done + [open];
        open := Next(open, u);
      }
    }
    chunks := PushChunk(chunks, cur, curStart);
    if units != [] {
      StepLast(done, open, units);
      ChunksOfSnoc(done, open);
    }
  }

  // ---------------------------------------------------------------- properties of greedy packing

  function BodyOf(p: Piece): seq<Unit> {
    p.body
  }

  /** `next` opens a piece holding just the triggering unit, anchored at its start. */
  ghost predicate Opens(next: (Piece, Unit) -> Piece) {
    forall p, u :: next(p, u).body == [u] && next(p, u).anchor == u.start
  }

  /** The first piece packed from `open` keeps its anchor and overlap and only grows its body. */
  lemma {:induction false} PackHead(fits: (Piece, Unit) -> bool, next: (Piece, Unit) -> Piece, open: Piece, rest: seq<Unit>)
    ensures var p := Pack(fits, next, open, rest)[0];
      p.anchor == open.anchor && p.overlap == open.overlap
      && |open.body| <= |p.body| && p.body[..|open.body|] == open.body
    decreases |rest|
  {
    if rest != [] && fits(open, rest[0]) {
      var e := Extend(open, rest[0]);
      PackHead(fits, next, e, rest[1..]);
      var p := Pack(fits, next, open, rest)[0];
      assert p.body[..|open.body|] == p.body[..|e.body|][..|open.body|];
    }
  }

  /** The bodies, concatenated, are the open piece's body followed by the remaining units. */
  lemma {:induction false} PackCovers(fits: (Piece, Unit) -> bool, next: (Piece, Unit) -> Piece, open: Piece, rest: seq<Unit>)
    requires Opens(next)
    ensures FlatMap(BodyOf, Pack(fits, next, open, rest)) == open.body + rest
    decreases |rest|
  {
    if rest == [] {
      assert [open][..0] == [];
    } else if fits(open, rest[0]) {
      PackCovers(fits, next, Extend(open, rest[0]), rest[1..]);
      assert open.body + [rest[0]] + rest[1..] == open.body + rest;
    } else {
      var n := next(open, rest[0]);
      var tail := Pack(fits, next, n, rest[1..]);
      PackCovers(fits, next, n, rest[1..]);
      FlatMapAppend(BodyOf, [open], tail);
      assert [open][..0] == [];
      assert [rest[0]] + rest[1..] == rest;
    }
  }

  /**
   * A property of pieces that extending with a fitting unit and opening behind
   * a closed piece both keep, for every unit satisfying `admitted`, holds of
   * every piece packed from admitted units.
   */
  lemma {:induction false} PackInvariant(fits: (Piece, Unit) -> bool, next: (Piece, Unit) -> Piece,
                                         inv: Piece -> bool, admitted: Unit -> bool, open: Piece, rest: seq<Unit>)
    requires inv(open) && forall k :: 0 <= k < |rest| ==> admitted(rest[k])
    requires forall p, u :: inv(p) && admitted(u) && fits(p, u) ==> inv(Extend(p, u))
    requires forall p, u :: inv(p) && admitted(u) && !fits(p, u) ==> inv(next(p, u))
    ensures forall k :: 0 <= k < |Pack(fits, next, open, rest)| ==> inv(Pack(fits, next, open, rest)[k])
    decreases |rest|
  {
    if rest != [] {
      assert admitted(rest[0]);
      if fits(open, rest[0]) {
        PackInvariant(fits, next, inv, admitted, Extend(open, rest[0]), rest[1..]);
      } else {
        PackInvariant(fits, next, inv, admitted, next(open, rest[0]), rest[1..]);
      }
    }
  }

  /** Piece p was opened by `next` behind prev, with a unit that did not fit in prev. */
  predicate OpenedBehind(fits: (Piece, Unit) -> bool, next: (Piece, Unit) -> Piece, prev: Piece, p: Piece) {
    && p.body != []
    && !fits(prev, p.body[0])
    && p.overlap == next(prev, p.body[0]).overlap
    && p.anchor == p.body[0].start
  }

  /** Every piece after the first was opened behind its predecessor. */
  predicate AllOpenedBehind(fits: (Piece, Unit) -> bool, next: (Piece, Unit) -> Piece, plan: seq<Piece>) {
    forall k :: 0 < k < |plan| ==> OpenedBehind(fits, next, plan[k - 1], plan[k])
  }

  lemma {:induction false} PackBoundaries(fits: (Piece, Unit) -> bool, next: (Piece, Unit) -> Piece, open: Piece, rest: seq<Unit>)
    requires Opens(next)
    ensures AllOpenedBehind(fits, next, Pack(fits, next, open, rest))
    decreases |rest|
  {
    if rest != [] {
      if fits(open, rest[0]) {
        PackBoundaries(fits, next, Extend(open, rest[0]), rest[1..]);
      } else {
        var n := next(open, rest[0]);
        var tail := Pack(fits, next, n, rest[1..]);
        PackBoundaries(fits, next, n, rest[1..]);
        PackHead(fits, next, n, rest[1..]);
        var plan := Pack(fits, next, open, rest);
        assert plan == [open] + tail;
        assert tail[0].body[..1] == [rest[0]];
        forall k | 0 < k < |plan| ensures OpenedBehind(fits, next, plan[k - 1], plan[k]) {
          if k > 1 {
            assert plan[k] == tail[k - 1] && plan[k - 1] == tail[k - 2];
          }
        }
      }
    }
  }

  /** Unit starts never decrease. */
  predicate NonDecreasing(units: seq<Unit>) {
    forall k :: 0 < k < |units| ==> units[k - 1].start <= units[k].start
  }

  predicate AnchorsNonDecreasing(plan: seq<Piece>) {
    forall k :: 0 < k < |plan| ==> plan[k - 1].anchor <= plan[k].anchor
  }

  lemma {:induction false} PackSorted(fits: (Piece, Unit) -> bool, next: (Piece, Unit) -> Piece, open: Piece, rest: seq<Unit>)
    requires Opens(next)
    requires NonDecreasing(rest) && (rest != [] ==> open.anchor <= rest[0].start)
    ensures AnchorsNonDecreasing(Pack(fits, next, open, rest))
    decreases |rest|
  {
    if rest != [] {
      if fits(open, rest[0]) {
        assert |rest| > 1 ==> rest[0].start <= rest[1].start;
        PackSorted(fits, next, Extend(open, rest[0]), rest[1..]);
      } else {
        var n := next(open, rest[0]);
        var tail := Pack(fits, next, n, rest[1..]);
        assert |rest| > 1 ==> rest[0].start <= rest[1].start;
        PackSorted(fits, next, n, rest[1..]);
        PackHead(fits, next, n, rest[1..]);
        PackHead(fits, next, open, rest);
        var plan := Pack(fits, next, open, rest);
        assert plan == [open] + tail;
      }
    }
  }

  /** The body texts of the pieces, one string per piece. */
  function BodyTexts(plan: seq<Piece>): (ts: seq<string>)
    ensures |ts| == |plan| && forall k :: 0 <= k < |plan| ==> ts[k] == BodyText(plan[k])
  {
    seq(|plan|, k requires 0 <= k < |plan| => BodyText(plan[k]))
  }

  lemma TextsAppend(a: seq<Unit>, b: seq<Unit>)
    ensures Texts(a + b) == Texts(a) + Texts(b)
  {
  }

  /** Joining the body texts gives the joined texts of all units packed. */
  lemma {:induction false} PackNoLoss(fits: (Piece, Unit) -> bool, next: (Piece, Unit) -> Piece, open: Piece, rest: seq<Unit>)
    requires Opens(next) && open.body != []
    ensures Join(BodyTexts(Pack(fits, next, open, rest))) == Join(Texts(open.body + rest))
    decreases |rest|
  {
    if rest == [] {
      assert open.body + rest == open.body;
      assert BodyTexts([open]) == [BodyText(open)];
    } else if fits(open, rest[0]) {
      var e := Extend(open, rest[0]);
      assert Pack(fits, next, open, rest) == Pack(fits, next, e, rest[1..]);
      PackNoLoss(fits, next, e, rest[1..]);
      assert e.body + rest[1..] == open.body + rest;
    } else {
      var n := next(open, rest[0]);
      var tail := Pack(fits, next, n, rest[1..]);
      assert Pack(fits, next, open, rest) == [open] + tail;
      assert n.body == [rest[0]];
      PackNoLoss(fits, next, n, rest[1..]);
      assert n.body + rest[1..] == rest;
      JoinCons(open, tail, rest);
    }
  }

  /** A closed piece in front of pieces that hold the texts of `rest`. */
  lemma JoinCons(p: Piece, tail: seq<Piece>, rest: seq<Unit>)
    requires p.body != [] && rest != [] && tail != []
    requires Join(BodyTexts(tail)) == Join(Texts(rest))
    ensures Join(BodyTexts([p] + tail)) == Join(Texts(p.body + rest))
  {
    assert BodyTexts([p] + tail) == [BodyText(p)] + BodyTexts(tail);
    JoinConcat([BodyText(p)], BodyTexts(tail));
    TextsAppend(p.body, rest);
    JoinConcat(Texts(p.body), Texts(rest));
  }

  // ---------------------------------------------------------------- properties of the chunks

  /** A piece whose body is non-empty and whose anchor is the start of its first unit. */
  predicate Anchored(p: Piece) {
    p.body != [] && p.anchor == p.body[0].start
  }

  /**
   * Content within MaxChars, or a single unit behind an overlap of at most
   * OverlapChars characters and a space.
   */
  predicate SoftBound(p: Piece) {
    && p.body != []
    && (|Content(p)| <= MaxChars || (|p.body| == 1 && |Content(p)| <= OverlapChars + 1 + |p.body[0].text|))
  }

  lemma NextOpens()
    ensures Opens(Next)
  {
  }

  /** Every unit lies in exactly one piece, in order: the bodies, concatenated, are the units; each is anchored at its first unit. */
  lemma PlanCovers(units: seq<Unit>)
    ensures FlatMap(BodyOf, Plan(units)) == units
    ensures forall k :: 0 <= k < |Plan(units)| ==> Anchored(Plan(units)[k])
  {
    if units != [] {
      NextOpens();
      PackCovers(Fits, Next, First(units[0]), units[1..]);
      assert [units[0]] + units[1..] == units;
      forall p, u | Anchored(p) ensures Anchored(Extend(p, u)) {
        assert Extend(p, u).body[0] == p.body[0];
      }
      PackInvariant(Fits, Next, Anchored, _ => true, First(units[0]), units[1..]);
    }
  }

  /**
   * p follows prev: p was opened by a unit that did not fit in prev, is
   * anchored at that unit, and opens with prev's last OverlapChars characters,
   * left-stripped.
   */
  predicate Follows(prev: Piece, p: Piece) {
    && p.body != []
    && p.anchor == p.body[0].start
    && !Fits(prev, p.body[0])
    && p.overlap == Some(LStrip(Tail(Content(prev), OverlapChars)))
  }

  /** The first piece has no overlap and is anchored at the first unit; every later piece follows its predecessor. */
  lemma PlanBoundaries(units: seq<Unit>)
    ensures units != [] ==> Plan(units)[0].overlap == None && Plan(units)[0].anchor == units[0].start
    ensures forall k :: 0 < k < |Plan(units)| ==> Follows(Plan(units)[k - 1], Plan(units)[k])
  {
    if units != [] {
      var plan := Plan(units);
      NextOpens();
      PackHead(Fits, Next, First(units[0]), units[1..]);
      PackBoundaries(Fits, Next, First(units[0]), units[1..]);
      forall k | 0 < k < |plan| ensures Follows(plan[k - 1], plan[k]) {
        assert OpenedBehind(Fits, Next, plan[k - 1], plan[k]);
      }
    }
  }

  lemma FirstContent(u: Unit)
    ensures Content(First(u)) == u.text
  {
    assert Texts([u]) == [u.text];
  }

  /** The soft bound: within MaxChars, unless the chunk holds a single unit behind at most OverlapChars + 1 characters. */
  lemma PlanSoftBound(units: seq<Unit>)
    ensures forall k :: 0 <= k < |Plan(units)| ==> SoftBound(Plan(units)[k])
  {
    if units != [] {
      FirstContent(units[0]);
      forall p, u | SoftBound(p) && Fits(p, u) ensures SoftBound(Extend(p, u)) {
        ExtendContent(p, u);
      }
      forall p, u ensures SoftBound(Next(p, u)) {
        FirstContent(u);
      }
      PackInvariant(Fits, Next, SoftBound, _ => true, First(units[0]), units[1..]);
    }
  }

  /** When unit starts never decrease, neither do chunk anchors. */
  lemma PlanSorted(units: seq<Unit>)
    requires NonDecreasing(units)
    ensures AnchorsNonDecreasing(Plan(units))
  {
    if units != [] {
      NextOpens();
      assert |units| > 1 ==> units[0].start <= units[1].start;
      PackSorted(Fits, Next, First(units[0]), units[1..]);
    }
  }

  /** No loss, no reordering: the body texts, joined by spaces, are the unit texts joined by spaces. */
  lemma PlanNoLoss(units: seq<Unit>)
    ensures Join(BodyTexts(Plan(units))) == Join(Texts(units))
  {
    if units != [] {
      NextOpens();
      PackNoLoss(Fits, Next, First(units[0]), units[1..]);
      assert [units[0]] + units[1..] == units;
    }
  }

  /** A piece's content ends with the text of its last unit. */
  lemma ContentEnd(p: Piece)
    requires p.body != []
    ensures var c, t := Content(p), p.body[|p.body| - 1].text; |t| <= |c| && c[|c| - |t|..] == t
  {
    JoinEndsWithLast(Texts(p.body));
  }

  /** v is a non-empty, stripped suffix of c of at most OverlapChars characters. */
  predicate StrippedTail(c: string, v: string) {
    && Trimmed(v)
    && |v| <= OverlapChars
    && |v| <= |c|
    && v == c[|c| - |v|..]
  }

  /** The overlap taken from a text that ends in a non-space: a non-empty, stripped suffix of at most OverlapChars characters. */
  lemma OverlapShape(c: string)
    requires c != [] && !IsSpace(c[|c| - 1])
    ensures StrippedTail(c, LStrip(Tail(c, OverlapChars)))
  {
    var t := Tail(c, OverlapChars);
    assert t[|t| - 1] == c[|c| - 1];
    LStripKeepsLast(t);
    SuffixOfSuffix(c, t, LStrip(t));
  }

  /** Every unit of the piece is stripped and non-blank, and there is at least one. */
  predicate TrimmedBody(p: Piece) {
    p.body != [] && AllTrimmed(p.body)
  }

  predicate TrimmedUnit(u: Unit) {
    Trimmed(u.text)
  }

  /** p's overlap is a non-empty stripped suffix of prev's content, at most OverlapChars long. */
  predicate OverlapIsSuffix(prev: Piece, p: Piece) {
    p.overlap.Some? && StrippedTail(Content(prev), p.overlap.value)
  }

  /** The overlap behind a piece whose units are stripped and non-blank. */
  lemma FollowsTrimmed(prev: Piece, p: Piece)
    requires TrimmedBody(prev) && Follows(prev, p)
    ensures OverlapIsSuffix(prev, p)
  {
    ContentEndsInNonSpace(prev);
    OverlapShape(Content(prev));
  }

  /** The content of a piece of stripped, non-blank units ends in a non-space. */
  lemma ContentEndsInNonSpace(p: Piece)
    requires TrimmedBody(p)
    ensures Content(p) != [] && !IsSpace(Content(p)[|Content(p)| - 1])
  {
    var t := p.body[|p.body| - 1].text;
    assert Trimmed(t);
    ContentEnd(p);
    EndsLikeSuffix(Content(p), t);
  }

  /** A text that ends with a stripped, non-empty text ends in a non-space. */
  lemma EndsLikeSuffix(c: string, t: string)
    requires Trimmed(t) && |t| <= |c| && c[|c| - |t|..] == t
    ensures c != [] && !IsSpace(c[|c| - 1])
  {
    assert c[|c| - 1] == t[|t| - 1];
  }

  /** Stripped, non-blank units give pieces of stripped, non-blank units. */
  lemma PlanTrimmedBodies(units: seq<Unit>)
    requires AllTrimmed(units)
    ensures forall k :: 0 <= k < |Plan(units)| ==> TrimmedBody(Plan(units)[k])
  {
    if units != [] {
      forall p, u | TrimmedBody(p) && TrimmedUnit(u) ensures TrimmedBody(Extend(p, u)) {
        assert forall k :: 0 <= k < |p.body| ==> Extend(p, u).body[k] == p.body[k];
      }
      PackInvariant(Fits, Next, TrimmedBody, TrimmedUnit, First(units[0]), units[1..]);
    }
  }

  /** For stripped, non-blank units, every overlap is a non-empty stripped suffix of the previous chunk's content. */
  lemma PlanOverlapSuffix(units: seq<Unit>)
    requires AllTrimmed(units)
    ensures forall k :: 0 < k < |Plan(units)| ==> OverlapIsSuffix(Plan(units)[k - 1], Plan(units)[k])
  {
    var plan := Plan(units);
    PlanBoundaries(units);
    PlanTrimmedBodies(units);
    forall k | 0 < k < |plan| ensures OverlapIsSuffix(plan[k - 1], plan[k]) {
      FollowsTrimmed(plan[k - 1], plan[k]);
    }
  }

  /**
   * Not only an oversized unit may exceed MaxChars: a 750-character unit that does not fit behind a 120-character one opens a
   * chunk of 120 + 1 + 750 = 871 characters, overlap included.
   */
  lemma OverlapCanExceedMax()
    ensures var a, b := seq(120, _ => 'a'), seq(750, _ => 'b');
      var units := [Unit(0, a), Unit(5, b)];
      && AllTrimmed(units)
      && |b| < MaxChars
      && Chunks(units) == [Chunk(0, a), Chunk(5, a + " " + b)]
      && |Chunks(units)[1].content| == 871
  {
    var a, b := seq(120, _ => 'a'), seq(750, _ => 'b');
    var units := [Unit(0, a), Unit(5, b)];
    var first := First(units[0]);
    FirstContent(units[0]);
    assert !Fits(first, units[1]);
    var n := Next(first, units[1]);
    assert units[1..] == [units[1]] && units[1..][0] == units[1] && units[1..][1..] == [];
    assert Pack(Fits, Next, n, []) == [n];
    assert Pack(Fits, Next, first, units[1..]) == [first] + Pack(Fits, Next, n, []);
    assert Plan(units) == [first, n];
    assert Tail(a, OverlapChars) == a;
    assert LeadingSpaces(a) == 0;
    assert LStrip(a) == a;
    FirstContent(units[1]);
  }
}
