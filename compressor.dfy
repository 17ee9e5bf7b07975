/** `ensureUnderMaxBytes`: re-encoding an image until its data URL fits a byte
    budget. The fast path returns the input untouched; otherwise the image is
    loaded and re-encoded in three phases: one encode at a pre-scaled size, a walk
    down a fixed quality ladder at that size, and rounds that shrink both sides
    by 0.9 at the lowest quality while a side is above 512 pixels. */
module Compressor {
  import opened JsMath
  import opened Canvas
  import opened DataUrl

  /** The quality of the first, pre-scaled encode (0.9). */
  const FirstQuality: nat := 90

  /** The quality ladder, 0.9 down to 0.4 in steps of 0.05. */
  const Qualities: seq<nat> := [90, 85, 80, 75, 70, 65, 60, 55, 50, 45, 40]

  /** The lowest quality any encode uses (0.4). */
  const QualityFloor: nat := 40

  /** The shrink rounds stop once neither side is above this many pixels. */
  const SideFloor: nat := 512

  /** The ladder has 11 rungs, starts at the first encode's quality, ends at the
      floor and strictly descends. */
  lemma LadderShape()
    ensures |Qualities| == 11
    ensures Qualities[0] == FirstQuality && Qualities[|Qualities| - 1] == QualityFloor
    ensures forall i, j :: 0 <= i < j < |Qualities| ==> Qualities[i] > Qualities[j]
  {
  }

  /** An output fits the budget under a given size measure. The search below is
      stated for any measure; `ensureUnderMaxBytes` runs it with DataUrlSizeBytes. */
  predicate FitsBy(measure: string -> int, url: string, maxBytes: int)
  {
    measure(url) <= maxBytes
  }

  /** A data URL fits the budget when `dataUrlSizeBytes` measures it at most maxBytes. */
  predicate Fits(url: string, maxBytes: int)
  {
    FitsBy(DataUrlSizeBytes, url, maxBytes)
  }

  /** A side of the first encode: `Math.max(1, Math.round(side * ratio))` with
      `ratio = Math.min(1, num / den)`, where num / den stands for the square root
      of the budget over the measured size. The side is never 0 and never grows. */
  function PreScaleSide(side: nat, num: nat, den: nat): (r: nat)
    requires den > 0
    ensures 1 <= r <= Max(1, side)
    ensures num >= den ==> r == Max(1, side)
  {
    if num >= den then Max(1, side)  // the ratio is capped at 1
    else
      MulMonotone(num, den, side);
      RoundAtMost(side * num, den, side);
      Max(1, Round(side * num, den))
  }

  /** The size of the first encode. */
  function PreScaled(natural: Size, num: nat, den: nat): (s: Size)
    requires den > 0
    ensures 1 <= s.width <= Max(1, natural.width) && 1 <= s.height <= Max(1, natural.height)
  {
    Size(PreScaleSide(natural.width, num, den), PreScaleSide(natural.height, num, den))
  }

  /** One shrink round on a side, `Math.round(side * 0.9)`: never grows, strictly
      shrinks a side above 5 and keeps a positive side positive. */
  function ShrinkSide(side: nat): (r: nat)
    ensures r <= side
    ensures side > 5 ==> r < side
    ensures side >= 1 ==> r >= 1
    ensures 10 * r <= 9 * side + 5
  {
    Round(9 * side, 10)
  }

  /** The number of shrink rounds from (w, h) when no encode fits the budget:
      rounds go on while either side is above the floor. */
  function ShrinkRounds(w: nat, h: nat): nat
    decreases w + h
  {
    if w > SideFloor || h > SideFloor then 1 + ShrinkRounds(ShrinkSide(w), ShrinkSide(h)) else 0
  }

  function Pow(b: nat, e: nat): nat
  {
    if e == 0 then 1 else b * Pow(b, e - 1)
  }

  /** One more round keeps the geometric bound: if the larger side m' after a
      round satisfies it for r rounds, the side m before satisfies it for r + 1. */
  lemma LogBoundStep(m: int, m': int, r: nat)
    requires 10 * (m' - 5) <= 9 * (m - 5)
    requires 507 * Pow(10, r) < (m' - 5) * Pow(9, r)
    ensures 507 * Pow(10, r + 1) < (m - 5) * Pow(9, r + 1)
  {
    var p10, p9 := Pow(10, r), Pow(9, r);
    MulMonotone(10 * (m' - 5), 9 * (m - 5), p9);
    assert 10 * (507 * p10) < 10 * ((m' - 5) * p9);
    assert 10 * ((m' - 5) * p9) == (10 * (m' - 5)) * p9;
    assert (9 * (m - 5)) * p9 == (m - 5) * (9 * p9);
  }

  /** The shrink rounds are logarithmically few: each round takes at least a tenth
      off the larger side's excess over 5 pixels, and the larger side is still
      above 512 before the last round, so r rounds need
      507 * 10^(r-1) < (larger side - 5) * 9^(r-1). */
  lemma {:induction false} ShrinkRoundsLogBound(w: nat, h: nat)
    ensures ShrinkRounds(w, h) > 0 ==>
      507 * Pow(10, ShrinkRounds(w, h) - 1) < (Max(w, h) - 5) * Pow(9, ShrinkRounds(w, h) - 1)
    decreases w + h
  {
    if w > SideFloor || h > SideFloor {
      var w', h' := ShrinkSide(w), ShrinkSide(h);
      ShrinkRoundsLogBound(w', h');
      var r' := ShrinkRounds(w', h');
      if r' > 0 {
        LogBoundStep(Max(w, h), Max(w', h'), r' - 1);
      }
    }
  }

  /** The size after n shrink rounds from `start`: never larger than `start`,
      and never 0 on a side that starts positive. */
  function Shrunk(start: Size, n: nat): (s: Size)
    ensures s.width <= start.width && s.height <= start.height
    ensures start.width >= 1 ==> s.width >= 1
    ensures start.height >= 1 ==> s.height >= 1
  {
    if n == 0 then start
    else
      var before := Shrunk(start, n - 1);
      Size(ShrinkSide(before.width), ShrinkSide(before.height))
  }

  /** The condition under which a shrink round runs: a side above the floor. */
  predicate AboveFloor(s: Size)
  {
    s.width > SideFloor || s.height > SideFloor
  }

  /** n + 1 rounds are one round followed by n more. */
  lemma {:induction false} ShrunkFirst(s: Size, n: nat)
    ensures Shrunk(s, n + 1) == Shrunk(Shrunk(s, 1), n)
  {
    if n > 0 {
      ShrunkFirst(s, n - 1);
    }
  }

  /** If the first n rounds each start above the floor, ShrinkRounds counts at
      least n of them. */
  lemma {:induction false} RoundsWhileAbove(s: Size, n: nat)
    requires forall j :: 0 <= j < n ==> AboveFloor(Shrunk(s, j))
    ensures ShrinkRounds(s.width, s.height) >= n
    decreases n
  {
    if n > 0 {
      assert AboveFloor(Shrunk(s, 0));
      var next := Shrunk(s, 1);
      forall j | 0 <= j < n - 1
        ensures AboveFloor(Shrunk(next, j))
      {
        ShrunkFirst(s, j);
        assert AboveFloor(Shrunk(s, j + 1));
      }
      RoundsWhileAbove(next, n - 1);
    }
  }

  /** The encoder calls a slow-path run from the pre-scaled size `start` has made
      so far, as `ensureUnderMaxBytes` makes them: the first encode at 0.9; then
      the ladder in order at the same size; then shrink rounds at the quality floor,
      round n at the size n rounds give, each made only when the size before it has
      a side above the floor. Every call but the latest produced an over-budget URL. */
  ghost predicate SearchSoFar(calls: seq<DrawCall>, start: Size, src: string, draw: Encoder, measure: string -> int, maxBytes: int)
  {
    && 1 <= |calls|
    && calls[0] == DrawCall(start, FirstQuality)
    && (forall i :: 1 <= i < |calls| && i <= |Qualities| ==> calls[i] == DrawCall(start, Qualities[i - 1]))
    && (forall i :: |Qualities| < i < |calls| ==>
          && calls[i] == DrawCall(Shrunk(start, i - |Qualities|), QualityFloor)
          && AboveFloor(Shrunk(start, i - |Qualities| - 1)))
    && (forall i :: 0 <= i < |calls| - 1 ==> !FitsBy(measure, Render(draw, src, calls[i]), maxBytes))
  }

  /** A whole run: the calls so far, where the latest either fits the budget or
      ends the run with the ladder used up and no side above the floor. */
  ghost predicate IsSearch(calls: seq<DrawCall>, start: Size, src: string, draw: Encoder, measure: string -> int, maxBytes: int)
  {
    && SearchSoFar(calls, start, src, draw, measure, maxBytes)
    && (|| FitsBy(measure, Render(draw, src, calls[|calls| - 1]), maxBytes)
        || (|calls| > |Qualities| && !AboveFloor(Shrunk(start, |calls| - 1 - |Qualities|))))
  }

  /** Appending a call to a run that is over budget keeps it a run, when the call
      is the one the run makes next: a ladder rung while rungs are left, a shrink
      round at the quality floor once they are used up and a side is above the floor. */
  lemma Extend(calls: seq<DrawCall>, start: Size, src: string, draw: Encoder, measure: string -> int, maxBytes: int, c: DrawCall)
    requires SearchSoFar(calls, start, src, draw, measure, maxBytes)
    requires !FitsBy(measure, Render(draw, src, calls[|calls| - 1]), maxBytes)
    requires |calls| <= |Qualities| ==> c == DrawCall(start, Qualities[|calls| - 1])
    requires |calls| > |Qualities| ==>
      c == DrawCall(Shrunk(start, |calls| - |Qualities|), QualityFloor) && AboveFloor(Shrunk(start, |calls| - 1 - |Qualities|))
    ensures SearchSoFar(calls + [c], start, src, draw, measure, maxBytes)
  {
    var next := calls + [c];
    forall i | 0 <= i < |calls|
      ensures next[i] == calls[i]
    {
    }
    forall i | 1 <= i < |next| && i <= |Qualities|
      ensures next[i] == DrawCall(start, Qualities[i - 1])
    {
      if i < |calls| {
        assert next[i] == calls[i];
      }
    }
    forall i | |Qualities| < i < |next|
      ensures next[i] == DrawCall(Shrunk(start, i - |Qualities|), QualityFloor)
      ensures AboveFloor(Shrunk(start, i - |Qualities| - 1))
    {
      if i < |calls| {
        assert next[i] == calls[i];
      }
    }
    forall i | 0 <= i < |next| - 1
      ensures !FitsBy(measure, Render(draw, src, next[i]), maxBytes)
    {
      assert next[i] == calls[i];
    }
  }

  /** A ladder step: while the latest output is over budget and a rung is left,
      the next rung at the same size extends the run. */
  lemma LadderStep(calls: seq<DrawCall>, start: Size, src: string, draw: Encoder, measure: string -> int, maxBytes: int)
    requires SearchSoFar(calls, start, src, draw, measure, maxBytes)
    requires |calls| <= |Qualities|
    requires !FitsBy(measure, Render(draw, src, calls[|calls| - 1]), maxBytes)
    ensures SearchSoFar(calls + [DrawCall(start, Qualities[|calls| - 1])], start, src, draw, measure, maxBytes)
  {
    Extend(calls, start, src, draw, measure, maxBytes, DrawCall(start, Qualities[|calls| - 1]));
  }

  /** A shrink round: with the ladder used up, the latest output over budget and a
      side above the floor, one more round at the quality floor extends the run. */
  lemma ShrinkStep(calls: seq<DrawCall>, start: Size, src: string, draw: Encoder, measure: string -> int, maxBytes: int)
    requires SearchSoFar(calls, start, src, draw, measure, maxBytes)
    requires |calls| > |Qualities|
    requires !FitsBy(measure, Render(draw, src, calls[|calls| - 1]), maxBytes)
    requires AboveFloor(Shrunk(start, |calls| - 1 - |Qualities|))
    ensures SearchSoFar(calls + [DrawCall(Shrunk(start, |calls| - |Qualities|), QualityFloor)], start, src, draw, measure, maxBytes)
  {
    Extend(calls, start, src, draw, measure, maxBytes, DrawCall(Shrunk(start, |calls| - |Qualities|), QualityFloor));
  }

  /** A shrink round in a run was made because the call before it was over
      budget while a side was above the floor. */
  lemma RoundWasOpen(calls: seq<DrawCall>, start: Size, src: string, draw: Encoder, measure: string -> int, maxBytes: int, i: nat)
    requires SearchSoFar(calls, start, src, draw, measure, maxBytes)
    requires |Qualities| < i < |calls|
    ensures !FitsBy(measure, Render(draw, src, calls[i - 1]), maxBytes)
    ensures AboveFloor(Shrunk(start, i - 1 - |Qualities|))
  {
    assert calls[i] == DrawCall(Shrunk(start, i - |Qualities|), QualityFloor);
  }

  /** A run that agrees with a finished run on all of that run's calls makes no
      further call: the finished run's last call leaves no reason for another. */
  lemma NoCallAfterEnd(done: seq<DrawCall>, other: seq<DrawCall>, start: Size, src: string, draw: Encoder, measure: string -> int, maxBytes: int)
    requires IsSearch(done, start, src, draw, measure, maxBytes)
    requires SearchSoFar(other, start, src, draw, measure, maxBytes)
    requires |done| <= |other|
    requires forall k :: 0 <= k < |done| ==> done[k] == other[k]
    ensures |other| == |done|
  {
    if |other| > |done| {
      var last := |done| - 1;
      assert done[last] == other[last];
      if |done| > |Qualities| {
        RoundWasOpen(other, start, src, draw, measure, maxBytes, |done|);
      }
      assert false;
    }
  }

  /** Two runs from the same size, image, encoder and budget make the same calls:
      the search is fully determined by its inputs. */
  lemma SearchIsDeterministic(c1: seq<DrawCall>, c2: seq<DrawCall>, start: Size, src: string, draw: Encoder, measure: string -> int, maxBytes: int)
    requires IsSearch(c1, start, src, draw, measure, maxBytes)
    requires IsSearch(c2, start, src, draw, measure, maxBytes)
    ensures c1 == c2
  {
    forall k | 0 <= k < |c1| && k < |c2|
      ensures c1[k] == c2[k]
    {
      SearchCallAt(c1, start, src, draw, measure, maxBytes, k);
      SearchCallAt(c2, start, src, draw, measure, maxBytes, k);
    }
    if |c1| <= |c2| {
      NoCallAfterEnd(c1, c2, start, src, draw, measure, maxBytes);
    } else {
      NoCallAfterEnd(c2, c1, start, src, draw, measure, maxBytes);
    }
  }

  /** Call k of a run is fixed by k alone: the first encode, a rung of the ladder,
      or the k - 11th shrink round. */
  lemma SearchCallAt(calls: seq<DrawCall>, start: Size, src: string, draw: Encoder, measure: string -> int, maxBytes: int, k: nat)
    requires IsSearch(calls, start, src, draw, measure, maxBytes)
    requires k < |calls|
    ensures calls[k] == if k == 0 then DrawCall(start, FirstQuality)
                        else if k <= |Qualities| then DrawCall(start, Qualities[k - 1])
                        else DrawCall(Shrunk(start, k - |Qualities|), QualityFloor)
  {
  }

  /** The quality ladder of a run: the re-encodes after the first all use the
      pre-scaled size, the first of them repeats the first quality, and their
      qualities strictly descend. */
  lemma LadderDescends(calls: seq<DrawCall>, start: Size, src: string, draw: Encoder, measure: string -> int, maxBytes: int)
    requires SearchSoFar(calls, start, src, draw, measure, maxBytes)
    ensures forall i :: 0 <= i < |calls| && i <= |Qualities| ==> calls[i].size == start
    ensures |calls| > 1 ==> calls[1].quality == calls[0].quality
    ensures forall i, j :: 1 <= i < j < |calls| && j <= |Qualities| ==> calls[i].quality > calls[j].quality
  {
    LadderShape();
    forall i, j | 1 <= i < j < |calls| && j <= |Qualities|
      ensures calls[i].quality > calls[j].quality
    {
      assert calls[i] == DrawCall(start, Qualities[i - 1]);
      assert calls[j] == DrawCall(start, Qualities[j - 1]);
    }
  }

  /** A shrink round from a size with a side above the floor: neither side grows,
      a side above the floor strictly shrinks, so the sum of the sides drops. */
  lemma ShrinkRoundDecreases(s: Size)
    requires AboveFloor(s)
    ensures Shrunk(s, 1).width <= s.width && Shrunk(s, 1).height <= s.height
    ensures s.width > SideFloor ==> Shrunk(s, 1).width < s.width
    ensures s.height > SideFloor ==> Shrunk(s, 1).height < s.height
    ensures Shrunk(s, 1).width + Shrunk(s, 1).height < s.width + s.height
  {
  }

  /** How a run ends: its last output fits the budget, or it was made at a size
      with no side above the floor, after the whole ladder and at the quality floor. */
  lemma SearchExit(calls: seq<DrawCall>, start: Size, src: string, draw: Encoder, measure: string -> int, maxBytes: int)
    requires IsSearch(calls, start, src, draw, measure, maxBytes)
    ensures || FitsBy(measure, Render(draw, src, calls[|calls| - 1]), maxBytes)
            || (calls[|calls| - 1].size.width <= SideFloor && calls[|calls| - 1].size.height <= SideFloor)
    ensures !FitsBy(measure, Render(draw, src, calls[|calls| - 1]), maxBytes) ==>
      |calls| > |Qualities| && calls[|calls| - 1].quality == QualityFloor
  {
    var last := |calls| - 1;
    if !FitsBy(measure, Render(draw, src, calls[last]), maxBytes) {
      SearchCallAt(calls, start, src, draw, measure, maxBytes, last);
      assert calls[last].size == Shrunk(start, last - |Qualities|);
    }
  }

  /** An encoder whose every output is a 6-byte JPEG data URL. */
  function SixByteEncoder(src: string, width: nat, height: nat, quality: nat): string
  {
    "a,AAAAAAAA"
  }

  /** The result is whatever the last encode produced, with nothing comparing it
      to the input: with an encoder whose every output measures 6 bytes, any run
      from the 3-byte input "a,AAAA" under a budget of 2 bytes ends in an output
      larger than the input. */
  lemma OutputCanBeLarger(calls: seq<DrawCall>, start: Size)
    requires IsSearch(calls, start, "a,AAAA", SixByteEncoder, DataUrlSizeBytes, 2)
    ensures DataUrlSizeBytes(Render(SixByteEncoder, "a,AAAA", calls[|calls| - 1])) == 6
    ensures DataUrlSizeBytes("a,AAAA") == 3
  {
    SixAndThreeBytes("a,AAAAAAAA", "a,AAAA");
  }

  /** The two data URLs of the example measure 6 and 3 bytes. */
  lemma SixAndThreeBytes(big: string, small: string)
    requires big == "a,AAAAAAAA" && small == "a,AAAA"
    ensures DataUrlSizeBytes(big) == 6 && DataUrlSizeBytes(small) == 3
  {
    assert small == "a" + "," + "AAAA";
    assert big == "a" + "," + "AAAAAAAA";
    PayloadIsSecondField("a", "AAAA");
    PayloadIsSecondField("a", "AAAAAAAA");
    PaddingOfLastTwo("AAAA");
    PaddingOfLastTwo("AAAAAAAA");
  }

  /** A run makes at most 1 + 11 + ShrinkRounds(start) encoder calls, each at a
      size between 1 pixel and `start` on both sides, at a quality between the floor
      and the first quality, and never at a higher quality than an earlier call. */
  lemma SearchBounds(calls: seq<DrawCall>, start: Size, src: string, draw: Encoder, measure: string -> int, maxBytes: int)
    requires IsSearch(calls, start, src, draw, measure, maxBytes)
    requires start.width >= 1 && start.height >= 1
    ensures |calls| <= 1 + |Qualities| + ShrinkRounds(start.width, start.height)
    ensures forall i :: 0 <= i < |calls| ==>
      && 1 <= calls[i].size.width <= start.width
      && 1 <= calls[i].size.height <= start.height
      && QualityFloor <= calls[i].quality <= FirstQuality
    ensures forall i, j :: 0 <= i < j < |calls| ==> calls[i].quality >= calls[j].quality
  {
    LadderShape();
    var n := |calls| - 1 - |Qualities|;
    if n > 0 {
      forall j | 0 <= j < n
        ensures AboveFloor(Shrunk(start, j))
      {
        var i := j + |Qualities| + 1;
        assert calls[i] == DrawCall(Shrunk(start, i - |Qualities|), QualityFloor);
      }
      RoundsWhileAbove(start, n);
    }
  }

  /** The first encode alone is the start of a run. */
  lemma SearchStarts(start: Size, src: string, draw: Encoder, measure: string -> int, maxBytes: int)
    ensures SearchSoFar([DrawCall(start, FirstQuality)], start, src, draw, measure, maxBytes)
  {
  }

  /** How the shrink loop ends a run: the latest output fits, or, with the ladder
      used up, the size after the rounds made has no side above the floor. */
  lemma SearchEnds(calls: seq<DrawCall>, start: Size, src: string, draw: Encoder, measure: string -> int, maxBytes: int, qIndex: nat, rounds: nat)
    requires SearchSoFar(calls, start, src, draw, measure, maxBytes)
    requires qIndex <= |Qualities| && |calls| == qIndex + 1 + rounds
    requires qIndex < |Qualities| ==> FitsBy(measure, Render(draw, src, calls[|calls| - 1]), maxBytes)
    requires FitsBy(measure, Render(draw, src, calls[|calls| - 1]), maxBytes) || !AboveFloor(Shrunk(start, rounds))
    ensures IsSearch(calls, start, src, draw, measure, maxBytes)
  {
  }

  /** The second loop of `ensureUnderMaxBytes`: encode at the next rung of the
      ladder, at the same size, while the output is over budget and a rung is
      left. On exit the output fits unless the whole ladder has been used. */
  method WalkLadder(measure: string -> int, src: string, maxBytes: int, draw: Encoder, w: nat, h: nat, first: string)
    returns (out: string, calls: seq<DrawCall>, qIndex: nat)
    requires first == draw(src, w, h, FirstQuality)
    ensures qIndex <= |Qualities| && |calls| == qIndex + 1
    ensures SearchSoFar(calls, Size(w, h), src, draw, measure, maxBytes)
    ensures out == Render(draw, src, calls[|calls| - 1])
    ensures qIndex < |Qualities| ==> FitsBy(measure, out, maxBytes)
  {
    out, calls, qIndex := first, [DrawCall(Size(w, h), FirstQuality)], 0;
    SearchStarts(Size(w, h), src, draw, measure, maxBytes);
    while measure(out) > maxBytes && qIndex < |Qualities|
      invariant qIndex <= |Qualities| && |calls| == qIndex + 1
      invariant SearchSoFar(calls, Size(w, h), src, draw, measure, maxBytes)
      invariant out == Render(draw, src, calls[|calls| - 1])
      decreases |Qualities| - qIndex
    {
      LadderStep(calls, Size(w, h), src, draw, measure, maxBytes);
      var quality := Qualities[qIndex];
      out := draw(src, w, h, quality);
      calls := calls + [DrawCall(Size(w, h), quality)];
      qIndex := qIndex + 1;
    }
  }

  /** The third loop of `ensureUnderMaxBytes`: while the output is over budget
      and a side is above 512, shrink both sides by 0.9 and encode at the quality
      the ladder stopped at, never below the floor. It ends a run. */
  method ShrinkToFit(measure: string -> int, src: string, maxBytes: int, draw: Encoder, start: Size, qIndex: nat, out0: string, calls0: seq<DrawCall>)
    returns (out: string, calls: seq<DrawCall>)
    requires qIndex <= |Qualities| && |calls0| == qIndex + 1
    requires SearchSoFar(calls0, start, src, draw, measure, maxBytes)
    requires out0 == Render(draw, src, calls0[|calls0| - 1])
    requires qIndex < |Qualities| ==> FitsBy(measure, out0, maxBytes)
    ensures IsSearch(calls, start, src, draw, measure, maxBytes)
    ensures out == Render(draw, src, calls[|calls| - 1])
  {
    out, calls := out0, calls0;
    var w: nat, h: nat := start.width, start.height;
    ghost var rounds: nat := 0;
    while measure(out) > maxBytes && (w > SideFloor || h > SideFloor)
      invariant Size(w, h) == Shrunk(start, rounds)
      invariant |calls| == qIndex + 1 + rounds
      invariant rounds > 0 ==> qIndex == |Qualities|
      invariant qIndex < |Qualities| ==> FitsBy(measure, out, maxBytes)
      invariant SearchSoFar(calls, start, src, draw, measure, maxBytes)
      invariant out == Render(draw, src, calls[|calls| - 1])
      decreases w + h
    {
      ShrinkStep(calls, start, src, draw, measure, maxBytes);
      w := ShrinkSide(w);
      h := ShrinkSide(h);
      var quality := Max(QualityFloor, Qualities[Min(qIndex, |Qualities| - 1)]);
      out := draw(src, w, h, quality);
      calls := calls + [DrawCall(Size(w, h), quality)];
      rounds := rounds + 1;
    }
    SearchEnds(calls, start, src, draw, measure, maxBytes, qIndex, rounds);
  }

  /** The body of `ensureUnderMaxBytes`, for a given size measure: the fast
      path, the load, the pre-scaled first encode and the two loops. The decoder
      stands for loading the data URL into an image element, the encoder for
      drawing it on a canvas and exporting a JPEG; `calls` lists the encoder
      calls in order. The square root ratio of the pre-scale is given as
      ratioNum / ratioDen. */
  method Compress(measure: string -> int, dataUrl: string, maxBytes: int, decode: Decoder, draw: Encoder, ratioNum: nat, ratioDen: nat)
    returns (result: Result<string>, calls: seq<DrawCall>)
    requires ratioDen > 0
    ensures FitsBy(measure, dataUrl, maxBytes) ==> result == Ok(dataUrl) && calls == []
    ensures !FitsBy(measure, dataUrl, maxBytes) && decode(dataUrl).None? ==> result == Rejected(LoadErrorEvent) && calls == []
    ensures !FitsBy(measure, dataUrl, maxBytes) && decode(dataUrl).Some? ==>
      var start := PreScaled(decode(dataUrl).value, ratioNum, ratioDen);
      && IsSearch(calls, start, dataUrl, draw, measure, maxBytes)
      && result == Ok(Render(draw, dataUrl, calls[|calls| - 1]))
      && |calls| <= 1 + |Qualities| + ShrinkRounds(start.width, start.height)
  {
    if measure(dataUrl) <= maxBytes {
      return Ok(dataUrl), [];
    }
    var loaded := decode(dataUrl);
    if loaded.None? {
      return Rejected(LoadErrorEvent), [];
    }
    var w := PreScaleSide(loaded.value.width, ratioNum, ratioDen);
    var h := PreScaleSide(loaded.value.height, ratioNum, ratioDen);
    var out := draw(dataUrl, w, h, FirstQuality);
    var qIndex;
    out, calls, qIndex := WalkLadder(measure, dataUrl, maxBytes, draw, w, h, out);
    out, calls := ShrinkToFit(measure, dataUrl, maxBytes, draw, Size(w, h), qIndex, out, calls);
    result := Ok(out);
    SearchBounds(calls, Size(w, h), dataUrl, draw, measure, maxBytes);
  }

  /** `ensureUnderMaxBytes(dataUrl, maxBytes)`: the search measured with
      `dataUrlSizeBytes`. */
  method EnsureUnderMaxBytes(dataUrl: string, maxBytes: int, decode: Decoder, draw: Encoder, ratioNum: nat, ratioDen: nat)
    returns (result: Result<string>, calls: seq<DrawCall>)
    requires ratioDen > 0
    // Fast path: a URL within budget comes back unchanged, with no encode.
    ensures Fits(dataUrl, maxBytes) ==> result == Ok(dataUrl) && calls == []
    // An image that fails to load rejects the call, with no encode.
    ensures !Fits(dataUrl, maxBytes) && decode(dataUrl).None? ==> result == Rejected(LoadErrorEvent) && calls == []
    // Slow path: the calls are the search from the pre-scaled size, and the
    // result is the output of the last of them.
    ensures !Fits(dataUrl, maxBytes) && decode(dataUrl).Some? ==>
      var start := PreScaled(decode(dataUrl).value, ratioNum, ratioDen);
      && IsSearch(calls, start, dataUrl, draw, DataUrlSizeBytes, maxBytes)
      && result == Ok(Render(draw, dataUrl, calls[|calls| - 1]))
      && |calls| <= 1 + |Qualities| + ShrinkRounds(start.width, start.height)
  {
    result, calls := Compress(DataUrlSizeBytes, dataUrl, maxBytes, decode, draw, ratioNum, ratioDen);
  }

  /** A decoder that loads every data URL as a 1 by 1 image. */
  function OnePixelDecoder(url: string): Option<Size>
  {
    Some(Size(1, 1))
  }

  /** `ensureUnderMaxBytes("a,AAAA", 2)` with a 1 by 1 image and the 6-byte
      encoder resolves to a data URL of 6 bytes: twice the input it was to shrink. */
  method LargerResultExample() returns (r: string)
    ensures DataUrlSizeBytes(r) == 6 && DataUrlSizeBytes("a,AAAA") == 3
  {
    var result, calls := EnsureUnderMaxBytes("a,AAAA", 2, OnePixelDecoder, SixByteEncoder, 1, 2);
    OutputCanBeLarger(calls, PreScaled(Size(1, 1), 1, 2));
    r := result.value;
  }
}
