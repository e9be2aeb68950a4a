/** `process_video`: sample frames, crop the seven regions, read them with
    the OCR engine, clean the text, assemble 20 rows per sampled frame and
    prepend them to the result. The video decoder becomes a finite sequence
    of frames and the OCR engine a pair of functions from image to the raw
    text it recognises. */
module Pipeline {
  import opened Outcomes
  import opened TextCleaner
  import opened RegionCrop
  import opened FrameSampler
  import opened Records
  import opened Accumulator

  /** The seven regions, in the order `process_video` takes them: the bid
      side's price, orders and quantity, the offer side's price, orders and
      quantity, and the summary region. */
  datatype Layout = Layout(
    bidPrice: Rect, orders: Rect, qty: Rect,
    offer: Rect, orders1: Rect, qty1: Rect,
    extra: Rect)

  /** The OCR engine's raw output text, newlines included, for the two
      preprocessing paths: dark text on a light background (the six
      order-book columns) and light text on a dark background (the summary
      region). */
  datatype Ocr<!P> = Ocr(darkText: Image<P> -> string, lightText: Image<P> -> string)

  /** `extract_text_from_frame`: the OCR text of a dark-text region, split
      into lines and cleaned into tokens. */
  function DarkTokens<P>(ocr: Ocr<P>, image: Image<P>): (tokens: seq<string>)
    ensures forall t :: t in tokens ==> !IsBlank(t) && !EndsWithComma(t)
  {
    Clean(SplitLines(ocr.darkText(image)))
  }

  /** `extract_white_text_from_frame`: the OCR text of a light-text region,
      split into lines and cleaned into tokens. */
  function LightTokens<P>(ocr: Ocr<P>, image: Image<P>): (tokens: seq<string>)
    ensures forall t :: t in tokens ==> !IsBlank(t) && !EndsWithComma(t)
  {
    Clean(SplitLines(ocr.lightText(image)))
  }

  /** The 20 rows of one sampled frame, or the `IndexError` of a region whose
      OCR returned too few tokens. */
  function FrameRecords<P>(frame: Image<P>, layout: Layout, ocr: Ocr<P>): (r: Result<seq<Record>>)
    ensures r.Success? ==> |r.value| == Depth
    ensures r.Failure? ==> r.error == IndexError
  {
    var cols := Columns(
      DarkTokens(ocr, Crop(frame, layout.bidPrice)),
      DarkTokens(ocr, Crop(frame, layout.orders)),
      DarkTokens(ocr, Crop(frame, layout.qty)),
      DarkTokens(ocr, Crop(frame, layout.offer)),
      DarkTokens(ocr, Crop(frame, layout.orders1)),
      DarkTokens(ocr, Crop(frame, layout.qty1)));
    Assemble(cols, LightTokens(ocr, Crop(frame, layout.extra)))
  }

  /** The per-frame extraction for a fixed layout and OCR engine. */
  function FrameReader<P>(layout: Layout, ocr: Ocr<P>): Image<P> -> Result<seq<Record>> {
    frame => FrameRecords(frame, layout, ocr)
  }

  /** The frame loop of `process_video` over the stream `frames`, whose
      `p`-th frame is reported at position `p`, with `read` extracting the
      rows of a sampled frame and the debug image write left out. The first
      exception raised ends the run: a zero interval's `ZeroDivisionError`,
      or the exception of a sampled frame's read. */
  function Process<F>(frames: seq<F>, interval: int, read: F -> Result<seq<Record>>): (r: Result<seq<Record>>)
    ensures r.Failure? && interval == 0 ==> r.error == ZeroDivisionError
    ensures r.Failure? && interval != 0 ==>
              exists k :: 0 <= k < |frames| && IsSampled(k + 1, interval) && read(frames[k]) == Failure(r.error)
    decreases |frames|
  {
    if |frames| == 0 then Success([])
    else
      match Process(frames[..|frames| - 1], interval, read)
      case Failure(e) => Failure(e)
      case Success(data) =>
        if interval == 0 then Failure(ZeroDivisionError)
        else if !IsSampled(|frames|, interval) then Success(data)
        else
          match read(frames[|frames| - 1])
          case Failure(e) => Failure(e)
          case Success(values) => Success(Prepend(data, values))
  }

  /** The same loop collecting each sampled frame's rows in stream order
      instead of prepending them. */
  function Batches<F>(frames: seq<F>, interval: int, read: F -> Result<seq<Record>>): Result<seq<seq<Record>>>
    requires interval != 0
    decreases |frames|
  {
    if |frames| == 0 then Success([])
    else
      match Batches(frames[..|frames| - 1], interval, read)
      case Failure(e) => Failure(e)
      case Success(bs) =>
        if !IsSampled(|frames|, interval) then Success(bs)
        else
          match read(frames[|frames| - 1])
          case Failure(e) => Failure(e)
          case Success(values) => Success(bs + [values])
  }

  /** Prepending frame by frame gives the sampled frames' rows newest frame
      first: the batches collected in stream order, reversed once and
      concatenated. */
  lemma {:induction false} ProcessIsReversedBatches<F>(frames: seq<F>, interval: int, read: F -> Result<seq<Record>>)
    requires interval != 0
    ensures Process(frames, interval, read).Success? <==> Batches(frames, interval, read).Success?
    ensures Process(frames, interval, read).Success? ==>
              Process(frames, interval, read).value == AccumulateAll(Batches(frames, interval, read).value)
              == Flatten(Reverse(Batches(frames, interval, read).value))
    decreases |frames|
  {
    if |frames| > 0 {
      var init := frames[..|frames| - 1];
      ProcessIsReversedBatches(init, interval, read);
      var bs := Batches(frames, interval, read);
      if bs.Success? {
        var b := bs.value;
        AccumulateIsReversedFlatten(b);
        if |b| > 0 {
          assert b[..|b| - 1] == Batches(init, interval, read).value || !IsSampled(|frames|, interval);
        }
      }
    }
  }

  /** Every sampled frame of the stream yields its rows. */
  ghost predicate AllSampledRead<F>(frames: seq<F>, interval: int, read: F -> Result<seq<Record>>)
    requires interval != 0
  {
    var ps := SampledPositions(|frames|, interval);
    forall k :: 0 <= k < |ps| ==> read(frames[ps[k] - 1]).Success?
  }

  /** Extending the stream by one frame adds that frame to the frames that
      must be read exactly when its position is sampled. */
  lemma AllSampledReadStep<F>(frames: seq<F>, interval: int, read: F -> Result<seq<Record>>)
    requires interval != 0 && |frames| > 0
    ensures var n := |frames|;
      AllSampledRead(frames, interval, read) <==>
        AllSampledRead(frames[..n - 1], interval, read) &&
        (IsSampled(n, interval) ==> read(frames[n - 1]).Success?)
  {
    var n := |frames|;
    var init := frames[..n - 1];
    var ps0 := SampledPositions(n - 1, interval);
    var ps := SampledPositions(n, interval);
    assert ps == ps0 + (if IsSampled(n, interval) then [n] else []);
    forall k | 0 <= k < |ps0|
      ensures ps[k] == ps0[k] && init[ps0[k] - 1] == frames[ps0[k] - 1]
    {
    }
    if IsSampled(n, interval) {
      assert ps[|ps0|] == n;
    }
  }

  /** Collecting succeeds exactly when every sampled frame yields its rows. */
  lemma {:induction false} BatchesSucceedIff<F>(frames: seq<F>, interval: int, read: F -> Result<seq<Record>>)
    requires interval != 0
    ensures Batches(frames, interval, read).Success? <==> AllSampledRead(frames, interval, read)
    decreases |frames|
  {
    if |frames| > 0 {
      var n := |frames|;
      BatchesSucceedIff(frames[..n - 1], interval, read);
      AllSampledReadStep(frames, interval, read);
    }
  }

  /** One more frame adds one batch exactly when its position is sampled. */
  lemma BatchesStep<F>(frames: seq<F>, interval: int, read: F -> Result<seq<Record>>)
    requires interval != 0 && |frames| > 0
    requires Batches(frames, interval, read).Success?
    ensures var n := |frames|;
      && Batches(frames[..n - 1], interval, read).Success?
      && (IsSampled(n, interval) ==> read(frames[n - 1]).Success?)
      && Batches(frames, interval, read).value ==
           Batches(frames[..n - 1], interval, read).value +
           (if IsSampled(n, interval) then [read(frames[n - 1]).value] else [])
  {
  }

  /** A successful collection holds one batch per sampled position: the rows
      of the frame at that position. */
  lemma {:induction false} BatchesValues<F>(frames: seq<F>, interval: int, read: F -> Result<seq<Record>>)
    requires interval != 0
    requires Batches(frames, interval, read).Success?
    ensures var ps := SampledPositions(|frames|, interval);
      && |Batches(frames, interval, read).value| == |ps|
      && forall k :: 0 <= k < |ps| ==>
           read(frames[ps[k] - 1]).Success? &&
           Batches(frames, interval, read).value[k] == read(frames[ps[k] - 1]).value
    decreases |frames|
  {
    if |frames| > 0 {
      var n := |frames|;
      var init := frames[..n - 1];
      BatchesStep(frames, interval, read);
      BatchesValues(init, interval, read);
      var prev := Batches(init, interval, read).value;
      var bs := Batches(frames, interval, read).value;
      var ps0 := SampledPositions(n - 1, interval);
      var ps := SampledPositions(n, interval);
      var sampled := IsSampled(n, interval);
      assert ps == ps0 + (if sampled then [n] else []);
      assert |bs| == |ps|;
      forall k | 0 <= k < |ps|
        ensures read(frames[ps[k] - 1]).Success? && bs[k] == read(frames[ps[k] - 1]).value
      {
        if k < |ps0| {
          assert ps[k] == ps0[k] && bs[k] == prev[k];
          assert init[ps0[k] - 1] == frames[ps0[k] - 1];
        } else {
          assert sampled && ps[k] == n && bs[k] == read(frames[n - 1]).value;
        }
      }
    }
  }

  /** The collected batches are the rows of the frames at the sampled
      positions, in stream order, and collecting succeeds exactly when every
      sampled frame yields its rows. */
  lemma BatchesAreSampledFrames<F>(frames: seq<F>, interval: int, read: F -> Result<seq<Record>>)
    requires interval != 0
    ensures Batches(frames, interval, read).Success? <==> AllSampledRead(frames, interval, read)
    ensures var ps := SampledPositions(|frames|, interval);
      Batches(frames, interval, read).Success? ==>
        && |Batches(frames, interval, read).value| == |ps|
        && forall k :: 0 <= k < |ps| ==>
             Batches(frames, interval, read).value[k] == read(frames[ps[k] - 1]).value
  {
    BatchesSucceedIff(frames, interval, read);
    if Batches(frames, interval, read).Success? {
      BatchesValues(frames, interval, read);
    }
  }

  /** When every frame the reader succeeds on yields `m` rows, a run that
      succeeds returns `m` rows per sampled frame, that is
      `m * (N / |interval|)` rows for an `N`-frame stream. */
  lemma ProcessLength<F>(frames: seq<F>, interval: int, read: F -> Result<seq<Record>>, m: nat)
    requires interval != 0
    requires forall f :: read(f).Success? ==> |read(f).value| == m
    requires Process(frames, interval, read).Success?
    ensures |Process(frames, interval, read).value| == m * (|frames| / Abs(interval))
  {
    ProcessIsReversedBatches(frames, interval, read);
    BatchesAreSampledFrames(frames, interval, read);
    SampledCount(|frames|, interval);
    var bs := Batches(frames, interval, read).value;
    var ps := SampledPositions(|frames|, interval);
    assert Uniform(bs, m) by {
      forall k | 0 <= k < |bs| ensures |bs[k]| == m {
        assert bs[k] == read(frames[ps[k] - 1]).value;
      }
    }
    AccumulatePositions(bs, m);
  }

  /** Every sampled frame contributes exactly 20 rows, so a successful run
      over `N` frames returns `20 * (N / |interval|)` rows. */
  lemma VideoLength<P>(frames: seq<Image<P>>, interval: int, layout: Layout, ocr: Ocr<P>)
    requires interval != 0
    requires Process(frames, interval, FrameReader(layout, ocr)).Success?
    ensures |Process(frames, interval, FrameReader(layout, ocr)).value| == Depth * (|frames| / Abs(interval))
  {
    var read := FrameReader(layout, ocr);
    forall f | read(f).Success? ensures |read(f).value| == Depth {
      assert read(f) == FrameRecords(f, layout, ocr);
    }
    ProcessLength(frames, interval, read, Depth);
  }

  /** With a zero interval the first frame read raises `ZeroDivisionError`;
      an empty stream never reaches the modulo and yields no rows. */
  lemma {:induction false} ProcessZeroInterval<F>(frames: seq<F>, read: F -> Result<seq<Record>>)
    ensures Process(frames, 0, read) ==
              if |frames| == 0 then Success([]) else Failure(ZeroDivisionError)
    decreases |frames|
  {
    if |frames| > 0 {
      ProcessZeroInterval(frames[..|frames| - 1], read);
    }
  }

  /** Once a prefix of the stream has raised, the whole run raises the same
      exception. */
  lemma {:induction false} FailurePersists<F>(frames: seq<F>, n: nat, interval: int, read: F -> Result<seq<Record>>)
    requires n <= |frames|
    requires Process(frames[..n], interval, read).Failure?
    ensures Process(frames, interval, read) == Process(frames[..n], interval, read)
    decreases |frames| - n
  {
    if n < |frames| {
      var init := frames[..|frames| - 1];
      assert init[..n] == frames[..n];
      FailurePersists(init, n, interval, read);
    } else {
      assert frames[..n] == frames;
    }
  }

  /** Three seconds of video at `k` frames per second: the batches are the
      rows of the frames at positions `k`, `2k` and `3k`, in that order. */
  lemma ThreeSecondBatches<F>(frames: seq<F>, k: nat, read: F -> Result<seq<Record>>)
    requires k > 0 && |frames| == 3 * k
    requires Batches(frames, k, read).Success?
    ensures read(frames[k - 1]).Success? && read(frames[2 * k - 1]).Success?
    ensures read(frames[3 * k - 1]).Success?
    ensures Batches(frames, k, read).value ==
              [read(frames[k - 1]).value, read(frames[2 * k - 1]).value, read(frames[3 * k - 1]).value]
  {
    BatchesAreSampledFrames(frames, k, read);
    ThreeSecondsOfVideo(k);
    var ps := SampledPositions(3 * k, k);
    assert ps[0] == k && ps[1] == 2 * k && ps[2] == 3 * k;
  }

  /** Three seconds of video at `k` frames per second: the run returns the
      rows of the frame at position `3k` first, then `2k`, then `k`. */
  lemma ThreeSecondRun<F>(frames: seq<F>, k: nat, read: F -> Result<seq<Record>>)
    requires k > 0 && |frames| == 3 * k
    requires Process(frames, k, read).Success?
    ensures read(frames[3 * k - 1]).Success? && read(frames[2 * k - 1]).Success?
    ensures read(frames[k - 1]).Success?
    ensures Process(frames, k, read).value
              == read(frames[3 * k - 1]).value
                 + read(frames[2 * k - 1]).value
                 + read(frames[k - 1]).value
  {
    ProcessIsReversedBatches(frames, k, read);
    ThreeSecondBatches(frames, k, read);
    var bs := Batches(frames, k, read).value;
    ThreeBatches(bs[0], bs[1], bs[2]);
    assert bs == [bs[0], bs[1], bs[2]];
  }

  /** `process_video` as a loop with the debug image write left out: read a
      frame, advance the position, test it, and prepend the frame's rows. */
  method ProcessVideo<P>(frames: seq<Image<P>>, fps: real, layout: Layout, ocr: Ocr<P>)
    returns (r: Result<seq<Record>>)
    ensures r == Process(frames, TruncateRate(fps), FrameReader(layout, ocr))
  {
    var interval := TruncateRate(fps);
    var read := FrameReader(layout, ocr);
    var data: seq<Record> := [];
    var position := 0;
    while position < |frames|
      invariant 0 <= position <= |frames|
      invariant Process(frames[..position], interval, read) == Success(data)
    {
      var frame := frames[position];
      position := position + 1;
      assert frames[..position][..position - 1] == frames[..position - 1];
      if interval == 0 {
        FailurePersists(frames, position, interval, read);
        return Failure(ZeroDivisionError);
      }
      if position % interval == 0 {
        var values := FrameRecords(frame, layout, ocr);
        if values.Failure? {
          FailurePersists(frames, position, interval, read);
          return Failure(values.error);
        }
        data := values.value + data;
      }
    }
    assert frames[..position] == frames;
    return Success(data);
  }

  /** The frame loop as written: the debug `imwrite` on each sampled frame
      builds its file name by adding the integer frame counter to a string,
      which raises `TypeError` before any OCR runs. */
  function ProcessAsWritten<F>(frames: seq<F>, interval: int): Result<seq<Record>>
    decreases |frames|
  {
    if |frames| == 0 then Success([])
    else
      match ProcessAsWritten(frames[..|frames| - 1], interval)
      case Failure(e) => Failure(e)
      case Success(data) =>
        if interval == 0 then Failure(ZeroDivisionError)
        else if !IsSampled(|frames|, interval) then Success(data)
        else Failure(TypeError)
  }

  /** As written, a run returns rows only when no frame is sampled, i.e. the
      stream is shorter than one interval; every longer stream raises
      `TypeError`, whatever the OCR reads. */
  lemma {:induction false} AsWrittenNeverYieldsRows<F>(frames: seq<F>, interval: int)
    requires interval != 0
    ensures ProcessAsWritten(frames, interval) ==
              if |frames| < Abs(interval) then Success([]) else Failure(TypeError)
    decreases |frames|
  {
    if |frames| > 0 {
      var n := |frames|;
      AsWrittenNeverYieldsRows(frames[..n - 1], interval);
      SampledCount(n, interval);
      SampledCount(n - 1, interval);
      SampledPositionsExact(n, interval);
      if n < Abs(interval) {
        DivModUnique(n, Abs(interval), 0, n);
      } else if n - 1 < Abs(interval) {
        DivModUnique(n, Abs(interval), 1, 0);
        assert n in SampledPositions(n, interval);
      }
    }
  }
}
