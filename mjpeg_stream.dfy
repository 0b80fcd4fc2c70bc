/**
 * The MJPEG stream handler of the camera server: a multipart response in
 * which every frame goes out as a part header, the JPEG bytes and a
 * boundary line. One loop iteration acquires a frame, converts it to JPEG
 * if needed, sends the three chunks (stopping at the first failed send),
 * releases the buffers, and feeds the frame time to the running-average
 * filter. The camera driver, the JPEG encoder, the HTTP send calls and the
 * clock are abstract outcomes; the model records what the handler does
 * with them as a sequence of events.
 */
module MjpegStream {
  import opened Optional
  import opened Decimal
  import opened RunningAverage
  import opened Esp

  const PartBoundary: string := "123456789000000000000987654321"
  const StreamContentType: string := "multipart/x-mixed-replace;boundary=" + PartBoundary
  const StreamBoundary: string := "\r\n--" + PartBoundary + "\r\n"
  const PartHeaderPrefix: string := "Content-Type: image/jpeg\r\nContent-Length: "
  const PartHeaderSuffix: string := "\r\n\r\n"
  /** Size of the `part_buf` the header is printed into. */
  const PartBufSize: nat := 64

  /** The part header `_STREAM_PART` with `%u` filled in by the JPEG length. */
  function PartHeader(len: nat): string {
    PartHeaderPrefix + (Render(len) + PartHeaderSuffix)
  }

  // ---------------------------------------------------------------------------
  // Abstract outcomes of one iteration and the events it causes

  /** What `esp_camera_fb_get` (and, for a non-JPEG frame, `frame2jpg`) produced. */
  datatype Capture =
    | NoFrame                                  // no frame buffer
    | JpegFrame(jpeg: seq<Byte>)               // a frame already in JPEG format
    | RawFrame(converted: Option<seq<Byte>>)   // another format; None when compression failed

  /** Everything the outside world decides in one iteration. */
  datatype Outcome = Outcome(
    capture: Capture,
    headerRes: int,     // result of sending the part header
    bodyRes: int,       // result of sending the JPEG bytes
    boundaryRes: int,   // result of sending the boundary
    frameEnd: int)      // esp_timer_get_time() once the frame is out, in microseconds

  datatype Event =
    | SendHeader(text: string)
    | SendBody(jpeg: seq<Byte>)
    | SendBoundary(text: string)
    | ReturnFrame      // esp_camera_fb_return
    | FreeJpeg         // free of the buffer frame2jpg allocated

  predicate IsSend(e: Event) {
    e.SendHeader? || e.SendBody? || e.SendBoundary?
  }

  /** The JPEG bytes of the iteration, if it got that far. */
  function Jpeg(c: Capture): Option<seq<Byte>> {
    match c
    case NoFrame => None
    case JpegFrame(j) => Some(j)
    case RawFrame(conv) => conv
  }

  /** Buffer lengths are `size_t` values. */
  predicate LengthsFit(o: Outcome) {
    Jpeg(o.capture).Some? ==> |Jpeg(o.capture).value| < SizeTModulus
  }

  /** The three chunks of a part, in the order they go out. */
  function Chunks(jpeg: seq<Byte>): seq<Event> {
    [SendHeader(PartHeader(|jpeg|)), SendBody(jpeg), SendBoundary(StreamBoundary)]
  }

  /** The send results the three chunks meet, in order. */
  function Results(o: Outcome): seq<int> {
    [o.headerRes, o.bodyRes, o.boundaryRes]
  }

  /** How many chunks are attempted: all up to and including the first failed one. */
  function Attempted(o: Outcome): (n: nat)
    ensures n <= 3
  {
    if Jpeg(o.capture).None? then 0
    else if o.headerRes != EspOk then 1
    else if o.bodyRes != EspOk then 2
    else 3
  }

  /** The buffer release the iteration ends with: the camera frame for a JPEG frame, the converted copy otherwise. */
  function FinalRelease(c: Capture): seq<Event> {
    if c.JpegFrame? then [ReturnFrame]
    else if c.RawFrame? && c.converted.Some? then [FreeJpeg]
    else []
  }

  /** The events of one iteration. */
  function IterationEvents(o: Outcome): seq<Event> {
    var early := if o.capture.RawFrame? then [ReturnFrame] else [];
    var sends := if Jpeg(o.capture).Some? then Chunks(Jpeg(o.capture).value)[..Attempted(o)] else [];
    early + sends + FinalRelease(o.capture)
  }

  /** The esp_err_t the iteration leaves in `res`. */
  function IterationResult(o: Outcome): int {
    if Jpeg(o.capture).None? then EspFail
    else if o.headerRes != EspOk then o.headerRes
    else if o.bodyRes != EspOk then o.bodyRes
    else o.boundaryRes
  }

  // ---------------------------------------------------------------------------
  // One iteration, as the loop body does it

  /**
   * One pass of the loop body of stream_handler. On entry `res` is ESP_OK
   * and no JPEG buffer is held (the previous pass released it).
   */
  method StreamIteration(o: Outcome) returns (res: int, events: seq<Event>)
    requires LengthsFit(o)
    ensures events == IterationEvents(o)
    ensures res == IterationResult(o)
  {
    res := EspOk;
    events := [];
    var fbHeld := false;
    var jpgBuf: Option<seq<Byte>> := None;
    var jpgBufLen: nat := 0;
    match o.capture {
      case NoFrame =>
        res := EspFail;
      case RawFrame(conv) =>
        events := events + [ReturnFrame];
        if conv.Some? {
          jpgBuf, jpgBufLen := conv, |conv.value|;
        } else {
          res := EspFail;
        }
      case JpegFrame(j) =>
        fbHeld := true;
        jpgBuf, jpgBufLen := Some(j), |j|;
    }
    ghost var early := events;
    if res == EspOk {
      PartHeaderFits(jpgBufLen);
      events := events + [SendHeader(PartHeader(jpgBufLen))];
      res := o.headerRes;
    }
    if res == EspOk {
      events := events + [SendBody(jpgBuf.value)];
      res := o.bodyRes;
    }
    if res == EspOk {
      events := events + [SendBoundary(StreamBoundary)];
      res := o.boundaryRes;
    }
    ghost var sent := events[|early|..];
    if Jpeg(o.capture).Some? {
      assert sent == Chunks(Jpeg(o.capture).value)[..Attempted(o)];
    }
    if fbHeld {
      events := events + [ReturnFrame];
      fbHeld := false;
      jpgBuf := None;
    } else if jpgBuf.Some? {
      events := events + [FreeJpeg];
      jpgBuf := None;
    }
    assert events == early + sent + FinalRelease(o.capture);
  }

  // ---------------------------------------------------------------------------
  // Properties of one iteration

  /** The part header never overflows `part_buf`, so snprintf writes all of it. */
  lemma PartHeaderFits(len: nat)
    requires len < SizeTModulus
    ensures |PartHeader(len)| < PartBufSize
  {
    RenderLengthSizeT(len);
  }

  lemma SplitAt(a: string, b: string)
    ensures (a + b)[..|a|] == a && (a + b)[|a|..] == b
  {
  }

  /** A client reading the Content-Length line back gets the JPEG length. */
  lemma PartHeaderContentLength(len: nat)
    ensures PartHeader(len)[..|PartHeaderPrefix|] == PartHeaderPrefix
    ensures Atoi(PartHeader(len)[|PartHeaderPrefix|..]) == len
  {
    SplitAt(PartHeaderPrefix, Render(len) + PartHeaderSuffix);
    DigitsValueRender(len);
    AtoiStopsAtNonDigit(Render(len), PartHeaderSuffix);
  }

  /** The chunks sent by an iteration, in order. */
  function Sent(evs: seq<Event>): (s: seq<Event>)
    ensures forall k :: 0 <= k < |s| ==> IsSend(s[k])
  {
    if evs == [] then []
    else Sent(evs[..|evs| - 1]) + (if IsSend(evs[|evs| - 1]) then [evs[|evs| - 1]] else [])
  }

  /** How many times `e` occurs in evs. */
  function Count(evs: seq<Event>, e: Event): nat {
    if evs == [] then 0
    else Count(evs[..|evs| - 1], e) + (if evs[|evs| - 1] == e then 1 else 0)
  }

  lemma {:induction false} SentAppend(a: seq<Event>, b: seq<Event>)
    ensures Sent(a + b) == Sent(a) + Sent(b)
    decreases |b|
  {
    if b == [] {
      assert a + b == a;
    } else {
      assert (a + b)[..|a + b| - 1] == a + b[..|b| - 1];
      SentAppend(a, b[..|b| - 1]);
    }
  }

  lemma {:induction false} CountAppend(a: seq<Event>, b: seq<Event>, e: Event)
    ensures Count(a + b, e) == Count(a, e) + Count(b, e)
    decreases |b|
  {
    if b == [] {
      assert a + b == a;
    } else {
      assert (a + b)[..|a + b| - 1] == a + b[..|b| - 1];
      CountAppend(a, b[..|b| - 1], e);
    }
  }

  lemma {:induction false} SentOfSends(s: seq<Event>)
    requires forall k :: 0 <= k < |s| ==> IsSend(s[k])
    ensures Sent(s) == s
    decreases |s|
  {
    if s != [] {
      SentOfSends(s[..|s| - 1]);
    }
  }

  lemma {:induction false} SentOfReleases(s: seq<Event>)
    requires forall k :: 0 <= k < |s| ==> !IsSend(s[k])
    ensures Sent(s) == []
    decreases |s|
  {
    if s != [] {
      SentOfReleases(s[..|s| - 1]);
    }
  }

  lemma {:induction false} CountOfSends(s: seq<Event>, e: Event)
    requires forall k :: 0 <= k < |s| ==> IsSend(s[k])
    requires !IsSend(e)
    ensures Count(s, e) == 0
    decreases |s|
  {
    if s != [] {
      CountOfSends(s[..|s| - 1], e);
    }
  }

  /** Sends framed by releases: the sends are what is Sent, the releases are what is counted. */
  lemma FramedSends(early: seq<Event>, sends: seq<Event>, fin: seq<Event>, e: Event)
    requires forall k :: 0 <= k < |early| ==> !IsSend(early[k])
    requires forall k :: 0 <= k < |sends| ==> IsSend(sends[k])
    requires forall k :: 0 <= k < |fin| ==> !IsSend(fin[k])
    requires !IsSend(e)
    ensures Sent(early + sends + fin) == sends
    ensures Count(early + sends + fin, e) == Count(early, e) + Count(fin, e)
  {
    SentAppend(early + sends, fin);
    SentAppend(early, sends);
    SentOfSends(sends);
    SentOfReleases(early);
    SentOfReleases(fin);
    CountAppend(early + sends, fin, e);
    CountAppend(early, sends, e);
    CountOfSends(sends, e);
  }

  lemma CountSingle(x: Event, e: Event)
    ensures Count([x], e) == if x == e then 1 else 0
  {
    assert [x][..0] == [];
  }

  /** The pieces of IterationEvents: releases before and after, sends in between. */
  lemma IterationParts(o: Outcome)
    ensures Sent(IterationEvents(o)) ==
      (if Jpeg(o.capture).Some? then Chunks(Jpeg(o.capture).value)[..Attempted(o)] else [])
    ensures Count(IterationEvents(o), ReturnFrame) ==
      (if o.capture.RawFrame? then 1 else 0) + (if o.capture.JpegFrame? then 1 else 0)
    ensures Count(IterationEvents(o), FreeJpeg) ==
      (if o.capture.RawFrame? && o.capture.converted.Some? then 1 else 0)
  {
    var early: seq<Event> := if o.capture.RawFrame? then [ReturnFrame] else [];
    var sends := if Jpeg(o.capture).Some? then Chunks(Jpeg(o.capture).value)[..Attempted(o)] else [];
    var fin := FinalRelease(o.capture);
    assert IterationEvents(o) == early + sends + fin;
    FramedSends(early, sends, fin, ReturnFrame);
    FramedSends(early, sends, fin, FreeJpeg);
    CountSingle(ReturnFrame, ReturnFrame);
    CountSingle(ReturnFrame, FreeJpeg);
    CountSingle(FreeJpeg, ReturnFrame);
    CountSingle(FreeJpeg, FreeJpeg);
  }

  /**
   * The chunks go out in the order header, body, boundary, each one only if
   * the one before it was sent successfully, and none at all when no frame
   * or no JPEG data was obtained.
   */
  lemma SendDiscipline(o: Outcome)
    ensures |Sent(IterationEvents(o))| <= 3
    ensures Jpeg(o.capture).None? ==> Sent(IterationEvents(o)) == []
    ensures Jpeg(o.capture).Some? ==>
      Sent(IterationEvents(o)) == Chunks(Jpeg(o.capture).value)[..|Sent(IterationEvents(o))|]
    ensures |Sent(IterationEvents(o))| > 0 <==> Jpeg(o.capture).Some?
    ensures |Sent(IterationEvents(o))| > 1 <==> Jpeg(o.capture).Some? && o.headerRes == EspOk
    ensures |Sent(IterationEvents(o))| > 2 <==>
      Jpeg(o.capture).Some? && o.headerRes == EspOk && o.bodyRes == EspOk
  {
    IterationParts(o);
  }

  /**
   * The iteration fails exactly when a frame or its JPEG data is missing or
   * a send failed, and then `res` is the error of the last chunk attempted.
   */
  lemma ResultOfIteration(o: Outcome)
    ensures IterationResult(o) == EspOk <==>
      Jpeg(o.capture).Some? && o.headerRes == EspOk && o.bodyRes == EspOk && o.boundaryRes == EspOk
    ensures Jpeg(o.capture).None? ==> IterationResult(o) == EspFail
    ensures Jpeg(o.capture).Some? ==> IterationResult(o) == Results(o)[Attempted(o) - 1]
  {
  }

  /**
   * Every acquired frame goes back to the camera driver exactly once, a
   * converted JPEG copy is freed exactly once, and nothing is released
   * when no frame was acquired.
   */
  lemma ReleaseOnce(o: Outcome)
    ensures Count(IterationEvents(o), ReturnFrame) == (if o.capture.NoFrame? then 0 else 1)
    ensures Count(IterationEvents(o), FreeJpeg) ==
      (if o.capture.RawFrame? && o.capture.converted.Some? then 1 else 0)
    ensures o.capture.NoFrame? ==> IterationEvents(o) == []
  {
    IterationParts(o);
  }

  /** A non-JPEG frame goes back to the driver right after conversion, before anything is sent. */
  lemma RawFrameReturnedFirst(o: Outcome)
    requires o.capture.RawFrame?
    ensures IterationEvents(o) != [] && IterationEvents(o)[0] == ReturnFrame
  {
  }

  /**
   * The buffer the JPEG bytes live in is released only after the last
   * chunk: it is the final event of the iteration.
   */
  lemma ReleaseAfterSends(o: Outcome)
    requires Jpeg(o.capture).Some?
    ensures IterationEvents(o) != []
    ensures IterationEvents(o)[|IterationEvents(o)| - 1] ==
      (if o.capture.JpegFrame? then ReturnFrame else FreeJpeg)
  {
  }

  // ---------------------------------------------------------------------------
  // The loop

  /** The first iteration that fails, or |os| when none does. */
  function FirstFailure(os: seq<Outcome>, from: nat): (k: nat)
    requires from <= |os|
    ensures from <= k <= |os|
    decreases |os| - from
  {
    if from == |os| then |os|
    else if IterationResult(os[from]) != EspOk then from
    else FirstFailure(os, from + 1)
  }

  /** FirstFailure names the first failing iteration: every one before it succeeds. */
  lemma {:induction false} FirstFailureIsFirst(os: seq<Outcome>, from: nat)
    requires from <= |os|
    ensures forall m :: from <= m < FirstFailure(os, from) ==> IterationResult(os[m]) == EspOk
    ensures FirstFailure(os, from) < |os| ==> IterationResult(os[FirstFailure(os, from)]) != EspOk
    decreases |os| - from
  {
    if from < |os| && IterationResult(os[from]) == EspOk {
      FirstFailureIsFirst(os, from + 1);
    }
  }

  /** The events of the first n iterations, in order. */
  function Trace(os: seq<Outcome>, n: nat): seq<Event>
    requires n <= |os|
  {
    if n == 0 then [] else Trace(os, n - 1) + IterationEvents(os[n - 1])
  }

  lemma TraceStep(os: seq<Outcome>, n: nat)
    requires n < |os|
    ensures Trace(os, n + 1) == Trace(os, n) + IterationEvents(os[n])
  {
  }

  /** How many of the first n iterations acquired a frame. */
  function Acquired(os: seq<Outcome>, n: nat): (a: nat)
    requires n <= |os|
    ensures a <= n
  {
    if n == 0 then 0 else Acquired(os, n - 1) + (if os[n - 1].capture.NoFrame? then 0 else 1)
  }

  /** Over any stretch of the stream, frames returned to the driver equal frames acquired. */
  lemma {:induction false} TraceReleasesEveryFrame(os: seq<Outcome>, n: nat)
    requires n <= |os|
    ensures Count(Trace(os, n), ReturnFrame) == Acquired(os, n)
  {
    if n > 0 {
      TraceReleasesEveryFrame(os, n - 1);
      CountAppend(Trace(os, n - 1), IterationEvents(os[n - 1]), ReturnFrame);
      ReleaseOnce(os[n - 1]);
    }
  }

  /** The clock reading the k-th frame time is measured from. */
  function Prev(start: int, os: seq<Outcome>, k: nat): int
    requires k < |os|
  {
    if k == 0 then start else os[k - 1].frameEnd
  }

  /** `frame_time` of the k-th iteration: microseconds since the previous frame, divided by 1000 (C `/`). */
  function FrameTime(start: int, os: seq<Outcome>, k: nat): int
    requires k < |os|
  {
    TruncDiv(os[k].frameEnd - Prev(start, os, k), 1000)
  }

  /** The frame times the first n iterations feed to the filter. */
  function FrameTimes(start: int, os: seq<Outcome>, n: nat): (ts: seq<int>)
    requires n <= |os|
    ensures |ts| == n
  {
    if n == 0 then [] else FrameTimes(start, os, n - 1) + [FrameTime(start, os, n - 1)]
  }

  /**
   * A filter history `base` with the frame times of the first n iterations
   * appended, one at a time. It is the same sequence as
   * `base + FrameTimes(start, os, n)` (FedIsAppend); the loop invariant of
   * Pump uses this form so that each step adds one element to the end
   * instead of asking the verifier to reassociate concatenations.
   */
  function Fed(base: seq<int>, start: int, os: seq<Outcome>, n: nat): seq<int>
    requires n <= |os|
  {
    if n == 0 then base else Fed(base, start, os, n - 1) + [FrameTime(start, os, n - 1)]
  }

  lemma {:induction false} FedIsAppend(base: seq<int>, start: int, os: seq<Outcome>, n: nat)
    requires n <= |os|
    ensures Fed(base, start, os, n) == base + FrameTimes(start, os, n)
  {
    if n > 0 {
      FedIsAppend(base, start, os, n - 1);
      assert base + FrameTimes(start, os, n) == (base + FrameTimes(start, os, n - 1)) + [FrameTime(start, os, n - 1)];
    }
  }

  /**
   * From iteration k on, the timer does not run backwards and each frame
   * ends less than `maxGapMs + 1` milliseconds (in microseconds, as
   * `esp_timer_get_time` counts) after the reading before it. Stated
   * recursively so that it unfolds one iteration at a time.
   */
  ghost predicate SteadyFrom(start: int, os: seq<Outcome>, maxGapMs: nat, k: nat)
    requires k <= |os|
    decreases |os| - k
  {
    k == |os| ||
    (Prev(start, os, k) <= os[k].frameEnd && os[k].frameEnd - Prev(start, os, k) < (maxGapMs + 1) * 1000 &&
     SteadyFrom(start, os, maxGapMs, k + 1))
  }

  ghost predicate SteadyClock(start: int, os: seq<Outcome>, maxGapMs: nat) {
    SteadyFrom(start, os, maxGapMs, 0)
  }

  /**
   * On a steady clock every frame time, the microsecond gap divided by 1000
   * as C divides, lies in [0, maxGapMs].
   */
  lemma {:induction false} FrameTimeInRange(start: int, os: seq<Outcome>, j: nat, k: nat, maxGapMs: nat)
    requires j <= k < |os| && SteadyFrom(start, os, maxGapMs, j)
    ensures 0 <= FrameTime(start, os, k) <= maxGapMs
    decreases k - j
  {
    if j < k {
      FrameTimeInRange(start, os, j + 1, k, maxGapMs);
    } else {
      GapInMilliseconds(os[k].frameEnd - Prev(start, os, k), maxGapMs);
    }
  }

  /** A gap of fewer than (m + 1) * 1000 microseconds is at most m milliseconds. */
  lemma GapInMilliseconds(gapUs: int, m: nat)
    requires 0 <= gapUs < (m + 1) * 1000
    ensures 0 <= TruncDiv(gapUs, 1000) <= m
  {
  }

  /**
   * The stream's share of startCameraServer: the file-level filter is
   * initialised with ServerCapacity slots (`allocOk` is the allocation's
   * outcome) and `last_frame` is 0 before the first request. The result
   * meets what Serve asks of its filter for any frame gap that 20 frame
   * times can add up to without leaving `int`.
   */
  method StartStreamServer(allocOk: bool) returns (server: StreamServer)
    ensures fresh(server) && fresh(server.filter)
    ensures server.lastFrame == 0 && server.filter.Valid() && server.filter.history == []
    ensures allocOk ==> server.filter.values != null && server.filter.size == ServerCapacity
    ensures allocOk ==> fresh(server.filter.values)
    ensures !allocOk ==> server.filter.values == null
    ensures server.filter.values != null ==> server.filter.size > 0
    ensures forall bound: nat :: bound <= Int32Max / ServerCapacity ==> server.filter.Bounded(bound)
  {
    var f := new RaFilter();
    var ok := f.Init(ServerCapacity, allocOk);
    server := new StreamServer(f);
  }

  /**
   * A server fresh from StartStreamServer can be handed to Serve: a first
   * request whose one frame goes out completely leaves `last_frame` at that
   * frame's end and, when the buffer was allocated, the filter holding that
   * frame's time.
   */
  method StartThenServeOneFrame(allocOk: bool, jpeg: seq<Byte>) returns (res: int, served: nat, ended: bool, ghost history: seq<int>)
    requires |jpeg| < SizeTModulus
    ensures res == EspOk && served == 1 && !ended
    ensures history == if allocOk then [40] else []
  {
    var server := StartStreamServer(allocOk);
    var os := [Outcome(JpegFrame(jpeg), EspOk, EspOk, EspOk, 41_000)];
    assert FrameTime(1000, os, 0) == 40;
    var events;
    assert IterationResult(os[0]) == EspOk;
    assert FirstFailure(os, 1) == 1;
    res, events, served, ended := server.Serve(EspOk, 1000, os, 100);
    history := server.filter.history;
  }

  /** The handler state that outlives one request: `static int64_t last_frame` and the file-level filter. */
  class StreamServer {
    var lastFrame: int
    const filter: RaFilter

    constructor (f: RaFilter)
      ensures lastFrame == 0 && filter == f
    {
      lastFrame := 0;
      filter := f;
    }

    /** `ra_filter_run(&ra_filter, frame_time)`, with what the loop needs to know about it. */
    method Feed(frameTime: int, ghost maxGapMs: nat)
      requires filter.Valid() && filter.Bounded(maxGapMs) && 0 <= frameTime <= maxGapMs
      requires filter.values != null ==> filter.size > 0
      modifies filter, filter.values
      ensures filter.Valid() && filter.Bounded(maxGapMs)
      ensures filter.values == old(filter.values) && filter.size == old(filter.size)
      ensures filter.history == old(filter.history) + (if filter.values == null then [] else [frameTime])
    {
      BoundedCanRun(filter, maxGapMs, frameTime);
      ghost var before := if filter.values == null then [] else filter.values[..];
      ghost var at := filter.index;
      var avg := filter.Run(frameTime);
      if filter.values != null {
        BoundedStep(before, at, frameTime, maxGapMs);
      }
    }

    /**
     * One pass of the stream_handler loop body for iteration k: send the
     * frame, and when it went out completely advance `lastFrame` and feed
     * the frame time to the filter.
     */
    method ServeFrame(ghost start: int, os: seq<Outcome>, k: nat, ghost maxGapMs: nat)
      returns (res: int, events: seq<Event>)
      requires k < |os| && LengthsFit(os[k])
      requires filter.Valid() && filter.Bounded(maxGapMs)
      requires filter.values != null ==> filter.size > 0
      requires SteadyFrom(start, os, maxGapMs, 0) && lastFrame == Prev(start, os, k)
      modifies this, filter, filter.values
      ensures res == IterationResult(os[k]) && events == IterationEvents(os[k])
      ensures filter.Valid() && filter.Bounded(maxGapMs)
      ensures filter.values == old(filter.values) && filter.size == old(filter.size)
      ensures res != EspOk ==> lastFrame == old(lastFrame) && filter.history == old(filter.history)
      ensures res == EspOk ==>
        lastFrame == os[k].frameEnd &&
        (filter.values != null ==> filter.history == old(filter.history) + [FrameTime(start, os, k)])
    {
      res, events := StreamIteration(os[k]);
      if res != EspOk {
        return;
      }
      var frEnd := os[k].frameEnd;
      var frameTime := frEnd - lastFrame;
      lastFrame := frEnd;
      frameTime := TruncDiv(frameTime, 1000);
      FrameTimeInRange(start, os, 0, k, maxGapMs);
      Feed(frameTime, maxGapMs);
    }

    /**
     * stream_handler over the outcomes `os` of its loop iterations.
     * `now` is the clock on entry and `setTypeRes` the result of setting
     * the content type to StreamContentType. The loop stops at the first failing iteration
     * (`ended`), resetting `lastFrame`; if every outcome in `os` succeeds
     * the stream is still open after them. `served` counts the frames that
     * went out completely, each of which fed its frame time to the filter.
     */
    method Serve(setTypeRes: int, now: int, os: seq<Outcome>, ghost maxGapMs: nat)
      returns (res: int, events: seq<Event>, served: nat, ended: bool)
      requires forall k :: 0 <= k < |os| ==> LengthsFit(os[k])
      requires filter.Valid() && filter.Bounded(maxGapMs) && InInt32(maxGapMs)
      requires filter.values != null ==> filter.size > 0
      requires SteadyClock(if lastFrame == 0 then now else lastFrame, os, maxGapMs)
      modifies this, filter, filter.values
      ensures filter.Valid() && filter.Bounded(maxGapMs)
      ensures filter.values == old(filter.values) && filter.size == old(filter.size)
      ensures setTypeRes != EspOk ==>
        res == setTypeRes && events == [] && served == 0 && ended &&
        lastFrame == (if old(lastFrame) == 0 then now else old(lastFrame)) &&
        filter.history == old(filter.history)
      ensures setTypeRes == EspOk ==>
        served == FirstFailure(os, 0) &&
        (ended <==> served < |os|) &&
        (ended ==> res == IterationResult(os[served]) != EspOk && lastFrame == 0 && events == Trace(os, served + 1)) &&
        (!ended ==>
           res == EspOk && events == Trace(os, served) &&
           lastFrame == (if served == 0 then old(if lastFrame == 0 then now else lastFrame)
                         else os[served - 1].frameEnd)) &&
        (filter.values != null ==>
           filter.history == old(filter.history) + FrameTimes(old(if lastFrame == 0 then now else lastFrame), os, served))
    {
      if lastFrame == 0 {
        lastFrame := now;
      }
      ghost var start := lastFrame;
      res := setTypeRes;
      events, served, ended := [], 0, true;
      if res != EspOk {
        return;
      }
      ghost var h0 := filter.history;
      res, events, served, ended := Pump(start, os, maxGapMs);
      FedIsAppend(h0, start, os, served);
      if ended {
        lastFrame := 0;
      }
    }

    /** The `while (true)` loop of stream_handler, from a clock reading `start` on. */
    method Pump(ghost start: int, os: seq<Outcome>, ghost maxGapMs: nat)
      returns (res: int, events: seq<Event>, served: nat, ended: bool)
      requires forall k :: 0 <= k < |os| ==> LengthsFit(os[k])
      requires filter.Valid() && filter.Bounded(maxGapMs)
      requires filter.values != null ==> filter.size > 0
      requires SteadyFrom(start, os, maxGapMs, 0) && lastFrame == start
      modifies this, filter, filter.values
      ensures filter.Valid() && filter.Bounded(maxGapMs)
      ensures filter.values == old(filter.values) && filter.size == old(filter.size)
      ensures served == FirstFailure(os, 0) && (ended <==> served < |os|)
      ensures ended ==> res == IterationResult(os[served]) != EspOk && events == Trace(os, served + 1)
      ensures !ended ==> res == EspOk && events == Trace(os, served)
      ensures lastFrame == if served == 0 then start else os[served - 1].frameEnd
      ensures (filter.values != null ==> filter.history == Fed(old(filter.history), start, os, served))
    {
      res, events, served, ended := EspOk, [], 0, false;
      while served < |os|
        invariant served <= |os| && FirstFailure(os, served) == FirstFailure(os, 0)
        invariant res == EspOk
        invariant lastFrame == if served == 0 then start else os[served - 1].frameEnd
        invariant events == Trace(os, served)
        invariant filter.Valid() && filter.Bounded(maxGapMs)
        invariant filter.values == old(filter.values) && filter.size == old(filter.size)
        invariant (filter.values != null ==> filter.history == Fed(old(filter.history), start, os, served))
        decreases |os| - served
      {
        var evs;
        res, evs := ServeFrame(start, os, served, maxGapMs);
        TraceStep(os, served);
        events := events + evs;
        if res != EspOk {
          ended := true;
          return;
        }
        served := served + 1;
      }
    }
  }
}
