// The upload writer's event loop (internal/pdcp/writer.go, autoCommit and uploadChunk):
// result lines collect in a buffer that is sent off on a timer, on overflow and at the end.
module Upload {
  import opened PortTypes

  // What the loop's select can receive. sent says whether the server accepts an upload
  // attempted while handling the event; None is a result that could not be marshalled.
  datatype UploadEvent =
    | Tick(sent: bool)
    | Line(line: Option<string>, sent: bool)
    | Stop(sent: bool)   // context done, or data channel closed

  // chunks are the successful uploads; accepted and dropped record the lines appended to the
  // buffer and the lines that triggered an overflow flush.
  datatype Writer = Writer(
    buff: string, chunks: seq<string>, counter: int, stopped: bool,
    accepted: seq<string>, dropped: seq<string>)

  const IDLE := Writer("", [], 0, false, [], [])

  // atomic.Int32
  function Int32(n: int): int {
    (n + 0x8000_0000) % 0x1_0000_0000 - 0x8000_0000
  }

  // uploadChunk: the buffer is reset only after a successful upload.
  function Flushed(w: Writer, sent: bool): Writer {
    if sent then w.(chunks := w.chunks + [w.buff], buff := "") else w
  }

  function FlushedIfAny(w: Writer, sent: bool): Writer {
    if |w.buff| > 0 then Flushed(w, sent) else w
  }

  predicate Fits(w: Writer, line: string, maxChunk: nat) {
    |w.buff| + |line| <= maxChunk
  }

  function Handle(w: Writer, e: UploadEvent, maxChunk: nat): Writer {
    if w.stopped then w
    else match e
      case Tick(sent) => FlushedIfAny(w, sent)
      case Stop(sent) => FlushedIfAny(w, sent).(stopped := true)
      case Line(None, _) => w
      case Line(Some(line), sent) =>
        var counted := w.(counter := Int32(w.counter + 1));
        if !Fits(w, line, maxChunk) then Flushed(counted, sent).(dropped := w.dropped + [line])
        else counted.(buff := w.buff + line + "\n", accepted := w.accepted + [line])
  }

  function Run(events: seq<UploadEvent>, maxChunk: nat): Writer {
    if events == [] then IDLE
    else Handle(Run(events[..|events| - 1], maxChunk), events[|events| - 1], maxChunk)
  }

  function Concat(parts: seq<string>): string {
    if parts == [] then "" else Concat(parts[..|parts| - 1]) + parts[|parts| - 1]
  }

  // Newline-terminated lines, as the server is to receive them.
  function Text(lines: seq<string>): string {
    if lines == [] then "" else Text(lines[..|lines| - 1]) + lines[|lines| - 1] + "\n"
  }

  lemma ConcatSnoc(parts: seq<string>, last: string)
    ensures Concat(parts + [last]) == Concat(parts) + last
  {
    assert (parts + [last])[..|parts|] == parts;
  }

  lemma TextSnoc(lines: seq<string>, last: string)
    ensures Text(lines + [last]) == Text(lines) + last + "\n"
  {
    assert (lines + [last])[..|lines|] == lines;
  }

  ghost predicate Conserves(w: Writer, maxChunk: nat) {
    && Concat(w.chunks) + w.buff == Text(w.accepted)
    && |w.buff| <= maxChunk + 1
    && w.counter == Int32(|w.accepted| + |w.dropped|)
  }

  lemma FlushConserves(w: Writer, sent: bool)
    ensures Concat(Flushed(w, sent).chunks) + Flushed(w, sent).buff == Concat(w.chunks) + w.buff
  {
    ConcatSnoc(w.chunks, w.buff);
  }

  lemma Int32Successor(n: int)
    ensures Int32(Int32(n) + 1) == Int32(n + 1)
  {
  }

  lemma FitConserves(w: Writer, line: string, sent: bool, maxChunk: nat)
    requires Conserves(w, maxChunk) && !w.stopped && Fits(w, line, maxChunk)
    ensures Conserves(Handle(w, Line(Some(line), sent), maxChunk), maxChunk)
  {
    Int32Successor(|w.accepted| + |w.dropped|);
    TextSnoc(w.accepted, line);
    Regroup(Concat(w.chunks), w.buff, line);
  }

  lemma OverflowConserves(w: Writer, line: string, sent: bool, maxChunk: nat)
    requires Conserves(w, maxChunk) && !w.stopped && !Fits(w, line, maxChunk)
    ensures Conserves(Handle(w, Line(Some(line), sent), maxChunk), maxChunk)
  {
    Int32Successor(|w.accepted| + |w.dropped|);
    FlushConserves(w, sent);
  }

  lemma HandleConserves(w: Writer, e: UploadEvent, maxChunk: nat)
    requires Conserves(w, maxChunk)
    ensures Conserves(Handle(w, e, maxChunk), maxChunk)
  {
    if e.Line? && e.line.Some? && !w.stopped {
      if Fits(w, e.line.value, maxChunk) {
        FitConserves(w, e.line.value, e.sent, maxChunk);
      } else {
        OverflowConserves(w, e.line.value, e.sent, maxChunk);
      }
    } else {
      FlushConserves(w, e.sent);
    }
  }

  lemma Regroup(a: string, b: string, line: string)
    ensures a + (b + line + "\n") == (a + b) + line + "\n"
  {
  }

  // Nothing accepted is lost, repeated or reordered, whatever uploads fail; the buffer stays
  // within one byte of the limit; and the counter counts every line that was offered,
  // including those the overflow branch throws away.
  lemma {:induction false} UploadConserves(events: seq<UploadEvent>, maxChunk: nat)
    ensures Conserves(Run(events, maxChunk), maxChunk)
  {
    if events != [] {
      UploadConserves(events[..|events| - 1], maxChunk);
      HandleConserves(Run(events[..|events| - 1], maxChunk), events[|events| - 1], maxChunk);
    }
  }

  // The lines offered before the loop stopped, in order.
  function Offered(events: seq<UploadEvent>, maxChunk: nat): seq<string> {
    if events == [] then []
    else
      var front := events[..|events| - 1];
      var e := events[|events| - 1];
      if !Run(front, maxChunk).stopped && e.Line? && e.line.Some? then Offered(front, maxChunk) + [e.line.value]
      else Offered(front, maxChunk)
  }

  // Every line offered fits on top of the buffer it meets.
  ghost predicate AllFit(events: seq<UploadEvent>, maxChunk: nat) {
    forall k :: 0 <= k < |events| ==> FitsAt(events, k, maxChunk)
  }

  ghost predicate FitsAt(events: seq<UploadEvent>, k: nat, maxChunk: nat)
    requires k < |events|
  {
    var w := Run(events[..k], maxChunk);
    w.stopped || !events[k].Line? || events[k].line.None? || Fits(w, events[k].line.value, maxChunk)
  }

  lemma AllFitSnoc(events: seq<UploadEvent>, maxChunk: nat)
    requires events != []
    ensures AllFit(events, maxChunk)
       <==> AllFit(events[..|events| - 1], maxChunk) && FitsAt(events, |events| - 1, maxChunk)
  {
    var front := events[..|events| - 1];
    forall k | 0 <= k < |front| ensures FitsAt(events, k, maxChunk) == FitsAt(front, k, maxChunk) {
      assert events[..k] == front[..k];
    }
  }

  // The overflow branch does not append the line that caused it. The text uploaded and
  // buffered is all the lines offered exactly when that branch is never taken.
  lemma {:induction false} NothingLostIffAllFit(events: seq<UploadEvent>, maxChunk: nat)
    ensures |Run(events, maxChunk).accepted| + |Run(events, maxChunk).dropped| == |Offered(events, maxChunk)|
    ensures Run(events, maxChunk).accepted == Offered(events, maxChunk) <==> AllFit(events, maxChunk)
    ensures Run(events, maxChunk).dropped == [] <==> AllFit(events, maxChunk)
  {
    if events != [] {
      NothingLostIffAllFit(events[..|events| - 1], maxChunk);
      AllFitSnoc(events, maxChunk);
    }
  }

  lemma RunSnoc(events: seq<UploadEvent>, n: nat, maxChunk: nat)
    requires n < |events|
    ensures Run(events[..n + 1], maxChunk) == Handle(Run(events[..n], maxChunk), events[n], maxChunk)
  {
    assert events[..n + 1][..n] == events[..n];
  }

  lemma {:induction false} StoppedStays(events: seq<UploadEvent>, n: nat, maxChunk: nat)
    requires n <= |events| && Run(events[..n], maxChunk).stopped
    ensures Run(events, maxChunk) == Run(events[..n], maxChunk)
    decreases |events|
  {
    if n == |events| {
      assert events[..n] == events;
    } else {
      assert events[..|events| - 1][..n] == events[..n];
      StoppedStays(events[..|events| - 1], n, maxChunk);
    }
  }

  // ---------- Flushing ----------

  // Event k is the one that stops the loop.
  ghost predicate StopsAt(events: seq<UploadEvent>, k: nat) {
    k < |events| && events[k].Stop? && forall j :: 0 <= j < k ==> !events[j].Stop?
  }

  lemma {:induction false} RunsUntilStop(events: seq<UploadEvent>, maxChunk: nat)
    requires forall j :: 0 <= j < |events| ==> !events[j].Stop?
    ensures !Run(events, maxChunk).stopped
  {
    if events != [] {
      RunsUntilStop(events[..|events| - 1], maxChunk);
    }
  }

  // The loop flushes before it returns: if that upload succeeds, everything accepted is uploaded,
  // and a stopped loop holds text back only if that upload failed.
  lemma FinalFlush(events: seq<UploadEvent>, k: nat, maxChunk: nat)
    requires StopsAt(events, k)
    ensures var w := Run(events, maxChunk);
      && w.stopped
      && (events[k].sent ==> w.buff == "" && Concat(w.chunks) == Text(w.accepted))
      && (w.buff != "" ==> !events[k].sent && w.buff == Run(events[..k], maxChunk).buff)
  {
    RunsUntilStop(events[..k], maxChunk);
    RunSnoc(events, k, maxChunk);
    StoppedStays(events, k + 1, maxChunk);
    UploadConserves(events, maxChunk);
    var w := Run(events, maxChunk);
    assert w.buff == "" ==> Concat(w.chunks) + w.buff == Concat(w.chunks);
  }

  lemma FlushedWhenStopped(events: seq<UploadEvent>, maxChunk: nat)
    ensures var w := Run(events, maxChunk);
      forall k: nat :: StopsAt(events, k) && events[k].sent ==> w.buff == "" && Concat(w.chunks) == Text(w.accepted)
  {
    forall k: nat | StopsAt(events, k) && events[k].sent
      ensures Run(events, maxChunk).buff == "" && Concat(Run(events, maxChunk).chunks) == Text(Run(events, maxChunk).accepted)
    {
      FinalFlush(events, k, maxChunk);
    }
  }

  // A tick whose upload succeeds leaves nothing waiting; one whose upload fails changes nothing.
  lemma TickFlushes(events: seq<UploadEvent>, sent: bool, maxChunk: nat)
    requires forall j :: 0 <= j < |events| ==> !events[j].Stop?
    ensures var before, w := Run(events, maxChunk), Run(events + [Tick(sent)], maxChunk);
      if sent then w.buff == "" && Concat(w.chunks) == Text(w.accepted) && w.accepted == before.accepted
      else w == before
  {
    var all := events + [Tick(sent)];
    RunsUntilStop(events, maxChunk);
    RunSnoc(all, |events|, maxChunk);
    assert all[..|events|] == events && all[..|all|] == all;
    UploadConserves(all, maxChunk);
    var w := Run(all, maxChunk);
    assert w.buff == "" ==> Concat(w.chunks) + w.buff == Concat(w.chunks);
  }

  // A line is accepted exactly when it fits on the buffer within the limit; one that does not
  // makes room if the upload it triggers succeeds.
  lemma LineOutcome(events: seq<UploadEvent>, line: string, sent: bool, maxChunk: nat)
    requires forall j :: 0 <= j < |events| ==> !events[j].Stop?
    ensures var before, w := Run(events, maxChunk), Run(events + [Line(Some(line), sent)], maxChunk);
      && (w.accepted == before.accepted + [line] <==> |before.buff| + |line| <= maxChunk)
      && (w.accepted != before.accepted + [line] ==> w.accepted == before.accepted && w.dropped == before.dropped + [line])
      && (|before.buff| + |line| > maxChunk ==> w.buff == if sent then "" else before.buff)
  {
    var all := events + [Line(Some(line), sent)];
    RunsUntilStop(events, maxChunk);
    RunSnoc(all, |events|, maxChunk);
    assert all[..|events|] == events && all[..|all|] == all;
  }

  // Below 2^31 lines the counter is the number of lines offered.
  lemma CounterIsExact(events: seq<UploadEvent>, maxChunk: nat)
    requires |Offered(events, maxChunk)| < 0x8000_0000
    ensures Run(events, maxChunk).counter == |Offered(events, maxChunk)|
  {
    UploadConserves(events, maxChunk);
    NothingLostIffAllFit(events, maxChunk);
    CountsLines(Run(events, maxChunk), |Offered(events, maxChunk)|, maxChunk);
  }

  lemma CountsLines(w: Writer, n: nat, maxChunk: nat)
    requires Conserves(w, maxChunk) && |w.accepted| + |w.dropped| == n < 0x8000_0000
    ensures w.counter == n
  {
  }

  // A line longer than the limit is never uploaded nor buffered, in whatever run it is offered.
  lemma {:induction false} OverlongIsNeverAccepted(events: seq<UploadEvent>, maxChunk: nat, line: string)
    requires |line| > maxChunk
    ensures line !in Run(events, maxChunk).accepted
    ensures line in Offered(events, maxChunk) ==> line in Run(events, maxChunk).dropped
  {
    if events != [] {
      OverlongIsNeverAccepted(events[..|events| - 1], maxChunk, line);
    }
  }

  // Two lines that fit one by one but not together: the second is counted, flushes the first and
  // is gone, although the buffer it leaves behind is empty.
  lemma SecondLineIsLost(a: string, b: string, maxChunk: nat, events: seq<UploadEvent>)
    requires |a| <= maxChunk && |b| <= maxChunk < |a| + 1 + |b|
    requires events == [Line(Some(a), true), Line(Some(b), true), Stop(true)]
    ensures var w := Run(events, maxChunk);
      w.chunks == [a + "\n"] && w.buff == "" && w.counter == 2 && w.accepted == [a] && w.dropped == [b]
  {
    assert events[..2][..1] == [events[0]] && events[..3] == events;
    RunSnoc(events, 0, maxChunk);
    RunSnoc(events, 1, maxChunk);
    RunSnoc(events, 2, maxChunk);
    assert "" + a + "\n" == a + "\n";
  }

  class UploadWriter {
    const maxChunk: nat
    var buff: string
    var counter: int
    var chunks: seq<string>
    ghost var state: Writer

    ghost predicate Mirrors()
      reads this
    {
      state.buff == buff && state.counter == counter && state.chunks == chunks
    }

    constructor (maxChunk: nat)
      ensures Mirrors() && state == IDLE && this.maxChunk == maxChunk
    {
      this.maxChunk := maxChunk;
      buff, counter, chunks, state := "", 0, [], IDLE;
    }

    method UploadChunk(sent: bool)
      requires Mirrors()
      modifies this
      ensures Mirrors() && state == Flushed(old(state), sent)
    {
      state := Flushed(state, sent);
      if !sent {
        return;
      }
      chunks := chunks + [buff];
      buff := "";
    }

    // The event loop: handles events until one stops it.
    method AutoCommit(events: seq<UploadEvent>)
      requires Mirrors() && state == IDLE
      modifies this
      ensures Mirrors() && state == Run(events, maxChunk)
      ensures Concat(chunks) + buff == Text(state.accepted) && |buff| <= maxChunk + 1
      ensures forall k: nat :: StopsAt(events, k) && events[k].sent ==> buff == "" && Concat(chunks) == Text(state.accepted)
    {
      var n := 0;
      while n < |events|
        invariant 0 <= n <= |events| && Mirrors()
        invariant state == Run(events[..n], maxChunk) && !state.stopped
      {
        RunSnoc(events, n, maxChunk);
        ghost var before := state;
        match events[n] {
          case Tick(sent) =>
            if |buff| > 0 {
              UploadChunk(sent);
            }
          case Stop(sent) =>
            if |buff| > 0 {
              UploadChunk(sent);
            }
            state := state.(stopped := true);
            StoppedStays(events, n + 1, maxChunk);
            UploadConserves(events, maxChunk);
            FlushedWhenStopped(events, maxChunk);
            return;
          case Line(None, _) =>
          case Line(Some(line), sent) =>
            counter := Int32(counter + 1);
            state := state.(counter := counter);
            if |buff| + |line| > maxChunk {
              UploadChunk(sent);
              state := state.(dropped := state.dropped + [line]);
            } else {
              buff := buff + line;
              buff := buff + "\n";
              state := state.(buff := buff, accepted := state.accepted + [line]);
            }
        }
        assert state == Handle(before, events[n], maxChunk);
        n := n + 1;
      }
      assert events[..n] == events;
      UploadConserves(events, maxChunk);
      FlushedWhenStopped(events, maxChunk);
    }
  }
}
