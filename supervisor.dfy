/** The decisions of the progress supervisor: the once-only start guard, the
    capacity-1 cancel channel fed by OS signals and by the stdin keyword
    watcher, the per-tick choice between cancelling and reporting, and the
    watcher that stops at the first "cancel" line. The work controller's
    methods are opaque; the supervisor's calls to them are recorded. */
module Supervisor {
  import opened Text

  // ---------------------------------------------------------------------
  // The start guard: atomic.CompareAndSwapInt32(&waitEverCalled, 0, 1).

  /** Compare-and-swap on a cell: whether it swapped, and the cell's new value. */
  function CompareAndSwap(cell: int, expected: int, desired: int): (r: (bool, int))
    ensures r.0 <==> cell == expected
    ensures r.0 ==> r.1 == desired
    ensures !r.0 ==> r.1 == cell
  {
    if cell == expected then (true, desired) else (false, cell)
  }

  /** Whether each of n InitiateProgressReporting calls in a row starts the
      supervisor, from the given value of waitEverCalled. */
  function Initiations(waitEverCalled: int, n: nat): (r: seq<bool>)
    ensures |r| == n
    decreases n
  {
    if n == 0 then []
    else
      var (swapped, cell) := CompareAndSwap(waitEverCalled, 0, 1);
      [swapped] + Initiations(cell, n - 1)
  }

  function CountTrue(s: seq<bool>): nat
  {
    if s == [] then 0 else (if s[0] then 1 else 0) + CountTrue(s[1..])
  }

  /** Once the guard has been passed, no call starts anything. */
  lemma {:induction false} NoInitiationAfterStart(waitEverCalled: int, n: nat)
    requires waitEverCalled != 0
    ensures forall i :: 0 <= i < n ==> !Initiations(waitEverCalled, n)[i]
    ensures CountTrue(Initiations(waitEverCalled, n)) == 0
  {
    if n > 0 {
      NoInitiationAfterStart(waitEverCalled, n - 1);
    }
  }

  /** However many calls are made, exactly one starts the supervisor: the
      first. */
  lemma OnlyFirstInitiationStarts(n: nat)
    requires n > 0
    ensures Initiations(0, n)[0]
    ensures forall i :: 0 < i < n ==> !Initiations(0, n)[i]
    ensures CountTrue(Initiations(0, n)) == 1
  {
    NoInitiationAfterStart(1, n - 1);
    assert Initiations(0, n) == [true] + Initiations(1, n - 1);
  }

  // ---------------------------------------------------------------------
  // cancelChannel: make(chan os.Signal, 1).

  /** A Go channel of capacity 1: whether its slot holds a signal, and
      whether a sender is blocked waiting for the slot to free. */
  datatype CancelChannel = CancelChannel(buffered: bool, blockedSend: bool)

  const EmptyChannel := CancelChannel(false, false)

  /** Only a full channel has a blocked sender. */
  predicate ChannelValid(ch: CancelChannel)
  {
    ch.blockedSend ==> ch.buffered
  }

  /** Cancellations sent and not yet received. */
  function Pending(ch: CancelChannel): nat
  {
    (if ch.buffered then 1 else 0) + (if ch.blockedSend then 1 else 0)
  }

  /** Delivery by signal.Notify, which never blocks: a signal that finds the
      slot taken is dropped. */
  function Notify(ch: CancelChannel): (r: CancelChannel)
    requires ChannelValid(ch)
    ensures ChannelValid(r) && r.buffered
    ensures Pending(r) == if ch.buffered then Pending(ch) else Pending(ch) + 1
  {
    ch.(buffered := true)
  }

  /** The watcher's send, which blocks while the slot is taken: it is then
      held by the blocked sender, not lost. */
  function Send(ch: CancelChannel): (r: CancelChannel)
    requires ChannelValid(ch) && !ch.blockedSend
    ensures ChannelValid(r) && r.buffered
    ensures Pending(r) == Pending(ch) + 1
  {
    if ch.buffered then ch.(blockedSend := true) else ch.(buffered := true)
  }

  /** Receiving empties the slot; a blocked sender's value takes it. */
  function Receive(ch: CancelChannel): (r: CancelChannel)
    requires ChannelValid(ch) && ch.buffered
    ensures ChannelValid(r) && !r.blockedSend
    ensures Pending(r) == Pending(ch) - 1
  {
    CancelChannel(ch.blockedSend, false)
  }

  // ---------------------------------------------------------------------
  // One tick of the polling loop.

  /** A recorded call into the work controller. */
  datatype Call = Cancel | ReportProgressOrExit

  /** One tick's non-blocking select: a pending cancellation is received and
      the controller is told to cancel, and progress is not reported on that
      tick; otherwise progress is reported and the channel is untouched. */
  function Tick(ch: CancelChannel): (r: (Call, CancelChannel))
    requires ChannelValid(ch)
    ensures r.0 == Cancel <==> Pending(ch) > 0
    ensures r.0 == Cancel ==> Pending(r.1) == Pending(ch) - 1
    ensures r.0 == ReportProgressOrExit ==> r.1 == ch
    ensures ChannelValid(r.1)
  {
    if ch.buffered then (Cancel, Receive(ch)) else (ReportProgressOrExit, ch)
  }

  /** What can happen between ticks and at a tick. */
  datatype Event = OsSignal | KeywordCancel | TickEvent

  predicate IsSignal(e: Event)
  {
    e == OsSignal || e == KeywordCancel
  }

  function CountCancels(calls: seq<Call>): nat
  {
    if calls == [] then 0 else (if calls[0] == Cancel then 1 else 0) + CountCancels(calls[1..])
  }

  function CountSignals(evs: seq<Event>): nat
  {
    if evs == [] then 0 else (if IsSignal(evs[0]) then 1 else 0) + CountSignals(evs[1..])
  }

  function CountTicks(evs: seq<Event>): nat
  {
    if evs == [] then 0 else (if evs[0] == TickEvent then 1 else 0) + CountTicks(evs[1..])
  }

  /** The controller calls the supervisor makes over a history of events,
      and the channel afterwards. A keyword cancellation that finds a sender
      already blocked is dropped here; the watcher sends only once, so that
      does not arise. */
  function Supervise(ch: CancelChannel, evs: seq<Event>): (r: (seq<Call>, CancelChannel))
    requires ChannelValid(ch)
    ensures ChannelValid(r.1)
    decreases |evs|
  {
    if evs == [] then ([], ch)
    else
      match evs[0]
      case OsSignal => Supervise(Notify(ch), evs[1..])
      case KeywordCancel => Supervise(if ch.blockedSend then ch else Send(ch), evs[1..])
      case TickEvent =>
        var (call, ch') := Tick(ch);
        var (calls, last) := Supervise(ch', evs[1..]);
        ([call] + calls, last)
  }

  /** Every tick makes exactly one controller call, and the controller is
      told to cancel no more often than a cancellation was pending at the
      start or arrived since; each one is consumed by a tick or still
      pending at the end. */
  lemma {:induction false} SuperviseCounts(ch: CancelChannel, evs: seq<Event>)
    requires ChannelValid(ch)
    ensures var (calls, last) := Supervise(ch, evs);
      |calls| == CountTicks(evs) &&
      CountCancels(calls) + Pending(last) <= Pending(ch) + CountSignals(evs)
    decreases |evs|
  {
    if evs != [] {
      match evs[0]
      case OsSignal => SuperviseCounts(Notify(ch), evs[1..]);
      case KeywordCancel => SuperviseCounts(if ch.blockedSend then ch else Send(ch), evs[1..]);
      case TickEvent =>
        var (call, ch') := Tick(ch);
        SuperviseCounts(ch', evs[1..]);
        var (calls, last) := Supervise(ch', evs[1..]);
        assert ([call] + calls)[1..] == calls;
    }
  }

  /** A cancellation from either source makes the very next tick cancel. */
  lemma SignalThenTickCancels(ch: CancelChannel, e: Event)
    requires ChannelValid(ch) && IsSignal(e)
    ensures Supervise(ch, [e, TickEvent]).0 == [Cancel]
  {
    var ch1 := if e == OsSignal then Notify(ch) else if ch.blockedSend then ch else Send(ch);
    assert [e, TickEvent][1..] == [TickEvent];
    assert Supervise(ch, [e, TickEvent]) == Supervise(ch1, [TickEvent]);
    assert [TickEvent][1..] == [];
  }

  /** Cancelling consumes the cancellation: with one pending and none
      arriving, one tick cancels and every later tick reports progress
      again. */
  lemma {:induction false} CancelOnceThenReport(ch: CancelChannel, n: nat)
    requires ChannelValid(ch) && Pending(ch) == 1
    ensures Supervise(ch, seq(n + 1, _ => TickEvent)).0 == [Cancel] + seq(n, _ => ReportProgressOrExit)
  {
    var ticks := seq(n + 1, _ => TickEvent);
    assert ticks[0] == TickEvent && ticks[1..] == seq(n, _ => TickEvent);
    ReportWhileNothingPending(Receive(ch), n);
  }

  lemma {:induction false} ReportWhileNothingPending(ch: CancelChannel, n: nat)
    requires ChannelValid(ch) && Pending(ch) == 0
    ensures Supervise(ch, seq(n, _ => TickEvent)) == (seq(n, _ => ReportProgressOrExit), ch)
  {
    if n == 0 {
      assert seq(n, _ => TickEvent) == [] && seq(n, _ => ReportProgressOrExit) == [];
    } else {
      var ticks := seq(n, _ => TickEvent);
      assert ticks[0] == TickEvent && ticks[1..] == seq(n - 1, _ => TickEvent);
      ReportWhileNothingPending(ch, n - 1);
      assert [ReportProgressOrExit] + seq(n - 1, _ => ReportProgressOrExit) == seq(n, _ => ReportProgressOrExit);
    }
  }

  // ---------------------------------------------------------------------
  // The stdin cancel watcher.

  /** How the watcher ends: it forwards a cancellation after the first line
      that cleans to the keyword (and stops reading, leaving rest unread),
      or a read fails first. */
  datatype WatchEnd = Cancelled(rest: Bytes) | ReadFailed

  function CancelWatch(input: Bytes): (r: WatchEnd)
    ensures r.Cancelled? ==> |r.rest| < |input| && r.rest == input[|input| - |r.rest|..]
    ensures LF !in input ==> r == ReadFailed
    decreases |input|
  {
    var (line, rest) := ReadCleanLine(input);
    if line.None? then ReadFailed
    else if IsCancelWord(line.value) then Cancelled(rest)
    else CancelWatch(rest)
  }

  lemma CancelWatchUnfold(input: Bytes)
    ensures var (line, rest) := ReadCleanLine(input);
      CancelWatch(input) ==
        if line.None? then ReadFailed
        else if IsCancelWord(line.value) then Cancelled(rest)
        else CancelWatch(rest)
  {
  }

  function Concat(lines: seq<Bytes>): Bytes
  {
    if lines == [] then [] else lines[0] + Concat(lines[1..])
  }

  lemma ConcatFirst(lines: seq<Bytes>, after: Bytes)
    requires lines != []
    ensures Concat(lines) + after == lines[0] + (Concat(lines[1..]) + after)
  {
    AppendAssoc(lines[0], Concat(lines[1..]), after);
  }

  /** A line that is not the keyword is read and skipped. */
  lemma WatchSkipsLine(line: Bytes, more: Bytes)
    requires RawLine(line) && !IsCancelWord(Trim(line))
    ensures CancelWatch(line + more) == CancelWatch(more)
  {
    ReadLineOfRawLine(line, more);
  }

  /** Lines that are not the keyword are skipped, and watching stops right
      after the first line that is: nothing after it is read. */
  lemma {:induction false} WatchStopsAtFirstCancel(skipped: seq<Bytes>, line: Bytes, rest: Bytes)
    requires forall i :: 0 <= i < |skipped| ==> RawLine(skipped[i]) && !IsCancelWord(Trim(skipped[i]))
    requires RawLine(line) && IsCancelWord(Trim(line))
    ensures CancelWatch(Concat(skipped) + line + rest) == Cancelled(rest)
    decreases |skipped|
  {
    if skipped == [] {
      assert Concat(skipped) + line == line;
      ReadLineOfRawLine(line, rest);
    } else {
      var more := Concat(skipped[1..]) + line + rest;
      calc {
        CancelWatch(Concat(skipped) + line + rest);
        { AppendAssoc(Concat(skipped), line, rest); }
        CancelWatch(Concat(skipped) + (line + rest));
        { ConcatFirst(skipped, line + rest); AppendAssoc(Concat(skipped[1..]), line, rest); }
        CancelWatch(skipped[0] + more);
        { WatchSkipsLine(skipped[0], more); }
        CancelWatch(more);
        { WatchStopsAtFirstCancel(skipped[1..], line, rest); }
        Cancelled(rest);
      }
    }
  }

  /** Without a keyword line before the input ends, the watcher's last read
      fails. */
  lemma {:induction false} WatchFailsWithoutCancel(skipped: seq<Bytes>, tail: Bytes)
    requires forall i :: 0 <= i < |skipped| ==> RawLine(skipped[i]) && !IsCancelWord(Trim(skipped[i]))
    requires LF !in tail
    ensures CancelWatch(Concat(skipped) + tail) == ReadFailed
    decreases |skipped|
  {
    if skipped == [] {
      assert Concat(skipped) == [];
      WatchFailsAtEnd(tail);
    } else {
      ConcatFirst(skipped, tail);
      WatchSkipsLine(skipped[0], Concat(skipped[1..]) + tail);
      WatchFailsWithoutCancel(skipped[1..], tail);
    }
  }

  lemma WatchFailsAtEnd(tail: Bytes)
    requires LF !in tail
    ensures CancelWatch(tail) == ReadFailed
  {
    assert ReadCleanLine(tail).0.None?;
  }

  /** "cancel" typed with a Windows line ending is not recognised: the
      carriage return is not in the cutset and stays on the cleaned line. */
  lemma CrLfCancelIsNotRecognised(rest: Bytes)
    ensures CancelWatch(CancelKeyword() + [CR, LF] + rest) == CancelWatch(rest)
  {
    var line := CancelKeyword() + [CR, LF];
    assert RawLine(line);
    ReadLineOfRawLine(line, rest);
    assert TrimLeft(line) == line;
    var word := line[..7];
    assert word[6] == CR && line[..|line| - 1] == word;
    assert TrimRight(word) == word;
    assert |Trim(line)| == 7;
  }
}
