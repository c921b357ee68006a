/** The lifecycle manager as the object the program keeps: the progress
    cache its output consumer updates in place, the start flag its
    compare-and-swap sets, and the cancel channel. Standard output is the
    sequence of bytes written so far, standard input the bytes not yet read,
    and the work controller the sequence of calls made into it. */
module Lifecycle {
  import opened Text
  import opened Serializer
  import opened Supervisor

  class LifecycleMgr {
    var progressCache: Bytes
    var waitEverCalled: int
    var cancelChannel: CancelChannel
    /** Whether the stdin cancel watcher is running. */
    var watchingStdin: bool
    var stdout: Bytes
    var stdin: Bytes
    var calls: seq<Call>

    ghost predicate Valid()
      reads this
    {
      (waitEverCalled == 0 || waitEverCalled == 1) &&
      (watchingStdin ==> waitEverCalled == 1) &&
      ChannelValid(cancelChannel)
    }

    /** The single instance as it is created: empty cache, supervisor not
        started, empty cancel channel. */
    constructor (input: Bytes)
      ensures Valid()
      ensures progressCache == [] && waitEverCalled == 0 && cancelChannel == EmptyChannel
      ensures !watchingStdin && stdout == [] && stdin == input && calls == []
    {
      progressCache := [];
      waitEverCalled := 0;
      cancelChannel := EmptyChannel;
      watchingStdin := false;
      stdout := [];
      stdin := input;
      calls := [];
    }

    /** fmt.Print */
    method Print(s: Bytes)
      modifies this`stdout
      ensures stdout == old(stdout) + s
    {
      stdout := stdout + s;
    }

    /** matchLengthWithSpaces: prints one blank per column by which the new
        line falls short of the current one. */
    method MatchLengthWithSpaces(curLineLength: int, newLineLength: int)
      modifies this`stdout
      ensures stdout == old(stdout) + Pad(curLineLength, newLineLength)
    {
      var dirtyLeftover := curLineLength - newLineLength;
      if dirtyLeftover > 0 {
        var i := 0;
        while i < dirtyLeftover
          invariant 0 <= i <= dirtyLeftover
          invariant stdout == old(stdout) + Spaces(i)
        {
          Print([SPACE]);
          assert Spaces(i) + [SPACE] == Spaces(i + 1);
          i := i + 1;
        }
      }
    }

    /** readInCleanLineFromStdIn: None stands for the failed read that
        PanicIfErr turns into a panic. */
    method ReadInCleanLineFromStdIn() returns (line: Option<Bytes>)
      modifies this`stdin
      ensures (line, stdin) == ReadCleanLine(old(stdin))
    {
      var r := ReadCleanLine(stdin);
      line := r.0;
      stdin := r.1;
    }

    /** Prints content over the line the cursor is on: back to column 0,
        the content, then blanks over what is left of the progress line. */
    method RewriteLine(content: Bytes)
      modifies this`stdout
      ensures stdout == old(stdout) + ([CR] + content + Pad(|progressCache|, |content|))
    {
      ghost var out0 := stdout;
      Print([CR]);
      Print(content);
      MatchLengthWithSpaces(|progressCache|, |content|);
      AppendAssoc(out0, [CR], content);
      AppendAssoc(out0, [CR] + content, Pad(|progressCache|, |content|));
    }

    /** The switch in processOutputMessage's loop, for one message. */
    method RenderMessage(msg: Message) returns (outcome: Outcome, reply: Option<Bytes>)
      modifies this`stdout, this`stdin, this`progressCache
      ensures var s := Render(old(progressCache), msg, old(stdin));
        stdout == old(stdout) + s.out && progressCache == s.cache && stdin == s.stdin &&
        outcome == s.outcome && reply == s.reply
    {
      var content := msg.msgContent;
      outcome, reply := Running, None;
      match KindOf(msg.msgType)
      case Some(Exit) =>
        Print([LF] + content + [LF]);
        outcome := Exited(msg.exitCode);
      case Some(Progress) =>
        RewriteLine(content);
        progressCache := content;
      case Some(Info) =>
        if progressCache != [] {
          ghost var out0 := stdout;
          RewriteLine(content);
          Print([LF]);
          Print(progressCache);
          ghost var w := [CR] + content + Pad(|progressCache|, |content|);
          AppendAssoc(out0, w, [LF]);
          AppendAssoc(out0, w + [LF], progressCache);
        } else {
          Print(content + [LF]);
        }
      case Some(Prompt) =>
        if progressCache != [] {
          RewriteLine(content);
        } else {
          Print(content);
        }
        reply := ReadInCleanLineFromStdIn();
        if reply.None? {
          outcome := Aborted;
        }
      case None =>
    }

    /** The consumer's state is where run leaves it, after the output out0
        printed before the run. */
    ghost predicate Tracks(run: Run, out0: Bytes)
      reads this
    {
      stdout == out0 + run.out && progressCache == run.cache && stdin == run.stdin
    }

    /** One pass of the consumer loop: renders the message at index i of
        the queue, after the first i, and collects the reply to a prompt. */
    method Consume(queue: seq<Message>, i: nat, ghost cache0: Bytes, ghost stdin0: Bytes, ghost out0: Bytes,
                   replies: seq<Bytes>) returns (outcome: Outcome, replies': seq<Bytes>)
      requires i < |queue|
      requires var run := Consumed(Render, cache0, queue, i, stdin0);
        Tracks(run, out0) && run.outcome == Running && replies == run.replies
      modifies this`stdout, this`stdin, this`progressCache
      ensures var run := Consumed(Render, cache0, queue, i + 1, stdin0);
        Tracks(run, out0) && outcome == run.outcome && replies' == run.replies
    {
      ghost var run := Consumed(Render, cache0, queue, i, stdin0);
      ghost var s := Render(run.cache, queue[i], run.stdin);
      assert Consumed(Render, cache0, queue, i + 1, stdin0) == Then(run, s);
      var reply;
      outcome, reply := RenderMessage(queue[i]);
      replies' := replies;
      if reply.Some? {
        replies' := replies + [reply.value];
      }
      AppendAssoc(out0, run.out, s.out);
    }

    /** processOutputMessage: renders the queued messages in order until an
        exit or a failed read stops the consumer. */
    method ProcessOutputMessage(queue: seq<Message>) returns (outcome: Outcome, replies: seq<Bytes>)
      modifies this`stdout, this`stdin, this`progressCache
      ensures var r := RunAll(old(progressCache), queue, old(stdin));
        Tracks(r, old(stdout)) && outcome == r.outcome && replies == r.replies
    {
      ghost var cache0, out0, stdin0 := progressCache, stdout, stdin;
      outcome, replies := Running, [];
      var i := 0;
      assert Tracks(Start(cache0, stdin0), out0);
      while i < |queue| && outcome == Running
        invariant 0 <= i <= |queue|
        invariant var run := Consumed(Render, cache0, queue, i, stdin0);
          Tracks(run, out0) && outcome == run.outcome && replies == run.replies
      {
        outcome, replies := Consume(queue, i, cache0, stdin0, out0, replies);
        i := i + 1;
      }
      ConsumedComplete(cache0, queue, i, stdin0);
    }

    /** InitiateProgressReporting: only the call that finds waitEverCalled
        at 0 starts the supervisor (and, when not interactive, the stdin
        watcher); every later call changes nothing. */
    method InitiateProgressReporting(isInteractive: bool) returns (started: bool)
      requires Valid()
      modifies this`waitEverCalled, this`watchingStdin
      ensures Valid()
      ensures started <==> old(waitEverCalled) == 0
      ensures started ==> waitEverCalled == 1 && watchingStdin == !isInteractive
      ensures !started ==> waitEverCalled == old(waitEverCalled) && watchingStdin == old(watchingStdin)
    {
      var (swapped, cell) := CompareAndSwap(waitEverCalled, 0, 1);
      waitEverCalled := cell;
      if !swapped {
        return false;
      }
      started := true;
      if !isInteractive {
        watchingStdin := true;
      }
    }

    /** An interrupt delivered through signal.Notify once the supervisor
        runs. */
    method NotifySignal()
      requires Valid() && waitEverCalled == 1
      modifies this`cancelChannel
      ensures Valid()
      ensures cancelChannel == Notify(old(cancelChannel))
    {
      cancelChannel := Notify(cancelChannel);
    }

    /** One iteration of the polling loop (the two-second sleep after it is
        not modelled). */
    method PollOnce()
      requires Valid() && waitEverCalled == 1
      modifies this`cancelChannel, this`calls
      ensures Valid()
      ensures calls == old(calls) + [Tick(old(cancelChannel)).0]
      ensures cancelChannel == Tick(old(cancelChannel)).1
    {
      if cancelChannel.buffered {
        cancelChannel := Receive(cancelChannel);
        calls := calls + [Cancel];
      } else {
        calls := calls + [ReportProgressOrExit];
      }
    }

    /** The watcher's send on the cancel channel, after which it stops. */
    method ForwardCancel()
      requires Valid() && !cancelChannel.blockedSend
      modifies this`cancelChannel, this`watchingStdin
      ensures Valid()
      ensures cancelChannel == Send(old(cancelChannel)) && !watchingStdin
    {
      cancelChannel := Send(cancelChannel);
      watchingStdin := false;
    }

    /** The stdin watcher: reads lines until one is the keyword, forwards a
        cancellation and stops; a failed read aborts instead. */
    method WatchCancelKeyword() returns (aborted: bool)
      requires Valid() && watchingStdin && !cancelChannel.blockedSend
      modifies this`stdin, this`cancelChannel, this`watchingStdin
      ensures Valid()
      ensures aborted ==>
        CancelWatch(old(stdin)) == ReadFailed && stdin == [] && cancelChannel == old(cancelChannel) &&
        watchingStdin
      ensures !aborted ==>
        CancelWatch(old(stdin)) == Cancelled(stdin) && cancelChannel == Send(old(cancelChannel)) &&
        !watchingStdin
    {
      ghost var result := CancelWatch(stdin);
      while true
        invariant Valid() && watchingStdin && cancelChannel == old(cancelChannel)
        invariant CancelWatch(stdin) == result
        decreases |stdin|
      {
        ghost var before := stdin;
        CancelWatchUnfold(before);
        var input := ReadInCleanLineFromStdIn();
        if input.None? {
          return true;
        }
        if IsCancelWord(input.value) {
          ForwardCancel();
          return false;
        }
      }
    }
  }
}
