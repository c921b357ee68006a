/** The output messages and the rendering step of the lifecycle manager's
    single output consumer, and the consumer's loop as a fold over the
    messages in the order the queue delivers them. */
module Serializer {
  import opened Text
  import opened Terminal

  /** The four kinds of output message. */
  datatype MessageKind = Progress | Info | Exit | Prompt

  /** The outputMessageType code each kind is sent with. */
  function TypeCode(k: MessageKind): (c: uint8)
    ensures c <= 3
  {
    match k
    case Progress => 0
    case Info => 1
    case Exit => 2
    case Prompt => 3
  }

  /** The kind a type code stands for; no other code is handled. */
  function KindOf(c: uint8): (k: Option<MessageKind>)
    ensures k.Some? <==> c <= 3
    ensures k.Some? ==> TypeCode(k.value) == c
  {
    if c == 0 then Some(Progress)
    else if c == 1 then Some(Info)
    else if c == 2 then Some(Exit)
    else if c == 3 then Some(Prompt)
    else None
  }

  /** Every kind is read back from its code, so the four codes are distinct. */
  lemma KindOfTypeCode(k: MessageKind)
    ensures KindOf(TypeCode(k)) == Some(k)
  {
  }

  /** An outputMessage. The reply conduit of a prompt is not a value here:
      the reply the consumer sends through it is part of the step's result. */
  datatype Message = Message(msgContent: Bytes, msgType: uint8, exitCode: int)

  function ProgressMessage(msg: Bytes): (m: Message)
    ensures KindOf(m.msgType) == Some(Progress) && m.msgContent == msg
  {
    Message(msg, TypeCode(Progress), 0)
  }

  function InfoMessage(msg: Bytes): (m: Message)
    ensures KindOf(m.msgType) == Some(Info) && m.msgContent == msg
  {
    Message(msg, TypeCode(Info), 0)
  }

  function PromptMessage(msg: Bytes): (m: Message)
    ensures KindOf(m.msgType) == Some(Prompt) && m.msgContent == msg
  {
    Message(msg, TypeCode(Prompt), 0)
  }

  function ExitMessage(msg: Bytes, exitCode: int): (m: Message)
    ensures KindOf(m.msgType) == Some(Exit) && m.msgContent == msg && m.exitCode == exitCode
  {
    Message(msg, TypeCode(Exit), exitCode)
  }

  /** Whether the consumer goes on: it stops when the process exits with a
      code, or when a read from standard input fails and the panic aborts
      the process. */
  datatype Outcome = Running | Exited(code: int) | Aborted

  /** What rendering one message does: the bytes printed, the new progress
      cache, whether the consumer goes on, the reply sent back to a prompt
      and the standard input left unread. */
  datatype Step = Step(out: Bytes, cache: Bytes, outcome: Outcome, reply: Option<Bytes>, stdin: Bytes)

  predicate IsKind(m: Message, k: MessageKind)
  {
    KindOf(m.msgType) == Some(k)
  }

  /** The body of the consumer loop for one message. */
  function Render(cache: Bytes, msg: Message, stdin: Bytes): (r: Step)
    ensures r.outcome.Exited? <==> IsKind(msg, Exit)
    ensures r.outcome.Exited? ==> r.outcome.code == msg.exitCode
    ensures r.outcome == Aborted <==> IsKind(msg, Prompt) && LF !in stdin
    ensures r.cache != cache ==> IsKind(msg, Progress)
    ensures IsKind(msg, Progress) ==> r.cache == msg.msgContent
    ensures IsKind(msg, Progress) ==> |r.out| == 1 + Max(|cache|, |msg.msgContent|)
    ensures r.reply.Some? <==> IsKind(msg, Prompt) && LF in stdin
    ensures !IsKind(msg, Prompt) ==> r.stdin == stdin
    ensures KindOf(msg.msgType).None? ==> r.out == [] && r.outcome == Running
  {
    var content := msg.msgContent;
    match KindOf(msg.msgType)
    case Some(Exit) =>
      Step([LF] + content + [LF], cache, Exited(msg.exitCode), None, stdin)
    case Some(Progress) =>
      Step([CR] + content + Pad(|cache|, |content|), content, Running, None, stdin)
    case Some(Info) =>
      if cache != [] then
        Step([CR] + content + Pad(|cache|, |content|) + [LF] + cache, cache, Running, None, stdin)
      else
        Step(content + [LF], cache, Running, None, stdin)
    case Some(Prompt) =>
      var shown := if cache != [] then [CR] + content + Pad(|cache|, |content|) else content;
      var (line, rest) := ReadCleanLine(stdin);
      if line.None? then Step(shown, cache, Aborted, None, rest)
      else Step(shown, cache, Running, line, rest)
    case None =>
      Step([], cache, Running, None, stdin)
  }

  // ---------------------------------------------------------------------
  // The consumer loop.

  /** What the consumer did with the messages it has taken: everything it
      printed, the final cache, how it ended, the replies it sent back in
      order, the unread input, and how many messages it rendered. */
  datatype Run = Run(out: Bytes, cache: Bytes, outcome: Outcome, replies: seq<Bytes>, stdin: Bytes, rendered: nat)

  function Replies(s: Step): seq<Bytes>
  {
    if s.reply.Some? then [s.reply.value] else []
  }

  /** r followed by one more rendering step. */
  function Then(r: Run, s: Step): Run
  {
    Run(r.out + s.out, s.cache, s.outcome, r.replies + Replies(s), s.stdin, r.rendered + 1)
  }

  function Start(cache: Bytes, stdin: Bytes): Run
  {
    Run([], cache, Running, [], stdin, 0)
  }

  /** One rendering step as the loop calls it: on the cache, the message and
      the unread input. The loop is written for any step, so that what it
      does by itself is stated once, apart from what Render does; the
      consumer's step is Render. */
  type Renderer = (Bytes, Message, Bytes) -> Step

  /** processOutputMessage's loop once it has taken the first n messages of
      the queue: each is rendered from the state the one before left, unless
      an exit or a failed read has stopped the loop, after which nothing is
      rendered. */
  function Consumed(render: Renderer, cache: Bytes, msgs: seq<Message>, n: nat, stdin: Bytes): (r: Run)
    requires n <= |msgs|
    ensures r.rendered <= n
    ensures r.outcome == Running ==> r.rendered == n
    ensures r.outcome != Running ==> 0 < r.rendered
  {
    if n == 0 then Start(cache, stdin)
    else
      var r := Consumed(render, cache, msgs, n - 1, stdin);
      if r.outcome != Running then r else Then(r, render(r.cache, msgs[n - 1], r.stdin))
  }

  /** An outcome that stops the loop comes from an Exit, and exits with its
      code, or from a Prompt. */
  predicate StopsAt(o: Outcome, m: Message)
  {
    (o != Running ==> IsKind(m, Exit) || IsKind(m, Prompt)) &&
    (o.Exited? ==> o.code == m.exitCode)
  }

  ghost predicate StopsOnlyAtExitOrPrompt(render: Renderer)
  {
    forall c, m, s :: StopsAt(render(c, m, s).outcome, m)
  }

  lemma RenderStopsOnlyAtExitOrPrompt()
    ensures StopsOnlyAtExitOrPrompt(Render)
  {
  }

  /** The last message a stopped loop rendered is the one that stopped it. */
  lemma {:induction false} ConsumedStopsAt(render: Renderer, cache: Bytes, msgs: seq<Message>, n: nat, stdin: Bytes)
    requires n <= |msgs| && StopsOnlyAtExitOrPrompt(render)
    ensures var r := Consumed(render, cache, msgs, n, stdin);
      r.outcome != Running ==> StopsAt(r.outcome, msgs[r.rendered - 1])
    decreases n
  {
    if n > 0 {
      ConsumedStopsAt(render, cache, msgs, n - 1, stdin);
      var r := Consumed(render, cache, msgs, n - 1, stdin);
      if r.outcome == Running {
        var s := render(r.cache, msgs[n - 1], r.stdin);
        assert StopsAt(s.outcome, msgs[n - 1]);
      }
    }
  }

  /** The loop over the whole queue: it renders every message unless an
      exit or a failed prompt read stops it, and then that message was the
      last one rendered. */
  function RunAll(cache: Bytes, msgs: seq<Message>, stdin: Bytes): (r: Run)
    ensures r.outcome == Running ==> r.rendered == |msgs|
    ensures r.outcome != Running ==> 0 < r.rendered <= |msgs|
    ensures r.outcome != Running ==> IsKind(msgs[r.rendered - 1], Exit) || IsKind(msgs[r.rendered - 1], Prompt)
    ensures r.outcome.Exited? ==> r.outcome.code == msgs[r.rendered - 1].exitCode
  {
    RenderStopsOnlyAtExitOrPrompt();
    ConsumedStopsAt(Render, cache, msgs, |msgs|, stdin);
    Consumed(Render, cache, msgs, |msgs|, stdin)
  }

  /** Once the loop has stopped, taking more messages changes nothing. */
  lemma {:induction false} ConsumedHalted(render: Renderer, cache: Bytes, msgs: seq<Message>, i: nat, j: nat, stdin: Bytes)
    requires i <= j <= |msgs| && Consumed(render, cache, msgs, i, stdin).outcome != Running
    ensures Consumed(render, cache, msgs, j, stdin) == Consumed(render, cache, msgs, i, stdin)
    decreases j
  {
    if i < j {
      ConsumedHalted(render, cache, msgs, i, j - 1, stdin);
    }
  }

  /** A loop that stopped, or ran out of messages, did the whole run. */
  lemma ConsumedComplete(cache: Bytes, msgs: seq<Message>, i: nat, stdin: Bytes)
    requires i <= |msgs|
    requires i == |msgs| || Consumed(Render, cache, msgs, i, stdin).outcome != Running
    ensures Consumed(Render, cache, msgs, i, stdin) == RunAll(cache, msgs, stdin)
  {
    if i < |msgs| {
      ConsumedHalted(Render, cache, msgs, i, |msgs|, stdin);
    }
  }

  /** The first n steps depend on the first n messages only. */
  lemma {:induction false} ConsumedPrefix(render: Renderer, cache: Bytes, a: seq<Message>, b: seq<Message>, n: nat, stdin: Bytes)
    requires n <= |a| && n <= |b| && a[..n] == b[..n]
    ensures Consumed(render, cache, a, n, stdin) == Consumed(render, cache, b, n, stdin)
    decreases n
  {
    if n > 0 {
      TakeShorter(a, b, n);
      ConsumedPrefix(render, cache, a, b, n - 1, stdin);
    }
  }

  /** Messages queued behind a stop are never rendered. */
  lemma RunHalted(cache: Bytes, msgs: seq<Message>, more: seq<Message>, stdin: Bytes)
    requires RunAll(cache, msgs, stdin).outcome != Running
    ensures RunAll(cache, msgs + more, stdin) == RunAll(cache, msgs, stdin)
  {
    var all := msgs + more;
    assert all[..|msgs|] == msgs[..|msgs|];
    ConsumedPrefix(Render, cache, msgs, all, |msgs|, stdin);
    ConsumedHalted(Render, cache, all, |msgs|, |all|, stdin);
  }

  /** An exit reached by the loop prints a line break, its text and a line
      break after everything before it, stops the loop with its code, and
      nothing after it is rendered. */
  lemma ExitEndsRun(cache: Bytes, msgs: seq<Message>, k: nat, stdin: Bytes)
    requires k < |msgs| && IsKind(msgs[k], Exit)
    requires Consumed(Render, cache, msgs, k, stdin).outcome == Running
    ensures var before := Consumed(Render, cache, msgs, k, stdin);
      var r := RunAll(cache, msgs, stdin);
      r.outcome == Exited(msgs[k].exitCode) && r.rendered == k + 1 &&
      r.out == before.out + [LF] + msgs[k].msgContent + [LF] &&
      r.cache == before.cache && r.replies == before.replies
  {
    ThenExit(Consumed(Render, cache, msgs, k, stdin), msgs[k]);
    ConsumedComplete(cache, msgs, k + 1, stdin);
  }

  lemma ThenExit(r: Run, m: Message)
    requires IsKind(m, Exit)
    ensures var x := Then(r, Render(r.cache, m, r.stdin));
      x.outcome == Exited(m.exitCode) && x.rendered == r.rendered + 1 &&
      x.out == r.out + [LF] + m.msgContent + [LF] && x.cache == r.cache && x.replies == r.replies
  {
    var s := Render(r.cache, m, r.stdin);
    assert s.out == [LF] + m.msgContent + [LF] && s.reply.None?;
    assert r.replies + [] == r.replies;
  }

  // ---------------------------------------------------------------------
  // The progress cache: only Progress changes it.

  /** A step that sets the cache to the content of a Progress message and
      leaves it alone for every other message. */
  ghost predicate CachesOnlyProgress(render: Renderer)
  {
    forall c, m, s :: render(c, m, s).cache == if IsKind(m, Progress) then m.msgContent else c
  }

  lemma RenderCachesOnlyProgress()
    ensures CachesOnlyProgress(Render)
  {
  }

  /** The content of the last Progress message among the first n, or
      initial if there is none. */
  function LastProgressOr(initial: Bytes, msgs: seq<Message>, n: nat): Bytes
    requires n <= |msgs|
  {
    if n == 0 then initial
    else if IsKind(msgs[n - 1], Progress) then msgs[n - 1].msgContent
    else LastProgressOr(initial, msgs, n - 1)
  }

  /** After the messages it has rendered, the cache holds the content of the
      last Progress message among them, or what it held before if there was
      none. */
  lemma {:induction false} ConsumedCacheIsLastProgress(render: Renderer, cache: Bytes, msgs: seq<Message>, n: nat, stdin: Bytes)
    requires n <= |msgs| && CachesOnlyProgress(render)
    ensures var r := Consumed(render, cache, msgs, n, stdin);
      r.cache == LastProgressOr(cache, msgs, r.rendered)
    decreases n
  {
    if n > 0 {
      ConsumedCacheIsLastProgress(render, cache, msgs, n - 1, stdin);
      var r := Consumed(render, cache, msgs, n - 1, stdin);
      if r.outcome == Running {
        var m := msgs[n - 1];
        assert render(r.cache, m, r.stdin).cache == if IsKind(m, Progress) then m.msgContent else r.cache;
      }
    }
  }

  /** The consumer's cache after the queue is the content of the last
      Progress message it rendered, or the initial cache ("" in a fresh
      manager) if it rendered none. */
  lemma RunCacheIsLastProgress(cache: Bytes, msgs: seq<Message>, stdin: Bytes)
    ensures var r := RunAll(cache, msgs, stdin);
      r.cache == LastProgressOr(cache, msgs, r.rendered)
  {
    RenderCachesOnlyProgress();
    ConsumedCacheIsLastProgress(Render, cache, msgs, |msgs|, stdin);
  }

  // ---------------------------------------------------------------------
  // What the rendered bytes do on the screen.

  /** Progress rewrites the line the cursor is on: afterwards it shows the
      new content and no byte of the previous progress line is visible. */
  lemma ProgressOnScreen(t: Screen, cache: Bytes, m: Message, stdin: Bytes)
    requires Shows(t, cache) && IsKind(m, Progress) && Plain(m.msgContent)
    ensures var u := Feed(t, Render(cache, m, stdin).out);
      u.lines == t.lines && Shows(u, m.msgContent)
  {
    var content := m.msgContent;
    var w := content + Pad(|cache|, |content|);
    AppendAssoc([CR], content, Pad(|cache|, |content|));
    assert Render(cache, m, stdin).out == [CR] + w;
    FeedAppend(t, [CR], w);
    FeedCR(t);
    assert Plain(w);
    FeedPlain(t.(col := 0), w);
    Rewrite(t.cur, cache, content);
  }

  /** Info while a progress line shows: the info text takes over the
      progress line (padded so that no progress byte stays visible), that
      line is finished, and the progress line is printed again below it, so
      it stays the line the cursor is on. */
  lemma InfoOnScreen(t: Screen, cache: Bytes, m: Message, stdin: Bytes)
    requires Shows(t, cache) && cache != [] && IsKind(m, Info) && Plain(m.msgContent) && Plain(cache)
    ensures var u := Feed(t, Render(cache, m, stdin).out);
      |u.lines| == |t.lines| + 1 && u.lines[..|t.lines|] == t.lines &&
      Displays(u.lines[|t.lines|], m.msgContent) &&
      u == Screen(u.lines, cache, |cache|) && Shows(u, cache) &&
      Render(cache, m, stdin).cache == cache
  {
    var content := m.msgContent;
    var w := content + Pad(|cache|, |content|);
    AppendAssoc([CR], content, Pad(|cache|, |content|));
    var out := Render(cache, m, stdin).out;
    assert out == [CR] + w + [LF] + cache;
    FeedAppend(t, [CR] + w + [LF], cache);
    FeedAppend(t, [CR] + w, [LF]);
    FeedAppend(t, [CR], w);
    FeedCR(t);
    assert Plain(w);
    FeedPlain(t.(col := 0), w);
    var t1 := Feed(t, [CR] + w);
    FeedLF(t1);
    var t2 := Feed(t1, [LF]);
    FreshLine(t2, cache);
    Rewrite(t.cur, cache, content);
    assert (t.lines + [t1.cur])[..|t.lines|] == t.lines;
  }

  /** Info with no progress line showing prints its text where the cursor
      is and finishes the line; the new line is empty. */
  lemma InfoOnEmptyCacheScreen(t: Screen, m: Message, stdin: Bytes)
    requires Shows(t, []) && IsKind(m, Info) && Plain(m.msgContent)
    ensures var u := Feed(t, Render([], m, stdin).out);
      u == Screen(t.lines + [Overwrite(t.cur, t.col, m.msgContent)], [], 0) && Shows(u, [])
  {
    var content := m.msgContent;
    assert Render([], m, stdin).out == content + [LF];
    FeedAppend(t, content, [LF]);
    FeedPlain(t, content);
    FeedLF(Feed(t, content));
  }

  /** A prompt while a progress line shows takes over that line like Info
      does, but nothing follows it: the cursor waits at the end of the
      padding, which lies past the prompt when the progress line was longer. */
  lemma PromptOnScreen(t: Screen, cache: Bytes, content: Bytes, stdin: Bytes)
    requires Shows(t, cache) && cache != [] && Plain(content)
    ensures var u := Feed(t, Render(cache, PromptMessage(content), stdin).out);
      u.lines == t.lines && Shows(u, content) && u.col == Max(|cache|, |content|)
  {
    var w := content + Pad(|cache|, |content|);
    AppendAssoc([CR], content, Pad(|cache|, |content|));
    assert Render(cache, PromptMessage(content), stdin).out == [CR] + w;
    FeedAppend(t, [CR], w);
    FeedCR(t);
    assert Plain(w);
    FeedPlain(t.(col := 0), w);
    Rewrite(t.cur, cache, content);
  }

  /** A prompt with no progress line showing prints its bare text at the
      cursor, and the cursor waits right after it on the same line. */
  lemma PromptOnEmptyCacheScreen(t: Screen, content: Bytes, stdin: Bytes)
    requires Shows(t, []) && Plain(content)
    ensures Feed(t, Render([], PromptMessage(content), stdin).out) ==
      Screen(t.lines, Overwrite(t.cur, t.col, content), t.col + |content|)
  {
    assert Render([], PromptMessage(content), stdin).out == content;
    FeedPlain(t, content);
  }

  /** The reply to a prompt is the cleaned first line of the input, the rest
      of the input stays unread, and the cache is left as it was. */
  lemma PromptReply(cache: Bytes, content: Bytes, line: Bytes, more: Bytes)
    requires RawLine(line)
    ensures var s := Render(cache, PromptMessage(content), line + more);
      s.reply == Some(Trim(line)) && s.stdin == more && s.cache == cache && s.outcome == Running
  {
    ReadLineOfRawLine(line, more);
  }

  /** Exit finishes the current line, prints its text on a line of its own
      and leaves the cursor on a fresh empty line. */
  lemma ExitOnScreen(t: Screen, cache: Bytes, content: Bytes, code: int, stdin: Bytes)
    requires Valid(t) && Plain(content)
    ensures var u := Feed(t, Render(cache, ExitMessage(content, code), stdin).out);
      u == Screen(t.lines + [t.cur, content], [], 0)
  {
    assert Render(cache, ExitMessage(content, code), stdin).out == [LF] + content + [LF];
    FeedAppend(t, [LF] + content, [LF]);
    FeedAppend(t, [LF], content);
    FeedLF(t);
    var t1 := Feed(t, [LF]);
    FreshLine(t1, content);
    FeedLF(Feed(t1, content));
    assert t.lines + [t.cur] + [content] == t.lines + [t.cur, content];
  }

  /** One step other than a prompt keeps the screen in step with the cache. */
  lemma StepKeepsScreen(t: Screen, cache: Bytes, m: Message, stdin: Bytes)
    requires Shows(t, cache) && Plain(cache) && Plain(m.msgContent) && !IsKind(m, Prompt)
    requires Render(cache, m, stdin).outcome == Running
    ensures var s := Render(cache, m, stdin);
      Shows(Feed(t, s.out), s.cache) && Plain(s.cache)
  {
    if IsKind(m, Progress) {
      ProgressOnScreen(t, cache, m, stdin);
    } else if IsKind(m, Info) {
      if cache != [] {
        InfoOnScreen(t, cache, m, stdin);
      } else {
        InfoOnEmptyCacheScreen(t, m, stdin);
      }
    } else {
      assert Render(cache, m, stdin).out == [];
    }
  }

  /** A step that, for every message other than a prompt whose text holds
      no "\r" or "\n", keeps the cursor line showing exactly the cache. */
  ghost predicate KeepsScreen(render: Renderer)
  {
    forall t: Screen, c: Bytes, m: Message, s: Bytes ::
      Shows(t, c) && Plain(c) && Plain(m.msgContent) && !IsKind(m, Prompt) && render(c, m, s).outcome == Running ==>
        Shows(Feed(t, render(c, m, s).out), render(c, m, s).cache) && Plain(render(c, m, s).cache)
  }

  lemma RenderKeepsScreen()
    ensures KeepsScreen(Render)
  {
    forall t: Screen, c: Bytes, m: Message, s: Bytes | Shows(t, c) && Plain(c) && Plain(m.msgContent) && !IsKind(m, Prompt) && Render(c, m, s).outcome == Running
      ensures Shows(Feed(t, Render(c, m, s).out), Render(c, m, s).cache) && Plain(Render(c, m, s).cache)
    {
      StepKeepsScreen(t, c, m, s);
    }
  }

  /** The cache tracks the screen: over messages without prompts, whose
      texts hold no carriage return or line feed, the line the cursor is on
      shows exactly the progress cache after every message, as long as the
      loop goes on. */
  lemma {:induction false} RunKeepsScreen(render: Renderer, t: Screen, cache: Bytes, msgs: seq<Message>, n: nat, stdin: Bytes)
    requires n <= |msgs| && Shows(t, cache) && Plain(cache) && KeepsScreen(render)
    requires forall i :: 0 <= i < |msgs| ==> Plain(msgs[i].msgContent) && !IsKind(msgs[i], Prompt)
    ensures var r := Consumed(render, cache, msgs, n, stdin);
      r.outcome == Running ==> Shows(Feed(t, r.out), r.cache) && Plain(r.cache)
    decreases n
  {
    if n > 0 {
      var r := Consumed(render, cache, msgs, n - 1, stdin);
      if r.outcome == Running {
        RunKeepsScreen(render, t, cache, msgs, n - 1, stdin);
        var m := msgs[n - 1];
        var s := render(r.cache, m, r.stdin);
        if s.outcome == Running {
          FeedAppend(t, r.out, s.out);
          assert Shows(Feed(Feed(t, r.out), s.out), s.cache);
        }
      }
    }
  }

  /** From a fresh terminal and the initial empty cache: over prompt-free
      messages without "\r" or "\n", the line the cursor is on (the last
      line) shows exactly the cache after every message, as long as the loop
      runs. */
  lemma FreshScreenKeepsCache(msgs: seq<Message>, n: nat, stdin: Bytes)
    requires n <= |msgs|
    requires forall i :: 0 <= i < |msgs| ==> Plain(msgs[i].msgContent) && !IsKind(msgs[i], Prompt)
    ensures var r := Consumed(Render, [], msgs, n, stdin);
      r.outcome == Running ==> Shows(Feed(Blank0, r.out), r.cache)
  {
    RenderKeepsScreen();
    RunKeepsScreen(Render, Blank0, [], msgs, n, stdin);
  }

  /** An 11-byte progress line ("Copying 50%") and a 4-byte info ("Done"):
      seven blanks erase the rest of the progress line before it is printed
      again on the next line. */
  lemma InfoAfterProgressExample(cache: Bytes, done: Bytes, stdin: Bytes)
    requires |cache| == 11 && |done| == 4
    ensures var s := Render(cache, InfoMessage(done), stdin);
      s.out == [CR] + done + Spaces(7) + [LF] + cache && s.cache == cache
  {
    assert cache != [];
    assert Pad(11, 4) == Spaces(7);
  }
}
