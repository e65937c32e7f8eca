/**
 * Session teardown. Each of the two byte-copy loops, when it finishes,
 * calls `once.Do(close)`; the `close` body closes the channel, then
 * waits for the shell process, and only logs a failed wait. The guard
 * runs the body on the first call and ignores every later one.
 */
module Teardown {

  /** The two copy loops: process output to the channel, channel input to the process. */
  datatype Copier = ToChannel | FromChannel

  /** The observable steps of the close body. */
  datatype Action = CloseChannel | WaitProcess | LogWaitFailure | LogSessionClosed

  /** The `close` closure, given whether waiting for the process succeeds. */
  function CloseBody(waitOk: bool): (body: seq<Action>)
    ensures |body| >= 3 && body[0] == CloseChannel && body[1] == WaitProcess
    ensures body[|body| - 1] == LogSessionClosed
    ensures LogWaitFailure in body <==> !waitOk
  {
    [CloseChannel, WaitProcess] + (if waitOk then [] else [LogWaitFailure]) + [LogSessionClosed]
  }

  /** How often `a` occurs in `t`. */
  function Count(a: Action, t: seq<Action>): nat
  {
    if t == [] then 0 else (if t[0] == a then 1 else 0) + Count(a, t[1..])
  }

  /** The close body closes the channel once and waits for the process once, in that order. */
  lemma CloseBodyOnce(waitOk: bool)
    ensures Count(CloseChannel, CloseBody(waitOk)) == 1
    ensures Count(WaitProcess, CloseBody(waitOk)) == 1
  {
    var tail := if waitOk then [LogSessionClosed] else [LogWaitFailure, LogSessionClosed];
    assert CloseBody(waitOk) == [CloseChannel, WaitProcess] + tail;
    assert Count(CloseChannel, tail) == 0 && Count(WaitProcess, tail) == 0 by {
      assert [LogSessionClosed][1..] == [];
      if !waitOk {
        assert tail[1..] == [LogSessionClosed];
      }
    }
    assert ([CloseChannel, WaitProcess] + tail)[1..] == [WaitProcess] + tail;
    assert ([WaitProcess] + tail)[1..] == tail;
  }

  /** The `sync.Once` flag together with everything the close body has done so far. */
  datatype Guard = Guard(onceDone: bool, trace: seq<Action>)

  /** A session whose copy loops are still running. */
  const Fresh := Guard(false, [])

  /** `once.Do(close)`: run the body unless it has run already. */
  function Do(g: Guard, waitOk: bool): (h: Guard)
    ensures h.onceDone
    ensures g.onceDone ==> h == g
    ensures !g.onceDone ==> h.trace == g.trace + CloseBody(waitOk)
  {
    if g.onceDone then g else Guard(true, g.trace + CloseBody(waitOk))
  }

  /** The guard after the copy loops finish in the order `events`. */
  function AfterAll(g: Guard, events: seq<Copier>, waitOk: bool): Guard
  {
    if events == [] then g else Do(AfterAll(g, events[..|events| - 1], waitOk), waitOk)
  }

  /** Once the body has run, later completions change nothing. */
  lemma {:induction false} AfterDone(g: Guard, events: seq<Copier>, waitOk: bool)
    requires g.onceDone
    ensures AfterAll(g, events, waitOk) == g
  {
    if events != [] {
      AfterDone(g, events[..|events| - 1], waitOk);
    }
  }

  /**
   * However many completions arrive and in whatever order, the close
   * body runs exactly once after the first one and never before it: the
   * channel is closed once, the process is waited for once, after the
   * close.
   */
  lemma {:induction false} ExactlyOnce(events: seq<Copier>, waitOk: bool)
    ensures events == [] ==> AfterAll(Fresh, events, waitOk) == Fresh
    ensures events != [] ==> AfterAll(Fresh, events, waitOk) == Guard(true, CloseBody(waitOk))
    ensures events != [] ==>
      Count(CloseChannel, AfterAll(Fresh, events, waitOk).trace) == 1 &&
      Count(WaitProcess, AfterAll(Fresh, events, waitOk).trace) == 1
  {
    if events != [] {
      var init := events[..|events| - 1];
      if init == [] {
        assert AfterAll(Fresh, init, waitOk) == Fresh;
      } else {
        ExactlyOnce(init, waitOk);
      }
      CloseBodyOnce(waitOk);
    }
  }

  /** Both copy loops finishing, in either order, closes the session once. */
  lemma BothDirections(waitOk: bool)
    ensures AfterAll(Fresh, [ToChannel, FromChannel], waitOk) == AfterAll(Fresh, [FromChannel, ToChannel], waitOk)
    ensures AfterAll(Fresh, [ToChannel, FromChannel], waitOk).trace == CloseBody(waitOk)
  {
    ExactlyOnce([ToChannel, FromChannel], waitOk);
    ExactlyOnce([FromChannel, ToChannel], waitOk);
  }

  /** The `sync.Once` of one running session and what its close body has done, updated in place by the copy loops. */
  class CloseOnce {
    var onceDone: bool
    var trace: seq<Action>

    function Model(): Guard
      reads this
    {
      Guard(onceDone, trace)
    }

    constructor ()
      ensures Model() == Fresh
    {
      onceDone, trace := false, [];
    }

    /** The `close` closure: close the channel, then wait for the process. */
    method Close(waitOk: bool)
      modifies this`trace
      ensures trace == old(trace) + CloseBody(waitOk)
    {
      trace := trace + [CloseChannel];
      trace := trace + [WaitProcess];
      if !waitOk {
        trace := trace + [LogWaitFailure];
      }
      trace := trace + [LogSessionClosed];
    }

    /** A copy loop has returned and calls `once.Do(close)`. */
    method CopyFinished(c: Copier, waitOk: bool)
      modifies this
      ensures Model() == Do(old(Model()), waitOk)
    {
      if !onceDone {
        onceDone := true;
        Close(waitOk);
      }
    }

    /** The copy loops finish in the order `events`. */
    method FinishAll(events: seq<Copier>, waitOk: bool)
      modifies this
      ensures Model() == AfterAll(old(Model()), events, waitOk)
    {
      ghost var start := Model();
      var i := 0;
      while i < |events|
        invariant 0 <= i <= |events|
        invariant Model() == AfterAll(start, events[..i], waitOk)
      {
        CopyFinished(events[i], waitOk);
        assert events[..i + 1][..i] == events[..i];
        i := i + 1;
      }
      assert events[..i] == events;
    }
  }
}
