/**
 * The control-request loop of a session channel: requests arrive in
 * order and each is dispatched on its type (sections 6.2, 6.4, 6.5 and
 * 6.7 of RFC 4254). `pty-req` is acknowledged, `window-change` resizes
 * the terminal and is acknowledged, `shell` and `env` are accepted
 * silently, and any other type is refused without ending the loop.
 */
module Requests {
  import opened Wrappers
  import opened Wire

  /** A channel request as the transport hands it over: its type and raw payload. */
  datatype Request = Request(kind: string, payload: seq<byte>)

  /** The resize record handed to the terminal (`Winsize{Width, Height}`). */
  datatype Winsize = Winsize(width: int, height: int)

  /** One call of `req.Reply`: the request type it answers and the boolean sent. */
  datatype Reply = Reply(kind: string, ok: bool)

  /** What the loop does with one request. */
  datatype Disposition =
    | Silent                  // accepted, no reply and no other effect
    | AckPty                  // record that a terminal was asked for, reply true
    | Resize(size: Winsize)   // resize the terminal, reply true
    | Refuse                  // reply false
    | DecodePanic             // a window-change payload too short to decode

  /** The request types the loop knows by name. */
  predicate Known(kind: string)
  {
    kind == "shell" || kind == "pty-req" || kind == "window-change" || kind == "env"
  }

  /** The resize record built from a `window-change` payload: both sizes narrowed to 16 bits. */
  function ResizeFor(payload: seq<byte>): (ws: Winsize)
    requires |payload| >= 8
    ensures 0 <= ws.width < Uint16Limit && 0 <= ws.height < Uint16Limit
    ensures (ParseDims(payload).0 - ws.width) % Uint16Limit == 0
    ensures (ParseDims(payload).1 - ws.height) % Uint16Limit == 0
    ensures ParseDims(payload).0 < Uint16Limit ==> ws.width == ParseDims(payload).0
    ensures ParseDims(payload).1 < Uint16Limit ==> ws.height == ParseDims(payload).1
  {
    var (w, h) := ParseDims(payload);
    Winsize(ToUint16(w), ToUint16(h))
  }

  /**
   * A client's window-change payload reaches the terminal as the sizes it
   * encoded when they fit in 16 bits, and reduced modulo 65536 otherwise;
   * the pixel fields and anything after them play no part.
   */
  lemma ResizeOfWindowChange(cols: int, rows: int, pixelWidth: int, pixelHeight: int, rest: seq<byte>)
    requires 0 <= cols < Uint32Limit && 0 <= rows < Uint32Limit
    requires 0 <= pixelWidth < Uint32Limit && 0 <= pixelHeight < Uint32Limit
    ensures ResizeFor(WindowChangePayload(cols, rows, pixelWidth, pixelHeight) + rest)
      == Winsize(cols % Uint16Limit, rows % Uint16Limit)
    ensures cols < Uint16Limit && rows < Uint16Limit ==>
      ResizeFor(WindowChangePayload(cols, rows, pixelWidth, pixelHeight) + rest) == Winsize(cols, rows)
  {
    ParseWindowChange(cols, rows, pixelWidth, pixelHeight, rest);
  }

  /** The `switch req.Type` of the request loop. */
  function Dispatch(r: Request): (d: Disposition)
    ensures d.Silent? <==> r.kind == "shell" || r.kind == "env"
    ensures d.AckPty? <==> r.kind == "pty-req"
    ensures d.Refuse? <==> !Known(r.kind)
    ensures d.Resize? <==> r.kind == "window-change" && |r.payload| >= 8
    ensures d.DecodePanic? <==> r.kind == "window-change" && |r.payload| < 8
    ensures d.Resize? ==> d.size == ResizeFor(r.payload)
  {
    match r.kind
    case "shell" => Silent
    case "pty-req" => AckPty
    case "window-change" =>
      if |r.payload| < 8 then DecodePanic else Resize(ResizeFor(r.payload))
    case "env" => Silent
    case _ => Refuse
  }

  /**
   * The state the loop changes: the `wantsPTY` flag, the replies sent,
   * the resize calls made, and whether a decode has panicked (an
   * unrecovered panic in a goroutine ends the whole server process).
   */
  datatype State = State(wantsPTY: bool, replies: seq<Reply>, resizes: seq<Winsize>, panicked: bool)

  /** The state of a freshly accepted session. */
  const Initial := State(false, [], [], false)

  /** The effect of one request on the state; nothing happens after a panic. */
  function Step(s: State, r: Request): (t: State)
    ensures s.panicked ==> t == s
    ensures !s.panicked && (r.kind == "shell" || r.kind == "env") ==> t == s
    ensures !s.panicked && r.kind == "pty-req" ==>
      t == s.(wantsPTY := true, replies := s.replies + [Reply(r.kind, true)])
    ensures !s.panicked && r.kind == "window-change" && |r.payload| >= 8 ==>
      t == s.(resizes := s.resizes + [ResizeFor(r.payload)], replies := s.replies + [Reply(r.kind, true)])
    ensures !s.panicked && r.kind == "window-change" && |r.payload| < 8 ==>
      t == s.(panicked := true)
    ensures !s.panicked && !Known(r.kind) ==>
      t == s.(replies := s.replies + [Reply(r.kind, false)])
  {
    if s.panicked then s
    else match Dispatch(r)
      case Silent => s
      case AckPty => s.(wantsPTY := true, replies := s.replies + [Reply(r.kind, true)])
      case Resize(ws) => s.(resizes := s.resizes + [ws], replies := s.replies + [Reply(r.kind, true)])
      case Refuse => s.(replies := s.replies + [Reply(r.kind, false)])
      case DecodePanic => s.(panicked := true)
  }

  /** The state after the requests `rs`, taken in arrival order. */
  function Run(s: State, rs: seq<Request>): State
  {
    if rs == [] then s else Step(Run(s, rs[..|rs| - 1]), rs[|rs| - 1])
  }

  /** Handling `a` and then `b` is handling `a + b`. */
  lemma {:induction false} RunAppend(s: State, a: seq<Request>, b: seq<Request>)
    ensures Run(s, a + b) == Run(Run(s, a), b)
  {
    if b == [] {
      assert a + b == a;
    } else {
      var n := |b| - 1;
      assert (a + b)[..|a + b| - 1] == a + b[..n];
      RunAppend(s, a, b[..n]);
    }
  }

  /** Once the server has panicked no further request has any effect. */
  lemma {:induction false} RunAfterPanic(s: State, rs: seq<Request>)
    requires s.panicked
    ensures Run(s, rs) == s
  {
    if rs != [] {
      RunAfterPanic(s, rs[..|rs| - 1]);
    }
  }

  /** A window-change request whose payload cannot be decoded. */
  predicate Undecodable(r: Request)
  {
    r.kind == "window-change" && |r.payload| < 8
  }

  /** The reply one request receives, if any. */
  function ReplyOf(r: Request): seq<Reply>
  {
    if r.kind == "pty-req" || r.kind == "window-change" then [Reply(r.kind, true)]
    else if !Known(r.kind) then [Reply(r.kind, false)]
    else []
  }

  /** The resize one decodable request causes, if any. */
  function ResizeOf(r: Request): seq<Winsize>
    requires !Undecodable(r)
  {
    if r.kind == "window-change" then [ResizeFor(r.payload)] else []
  }

  /** The replies the requests `rs` receive, one per request that gets one, in order. */
  function ExpectedReplies(rs: seq<Request>): seq<Reply>
  {
    if rs == [] then [] else ReplyOf(rs[0]) + ExpectedReplies(rs[1..])
  }

  /** The resize records the requests `rs` cause, one per window-change, in order. */
  function ExpectedResizes(rs: seq<Request>): seq<Winsize>
    requires forall i :: 0 <= i < |rs| ==> !Undecodable(rs[i])
  {
    if rs == [] then []
    else
      assert !Undecodable(rs[0]);
      ResizeOf(rs[0]) + ExpectedResizes(rs[1..])
  }

  /** Some request in `rs` is a pty-req. */
  predicate AsksForPty(rs: seq<Request>)
  {
    exists i :: 0 <= i < |rs| && rs[i].kind == "pty-req"
  }

  /** A stream asks for a terminal exactly when its first request or the rest of it does. */
  lemma AsksForPtyCons(rs: seq<Request>)
    requires rs != []
    ensures AsksForPty(rs) <==> rs[0].kind == "pty-req" || AsksForPty(rs[1..])
  {
    if AsksForPty(rs[1..]) {
      var i :| 0 <= i < |rs[1..]| && rs[1..][i].kind == "pty-req";
      assert rs[i + 1].kind == "pty-req";
    }
  }

  /** One decodable request, before any panic, has exactly its tabulated effect. */
  lemma StepDecodable(s: State, r: Request)
    requires !s.panicked && !Undecodable(r)
    ensures Step(s, r) == State(s.wantsPTY || r.kind == "pty-req", s.replies + ReplyOf(r), s.resizes + ResizeOf(r), false)
  {
  }

  /**
   * As long as every window-change payload decodes, the loop processes
   * every request: each pty-req and window-change gets one true reply,
   * each unknown type one false reply, shell and env none, in arrival
   * order; each window-change causes one resize; and `wantsPTY` ends up
   * set exactly when some pty-req arrived (or it already was).
   */
  lemma {:induction false} RunProcessesAll(s: State, rs: seq<Request>)
    requires !s.panicked
    requires forall i :: 0 <= i < |rs| ==> !Undecodable(rs[i])
    ensures Run(s, rs) == State(
      s.wantsPTY || AsksForPty(rs), s.replies + ExpectedReplies(rs), s.resizes + ExpectedResizes(rs), false)
    decreases |rs|
  {
    if rs == [] {
      assert !AsksForPty(rs);
    } else {
      var r, rest := rs[0], rs[1..];
      assert !Undecodable(r);
      var s1 := State(s.wantsPTY || r.kind == "pty-req", s.replies + ReplyOf(r), s.resizes + ResizeOf(r), false);
      assert Run(s, rs) == Run(s1, rest) by {
        StepDecodable(s, r);
        RunCons(s, rs);
      }
      assert forall i :: 0 <= i < |rest| ==> !Undecodable(rest[i]) by {
        forall i | 0 <= i < |rest| ensures !Undecodable(rest[i]) {
          assert rest[i] == rs[i + 1];
        }
      }
      RunProcessesAll(s1, rest);
      assert s1.wantsPTY || AsksForPty(rest) <==> s.wantsPTY || AsksForPty(rs) by {
        AsksForPtyCons(rs);
      }
      assert s1.replies + ExpectedReplies(rest) == s.replies + ExpectedReplies(rs) by {
        var x, y := ReplyOf(r), ExpectedReplies(rest);
        assert ExpectedReplies(rs) == x + y;
        ConcatAssoc(s.replies, x, y);
      }
      assert s1.resizes + ExpectedResizes(rest) == s.resizes + ExpectedResizes(rs) by {
        var x, y := ResizeOf(r), ExpectedResizes(rest);
        assert ExpectedResizes(rs) == x + y;
        ConcatAssoc(s.resizes, x, y);
      }
    }
  }

  /** Sequence concatenation regrouped; stated once so that `RunProcessesAll` stays cheap to check. */
  lemma ConcatAssoc<T>(a: seq<T>, b: seq<T>, c: seq<T>)
    ensures (a + b) + c == a + (b + c)
  {
  }

  /** The first request is handled first. */
  lemma RunCons(s: State, rs: seq<Request>)
    requires rs != []
    ensures Run(s, rs) == Run(Step(s, rs[0]), rs[1..])
  {
    assert rs == [rs[0]] + rs[1..];
    RunAppend(s, [rs[0]], rs[1..]);
    assert [rs[0]][..0] == [];
  }

  /**
   * A request of an unknown type gets a single false reply and the loop
   * carries on: what follows it is handled as if it had come first.
   */
  lemma UnknownRequestContinues(s: State, before: seq<Request>, r: Request, after: seq<Request>)
    requires !Known(r.kind)
    requires !Run(s, before).panicked
    ensures Run(s, before + [r] + after)
      == Run(Run(s, before).(replies := Run(s, before).replies + [Reply(r.kind, false)]), after)
  {
    RunAppend(s, before + [r], after);
    RunAppend(s, before, [r]);
    assert [r][..0] == [];
  }

  /**
   * The first undecodable window-change ends the loop: nothing before it
   * is undone and nothing after it happens.
   */
  lemma PanicStopsLoop(s: State, rs: seq<Request>, k: nat)
    requires k < |rs| && Undecodable(rs[k])
    requires !Run(s, rs[..k]).panicked
    ensures Run(s, rs) == Run(s, rs[..k]).(panicked := true)
  {
    assert rs == rs[..k] + [rs[k]] + rs[k + 1..];
    RunAppend(s, rs[..k] + [rs[k]], rs[k + 1..]);
    RunAppend(s, rs[..k], [rs[k]]);
    assert [rs[k]][..0] == [];
    RunAfterPanic(Run(s, rs[..k] + [rs[k]]), rs[k + 1..]);
  }

  /** The session record the request loop updates in place. */
  class Session {
    var wantsPTY: bool
    var replies: seq<Reply>
    var resizes: seq<Winsize>
    var panicked: bool

    /** The record's current value. */
    function Model(): State
      reads this
    {
      State(wantsPTY, replies, resizes, panicked)
    }

    constructor ()
      ensures Model() == Initial
    {
      wantsPTY, replies, resizes, panicked := false, [], [], false;
    }

    /** One pass of the loop body: the `switch` on the request type. */
    method Handle(r: Request)
      requires !panicked
      modifies this
      ensures Model() == Step(old(Model()), r)
    {
      match r.kind {
        case "shell" =>
        case "pty-req" =>
          wantsPTY := true;
          replies := replies + [Reply(r.kind, true)];
        case "window-change" =>
          if |r.payload| < 8 {
            panicked := true;
          } else {
            var (w, h) := ParseDims(r.payload);
            resizes := resizes + [Winsize(ToUint16(w), ToUint16(h))];
            replies := replies + [Reply(r.kind, true)];
          }
        case "env" =>
        case _ =>
          replies := replies + [Reply(r.kind, false)];
      }
    }

    /** `for req := range requests`: handle each request in arrival order. */
    method Serve(requests: seq<Request>)
      modifies this
      ensures Model() == Run(old(Model()), requests)
    {
      ghost var start := Model();
      if panicked {
        RunAfterPanic(start, requests);
        return;
      }
      var i := 0;
      while i < |requests| && !panicked
        invariant 0 <= i <= |requests|
        invariant Model() == Run(start, requests[..i])
      {
        Handle(requests[i]);
        assert requests[..i + 1][..i] == requests[..i];
        i := i + 1;
      }
      if i < |requests| {
        assert requests[..i] + requests[i..] == requests;
        RunAppend(start, requests[..i], requests[i..]);
        RunAfterPanic(Model(), requests[i..]);
      } else {
        assert requests[..i] == requests;
      }
    }
  }
}
