/**
 * `handleChannel`: admission of a newly opened channel and the start of
 * its session. Only the `session` channel type is accepted; any other
 * type is rejected with SSH_OPEN_UNKNOWN_CHANNEL_TYPE (section 5.1 of
 * RFC 4254). An accepted channel gets a shell on a fresh pseudo-terminal;
 * if that launch fails the channel is closed and nothing else starts.
 */
module Channel {

  /** The only channel type the server serves. */
  const SessionType: string := "session"

  /** SSH_OPEN_UNKNOWN_CHANNEL_TYPE, section 5.1 of RFC 4254. */
  const UnknownChannelType: nat := 3

  /** The answer to a channel-open request. */
  datatype OpenDecision = Accept | Reject(code: nat, message: string)

  /** The channel-type test at the top of `handleChannel`. */
  function Admit(channelType: string): (d: OpenDecision)
    ensures d.Accept? <==> channelType == SessionType
    ensures d.Reject? ==> d.code == UnknownChannelType
    ensures d.Reject? ==> d.message == "unknown channel type: " + channelType
  {
    if channelType != SessionType then
      Reject(UnknownChannelType, "unknown channel type: " + channelType)
    else
      Accept
  }

  /** A process to launch: program path, arguments after it, environment. */
  datatype Command = Command(path: string, args: seq<string>, env: seq<string>)

  /** The shell every session runs, with its fixed minimal environment. */
  const ShellCommand: Command :=
    Command("/bin/busybox", ["sh"], ["PATH=/bin", "PS1=(ssh) root@\\h \\w# "])

  /** What `handleChannel` does to the outside world, in order. */
  datatype Effect =
    | Rejected(code: nat, message: string)   // newChannel.Reject
    | Accepted                               // newChannel.Accept succeeded
    | Launched(cmd: Command)                 // ExecPTY was called on the command
    | ChannelClosed                          // ch.Close on the launch-failure path
    | CopyLoopsStarted                       // both io.Copy goroutines started
    | RequestLoopStarted                     // the request-loop goroutine started

  /**
   * `handleChannel`, with the outcomes of `Accept` and of `ExecPTY`
   * (allocating the pseudo-terminal and starting the process) given as
   * parameters.
   */
  method HandleChannel(channelType: string, acceptOk: bool, launchOk: bool) returns (effects: seq<Effect>)
    ensures channelType != SessionType ==>
      effects == [Rejected(UnknownChannelType, "unknown channel type: " + channelType)]
    ensures channelType == SessionType && !acceptOk ==> effects == []
    ensures channelType == SessionType && acceptOk && !launchOk ==>
      effects == [Accepted, Launched(ShellCommand), ChannelClosed]
    ensures channelType == SessionType && acceptOk && launchOk ==>
      effects == [Accepted, Launched(ShellCommand), CopyLoopsStarted, RequestLoopStarted]
    // a channel is either rejected or accepted, never both
    ensures (exists e :: e in effects && e.Rejected?) <==> channelType != SessionType
    ensures Accepted in effects <==> channelType == SessionType && acceptOk
    // nothing is launched for a rejected channel
    ensures Launched(ShellCommand) in effects <==> Accepted in effects
    // the session's loops start exactly when the launch succeeded
    ensures CopyLoopsStarted in effects <==> Accepted in effects && launchOk
    ensures RequestLoopStarted in effects <==> Accepted in effects && launchOk
    // a failed launch closes the channel
    ensures ChannelClosed in effects <==> Accepted in effects && !launchOk
  {
    match Admit(channelType) {
      case Reject(code, message) =>
        effects := [Rejected(code, message)];
        assert effects[0] in effects;
        return;
      case Accept =>
    }
    if !acceptOk {
      effects := [];
      return;
    }
    effects := [Accepted, Launched(ShellCommand)];
    if !launchOk {
      effects := effects + [ChannelClosed];
      return;
    }
    effects := effects + [CopyLoopsStarted, RequestLoopStarted];
  }
}
