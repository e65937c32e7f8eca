# Session core of a minimal SSH shell server

This project is a Dafny model of the session logic in `ssh.go` of a small
SSH server. The server gives every authenticated client a busybox shell on
a pseudo-terminal. The model covers six parts of that file:

- **`window-change` decoding** (module `Wire`). `parseDims` reads the
  terminal width and height as two big-endian unsigned 32-bit integers from
  the front of the payload. This is the layout of section 6.7 of RFC 4254.
  Both values are then narrowed to 16 bits for the resize record.
- **Channel-type gate** (module `Channel`). Only `session` channels are
  accepted. Any other type is rejected with SSH_OPEN_UNKNOWN_CHANNEL_TYPE
  (code 3, section 5.1 of RFC 4254) and the message
  `unknown channel type: <type>`.
- **Launch-failure path** (module `Channel`). If the shell cannot be started
  on a pseudo-terminal, the channel is closed. No copy loop and no request
  loop is started.
- **Control-request loop** (module `Requests`). Requests are handled in
  arrival order:
  - `pty-req` sets `wantsPTY` and is answered `true`;
  - `window-change` resizes the terminal and is answered `true`;
  - `shell` and `env` get no answer;
  - any other type is answered `false`, and the loop goes on.

  The loop is the class `Session`. Its methods are proved against the
  specification functions `Step` and `Run`, and the lemmas about `Run`
  state what the loop promises.
- **One-shot teardown** (module `Teardown`). Each copy loop calls
  `once.Do(close)` when it finishes. The close body closes the channel and
  then waits for the shell process; a failed wait is only logged. The guard
  is the class `CloseOnce`. The lemmas prove that the body runs exactly
  once, whatever the number and order of the completions.
- **Authorized-key allow-list** (module `Auth`). Each configured line that
  parses adds its serialized key to the allow-list; malformed lines are
  skipped. The public-key callback accepts a key exactly when its
  serialized form is on the list.

A `window-change` payload shorter than eight bytes makes Go's
`binary.BigEndian.Uint32` panic inside the request goroutine. Nothing
recovers that panic, so it ends the whole server process. The model keeps
this behaviour: such a request sets `panicked` and nothing after it has any
effect (`Requests.PanicStopsLoop`).

Three behaviours of `ssh.go` are worth stating plainly:

- `shell` gets no reply at all (ssh.go:135).
- The close body closes the channel and waits for the process
  (ssh.go:101-108). It never closes the pseudo-terminal controller `cmdf`.
- When `ExecPTY` fails, the handler only calls `ch.Close()` and returns
  (ssh.go:113-116). The client sees the channel close, but no error text
  and no exit status is sent.

## Model

| member | source | states |
|---|---|---|
| `Wire.Uint32BE` | ssh.go:158 | the big-endian value of the four leading octets lies in [0, 2^32); its top octet is the first byte and its low octet the fourth |
| `Wire.DecodeEncodeUint32` | ssh.go:158-159 | decoding the big-endian encoding of any 32-bit value gives the value back |
| `Wire.EncodeDecodeUint32` | ssh.go:158-159 | encoding the decoded value of any four octets gives the same octets back, so the decode loses nothing |
| `Wire.ParseDims` | ssh.go:157-160 | needs at least 8 bytes (a shorter slice panics in Go); both results are 32-bit values, and the first 8 bytes are exactly the big-endian encodings of width then height |
| `Wire.ParseWindowChange` | ssh.go:157-160 | a payload of columns, rows and two pixel fields, followed by anything, decodes to exactly (columns, rows) |
| `Wire.ParseDimsIgnoresTail` | ssh.go:157-160 | two payloads decode to the same dimensions if and only if their first 8 bytes agree |
| `Wire.ParseDims80x24` | ssh.go:157-160 | `00 00 00 50 00 00 00 18` followed by any 8 bytes decodes to (80, 24) |
| `Wire.ToUint16` | ssh.go:142 | Go's `uint16(x)`: the result lies in [0, 65536), is congruent to x modulo 65536, and equals x when x already fits |
| `Requests.ResizeFor` | ssh.go:141-142 | the resize record's width and height are 16-bit values congruent modulo 65536 to the decoded width and height (Go's `uint16`), and equal to them whenever they fit in 16 bits |
| `Requests.ResizeOfWindowChange` | ssh.go:141-143 | a client's window-change payload reaches the resize call as (columns mod 65536, rows mod 65536), unchanged when both fit, whatever the pixel fields and trailing bytes |
| `Requests.Dispatch` | ssh.go:134-150 | the request table: shell and env are silent, pty-req is acknowledged, window-change with 8 or more bytes resizes, a shorter one panics, every other type is refused |
| `Requests.Step` | ssh.go:134-150 | one request's effect: pty-req sets wantsPTY and adds one true reply; window-change adds one resize and one true reply; shell and env change nothing; any other type adds one false reply; a short window-change panics; after a panic nothing changes |
| `Requests.StepDecodable` | ssh.go:134-150 | before any panic, a request that decodes changes the state by exactly its tabulated reply, its resize and the wantsPTY flag |
| `Requests.RunAppend` | ssh.go:132 | handling a stream in two parts, one after the other, gives the same state as handling it whole (requests are handled in order) |
| `Requests.RunCons` | ssh.go:132 | the first request of the stream is handled first and the rest from the state it leaves |
| `Requests.RunAfterPanic` | ssh.go:141 | once the server has panicked, no further request has any effect |
| `Requests.RunProcessesAll` | ssh.go:132-151 | when every window-change decodes, every request is processed: the replies are exactly one per pty-req, window-change or unknown request, in arrival order, with the right value; the resizes are exactly one per window-change, in order; wantsPTY ends set exactly when a pty-req arrived |
| `Requests.UnknownRequestContinues` | ssh.go:147-151 | an unknown request gets one false reply and the requests after it are handled as usual |
| `Requests.PanicStopsLoop` | ssh.go:141 | the first undecodable window-change keeps everything done before it and stops all processing after it |
| `Requests.Session.constructor` | ssh.go:130 | a new session has wantsPTY false, no replies, no resizes and no panic |
| `Requests.Session.Handle` | ssh.go:133-150 | the switch body updates the session record exactly as `Step` says |
| `Requests.Session.Serve` | ssh.go:131-152 | the `for range requests` loop leaves the session record exactly as `Run` says for the whole stream |
| `Teardown.CloseBody` | ssh.go:101-108 | the close body first closes the channel, then waits for the process, logs a wait failure only when the wait fails, and ends with "Session closed" |
| `Teardown.CloseBodyOnce` | ssh.go:101-108 | the close body closes the channel exactly once and waits for the process exactly once |
| `Teardown.Do` | ssh.go:123 | `once.Do(close)` always leaves the guard done; it runs the body only when the guard was not done, and otherwise changes nothing |
| `Teardown.AfterDone` | ssh.go:120-128 | after the guard is done, any further copy-loop completions change nothing |
| `Teardown.ExactlyOnce` | ssh.go:120-128 | for any non-empty sequence of completions, in any order, the trace is exactly one run of the close body (one channel close, then one wait); with no completion nothing has run |
| `Teardown.BothDirections` | ssh.go:121-128 | both copy loops finishing, in either order, give the same single close |
| `Teardown.CloseOnce.constructor` | ssh.go:120 | a fresh guard is not done and nothing has been closed |
| `Teardown.CloseOnce.Close` | ssh.go:101-108 | the close closure appends exactly one run of the close body to the trace |
| `Teardown.CloseOnce.CopyFinished` | ssh.go:121-128 | a finishing copy loop updates the guard exactly as `Do` says |
| `Teardown.CloseOnce.FinishAll` | ssh.go:120-128 | completions processed one by one leave the guard exactly as `AfterAll` says |
| `Channel.Admit` | ssh.go:87-90 | a channel is accepted if and only if its type is exactly "session"; any other type is rejected with code 3 and "unknown channel type: " followed by the type |
| `Channel.HandleChannel` | ssh.go:85-154 | a non-session channel is only rejected; a failed accept does nothing; a failed launch closes the channel and starts no loop; a successful launch starts both copy loops and the request loop; the shell is launched exactly when the channel was accepted |
| `Auth.ParsedKeysMembers` | ssh.go:30-37 | a serialized key is in the set of parsed keys exactly when some configured line parses to it |
| `Auth.ParsedKeysSnoc` | ssh.go:30-37 | one more line adds its own key when it parses and nothing when it is malformed |
| `Auth.MalformedLinesSpec` | ssh.go:31-36 | the reported lines are exactly the malformed ones, in increasing order |
| `Auth.BuildAllowList` | ssh.go:29-39 | the allow-list holds exactly the serialized keys of the lines that parse; the skipped lines are exactly the malformed ones, in increasing order, and a malformed line does not stop the loop |
| `Auth.PublicKeyCallback` | ssh.go:42-48 | the callback succeeds if and only if the key's serialized form is on the allow-list, and otherwise fails with "unknown public key" for that user |
| `Auth.AcceptsExactlyConfiguredKeys` | ssh.go:29-48 | a key is accepted, for any user, exactly when some configured line parses to it |
| `Auth.MalformedThenValid` | ssh.go:29-48 | with one malformed line and then one valid line, the valid key is accepted, every other key is refused, and only the malformed line is reported |

## Left out

- `pty.go` (`OpenPTY`, `getPeer`, `unlockpt`, `ExecPTY`) is not part of this model. These are thin wrappers over `/dev/ptmx` ioctls and `exec.Cmd.Start`. `Channel.HandleChannel` takes only their overall outcome, `launchOk`.
- `Winsize` and `SetWinsize` are not defined in `ssh.go`. A resize is recorded as a `Winsize` value appended to the session's resize log. Its effect on the terminal and its error are not modelled; the source ignores that error.
- The outcome of `newChannel.Accept` is a parameter (`acceptOk`). Its failure is only logged.
- Host-key generation (`rsa.GenerateKey`, `ssh.NewSignerFromKey`, `AddHostKey`) is left out. It is library cryptography.
- Network plumbing is left out: `net.Listen`, the accept loop, the handshake, `DiscardRequests` and `handleChannels`.
- Concurrency is left out. The goroutines, the `io.Copy` byte pumping and the atomicity of `sync.Once` are not modelled. A copy loop finishing is an event applied in sequence to the guard. The request loop runs independently and never touches the guard.
- The process's exit is a parameter (`waitOk`) of the close body. `exec.Command` is a fixed `Command` value, and the process itself is not modelled.
- Logging is left out, except for the wait-failure and "Session closed" lines of the close body and the `Invalid ssh key` line. `skipped` stands for one such line per malformed entry, in order; the model records the entry's index, which the source does not print. `fmt.Println("Req:")` and the other log lines have no behaviour to verify.
- `ssh.ParseAuthorizedKey` and `Marshal` are one abstract parameter, a function from a line to an optional serialized key.
- The `map[string]bool` allow-list is a set. The source only ever stores `true`, and a missing key reads as `false`.
- `Auth.PublicKeyCallback` returns the user name inside the error value. It does not format the `%q`-quoted message text.
- A reply is recorded when `req.Reply` is called. Whether the SSH library puts it on the wire depends on the request's want-reply flag, which is library behaviour and is not modelled.
- `Requests.Step` keeps replies and resizes in two separate logs. The order of a resize relative to its reply (ssh.go:143-144) is therefore not modelled, only the order within each log.
