# stego-bot session engine, modelled in Dafny

stego-bot joins a room of a turn-based typing game over a WebSocket and plays
it: the server sends target words (`NextSeq` frames), the bot types each one
as a series of `TypingKey` events paced 350 ms apart, and it reports each round
with a `FinCurrentSeq` event whose cause is `"succeeded"` when the keystrokes
took less than five seconds and `"failed"` otherwise. A `Result` frame ends the
game.

This project models the routine that drives one session, `ws` in `bot.go`.
In the program, a reader goroutine and a writer goroutine share the socket
and talk through an unbuffered channel and a `done` channel. The model runs
them as one sequential session driven by a sequence of inbound frames, up to
the first `Result` frame. Up to that point nothing observable is lost: the
channel is unbuffered, so the reader cannot hand over a second word until the
writer has taken the first, and the writer looks at `done` only between
rounds. What can happen after the first `Result` is listed under "Left out".

- `wire.dfy` (module `Wire`): frames as the result of the two decoding
  phases (`ReadFailed`, `Undecodable`, or an `Envelope` with its type and the
  outcome of decoding it as a NextSeq message), outbound events, write
  outcomes, and the reader's dispatch on the envelope type.
- `typing.dfy` (module `Typing`): the keystrokes of a word. Words are bytes.
  Go's `range` over a string visits the byte index where each UTF-8 rune
  starts (a malformed byte counts as a one-byte rune), and the program sends
  the word cut after byte `i+1`. For an ASCII word of length L this gives the
  prefixes of lengths 1..L. A keystroke whose last character is multi-byte
  carries only that character's lead byte. The whole word is sent only when
  its last character is one byte wide (`WordSentWholeIffLastRuneIsOneByte`).
- `rounds.dfy` (module `Rounds`): one typing round as a function
  (`TypeKeys`, `Round`), the classification of the elapsed time, and lemmas
  about what a round sends.
- `session.dfy` (module `SessionSpec`): the session as a state machine over
  values (`Step`, `Process`), the room URL, and the theorem that whatever
  arrives, the outbound log is a sequence of whole rounds (`SessionTranscript`).
- `engine.dfy` (module `Engine`): class `Session` with the state the program
  changes step by step (the outbound log, the clock, the stop flags). Its
  writer loop (`TypeWord`) and reader loop (`Receive`, `Run`) are proved to
  match the value-level functions.

Time is an integer clock in milliseconds. The 15 s warm-up, each 350 ms pause
and each write advance it. A write's duration and whether it fails are
inputs: `net(n)` is the outcome of the n-th write of the session. Waiting for
frames is not timed, since only time within a round matters.

Points where the code behaves in a way that is easy to misread:

- A round's elapsed time starts before the pause that precedes the first
  keystroke (bot.go:192-195). So k keystrokes take at least 350·k ms, and a
  completed round of 15 or more keystrokes is always reported "failed".
- Keystrokes cut the word at bytes, not characters (bot.go:194-201).
- When the reader stops on a read or decode error, `done` is never closed.
  The writer then waits forever and sends nothing more, and the connection is
  not closed until the process ends.
- A failed write ends the whole session, not only the round (bot.go:205-208,
  224-227).

## Model

| member | source | states |
|---|---|---|
| `Wire.Dispatch` | bot.go:161-184 | A NextSeq frame whose payload decodes hands over exactly `payload.value`. A Result frame finishes. Any other type is ignored. A read error, an undecodable frame or a NextSeq payload that does not decode stops the reader. The four cases are exclusive and exhaustive. |
| `Typing.KeystrokesArePrefixes` | bot.go:194-203 | Every keystroke is a non-empty prefix of the word, each strictly longer than the one before. There are at most as many as the word has bytes, and a non-empty word's first keystroke is its first byte. |
| `Typing.AsciiKeystrokes` | bot.go:194-203 | An ASCII word of length L gives exactly L keystrokes; the k-th carries the first k bytes. |
| `Typing.WordSentWholeIffLastRuneIsOneByte` | bot.go:194-201 | A non-empty word is itself one of its keystrokes exactly when its last rune is one byte wide. The last keystroke is the word cut after the lead byte of its last rune, so a word ending in a multi-byte character is never sent whole. |
| `Typing.MultiByteRuneIsCut` | bot.go:194-201 | The one-character word "あ" (3 bytes) is typed as a single keystroke carrying only its lead byte. |
| `Rounds.Classify` | bot.go:211-222 | The cause is "succeeded" exactly when elapsed time is strictly below 5000 ms and "failed" exactly when it is 5000 ms or more. |
| `Rounds.TypeKeysOutcome` | bot.go:194-209 | The keystroke loop sends the keystrokes in order up to the first failed write and stops exactly when a write fails. When none fails, it spent 350 ms per keystroke plus the write times. |
| `Rounds.RoundOutcome` | bot.go:191-227 | A failed keystroke write ends the round with no FinCurrentSeq. A failed final write ends it after all keystrokes. Otherwise the round appends all keystrokes then one FinCurrentSeq, whose cause classifies 350 ms per keystroke plus the keystroke write times. |
| `Rounds.SlowWordFails` | bot.go:192-222 | A completed round with 15 or more keystrokes reports "failed", whatever its writes cost. |
| `Rounds.EmptyWordSucceeds` | bot.go:192-227 | An empty word sends no keystroke and, if its one write succeeds, a FinCurrentSeq with cause "succeeded". |
| `Rounds.AsciiRound` | bot.go:191-227 | With all writes succeeding, an ASCII word of length L adds its prefixes of lengths 1..L in order, then one FinCurrentSeq, to the log. |
| `SessionSpec.RoomUrlDeterminesRoomAndOtp` | bot.go:129 | The URL is the fixed prefix, then the room id, then `?p=`, then the one-time password. For room ids without '?', the URL determines both inputs. |
| `SessionSpec.HaltedIsFinal` | bot.go:224-231 | Once `done` is closed, the reader has returned or a write has failed, no further frame changes the state; the log never grows again. |
| `SessionSpec.IgnoredFrame` | bot.go:173-184 | A frame of any other type changes nothing and sends nothing. |
| `SessionSpec.ResultIsFinal` | bot.go:182-183 | A Result frame closes `done`. The session then sends nothing more and hands over no further word. |
| `SessionSpec.ReaderStopIsFinal` | bot.go:161-179 | A read error or a decode failure in either phase stops the reader without closing `done`. No later word is handed over and nothing more is sent. |
| `SessionSpec.NextSeqTypesValue` | bot.go:174-181 | A NextSeq frame hands over its `value`, and the writer types a round for exactly that word. |
| `SessionSpec.TranscriptLengthOf` | bot.go:191-227 | A log made of whole rounds has one event per keystroke plus one FinCurrentSeq per word. |
| `SessionSpec.StepKeepsConsistent` | bot.go:159-233 | Each frame keeps the log equal to the rounds of the handed-over words. Only a failed write leaves a last round cut short, with no FinCurrentSeq. |
| `SessionSpec.SessionTranscript` | bot.go:158-233 | From the start of a session, for any frames and write outcomes, the log is made only of rounds. Each handed-over word contributes its keystrokes in order, then exactly one FinCurrentSeq ("succeeded" or "failed"); a failed write cuts the last round short. |
| `SessionSpec.LogOnlyGrows` | bot.go:189-233 | Processing frames only appends to the outbound log. |
| `Engine.Session.constructor` | bot.go:127-156 | The session dials `RoomUrl(roomID, otp)` and starts with an empty log, after the 15 s warm-up, with no flag set. |
| `Engine.Session.TypeWord` | bot.go:191-227 | The writer loop pauses 350 ms before each keystroke, sends `word[:i+1]` for each rune start `i`, and returns on a failed write. It then sets the cause to "failed", changes it to "succeeded" under 5 s, and sends it. The new log, clock and stop flag are exactly `Round` of the old ones. |
| `Engine.Session.Receive` | bot.go:159-185 | One reader iteration, including the writer's whole round on a handoff, moves the session exactly as `Step` does. |
| `Engine.Session.Run` | bot.go:158-185 | The reader loop over the frames stops once the session halts, and ends in `Process(frames, start)`. |
| `Engine.Ws` | bot.go:127-235 | A session for a room dials the room URL and serves the frames. It ends in the state `Process` gives from the initial state, and that state satisfies the transcript invariant. |

## Left out

- Fetching the room id and one-time password (`getRoomID`, `getOTP`) and sign-up (`New`, `SignUp`): single HTTP calls. `join` only sequences `getRoomID`, `getOTP` and `ws`, and `Run` only calls `join` (bot.go:37-62). The model takes roomID and otp as inputs.
- JSON encoding and decoding and the gorilla WebSocket library. A frame is given already decoded (or as a decode failure), and an event is sent as a value. A write's outcome and duration come from the input `net`.
- Dial failure: the program exits through `log.Fatal`. The model starts after a successful dial.
- Real time: `time.Sleep`, `time.Now` and `time.Since` become an integer clock. Time spent blocked waiting for frames is not counted, since it does not enter any round's elapsed time.
- Goroutine scheduling after the first Result. The model stops at the first Result. A second Result would close an already closed channel and panic (bot.go:183). That panic ends the process, and it can do so in the middle of a round still being typed, which the model instead completes. A NextSeq arriving after Result races with `done` in the writer's `select`.
- Go's JSON encoder replaces invalid UTF-8 with U+FFFD. A keystroke cut after a lead byte therefore reaches the server as the replacement character, not as the raw byte; the model's `TypingKey` carries the raw bytes.
- A reader that stopped leaves the writer blocked forever, and a writer that returned closes the connection. Both are modelled as a halted session that sends nothing more; closing the connection is not modelled.
- Log and print lines, configuration (`config.go`), the identity-service client (`firebase.go`) and the launcher of several bots (`cmd/main.go`).
