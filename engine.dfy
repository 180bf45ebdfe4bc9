/** The session engine as the program runs it: a connection object whose
    writer loop sends keystrokes one at a time and whose reader loop
    dispatches frames, proved against the value-level specification in
    module SessionSpec. */
module Engine {
  import opened Wire
  import opened Typing
  import opened Rounds
  import opened SessionSpec

  class Session {
    /** The address that was dialled. */
    const url: string
    /** net(n) is the outcome of the n-th write on the connection. */
    const net: nat -> Write

    var sent: seq<Out>
    var clock: int
    var writerStopped: bool
    var done: bool
    var readerStopped: bool
    ghost var handedOff: seq<seq<byte>>

    ghost function WriterState(): Rounds.Writer
      reads this
    {
      Rounds.Writer(sent, clock, writerStopped)
    }

    ghost function Snapshot(): State
      reads this
    {
      State(WriterState(), handedOff, done, readerStopped)
    }

    predicate IsHalted()
      reads this
      ensures IsHalted() == Halted(Snapshot())
    {
      done || readerStopped || writerStopped
    }

    /** Dial the room's address, then wait out the warm-up pause. */
    constructor (roomID: string, otp: string, net: nat -> Write)
      ensures url == RoomUrl(roomID, otp) && this.net == net
      ensures Snapshot() == Initial()
    {
      url := RoomUrl(roomID, otp);
      this.net := net;
      sent := [];
      clock := 0;
      writerStopped, done, readerStopped := false, false, false;
      handedOff := [];
      new;
      clock := clock + WarmUpMs;
    }

    /** One round of the writer loop for a word taken from the handoff. */
    method TypeWord(word: seq<byte>)
      requires !IsHalted()
      modifies this
      ensures WriterState() == Round(word, old(WriterState()), net)
      ensures done == old(done) && readerStopped == old(readerStopped) && handedOff == old(handedOff)
    {
      ghost var w0 := WriterState();
      var start := clock;
      var i := 0;
      while i < |word|
        invariant 0 <= i <= |word|
        invariant !writerStopped
        invariant TypeKeys(KeysFrom(word, i), WriterState(), net) == TypeKeys(Keystrokes(word), w0, net)
        invariant start == w0.clock
        invariant done == old(done) && readerStopped == old(readerStopped) && handedOff == old(handedOff)
        decreases |word| - i
      {
        clock := clock + PacingMs;
        var outcome := net(|sent|);
        if outcome.Broken? {
          writerStopped := true;
          return;
        }
        sent := sent + [TypingKey(word[..i + 1])];
        clock := clock + outcome.costMs;
        i := i + RuneWidth(word[i..]);
      }
      var cause := Failed;
      if clock - start < ThresholdMs {
        cause := Succeeded;
      }
      var outcome := net(|sent|);
      if outcome.Broken? {
        writerStopped := true;
        return;
      }
      sent := sent + [FinCurrentSeq(cause)];
      clock := clock + outcome.costMs;
    }

    /** One iteration of the reader loop, with the writer's response. */
    method Receive(f: Frame)
      requires !IsHalted()
      modifies this
      ensures Snapshot() == Step(old(Snapshot()), f, net)
    {
      match Dispatch(f)
      case HandOff(word) =>
        handedOff := handedOff + [word];
        TypeWord(word);
      case Finish =>
        done := true;
      case Ignore =>
      case StopReader =>
        readerStopped := true;
    }

    /** The reader loop over the frames the server sends, until the session
        halts. */
    method Run(frames: seq<Frame>)
      modifies this
      ensures Snapshot() == Process(frames, old(Snapshot()), net)
    {
      var i := 0;
      while i < |frames| && !IsHalted()
        invariant 0 <= i <= |frames|
        invariant Process(frames[i..], Snapshot(), net) == Process(frames, old(Snapshot()), net)
      {
        assert frames[i..][1..] == frames[i + 1..];
        Receive(frames[i]);
        i := i + 1;
      }
      if i < |frames| {
        HaltedIsFinal(frames[i..], Snapshot(), net);
      }
    }
  }

  /** A whole session for a room: dial, warm up, then serve the frames.
      What it sends is a sequence of rounds, as SessionTranscript states. */
  method Ws(roomID: string, otp: string, frames: seq<Frame>, net: nat -> Write) returns (s: Session)
    ensures fresh(s) && s.url == RoomUrl(roomID, otp)
    ensures s.Snapshot() == Process(frames, Initial(), net)
    ensures Consistent(s.Snapshot())
  {
    s := new Session(roomID, otp, net);
    s.Run(frames);
    SessionTranscript(frames, net);
  }
}
