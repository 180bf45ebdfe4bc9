/** The session as a whole, stated over values: the reader takes frames one
    at a time, and when it hands a word over, the writer types the whole
    round before the reader goes on (the handoff channel is unbuffered and
    the writer looks for `done` only between rounds). The session halts when
    the reader has closed `done`, when the reader has returned, or when the
    writer has returned after a failed write. */
module SessionSpec {
  import opened Wire
  import opened Typing
  import opened Rounds

  const WarmUpMs: nat := 15000
  const UrlPrefix: string := "wss://api.ottotto.dev/api/v1/rooms/"

  /** The address dialled for a room and one-time password. */
  function RoomUrl(roomID: string, otp: string): string {
    UrlPrefix + roomID + "?p=" + otp
  }

  /** `handedOff` lists the words the reader has passed to the writer. */
  datatype State = State(writer: Writer, handedOff: seq<seq<byte>>, done: bool, readerStopped: bool)

  predicate Halted(s: State) {
    s.done || s.readerStopped || s.writer.stopped
  }

  /** Just after dialling and the warm-up pause. */
  function Initial(): State {
    State(Writer([], WarmUpMs, false), [], false, false)
  }

  /** The effect of one inbound frame. */
  function Step(s: State, f: Frame, net: nat -> Write): State {
    if Halted(s) then s
    else
      match Dispatch(f)
      case HandOff(word) => s.(writer := Round(word, s.writer, net), handedOff := s.handedOff + [word])
      case Finish => s.(done := true)
      case Ignore => s
      case StopReader => s.(readerStopped := true)
  }

  function Process(frames: seq<Frame>, s: State, net: nat -> Write): State
    decreases |frames|
  {
    if frames == [] then s
    else Process(frames[1..], Step(s, frames[0], net), net)
  }

  /** A room id without '?' and the password can be read back from the URL. */
  lemma RoomUrlDeterminesRoomAndOtp(room1: string, otp1: string, room2: string, otp2: string)
    requires '?' !in room1 && '?' !in room2
    requires RoomUrl(room1, otp1) == RoomUrl(room2, otp2)
    ensures room1 == room2 && otp1 == otp2
  {
    var u := RoomUrl(room1, otp1);
    var p := |UrlPrefix|;
    assert forall k :: 0 <= k < |room1| ==> u[p + k] == room1[k];
    assert forall k :: 0 <= k < |room2| ==> u[p + k] == room2[k];
    assert u[p + |room1|] == '?';
    assert u[p + |room2|] == '?';
    if |room1| < |room2| {
      assert false;
    } else if |room2| < |room1| {
      assert false;
    }
    assert room1 == u[p..p + |room1|] == room2;
    assert otp1 == u[p + |room1| + 3..] == otp2;
  }

  /** Once halted, no frame changes anything: in particular nothing more is
      sent. */
  lemma {:induction false} HaltedIsFinal(frames: seq<Frame>, s: State, net: nat -> Write)
    requires Halted(s)
    ensures Process(frames, s, net) == s
    decreases |frames|
  {
    if frames != [] {
      HaltedIsFinal(frames[1..], s, net);
    }
  }

  /** A frame of any type other than NextSeq and Result is skipped. */
  lemma IgnoredFrame(f: Frame, rest: seq<Frame>, s: State, net: nat -> Write)
    requires f.Envelope? && f.kind != NextSeqType && f.kind != ResultType
    ensures Process([f] + rest, s, net) == Process(rest, s, net)
  {
    assert ([f] + rest)[1..] == rest;
  }

  /** A Result frame closes `done`; after it nothing is sent and no word is
      handed over. */
  lemma ResultIsFinal(f: Frame, rest: seq<Frame>, s: State, net: nat -> Write)
    requires !Halted(s) && f.Envelope? && f.kind == ResultType
    ensures Process([f] + rest, s, net) == s.(done := true)
  {
    assert ([f] + rest)[1..] == rest;
    HaltedIsFinal(rest, s.(done := true), net);
  }

  /** A read error, an undecodable frame, or a NextSeq frame whose payload
      does not decode stops the reader; `done` stays open, and nothing more
      is sent or handed over. */
  lemma ReaderStopIsFinal(f: Frame, rest: seq<Frame>, s: State, net: nat -> Write)
    requires !Halted(s)
    requires f.ReadFailed? || f.Undecodable? || (f.Envelope? && f.kind == NextSeqType && f.nextSeq.None?)
    ensures Process([f] + rest, s, net) == s.(readerStopped := true)
  {
    assert ([f] + rest)[1..] == rest;
    HaltedIsFinal(rest, s.(readerStopped := true), net);
  }

  /** A NextSeq frame hands its value over and the writer types exactly that
      word. */
  lemma NextSeqTypesValue(f: Frame, s: State, net: nat -> Write)
    requires !Halted(s) && f.Envelope? && f.kind == NextSeqType && f.nextSeq.Some?
    ensures Step(s, f, net).handedOff == s.handedOff + [f.nextSeq.value.value]
    ensures Step(s, f, net).writer == Round(f.nextSeq.value.value, s.writer, net)
  {
  }

  /** The total number of events of complete rounds for `words`. */
  function TranscriptLength(words: seq<seq<byte>>): nat
    decreases |words|
  {
    if words == [] then 0
    else TranscriptLength(words[..|words| - 1]) + |Keystrokes(words[|words| - 1])| + 1
  }

  /** `log` is, round after round, the keystrokes of each word followed by
      one FinCurrentSeq with a cause "succeeded" or "failed". */
  predicate IsTranscript(log: seq<Out>, words: seq<seq<byte>>)
    decreases |words|
  {
    if words == [] then log == []
    else
      var n := |Keystrokes(words[|words| - 1])| + 1;
      && n <= |log|
      && log[|log| - 1].FinCurrentSeq?
      && IsCause(log[|log| - 1].cause)
      && log[|log| - n..] == RoundEvents(words[|words| - 1], log[|log| - 1].cause)
      && IsTranscript(log[..|log| - n], words[..|words| - 1])
  }

  /** The transcript of every round but the last, then some of the last
      word's keystrokes (possibly all) and no FinCurrentSeq. */
  predicate IsCutTranscript(log: seq<Out>, words: seq<seq<byte>>) {
    && words != []
    && var L := TranscriptLength(words[..|words| - 1]);
    && var keys := KeyEvents(Keystrokes(words[|words| - 1]));
    && L <= |log| <= L + |keys|
    && IsTranscript(log[..L], words[..|words| - 1])
    && log[L..] == keys[..|log| - L]
  }

  /** What has been sent, in terms of the words handed over. */
  predicate Consistent(s: State) {
    if s.writer.stopped then IsCutTranscript(s.writer.sent, s.handedOff)
    else IsTranscript(s.writer.sent, s.handedOff)
  }

  lemma {:induction false} TranscriptLengthOf(log: seq<Out>, words: seq<seq<byte>>)
    requires IsTranscript(log, words)
    ensures |log| == TranscriptLength(words)
    decreases |words|
  {
    if words != [] {
      var n := |Keystrokes(words[|words| - 1])| + 1;
      TranscriptLengthOf(log[..|log| - n], words[..|words| - 1]);
    }
  }

  lemma StepKeepsConsistent(s: State, f: Frame, net: nat -> Write)
    requires Consistent(s)
    ensures Consistent(Step(s, f, net))
  {
    if !Halted(s) && Dispatch(f).HandOff? {
      var word := Dispatch(f).word;
      var w := s.writer;
      var r := Round(word, w, net);
      var words := s.handedOff + [word];
      assert words[..|words| - 1] == s.handedOff;
      var keys := Keystrokes(word);
      var m := DeliveredRun(net, |w.sent|, |keys|);
      RoundOutcome(word, w, net);
      TranscriptLengthOf(w.sent, s.handedOff);
      if !r.stopped {
        var c := Classify(PacingMs * |keys| + CostSum(net, |w.sent|, |keys|));
        var ev := RoundEvents(word, c);
        assert r.sent == w.sent + ev;
        assert r.sent[|r.sent| - 1] == FinCurrentSeq(c);
        assert r.sent[|r.sent| - |ev|..] == ev;
        assert r.sent[..|r.sent| - |ev|] == w.sent;
        assert IsTranscript(r.sent, words);
      } else {
        var cut := if m < |keys| then m else |keys|;
        assert keys[..|keys|] == keys;
        assert KeyEvents(keys[..cut]) == KeyEvents(keys)[..cut];
        assert r.sent == w.sent + KeyEvents(keys)[..cut];
        assert r.sent[..|w.sent|] == w.sent;
        assert r.sent[|w.sent|..] == KeyEvents(keys)[..cut];
        assert IsCutTranscript(r.sent, words);
      }
    }
  }

  lemma {:induction false} ProcessKeepsConsistent(frames: seq<Frame>, s: State, net: nat -> Write)
    requires Consistent(s)
    ensures Consistent(Process(frames, s, net))
    decreases |frames|
  {
    if frames != [] {
      StepKeepsConsistent(s, frames[0], net);
      ProcessKeepsConsistent(frames[1..], Step(s, frames[0], net), net);
    }
  }

  /** Whatever the frames and the outcomes of the writes, a session sends
      nothing but rounds: for each word handed over, its keystrokes in order
      and then one FinCurrentSeq, except that a failed write cuts the last
      round short. */
  lemma SessionTranscript(frames: seq<Frame>, net: nat -> Write)
    ensures Consistent(Process(frames, Initial(), net))
  {
    ProcessKeepsConsistent(frames, Initial(), net);
  }

  /** The outbound log only grows. */
  lemma {:induction false} LogOnlyGrows(frames: seq<Frame>, s: State, net: nat -> Write)
    ensures var t := Process(frames, s, net);
      |s.writer.sent| <= |t.writer.sent| && t.writer.sent[..|s.writer.sent|] == s.writer.sent
    decreases |frames|
  {
    if frames != [] {
      var s' := Step(s, frames[0], net);
      if !Halted(s) && Dispatch(frames[0]).HandOff? {
        RoundOutcome(Dispatch(frames[0]).word, s.writer, net);
      }
      assert |s.writer.sent| <= |s'.writer.sent| && s'.writer.sent[..|s.writer.sent|] == s.writer.sent;
      LogOnlyGrows(frames[1..], s', net);
      var t := Process(frames, s, net);
      assert t.writer.sent[..|s'.writer.sent|][..|s.writer.sent|] == t.writer.sent[..|s.writer.sent|];
    }
  }
}
