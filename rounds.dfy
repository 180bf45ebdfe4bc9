/** One typing round: the writer takes a word, sends one TypingKey per
    keystroke, each after a 350 ms pause, then one FinCurrentSeq whose cause
    says whether the keystrokes took less than five seconds. Time is an
    integer clock in milliseconds that pauses and writes advance. */
module Rounds {
  import opened Wire
  import opened Typing

  const PacingMs: nat := 350
  const ThresholdMs: nat := 5000

  /** The writer: what it has sent, its clock, and whether it has returned
      after a failed write. */
  datatype Writer = Writer(sent: seq<Out>, clock: int, stopped: bool)

  /** The cause reported for a round whose keystrokes took `elapsed` ms. */
  function Classify(elapsed: int): (cause: string)
    ensures cause == Succeeded <==> elapsed < ThresholdMs
    ensures cause == Failed <==> elapsed >= ThresholdMs
  {
    if elapsed < ThresholdMs then Succeeded else Failed
  }

  predicate IsCause(c: string) {
    c == Succeeded || c == Failed
  }

  function KeyEvents(keys: seq<seq<byte>>): seq<Out> {
    seq(|keys|, k requires 0 <= k < |keys| => TypingKey(keys[k]))
  }

  /** The events of a round whose writes all succeed. */
  function RoundEvents(word: seq<byte>, cause: string): seq<Out> {
    KeyEvents(Keystrokes(word)) + [FinCurrentSeq(cause)]
  }

  /** How many of the `count` writes numbered `from` onwards succeed before
      the first failure. */
  function DeliveredRun(net: nat -> Write, from: nat, count: nat): (m: nat)
    ensures m <= count
    decreases count
  {
    if count == 0 || net(from).Broken? then 0
    else 1 + DeliveredRun(net, from + 1, count - 1)
  }

  /** The time spent in the `count` writes numbered `from` onwards. */
  function CostSum(net: nat -> Write, from: nat, count: nat): nat
    decreases count
  {
    if count == 0 then 0
    else (match net(from) case Delivered(c) => c case Broken => 0) + CostSum(net, from + 1, count - 1)
  }

  /** The keystroke loop: pause, then write; stop at the first failed write.
      The n-th write of the session has outcome net(n). */
  function TypeKeys(keys: seq<seq<byte>>, w: Writer, net: nat -> Write): Writer
    decreases |keys|
  {
    if keys == [] then w
    else
      var t := w.clock + PacingMs;
      match net(|w.sent|)
      case Broken => Writer(w.sent, t, true)
      case Delivered(c) => TypeKeys(keys[1..], Writer(w.sent + [TypingKey(keys[0])], t + c, w.stopped), net)
  }

  /** A whole round for `word`, started by a running writer. */
  function Round(word: seq<byte>, w: Writer, net: nat -> Write): Writer
    requires !w.stopped
  {
    var keyed := TypeKeys(Keystrokes(word), w, net);
    if keyed.stopped then keyed
    else
      var cause := Classify(keyed.clock - w.clock);
      match net(|keyed.sent|)
      case Broken => Writer(keyed.sent, keyed.clock, true)
      case Delivered(c) => Writer(keyed.sent + [FinCurrentSeq(cause)], keyed.clock + c, false)
  }

  lemma KeyEventsAppend(a: seq<seq<byte>>, b: seq<seq<byte>>)
    ensures KeyEvents(a + b) == KeyEvents(a) + KeyEvents(b)
  {
  }

  /** The keystroke loop sends the keystrokes up to the first failed write,
      in order, and stops exactly when a write fails; when none fails, it has
      spent 350 ms per keystroke plus the time of its writes. */
  lemma {:induction false} TypeKeysOutcome(keys: seq<seq<byte>>, w: Writer, net: nat -> Write)
    ensures var m := DeliveredRun(net, |w.sent|, |keys|);
      && TypeKeys(keys, w, net).sent == w.sent + KeyEvents(keys[..m])
      && TypeKeys(keys, w, net).stopped == (w.stopped || m < |keys|)
      && (m == |keys| ==>
            TypeKeys(keys, w, net).clock == w.clock + PacingMs * |keys| + CostSum(net, |w.sent|, |keys|))
    decreases |keys|
  {
    if keys == [] {
      assert keys[..0] == [];
    } else {
      match net(|w.sent|)
      case Broken =>
        assert keys[..0] == [];
      case Delivered(c) =>
        var w' := Writer(w.sent + [TypingKey(keys[0])], w.clock + PacingMs + c, w.stopped);
        TypeKeysOutcome(keys[1..], w', net);
        var m' := DeliveredRun(net, |w'.sent|, |keys| - 1);
        assert keys[..m' + 1] == [keys[0]] + keys[1..][..m'];
        KeyEventsAppend([keys[0]], keys[1..][..m']);
    }
  }

  /** A round, with m the number of keystroke writes that succeed:
      - a failed keystroke write ends it after the first m keystrokes, with no
        FinCurrentSeq;
      - a failed FinCurrentSeq write ends it after all keystrokes;
      - otherwise it sends every keystroke then one FinCurrentSeq whose cause
        classifies 350 ms per keystroke plus the keystroke writes' time. */
  lemma RoundOutcome(word: seq<byte>, w: Writer, net: nat -> Write)
    requires !w.stopped
    ensures var keys := Keystrokes(word);
      var m := DeliveredRun(net, |w.sent|, |keys|);
      var r := Round(word, w, net);
      && (m < |keys| ==> r.sent == w.sent + KeyEvents(keys[..m]) && r.stopped)
      && (m == |keys| && net(|w.sent| + |keys|).Broken? ==>
            r.sent == w.sent + KeyEvents(keys) && r.stopped)
      && (m == |keys| && net(|w.sent| + |keys|).Delivered? ==>
            r.sent == w.sent + RoundEvents(word, Classify(PacingMs * |keys| + CostSum(net, |w.sent|, |keys|)))
            && !r.stopped)
  {
    var keys := Keystrokes(word);
    TypeKeysOutcome(keys, w, net);
    assert keys[..|keys|] == keys;
  }

  /** Fifteen or more keystrokes take at least 5250 ms, so such a round that
      completes is reported "failed", whatever its writes cost. */
  lemma SlowWordFails(word: seq<byte>, w: Writer, net: nat -> Write)
    requires !w.stopped && |Keystrokes(word)| >= 15
    ensures !Round(word, w, net).stopped ==>
      Round(word, w, net).sent == w.sent + RoundEvents(word, Failed)
  {
    RoundOutcome(word, w, net);
    var keys := Keystrokes(word);
    var r := Round(word, w, net);
    var m := DeliveredRun(net, |w.sent|, |keys|);
    if !r.stopped {
      assert m == |keys| && net(|w.sent| + |keys|).Delivered?;
      assert PacingMs * |keys| >= ThresholdMs;
    }
  }

  /** An empty word sends no keystroke and, when its one write succeeds,
      a FinCurrentSeq reporting "succeeded". */
  lemma EmptyWordSucceeds(w: Writer, net: nat -> Write)
    requires !w.stopped && net(|w.sent|).Delivered?
    ensures Round([], w, net).sent == w.sent + [FinCurrentSeq(Succeeded)]
    ensures !Round([], w, net).stopped
  {
    assert Keystrokes([]) == [];
  }

  lemma {:induction false} DeliveredRunAll(net: nat -> Write, from: nat, count: nat)
    requires forall n :: from <= n < from + count ==> net(n).Delivered?
    ensures DeliveredRun(net, from, count) == count
    decreases count
  {
    if count > 0 {
      DeliveredRunAll(net, from + 1, count - 1);
    }
  }

  /** With every write succeeding, an ASCII word of length L is typed as its
      prefixes of lengths 1..L, in order, followed by one FinCurrentSeq. */
  lemma AsciiRound(word: seq<byte>, w: Writer, net: nat -> Write)
    requires !w.stopped && IsAscii(word)
    requires forall n :: |w.sent| <= n <= |w.sent| + |word| ==> net(n).Delivered?
    ensures var r := Round(word, w, net);
      && !r.stopped
      && |r.sent| == |w.sent| + |word| + 1
      && r.sent[..|w.sent|] == w.sent
      && (forall k :: |w.sent| <= k < |w.sent| + |word| ==> r.sent[k] == TypingKey(word[..k - |w.sent| + 1]))
      && r.sent[|r.sent| - 1].FinCurrentSeq?
  {
    AsciiKeystrokes(word);
    DeliveredRunAll(net, |w.sent|, |word|);
    RoundOutcome(word, w, net);
    assert net(|w.sent| + |word|).Delivered?;
  }
}
