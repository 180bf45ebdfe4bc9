/** The keystrokes typed for one word. The writer ranges over the word as a
    Go string, which visits the byte index at which each UTF-8 encoded rune
    starts, and sends the word cut after the first byte of that rune. */
module Typing {
  import opened Wire

  predicate IsContinuation(b: byte) {
    0x80 <= b <= 0xBF
  }

  /** The number of bytes of the rune at the head of `s`, as Go decodes it:
      a well-formed UTF-8 sequence counts as a whole, every other byte as one
      (replacement) rune. */
  function RuneWidth(s: seq<byte>): (n: nat)
    requires |s| > 0
    ensures 1 <= n <= |s|
    ensures s[0] < 0x80 ==> n == 1
  {
    var b0 := s[0];
    if b0 < 0x80 then 1
    else if 0xC2 <= b0 <= 0xDF then
      if |s| >= 2 && IsContinuation(s[1]) then 2 else 1
    else if 0xE0 <= b0 <= 0xEF then
      var lo: byte := if b0 == 0xE0 then 0xA0 else 0x80;
      var hi: byte := if b0 == 0xED then 0x9F else 0xBF;
      if |s| >= 3 && lo <= s[1] <= hi && IsContinuation(s[2]) then 3 else 1
    else if 0xF0 <= b0 <= 0xF4 then
      var lo: byte := if b0 == 0xF0 then 0x90 else 0x80;
      var hi: byte := if b0 == 0xF4 then 0x8F else 0xBF;
      if |s| >= 4 && lo <= s[1] <= hi && IsContinuation(s[2]) && IsContinuation(s[3]) then 4 else 1
    else 1
  }

  /** The keystrokes for the runes starting at byte `i` or later. */
  function KeysFrom(word: seq<byte>, i: nat): seq<seq<byte>>
    decreases |word| - i
  {
    if i >= |word| then []
    else [word[..i + 1]] + KeysFrom(word, i + RuneWidth(word[i..]))
  }

  /** The `inputSeq` of every TypingKey sent for `word`, in order. */
  function Keystrokes(word: seq<byte>): seq<seq<byte>> {
    KeysFrom(word, 0)
  }

  predicate IsAscii(word: seq<byte>) {
    forall i :: 0 <= i < |word| ==> word[i] < 0x80
  }

  lemma {:induction false} KeysFromArePrefixes(word: seq<byte>, i: nat)
    requires i <= |word|
    ensures |KeysFrom(word, i)| <= |word| - i
    ensures i < |word| ==> |KeysFrom(word, i)| >= 1 && KeysFrom(word, i)[0] == word[..i + 1]
    ensures forall k :: 0 <= k < |KeysFrom(word, i)| ==>
      i < |KeysFrom(word, i)[k]| <= |word| && KeysFrom(word, i)[k] == word[..|KeysFrom(word, i)[k]|]
    ensures forall j, k :: 0 <= j < k < |KeysFrom(word, i)| ==>
      |KeysFrom(word, i)[j]| < |KeysFrom(word, i)[k]|
    decreases |word| - i
  {
    if i < |word| {
      var next := i + RuneWidth(word[i..]);
      KeysFromArePrefixes(word, next);
      var rest := KeysFrom(word, next);
      assert KeysFrom(word, i) == [word[..i + 1]] + rest;
      forall k | 1 <= k < |KeysFrom(word, i)|
        ensures KeysFrom(word, i)[k] == rest[k - 1]
      {
      }
    }
  }

  /** Every keystroke is a non-empty prefix of the word, each one longer than
      the one before, and a non-empty word is typed with at least one and at
      most |word| keystrokes, the first carrying the first byte. */
  lemma KeystrokesArePrefixes(word: seq<byte>)
    ensures |Keystrokes(word)| <= |word|
    ensures word != [] ==> |Keystrokes(word)| >= 1 && Keystrokes(word)[0] == word[..1]
    ensures forall k :: 0 <= k < |Keystrokes(word)| ==>
      1 <= |Keystrokes(word)[k]| <= |word| && Keystrokes(word)[k] == word[..|Keystrokes(word)[k]|]
    ensures forall j, k :: 0 <= j < k < |Keystrokes(word)| ==>
      |Keystrokes(word)[j]| < |Keystrokes(word)[k]|
  {
    KeysFromArePrefixes(word, 0);
  }

  lemma {:induction false} AsciiKeysFrom(word: seq<byte>, i: nat)
    requires IsAscii(word) && i <= |word|
    ensures |KeysFrom(word, i)| == |word| - i
    ensures forall k :: 0 <= k < |word| - i ==> KeysFrom(word, i)[k] == word[..i + k + 1]
    decreases |word| - i
  {
    if i < |word| {
      assert word[i..][0] == word[i];
      AsciiKeysFrom(word, i + 1);
    }
  }

  /** An ASCII word of length L is typed with exactly L keystrokes, the k-th
      (from 1) carrying the first k bytes. */
  lemma AsciiKeystrokes(word: seq<byte>)
    requires IsAscii(word)
    ensures |Keystrokes(word)| == |word|
    ensures forall k :: 0 <= k < |word| ==> Keystrokes(word)[k] == word[..k + 1]
  {
    AsciiKeysFrom(word, 0);
  }

  /** The byte index at which the last rune of the word starts, walking the
      runes from byte `i` as Go's `range` does. */
  function LastRuneStart(word: seq<byte>, i: nat): (s: nat)
    requires i < |word|
    ensures i <= s < |word|
    decreases |word| - i
  {
    var next := i + RuneWidth(word[i..]);
    if next >= |word| then i else LastRuneStart(word, next)
  }

  lemma {:induction false} LastKeystroke(word: seq<byte>, i: nat)
    requires i < |word|
    ensures var s := LastRuneStart(word, i);
      && s + RuneWidth(word[s..]) == |word|
      && |KeysFrom(word, i)| >= 1
      && KeysFrom(word, i)[|KeysFrom(word, i)| - 1] == word[..s + 1]
      && forall k :: 0 <= k < |KeysFrom(word, i)| ==> |KeysFrom(word, i)[k]| <= s + 1
    decreases |word| - i
  {
    var next := i + RuneWidth(word[i..]);
    if next >= |word| {
      assert KeysFrom(word, next) == [];
      assert KeysFrom(word, i) == [word[..i + 1]];
    } else {
      LastKeystroke(word, next);
      var rest := KeysFrom(word, next);
      assert KeysFrom(word, i) == [word[..i + 1]] + rest;
      forall k | 1 <= k < |KeysFrom(word, i)|
        ensures KeysFrom(word, i)[k] == rest[k - 1]
      {
      }
    }
  }

  /** A non-empty word is itself one of its keystrokes (so it reaches the
      server whole) exactly when its last rune is one byte wide. A word that
      ends in a well-formed multi-byte character is never sent whole. */
  lemma WordSentWholeIffLastRuneIsOneByte(word: seq<byte>)
    requires word != []
    ensures word in Keystrokes(word) <==> RuneWidth(word[LastRuneStart(word, 0)..]) == 1
  {
    var K := Keystrokes(word);
    var s := LastRuneStart(word, 0);
    KeystrokesArePrefixes(word);
    LastKeystroke(word, 0);
    if word in K {
      var k :| 0 <= k < |K| && K[k] == word;
      assert |K[k]| == |word| <= s + 1;
    } else {
      var last := K[|K| - 1];
      assert last in K && last == word[..s + 1];
      assert s + 1 == |word| ==> last == word;
    }
  }

  /** Example: a word made of one three-byte rune ("あ", bytes E3 81 82)
      is typed with a single keystroke that carries only its lead byte. */
  lemma {:induction false} MultiByteRuneIsCut()
    ensures Keystrokes([0xE3, 0x81, 0x82]) == [[0xE3]]
  {
    var word: seq<byte> := [0xE3, 0x81, 0x82];
    assert RuneWidth(word[0..]) == 3;
    assert KeysFrom(word, 3) == [];
    assert word[..1] == [0xE3];
  }
}
