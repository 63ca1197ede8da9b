/** The signal path of enigma.js, EncodeCh and Encode, as functions of the
    machine's fixed setup and its rotor positions, with the facts that make
    the machine its own inverse. */
module SignalPath {
  import opened Alphabet
  import opened Wiring
  import opened Plugboard
  import opened Stepping

  /** What Init fixes: the rotors left to right, the reflector, the ring
      settings and the plugboard table `mPlugs`. */
  datatype Setup = Setup(rotors: seq<Rotor>, reflector: Reflector, rings: seq<int>, plugs: seq<int>)

  ghost predicate ValidSetup(s: Setup) {
    && |s.rotors| == 3
    && (forall r :: 0 <= r < 3 ==> RotorWired(s.rotors[r]))
    && ReflectorWired(s.reflector)
    && |s.rings| >= 3
    && (forall r :: 0 <= r < 3 ==> InRange(s.rings[r]))
    && IsTable(s.plugs)
  }

  /** One key press turns the rotors: the notches come from the middle and right rotors. */
  function Step(s: Setup, pos: seq<int>): (next: seq<int>)
    requires ValidSetup(s) && ValidPosition(pos)
    ensures ValidPosition(next)
  {
    Stepped(pos, IFromCh(s.rotors[1].notch), IFromCh(s.rotors[2].notch))
  }

  /** Stepping reads the visible positions and the notches of the middle and
      right rotors only: two setups that agree on those two notches step
      alike, whatever their rings, wirings, left rotor or plugboard. */
  lemma StepIgnoresRings(s: Setup, t: Setup, pos: seq<int>)
    requires ValidSetup(s) && ValidSetup(t) && ValidPosition(pos)
    requires s.rotors[1].notch == t.rotors[1].notch && s.rotors[2].notch == t.rotors[2].notch
    ensures Step(s, pos) == Step(t, pos)
  {
  }

  /** The signal after the first n rotors on the way in, right to left
      (rotor 2, then 1, then 0), each through its `map` table. */
  function RightToLeft(s: Setup, pos: seq<int>, i: int, n: nat): (j: int)
    requires ValidSetup(s) && ValidPosition(pos) && InRange(i) && n <= 3
    ensures InRange(j)
  {
    if n == 0 then i else
      var r := 3 - n;
      Pass(s.rotors[r].mapFwd, pos[r], s.rings[r], RightToLeft(s, pos, i, n - 1))
  }

  /** The signal after the first n rotors on the way out, left to right
      (rotor 0, then 1, then 2), each through its `mapRev` table. */
  function LeftToRight(s: Setup, pos: seq<int>, i: int, n: nat): (j: int)
    requires ValidSetup(s) && ValidPosition(pos) && InRange(i) && n <= 3
    ensures InRange(j)
  {
    if n == 0 then i else
      var r := n - 1;
      Pass(s.rotors[r].mapRev, pos[r], s.rings[r], LeftToRight(s, pos, i, n - 1))
  }

  /** The whole path of one letter index at fixed positions: plugboard,
      rotors inward, reflector, rotors outward, plugboard (enigma.js:216-238). */
  function Path(s: Setup, pos: seq<int>, i: int): (j: int)
    requires ValidSetup(s) && ValidPosition(pos) && InRange(i)
    ensures InRange(j)
  {
    s.plugs[LeftToRight(s, pos, Reflect(s.reflector.mapFwd, RightToLeft(s, pos, s.plugs[i], 3)), 3)]
  }

  /** Going back out through the first n rotors undoes going in through
      the last n: after all three the signal is back where it entered. */
  lemma {:induction false} LeftToRightUndoesRightToLeft(s: Setup, pos: seq<int>, i: int, n: nat)
    requires ValidSetup(s) && ValidPosition(pos) && InRange(i) && n <= 3
    ensures LeftToRight(s, pos, RightToLeft(s, pos, i, 3), n) == RightToLeft(s, pos, i, 3 - n)
  {
    if n > 0 {
      var r, x := n - 1, RightToLeft(s, pos, i, 3 - n);
      assert RightToLeft(s, pos, i, 4 - n) == Pass(s.rotors[r].mapFwd, pos[r], s.rings[r], x);
      LeftToRightUndoesRightToLeft(s, pos, i, n - 1);
      RotorStepsUndoEachOther(s.rotors[r], pos[r], s.rings[r], x);
    }
  }

  /** Going in through the last n rotors undoes going back out through the
      first n: after all three the signal is back where it entered. */
  lemma {:induction false} RightToLeftUndoesLeftToRight(s: Setup, pos: seq<int>, j: int, n: nat)
    requires ValidSetup(s) && ValidPosition(pos) && InRange(j) && n <= 3
    ensures RightToLeft(s, pos, LeftToRight(s, pos, j, 3), n) == LeftToRight(s, pos, j, 3 - n)
  {
    if n > 0 {
      var r, x := 3 - n, LeftToRight(s, pos, j, 3 - n);
      RightToLeftUndoesLeftToRight(s, pos, j, n - 1);
      RotorStepsUndoEachOther(s.rotors[r], pos[r], s.rings[r], x);
    }
  }

  /** With a self-inverse plugboard the path is a fixed-point-free
      involution: it swaps letters in pairs, and no letter encodes to itself. */
  lemma PathIsReciprocal(s: Setup, pos: seq<int>, i: int)
    requires ValidSetup(s) && ValidPosition(pos) && InRange(i) && IsInvolution(s.plugs)
    ensures Path(s, pos, Path(s, pos, i)) == i
    ensures Path(s, pos, i) != i
  {
    var x := RightToLeft(s, pos, s.plugs[i], 3);
    var y := Reflect(s.reflector.mapFwd, x);
    var z := LeftToRight(s, pos, y, 3);
    ReflectIsFixedPointFreeInvolution(s.reflector, x);
    RightToLeftUndoesLeftToRight(s, pos, y, 3);
    LeftToRightUndoesRightToLeft(s, pos, s.plugs[i], 3);
    assert s.plugs[s.plugs[z]] == z;
    if s.plugs[z] == i {
      assert false;
    }
  }

  /** enigma.js, EncodeCh, as a function of the positions before the key
      press: the output character and the positions after it. */
  function EncodeChar(s: Setup, pos: seq<int>, ch: char): (res: (char, seq<int>))
    requires ValidSetup(s) && ValidPosition(pos)
    ensures ValidPosition(res.1)
    ensures !IsLetter(ch) ==> res == (Upper(ch), pos)
    ensures IsLetter(ch) ==> IsUpperLetter(res.0) && res.1 == Step(s, pos)
  {
    var c := Upper(ch);
    if c < 'A' || c > 'Z' then (c, pos)
    else
      var next := Step(s, pos);
      (ChFromI(Path(s, next, IFromCh(c))), next)
  }

  /** A letter never encodes to itself, and from the same positions its
      output letter encodes back to it, turning the rotors the same way. */
  lemma EncodeCharIsReciprocal(s: Setup, pos: seq<int>, ch: char)
    requires ValidSetup(s) && ValidPosition(pos) && IsInvolution(s.plugs) && IsLetter(ch)
    ensures EncodeChar(s, pos, ch).0 != Upper(ch)
    ensures EncodeChar(s, pos, EncodeChar(s, pos, ch).0) == (Upper(ch), EncodeChar(s, pos, ch).1)
  {
    var i := IFromCh(Upper(ch));
    var next := Step(s, pos);
    PathIsReciprocal(s, next, i);
    LetterRoundTrip(ch);
  }

  /** enigma.js, Encode: the output string and the positions after the
      last character, one EncodeChar after another from left to right. */
  function EncodeString(s: Setup, pos: seq<int>, text: string): (res: (string, seq<int>))
    requires ValidSetup(s) && ValidPosition(pos)
    ensures |res.0| == |text| && ValidPosition(res.1)
    decreases |text|
  {
    if text == [] then ([], pos) else
      var before := EncodeString(s, pos, text[..|text| - 1]);
      var last := EncodeChar(s, before.1, text[|text| - 1]);
      (before.0 + [last.0], last.1)
  }

  /** Character k of the output is what EncodeChar makes of character k of
      the input, at the positions the first k characters left behind. */
  lemma {:induction false} EncodeStringAt(s: Setup, pos: seq<int>, text: string, k: int)
    requires ValidSetup(s) && ValidPosition(pos) && 0 <= k < |text|
    ensures EncodeString(s, pos, text).0[k]
            == EncodeChar(s, EncodeString(s, pos, text[..k]).1, text[k]).0
    decreases |text|
  {
    var init := text[..|text| - 1];
    if k < |text| - 1 {
      EncodeStringAt(s, pos, init, k);
      assert init[..k] == text[..k];
    } else {
      assert init == text[..k];
    }
  }

  /** Character by character: every letter becomes a different capital
      letter, and every other character comes out as it went in, upper-cased. */
  lemma EncodeStringChars(s: Setup, pos: seq<int>, text: string)
    requires ValidSetup(s) && ValidPosition(pos) && IsInvolution(s.plugs)
    ensures forall k :: 0 <= k < |text| && IsLetter(text[k]) ==>
              IsUpperLetter(EncodeString(s, pos, text).0[k]) && EncodeString(s, pos, text).0[k] != Upper(text[k])
    ensures forall k :: 0 <= k < |text| && !IsLetter(text[k]) ==> EncodeString(s, pos, text).0[k] == Upper(text[k])
  {
    forall k | 0 <= k < |text|
      ensures IsLetter(text[k]) ==>
                IsUpperLetter(EncodeString(s, pos, text).0[k]) && EncodeString(s, pos, text).0[k] != Upper(text[k])
      ensures !IsLetter(text[k]) ==> EncodeString(s, pos, text).0[k] == Upper(text[k])
    {
      EncodeStringAt(s, pos, text, k);
      if IsLetter(text[k]) {
        EncodeCharIsReciprocal(s, EncodeString(s, pos, text[..k]).1, text[k]);
      }
    }
  }

  /** The number of characters of text that are letters once upper-cased. */
  function LetterCount(text: string): (n: nat)
    ensures n <= |text|
  {
    if text == [] then 0 else
      LetterCount(text[..|text| - 1]) + (if IsLetter(text[|text| - 1]) then 1 else 0)
  }

  /** The positions after n key presses. */
  function Steps(s: Setup, pos: seq<int>, n: nat): (p: seq<int>)
    requires ValidSetup(s) && ValidPosition(pos)
    ensures ValidPosition(p)
  {
    if n == 0 then pos else Step(s, Steps(s, pos, n - 1))
  }

  /** The right rotor turns on every key press: after n presses it has
      moved n places, whatever the notches do to the other two. */
  lemma {:induction false} RightRotorTurnsEveryPress(s: Setup, pos: seq<int>, n: nat)
    requires ValidSetup(s) && ValidPosition(pos)
    ensures Steps(s, pos, n)[2] == (pos[2] + n) % 26
  {
    if n > 0 {
      RightRotorTurnsEveryPress(s, pos, n - 1);
      assert Steps(s, pos, n)[2] == Advance(Steps(s, pos, n - 1)[2]);
      AdvanceMod(pos[2] + n - 1);
    }
  }

  /** Turning a wheel one place after x places is turning it x + 1 places. */
  lemma AdvanceMod(x: nat)
    ensures Advance(x % 26) == (x + 1) % 26
  {
    var q, r := x / 26, x % 26;
    assert x == 26 * q + r;
    if r < 25 {
      assert x + 1 == 26 * q + (r + 1);
    } else {
      assert x + 1 == 26 * (q + 1);
    }
  }

  /** Encoding a string turns the rotors once per letter, and not for any other character. */
  lemma {:induction false} EncodeStringSteps(s: Setup, pos: seq<int>, text: string)
    requires ValidSetup(s) && ValidPosition(pos)
    ensures EncodeString(s, pos, text).1 == Steps(s, pos, LetterCount(text))
    decreases |text|
  {
    if text != [] {
      EncodeStringSteps(s, pos, text[..|text| - 1]);
    }
  }

  /** Encoding any character twice from the same positions gives it back
      upper-cased: letters by reciprocity, other characters by passing through. */
  lemma EncodeCharTwice(s: Setup, pos: seq<int>, ch: char)
    requires ValidSetup(s) && ValidPosition(pos) && IsInvolution(s.plugs)
    ensures EncodeChar(s, pos, EncodeChar(s, pos, ch).0) == (Upper(ch), EncodeChar(s, pos, ch).1)
  {
    if IsLetter(ch) {
      EncodeCharIsReciprocal(s, pos, ch);
    }
  }

  /** Encoding the output again from the same starting positions gives back
      the input, upper-cased, and leaves the rotors where the first pass did. */
  lemma {:induction false} EncodeStringRoundTrip(s: Setup, pos: seq<int>, text: string)
    requires ValidSetup(s) && ValidPosition(pos) && IsInvolution(s.plugs)
    ensures EncodeString(s, pos, EncodeString(s, pos, text).0)
            == (UpperString(text), EncodeString(s, pos, text).1)
    decreases |text|
  {
    if text != [] {
      var init, ch := text[..|text| - 1], text[|text| - 1];
      var before := EncodeString(s, pos, init);
      var last := EncodeChar(s, before.1, ch);
      var out := before.0 + [last.0];
      assert EncodeString(s, pos, text).0 == out;
      assert out[..|out| - 1] == before.0;
      EncodeStringRoundTrip(s, pos, init);
      EncodeCharTwice(s, before.1, ch);
      UpperStringLast(text);
    }
  }
}
