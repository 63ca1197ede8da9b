/** The stepping rule of the three-rotor machine (enigma.js, IncrementRotors).
    Positions are the visible ring letters, left (index 0) to right (index 2). */
module Stepping {

  /** Three rotor positions, each in 0..25. */
  ghost predicate ValidPosition(pos: seq<int>) {
    |pos| == 3 && forall r :: 0 <= r < 3 ==> 0 <= pos[r] < 26
  }

  /** One turn of a wheel, from z back to a. */
  function Advance(p: int): int {
    (p + 1) % 26
  }

  /** The positions after one key press, given the notch indices of the
      middle and of the right rotor. Nothing else is read: not the ring
      settings and not the left rotor's notch. */
  function Stepped(pos: seq<int>, middleNotch: int, rightNotch: int): (next: seq<int>)
    requires ValidPosition(pos)
    ensures ValidPosition(next)
    // the right rotor always turns
    ensures next[2] == Advance(pos[2])
    // the middle rotor turns iff it sits at its own notch or the right rotor sits at its notch
    ensures next[1] == (if pos[1] == middleNotch || pos[2] == rightNotch then Advance(pos[1]) else pos[1])
    // the left rotor turns iff the middle rotor sits at its notch (the double step)
    ensures next[0] == (if pos[1] == middleNotch then Advance(pos[0]) else pos[0])
  {
    var p := pos;
    var p := if p[1] == middleNotch then p[0 := p[0] + 1][1 := p[1] + 1]
             else if p[2] == rightNotch then p[1 := p[1] + 1]
             else p;
    var p := p[2 := p[2] + 1];
    [p[0] % 26, p[1] % 26, p[2] % 26]
  }

  /** The double step: when the right rotor turns the middle rotor onto its
      notch, the very next key press turns the middle rotor again and the
      left rotor with it. */
  lemma DoubleStep(pos: seq<int>, middleNotch: int, rightNotch: int)
    requires ValidPosition(pos) && 0 <= middleNotch < 26
    requires pos[2] == rightNotch && Advance(pos[1]) == middleNotch
    ensures var once := Stepped(pos, middleNotch, rightNotch);
            var twice := Stepped(once, middleNotch, rightNotch);
            && once[0] == pos[0] && once[1] == middleNotch
            && twice[0] == Advance(pos[0]) && twice[1] == Advance(middleNotch)
  {
  }

  /** With rotors II and III in the middle and on the right (notches E and V),
      A-D-U steps to A-D-V, then A-E-W, then B-F-X. */
  lemma DoubleStepExample()
    ensures Stepped([0, 3, 20], 4, 21) == [0, 3, 21]
    ensures Stepped([0, 3, 21], 4, 21) == [0, 4, 22]
    ensures Stepped([0, 4, 22], 4, 21) == [1, 5, 23]
  {
  }
}
