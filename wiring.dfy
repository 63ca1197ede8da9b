/** The static wiring tables of the rotors and reflectors, and the offset
    tables (`map`, `mapRev`) that enigma.js derives from each wiring. */
module Wiring {
  import opened Alphabet

  datatype RotorName = I | II | III | IV | V
  datatype ReflectorName = B | C

  /** A rotor: its wiring, the letter of its turnover notch, and the two
      offset tables. `mapFwd` is the table enigma.js calls `map`. */
  datatype Rotor = Rotor(wires: string, notch: char, mapFwd: seq<int>, mapRev: seq<int>)

  /** A reflector: a wiring without notch; only `mapFwd` is ever consulted. */
  datatype Reflector = Reflector(wires: string, mapFwd: seq<int>, mapRev: seq<int>)

  /** A wiring string names every letter of the alphabet exactly once:
      the wire entering at position k leaves at letter w[k]. */
  ghost predicate IsWiring(w: string) {
    && |w| == 26
    && AllLetters(w)
    && NoRepeats(w)
    && (forall j :: 0 <= j < 26 ==> ChFromI(j) in w)
  }

  /** The set of characters occurring in s. */
  function CharSet(s: string): (r: set<char>)
    ensures forall c :: c in r <==> c in s
  {
    if s == [] then {} else
      assert s == s[..|s| - 1] + [s[|s| - 1]];
      CharSet(s[..|s| - 1]) + {s[|s| - 1]}
  }

  lemma {:induction false} CharSetSize(s: string)
    requires NoRepeats(s)
    ensures |CharSet(s)| == |s|
  {
    if s != [] {
      var init := s[..|s| - 1];
      assert NoRepeats(init);
      CharSetSize(init);
      assert s[|s| - 1] !in init;
    }
  }

  /** The alphabet in order, "ABC...Z". */
  function AlphabetString(): (a: string)
    ensures |a| == 26 && AllLetters(a) && NoRepeats(a)
    ensures forall j :: 0 <= j < 26 ==> a[j] == ChFromI(j)
  {
    var a := seq(26, j requires 0 <= j < 26 => ChFromI(j));
    assert forall j, k :: 0 <= j < k < 26 ==> IFromCh(a[j]) != IFromCh(a[k]);
    a
  }

  lemma SubsetOfSameSize<T>(small: set<T>, big: set<T>)
    requires small <= big && |small| == |big|
    ensures small == big
  {
    assert |big - small| == |big| - |small|;
  }

  /** Pigeonhole: 26 distinct letters are the whole alphabet. */
  lemma {:induction false} DistinctLettersAreAll(w: string)
    requires |w| == 26 && AllLetters(w) && NoRepeats(w)
    ensures IsWiring(w)
  {
    var letters := AlphabetString();
    var used, all := CharSet(w), CharSet(letters);
    assert used == all by {
      CharSetSize(w);
      CharSetSize(letters);
      forall c | c in used ensures c in all {
        assert letters[IFromCh(c)] == c;
      }
      SubsetOfSameSize(used, all);
    }
    forall j | 0 <= j < 26 ensures ChFromI(j) in w {
      assert letters[j] in all;
    }
  }

  /** A reflector wiring pairs the letters off: every position is wired to
      another position that is wired back, so the wiring is its own inverse
      and sends no letter to itself. */
  ghost predicate IsReflection(w: string)
    requires |w| == 26
  {
    forall k :: 0 <= k < 26 ==>
      InRange(Target(w, k)) && Target(w, Target(w, k)) == k && Target(w, k) != k
  }

  /** The index of the letter the wire entering at position k leaves at. */
  function Target(w: string, k: int): int
    requires 0 <= k < |w|
  {
    w[k] as int - 'A' as int
  }

  // The wiring tables of enigma.js, NS.mRotors and NS.mReflectors.
  const WiresI := "EKMFLGDQVZNTOWYHXUSPAIBRCJ"
  const WiresII := "AJDKSIRUXBLHWTMCQGZNPYFVOE"
  const WiresIII := "BDFHJLCPRTXVZNYEIWGAKMUSQO"
  const WiresIV := "ESOVPZJAYQUIRHXLNFTGKDCMWB"
  const WiresV := "VZBRGITYUPSDNHLXAWMJQOFECK"
  const WiresB := "YRUHQSLDPXNGOKMIEBFZCWVJAT"
  const WiresC := "FVPJIAOYEDRZXWGCTKUQSBNMHL"

  function RotorWires(n: RotorName): string {
    match n
    case I => WiresI
    case II => WiresII
    case III => WiresIII
    case IV => WiresIV
    case V => WiresV
  }

  function RotorNotch(n: RotorName): char {
    match n
    case I => 'Q'
    case II => 'E'
    case III => 'V'
    case IV => 'J'
    case V => 'Z'
  }

  function ReflectorWires(n: ReflectorName): string {
    match n
    case B => WiresB
    case C => WiresC
  }

  // The concrete tables, one lemma each: the solver checks every letter.
  lemma WiresIDistinct() ensures |WiresI| == 26 && AllLetters(WiresI) && NoRepeats(WiresI) {}
  lemma WiresIIDistinct() ensures |WiresII| == 26 && AllLetters(WiresII) && NoRepeats(WiresII) {}
  lemma WiresIIIDistinct() ensures |WiresIII| == 26 && AllLetters(WiresIII) && NoRepeats(WiresIII) {}
  lemma WiresIVDistinct() ensures |WiresIV| == 26 && AllLetters(WiresIV) && NoRepeats(WiresIV) {}
  lemma WiresVDistinct() ensures |WiresV| == 26 && AllLetters(WiresV) && NoRepeats(WiresV) {}
  lemma WiresBDistinct() ensures |WiresB| == 26 && AllLetters(WiresB) && NoRepeats(WiresB) {}
  lemma WiresCDistinct() ensures |WiresC| == 26 && AllLetters(WiresC) && NoRepeats(WiresC) {}
  /** Reflector B pairs its contacts off; the proof checks each contact in turn. */
  lemma WiresBPairs() ensures |WiresB| == 26 && IsReflection(WiresB) {
    forall k | 0 <= k < 26
      ensures InRange(Target(WiresB, k)) && Target(WiresB, Target(WiresB, k)) == k && Target(WiresB, k) != k
    {
      assert k in {0, 1, 2, 3, 4, 5, 6, 7, 8, 9, 10, 11, 12, 13, 14, 15, 16, 17, 18, 19, 20, 21, 22, 23, 24, 25};
    }
  }
  /** Reflector C pairs its contacts off; the proof checks each contact in turn. */
  lemma WiresCPairs() ensures |WiresC| == 26 && IsReflection(WiresC) {
    forall k | 0 <= k < 26
      ensures InRange(Target(WiresC, k)) && Target(WiresC, Target(WiresC, k)) == k && Target(WiresC, k) != k
    {
      assert k in {0, 1, 2, 3, 4, 5, 6, 7, 8, 9, 10, 11, 12, 13, 14, 15, 16, 17, 18, 19, 20, 21, 22, 23, 24, 25};
    }
  }

  /** Every rotor table is a permutation of the alphabet and every notch a letter. */
  lemma RotorTablesAreWirings(n: RotorName)
    ensures IsWiring(RotorWires(n)) && IsUpperLetter(RotorNotch(n))
  {
    match n {
      case I => WiresIDistinct();
      case II => WiresIIDistinct();
      case III => WiresIIIDistinct();
      case IV => WiresIVDistinct();
      case V => WiresVDistinct();
    }
    DistinctLettersAreAll(RotorWires(n));
  }

  /** Both reflector tables are permutations that pair the letters off. */
  lemma ReflectorTablesAreReflections(n: ReflectorName)
    ensures IsWiring(ReflectorWires(n)) && IsReflection(ReflectorWires(n))
  {
    match n {
      case B => WiresBDistinct(); WiresBPairs();
      case C => WiresCDistinct(); WiresCPairs();
    }
    DistinctLettersAreAll(ReflectorWires(n));
  }

  /** The index of letter c in the wiring: the wire that leaves at c. */
  function WirePosition(w: string, c: char): (k: nat)
    requires c in w
    ensures k < |w| && w[k] == c
  {
    if w[0] == c then 0 else 1 + WirePosition(w[1..], c)
  }

  /** map[k] == (w[k] - k) mod 26: the shift that carries position k to its wire's exit. */
  function ForwardOffsets(w: string): (m: seq<int>)
    requires |w| == 26
    ensures |m| == 26
    ensures forall k :: 0 <= k < 26 ==> 0 <= m[k] < 26
  {
    seq(26, k requires 0 <= k < 26 => (26 + IFromCh(w[k]) - k) % 26)
  }

  /** mapRev[j] == (k - j) mod 26 where w[k] is letter j: the shift back along the same wire. */
  function ReverseOffsets(w: string): (m: seq<int>)
    requires IsWiring(w)
    ensures |m| == 26
    ensures forall j :: 0 <= j < 26 ==> 0 <= m[j] < 26
  {
    seq(26, j requires 0 <= j < 26 => (26 + WirePosition(w, ChFromI(j)) - j) % 26)
  }

  /** enigma.js, MapRotor: fills both offset tables in one pass over the wires. */
  method MapRotor(wires: string) returns (mapFwd: seq<int>, mapRev: seq<int>)
    requires IsWiring(wires)
    ensures mapFwd == ForwardOffsets(wires) && mapRev == ReverseOffsets(wires)
  {
    mapFwd := seq(26, _ => 0);
    mapRev := seq(26, _ => 0);
    for iFrom := 0 to 26
      invariant |mapFwd| == 26 && |mapRev| == 26
      invariant forall k :: 0 <= k < iFrom ==> mapFwd[k] == (26 + Target(wires, k) - k) % 26
      invariant forall k :: 0 <= k < iFrom ==> mapRev[Target(wires, k)] == (26 + k - Target(wires, k)) % 26
    {
      var iTo := Target(wires, iFrom);
      mapFwd := mapFwd[iFrom := (26 + iTo - iFrom) % 26];
      mapRev := mapRev[iTo := (26 + iFrom - iTo) % 26];
    }
    forall j | 0 <= j < 26
      ensures mapRev[j] == ReverseOffsets(wires)[j]
    {
      var k := WirePosition(wires, ChFromI(j));
      assert Target(wires, k) == j;
    }
  }

  /** A wired rotor: its tables are the ones MapRotor derives from its wiring. */
  ghost predicate RotorWired(r: Rotor) {
    && IsWiring(r.wires)
    && IsUpperLetter(r.notch)
    && r.mapFwd == ForwardOffsets(r.wires)
    && r.mapRev == ReverseOffsets(r.wires)
  }

  ghost predicate ReflectorWired(f: Reflector) {
    && IsWiring(f.wires)
    && IsReflection(f.wires)
    && f.mapFwd == ForwardOffsets(f.wires)
    && f.mapRev == ReverseOffsets(f.wires)
  }

  /** NS.mRotors[name] once MapRotor has run over it. */
  function RotorTable(n: RotorName): (r: Rotor)
    ensures RotorWired(r) && r.wires == RotorWires(n) && r.notch == RotorNotch(n)
  {
    RotorTablesAreWirings(n);
    Rotor(RotorWires(n), RotorNotch(n), ForwardOffsets(RotorWires(n)), ReverseOffsets(RotorWires(n)))
  }

  /** NS.mReflectors[name] once MapRotor has run over it. */
  function ReflectorTable(n: ReflectorName): (f: Reflector)
    ensures ReflectorWired(f) && f.wires == ReflectorWires(n)
  {
    ReflectorTablesAreReflections(n);
    Reflector(ReflectorWires(n), ForwardOffsets(ReflectorWires(n)), ReverseOffsets(ReflectorWires(n)))
  }

  predicate InRange(i: int) {
    0 <= i < 26
  }

  /** The contact a signal at i meets on a rotor turned to pos with ring setting ring. */
  function Contact(i: int, pos: int, ring: int): (x: int)
    requires InRange(i) && InRange(pos) && InRange(ring)
    ensures InRange(x) && x == (i + pos - ring) % 26
  {
    (26 + i + pos - ring) % 26
  }

  /** One rotor passed in either direction, given the offset table of that
      direction: enigma.js:223-224 on the way in (the forward table), and
      enigma.js:233-234 on the way out (the reverse table). */
  function Pass(table: seq<int>, pos: int, ring: int, i: int): (j: int)
    requires |table| == 26
    requires InRange(i) && InRange(pos) && InRange(ring)
    ensures InRange(j)
  {
    (i + table[Contact(i, pos, ring)]) % 26
  }

  /** The reflector: enigma.js:228. */
  function Reflect(mapFwd: seq<int>, i: int): (j: int)
    requires |mapFwd| == 26 && InRange(i)
    ensures InRange(j)
  {
    (i + mapFwd[i]) % 26
  }

  // Shifting by a rotor offset and back, mod 26.
  lemma ShiftThrough(i: int, o: int, t: int)
    requires InRange(i) && InRange(t) && -25 <= o <= 25
    ensures (i + (26 + t - (26 + i + o) % 26) % 26) % 26 == (t - o) % 26
  {
  }

  /** Entering at the contact of i and leaving by the same offset gives i back,
      and the contact of the letter that leaves at t is t. */
  lemma ContactBack(i: int, pos: int, ring: int)
    requires InRange(i) && InRange(pos) && InRange(ring)
    ensures (Contact(i, pos, ring) - pos + ring) % 26 == i
    ensures Contact((i - pos + ring) % 26, pos, ring) == i
  {
    var d, e := i + pos - ring, i - pos + ring;
    if d < 0 {
      assert Contact(i, pos, ring) == d + 26;
    } else if d < 26 {
      assert Contact(i, pos, ring) == d;
    } else {
      assert Contact(i, pos, ring) == d - 26;
    }
    if e < 0 {
      assert (i - pos + ring) % 26 == e + 26;
    } else if e < 26 {
      assert (i - pos + ring) % 26 == e;
    } else {
      assert (i - pos + ring) % 26 == e - 26;
    }
  }

  /** The forward step follows the wire: the signal at i leaves at the
      target of its contact, shifted back by the rotor offset. */
  lemma ForwardFollowsWire(w: string, pos: int, ring: int, i: int)
    requires IsWiring(w) && InRange(i) && InRange(pos) && InRange(ring)
    ensures Pass(ForwardOffsets(w), pos, ring, i)
            == (Target(w, Contact(i, pos, ring)) - pos + ring) % 26
  {
    var x := Contact(i, pos, ring);
    assert ForwardOffsets(w)[x] == (26 + Target(w, x) - x) % 26;
    ShiftThrough(i, pos - ring, Target(w, x));
  }

  /** The backward step follows the same wire the other way: the signal at
      j leaves at the place k of its contact letter in the wiring, shifted
      back by the rotor offset. */
  lemma BackwardFollowsWire(w: string, pos: int, ring: int, j: int)
    requires IsWiring(w) && InRange(j) && InRange(pos) && InRange(ring)
    ensures Pass(ReverseOffsets(w), pos, ring, j)
            == (WirePosition(w, ChFromI(Contact(j, pos, ring))) - pos + ring) % 26
  {
    var y := Contact(j, pos, ring);
    var k := WirePosition(w, ChFromI(y));
    assert ReverseOffsets(w)[y] == (26 + k - y) % 26;
    ShiftThrough(j, pos - ring, k);
  }

  /** At the same rotor position, the backward step undoes the forward step. */
  lemma BackwardUndoesForward(w: string, pos: int, ring: int, i: int)
    requires IsWiring(w) && InRange(i) && InRange(pos) && InRange(ring)
    ensures Pass(ReverseOffsets(w), pos, ring, Pass(ForwardOffsets(w), pos, ring, i)) == i
  {
    var x := Contact(i, pos, ring);
    var t := Target(w, x);
    var j := Pass(ForwardOffsets(w), pos, ring, i);
    ForwardFollowsWire(w, pos, ring, i);
    ContactBack(t, pos, ring);
    BackwardFollowsWire(w, pos, ring, j);
    assert WirePosition(w, ChFromI(t)) == x by {
      assert ChFromI(t) == w[x];
    }
    ContactBack(i, pos, ring);
  }

  /** At the same rotor position, the forward step undoes the backward step. */
  lemma ForwardUndoesBackward(w: string, pos: int, ring: int, j: int)
    requires IsWiring(w) && InRange(j) && InRange(pos) && InRange(ring)
    ensures Pass(ForwardOffsets(w), pos, ring, Pass(ReverseOffsets(w), pos, ring, j)) == j
  {
    var y := Contact(j, pos, ring);
    var k := WirePosition(w, ChFromI(y));
    var i := Pass(ReverseOffsets(w), pos, ring, j);
    BackwardFollowsWire(w, pos, ring, j);
    ContactBack(k, pos, ring);
    ForwardFollowsWire(w, pos, ring, i);
    assert Target(w, k) == y;
    ContactBack(j, pos, ring);
  }

  /** The reflector step sends i to the letter the reflector wires it to. */
  lemma ReflectFollowsWire(w: string, i: int)
    requires IsWiring(w) && InRange(i)
    ensures Reflect(ForwardOffsets(w), i) == Target(w, i)
  {
  }

  /** For a reflector, the reflector step is an involution without fixed points. */
  lemma ReflectIsFixedPointFreeInvolution(f: Reflector, i: int)
    requires ReflectorWired(f) && InRange(i)
    ensures Reflect(f.mapFwd, Reflect(f.mapFwd, i)) == i
    ensures Reflect(f.mapFwd, i) != i
  {
    var j := Reflect(f.mapFwd, i);
    ReflectFollowsWire(f.wires, i);
    ReflectFollowsWire(f.wires, j);
  }

  /** For a wired rotor, at the same position the two directions undo each other. */
  lemma RotorStepsUndoEachOther(r: Rotor, pos: int, ring: int, i: int)
    requires RotorWired(r) && InRange(i) && InRange(pos) && InRange(ring)
    ensures Pass(r.mapRev, pos, ring, Pass(r.mapFwd, pos, ring, i)) == i
    ensures Pass(r.mapFwd, pos, ring, Pass(r.mapRev, pos, ring, i)) == i
  {
    BackwardUndoesForward(r.wires, pos, ring, i);
    ForwardUndoesBackward(r.wires, pos, ring, i);
  }
}
