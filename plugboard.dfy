/** The plugboard: the plug string of the settings, cleaned and read pair by
    pair into a table `mPlugs` of 26 entries (enigma.js, Init). */
module Plugboard {
  import opened Alphabet

  /** enigma.js:111-112: upper-case the plug string and drop every
      character that is not then a letter A..Z. */
  function CleanPlugs(s: string): (p: string)
    ensures AllLetters(p) && |p| <= |s|
  {
    if s == [] then [] else
      var rest := CleanPlugs(s[1..]);
      if IsUpperLetter(Upper(s[0])) then [Upper(s[0])] + rest else rest
  }

  /** Cleaning adds nothing and drops no letter: every cleaned character is
      an upper-cased input character, and every input letter survives. */
  lemma {:induction false} CleanPlugsKeepsOnlyLetters(s: string)
    ensures forall c :: c in CleanPlugs(s) ==> c in UpperString(s)
    ensures forall j :: 0 <= j < |s| && IsLetter(s[j]) ==> Upper(s[j]) in CleanPlugs(s)
  {
    if s != [] {
      CleanPlugsKeepsOnlyLetters(s[1..]);
      assert UpperString(s) == [Upper(s[0])] + UpperString(s[1..]);
      forall j | 0 < j < |s| && IsLetter(s[j])
        ensures Upper(s[j]) in CleanPlugs(s)
      {
        assert s[1..][j - 1] == s[j];
      }
    }
  }

  /** One character is kept, upper-cased, exactly when it is a letter. */
  lemma CleanPlugsOfOne(c: char)
    ensures CleanPlugs([c]) == if IsLetter(c) then [Upper(c)] else []
  {
  }

  /** Cleaning works character by character and keeps the order, so the
      pairs read by enigma.js:121-124 are the letters of the input taken
      two at a time as they stand. */
  lemma {:induction false} CleanPlugsAppend(a: string, b: string)
    ensures CleanPlugs(a + b) == CleanPlugs(a) + CleanPlugs(b)
  {
    if a == [] {
      assert a + b == b;
    } else {
      assert (a + b)[1..] == a[1..] + b;
      CleanPlugsAppend(a[1..], b);
    }
  }

  /** A string that is already all capital letters passes through unchanged. */
  lemma {:induction false} CleanPlugsKeepsLetters(s: string)
    requires AllLetters(s)
    ensures CleanPlugs(s) == s
  {
    if s != [] {
      CleanPlugsKeepsLetters(s[1..]);
    }
  }

  /** Cleaning twice is cleaning once, so re-running Init leaves the
      stored plug string as it is. */
  lemma CleanPlugsIdempotent(s: string)
    ensures CleanPlugs(CleanPlugs(s)) == CleanPlugs(s)
  {
    CleanPlugsKeepsLetters(CleanPlugs(s));
  }

  /** A cleaned plug string the loop of enigma.js:121-133 reads to the end
      without running past it. */
  ghost predicate IsPlugString(p: string) {
    |p| % 2 == 0 && AllLetters(p)
  }

  /** A table over the 26 letters. */
  ghost predicate IsTable(t: seq<int>) {
    |t| == 26 && forall i :: 0 <= i < 26 ==> 0 <= t[i] < 26
  }

  /** A table that is its own inverse. */
  ghost predicate IsInvolution(t: seq<int>) {
    IsTable(t) && forall i :: 0 <= i < 26 ==> t[t[i]] == i
  }

  /** enigma.js:117-119: every letter plugged to itself. */
  function Identity(): (t: seq<int>)
    ensures IsInvolution(t)
    ensures forall i :: 0 <= i < 26 ==> t[i] == i
  {
    seq(26, i => i)
  }

  /** enigma.js:131-132: plug a to b and b to a, whatever they were plugged to before. */
  function Swap(t: seq<int>, a: int, b: int): (r: seq<int>)
    requires IsTable(t) && 0 <= a < 26 && 0 <= b < 26
    ensures IsTable(r) && r[a] == b && r[b] == a
    ensures forall i :: 0 <= i < 26 && i != a && i != b ==> r[i] == t[i]
  {
    t[a := b][b := a]
  }

  /** The plug string without its last pair. */
  function AllButLastPair(p: string): string
    requires |p| >= 2
  {
    p[..|p| - 2]
  }

  /** The table mPlugs after the loop of enigma.js:121-133 has read every pair of p. */
  function PlugTable(p: string): (t: seq<int>)
    requires IsPlugString(p)
    ensures IsTable(t)
    decreases |p|
  {
    if p == [] then Identity() else
      Swap(PlugTable(AllButLastPair(p)), IFromCh(p[|p| - 2]), IFromCh(p[|p| - 1]))
  }

  /** The letters enigma.js:126-129 warns about when the pair a, b is read
      into table t: each one already plugged to another letter, the first
      letter before the second. */
  function PairWarnings(t: seq<int>, a: int, b: int): (w: seq<char>)
    requires IsTable(t) && 0 <= a < 26 && 0 <= b < 26
    ensures |w| == (if t[a] != a then 1 else 0) + (if t[b] != b then 1 else 0)
    ensures forall c :: c in w <==> (c == ChFromI(a) && t[a] != a) || (c == ChFromI(b) && t[b] != b)
    ensures t[a] != a ==> w[0] == ChFromI(a)
  {
    (if t[a] != a then [ChFromI(a)] else []) + (if t[b] != b then [ChFromI(b)] else [])
  }

  /** All the letters warned about while the whole plug string is read, in order. */
  function PlugWarnings(p: string): (w: seq<char>)
    requires IsPlugString(p)
    ensures |w| <= |p|
    decreases |p|
  {
    if p == [] then [] else
      PlugWarnings(AllButLastPair(p))
        + PairWarnings(PlugTable(AllButLastPair(p)), IFromCh(p[|p| - 2]), IFromCh(p[|p| - 1]))
  }

  /** Only letters the plug string names are warned about. */
  lemma {:induction false} WarningsNamePlugLetters(p: string)
    requires IsPlugString(p)
    ensures forall c :: c in PlugWarnings(p) ==> c in p
    decreases |p|
  {
    if p != [] {
      var init := AllButLastPair(p);
      WarningsNamePlugLetters(init);
      assert forall c :: c in init ==> c in p;
      LetterRoundTrip(p[|p| - 2]);
      LetterRoundTrip(p[|p| - 1]);
    }
  }

  /** A letter that the plug string does not name stays plugged to itself. */
  lemma {:induction false} UnnamedLetterIsFixed(p: string, i: int)
    requires IsPlugString(p) && 0 <= i < 26 && ChFromI(i) !in p
    ensures PlugTable(p)[i] == i
    decreases |p|
  {
    if p != [] {
      assert ChFromI(i) != p[|p| - 2] && ChFromI(i) != p[|p| - 1];
      LetterRoundTrip(p[|p| - 2]);
      LetterRoundTrip(p[|p| - 1]);
      assert forall c :: c in AllButLastPair(p) ==> c in p;
      UnnamedLetterIsFixed(AllButLastPair(p), i);
    }
  }

  /** Plugging a to b in a self-inverse table keeps it self-inverse, as long
      as neither letter was plugged elsewhere: the case that draws no warning. */
  lemma SwapOfFixedKeepsInvolution(t: seq<int>, a: int, b: int)
    requires IsInvolution(t) && 0 <= a < 26 && 0 <= b < 26 && t[a] == a && t[b] == b
    ensures IsInvolution(Swap(t, a, b))
  {
    var r := Swap(t, a, b);
    forall i | 0 <= i < 26 ensures r[r[i]] == i {
      if i != a && i != b {
        assert t[i] != a && t[i] != b;
      }
    }
  }

  /** A plug string that draws no redefinition warning builds a self-inverse plugboard. */
  lemma {:induction false} QuietPlugboardIsInvolution(p: string)
    requires IsPlugString(p) && PlugWarnings(p) == []
    ensures IsInvolution(PlugTable(p))
    decreases |p|
  {
    if p != [] {
      var t := PlugTable(AllButLastPair(p));
      var a, b := IFromCh(p[|p| - 2]), IFromCh(p[|p| - 1]);
      assert PlugWarnings(AllButLastPair(p)) == [] && t[a] == a && t[b] == b;
      QuietPlugboardIsInvolution(AllButLastPair(p));
      SwapOfFixedKeepsInvolution(t, a, b);
    }
  }

  /** If no letter occurs twice in the plug string, no warning is drawn. */
  lemma {:induction false} DistinctPlugsAreQuiet(p: string)
    requires IsPlugString(p) && NoRepeats(p)
    ensures PlugWarnings(p) == []
    decreases |p|
  {
    if p != [] {
      var init, x, y := AllButLastPair(p), p[|p| - 2], p[|p| - 1];
      assert NoRepeats(init);
      DistinctPlugsAreQuiet(init);
      assert x !in init && y !in init;
      LetterRoundTrip(x);
      LetterRoundTrip(y);
      UnnamedLetterIsFixed(init, IFromCh(x));
      UnnamedLetterIsFixed(init, IFromCh(y));
    }
  }

  /** If no letter occurs twice, the plugboard is self-inverse and each pair is plugged together. */
  lemma {:induction false} DistinctPlugsPairUp(p: string, k: int)
    requires IsPlugString(p) && NoRepeats(p) && 0 <= k < |p| / 2
    ensures IsInvolution(PlugTable(p))
    ensures PlugTable(p)[IFromCh(p[2 * k])] == IFromCh(p[2 * k + 1])
    ensures PlugTable(p)[IFromCh(p[2 * k + 1])] == IFromCh(p[2 * k])
    decreases |p|
  {
    DistinctPlugsAreQuiet(p);
    QuietPlugboardIsInvolution(p);
    var init, last := AllButLastPair(p), |p| / 2 - 1;
    if k < last {
      assert NoRepeats(init);
      DistinctPlugsPairUp(init, k);
      assert init[2 * k] == p[2 * k] && init[2 * k + 1] == p[2 * k + 1];
      var a, b := IFromCh(p[2 * k]), IFromCh(p[2 * k + 1]);
      assert p[2 * k] != p[|p| - 2] && p[2 * k] != p[|p| - 1];
      LetterRoundTrip(p[2 * k]);
      LetterRoundTrip(p[|p| - 2]);
      LetterRoundTrip(p[|p| - 1]);
      assert a != IFromCh(p[|p| - 2]) && a != IFromCh(p[|p| - 1]);
    }
  }

  /** A redefinition is only warned about: after "ABAC", B is still plugged
      to A while A is plugged to C, so the plugboard is not self-inverse. */
  lemma RedefinitionBreaksInvolution()
    ensures IsPlugString("ABAC")
    ensures PlugTable("ABAC")[1] == 0 && PlugTable("ABAC")[0] == 2
    ensures !IsInvolution(PlugTable("ABAC"))
    ensures PlugWarnings("ABAC") == ['A']
  {
    assert AllButLastPair("ABAC") == "AB";
    assert AllButLastPair("AB") == "";
    var t := PlugTable("ABAC");
    assert t[t[1]] == 2;
  }

  /** Reading one more pair of the plug string: how the table and the
      warnings after the first i + 2 characters follow from those after i. */
  lemma ReadPair(p: string, i: int)
    requires IsPlugString(p) && 0 <= i && i + 2 <= |p| && i % 2 == 0
    ensures IsPlugString(p[..i]) && IsPlugString(p[..i + 2])
    ensures var t, a, b := PlugTable(p[..i]), IFromCh(p[i]), IFromCh(p[i + 1]);
            && PlugTable(p[..i + 2]) == Swap(t, a, b)
            && PlugWarnings(p[..i + 2]) == PlugWarnings(p[..i]) + PairWarnings(t, a, b)
  {
    assert AllButLastPair(p[..i + 2]) == p[..i];
  }

  /** enigma.js:117-119: every letter plugged to itself, one entry at a time. */
  method IdentityTable() returns (table: seq<int>)
    ensures table == Identity()
  {
    table := [];
    for i := 0 to 26
      invariant |table| == i
      invariant forall k :: 0 <= k < i ==> table[k] == k
    {
      table := table + [i];
    }
  }

  /** enigma.js:123-132: plug iFrom and iTo together, first noting each of
      them that is already plugged to another letter. */
  method PlugPair(table: seq<int>, redefined: seq<char>, iFrom: int, iTo: int)
    returns (table': seq<int>, redefined': seq<char>)
    requires IsTable(table) && 0 <= iFrom < 26 && 0 <= iTo < 26
    ensures table' == Swap(table, iFrom, iTo)
    ensures redefined' == redefined + PairWarnings(table, iFrom, iTo)
  {
    redefined' := redefined;
    if table[iFrom] != iFrom {
      redefined' := redefined' + [ChFromI(iFrom)];
    }
    if table[iTo] != iTo {
      redefined' := redefined' + [ChFromI(iTo)];
    }
    table' := table[iFrom := iTo];
    table' := table'[iTo := iFrom];
  }

  /** enigma.js:117-133: start from every letter plugged to itself, then
      read the plug string pair by pair, noting each letter that was already
      plugged elsewhere before plugging the pair together. */
  method BuildPlugTable(p: string) returns (table: seq<int>, redefined: seq<char>)
    requires IsPlugString(p)
    ensures table == PlugTable(p) && redefined == PlugWarnings(p)
  {
    table := IdentityTable();
    assert p[..0] == [];

    redefined := [];
    var i := 0;
    while i < |p|
      invariant 0 <= i <= |p| && i % 2 == 0
      invariant IsPlugString(p[..i])
      invariant table == PlugTable(p[..i])
      invariant redefined == PlugWarnings(p[..i])
    {
      table, redefined := ReadNextPair(p, i, table, redefined);
      i := i + 2;
    }
    assert p[..i] == p;
  }

  /** One turn of the loop of enigma.js:121-133: the pair at i read into the
      table and warnings built from the pairs before it. */
  method ReadNextPair(p: string, i: int, table: seq<int>, redefined: seq<char>)
    returns (table': seq<int>, redefined': seq<char>)
    requires IsPlugString(p) && 0 <= i < |p| && i % 2 == 0 && IsPlugString(p[..i])
    requires table == PlugTable(p[..i]) && redefined == PlugWarnings(p[..i])
    ensures i + 2 <= |p| && IsPlugString(p[..i + 2])
    ensures table' == PlugTable(p[..i + 2]) && redefined' == PlugWarnings(p[..i + 2])
  {
    assert i + 1 < |p| by {
      assert |p| % 2 == 0 && (i + 1) % 2 == 1;
    }
    ReadPair(p, i);
    table', redefined' := PlugPair(table, redefined, IFromCh(p[i]), IFromCh(p[i + 1]));
  }
}
