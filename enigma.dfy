/** The Enigma machine object of enigma.js: its settings, the state Init
    derives from them, and the key presses that turn the rotors. */
module Machine {
  import opened Alphabet
  import opened Wiring
  import opened Plugboard
  import opened Stepping
  import opened SignalPath

  datatype Option<T> = None | Some(value: T)

  /** The settings record: rotor names left to right, reflector name, the
      visible rotor letters, the ring letters and the plug string. */
  datatype Settings = Settings(
    rotors: seq<RotorName>,
    reflector: ReflectorName,
    position: seq<char>,
    rings: seq<char>,
    plugs: string)

  /** The settings a new machine starts from (enigma.js:75-81). */
  const DefaultSettings := Settings([I, II, III], B, ['M', 'C', 'K'], ['A', 'A', 'A'], "")

  /** Settings Init can work with: three rotors, a letter for each rotor
      position and for the first three rings, and a plug string that has an
      even number of letters once cleaned (with an odd one the pair loop of
      enigma.js:121-133 reads past the end of the string and fails). */
  ghost predicate ValidSettings(s: Settings) {
    && |s.rotors| == 3
    && |s.position| >= 3 && (forall r :: 0 <= r < 3 ==> IsLetter(s.position[r]))
    && |s.rings| >= 3 && (forall r :: 0 <= r < 3 ==> IsLetter(s.rings[r]))
    && |CleanPlugs(s.plugs)| % 2 == 0
  }

  /** The settings as Init leaves them: the plug string cleaned (enigma.js:111-112). */
  function Cleaned(s: Settings): (c: Settings)
    ensures AllLetters(c.plugs)
    ensures c.(plugs := s.plugs) == s
  {
    s.(plugs := CleanPlugs(s.plugs))
  }

  /** Init on settings it has already cleaned stores them unchanged. */
  lemma CleanedIsIdempotent(s: Settings)
    ensures Cleaned(Cleaned(s)) == Cleaned(s)
  {
    CleanPlugsIdempotent(s.plugs);
  }

  /** The rotor positions Init reads from the settings (enigma.js:99-103). */
  function StartPosition(s: Settings): (pos: seq<int>)
    requires ValidSettings(s)
    ensures ValidPosition(pos)
    ensures forall r :: 0 <= r < 3 ==> ChFromI(pos[r]) == Upper(s.position[r])
  {
    assert forall r :: 0 <= r < 3 ==> ChFromI(IFromCh(s.position[r])) == Upper(s.position[r]) by {
      forall r | 0 <= r < 3 {
        LetterRoundTrip(s.position[r]);
      }
    }
    seq(3, r requires 0 <= r < 3 => IFromCh(s.position[r]))
  }

  /** The default settings are ones Init can work with, draw no plugboard
      warning, and set the rotors to M, C, K: so the usage of enigma.js:12-16,
      which starts from them, meets the requirements of EncryptThenDecrypt. */
  lemma DefaultSettingsAreValid()
    ensures ValidSettings(DefaultSettings)
    ensures PlugWarnings(Cleaned(DefaultSettings).plugs) == []
    ensures StartPosition(DefaultSettings) == [12, 2, 10]
  {
    assert CleanPlugs(DefaultSettings.plugs) == "";
  }

  /** The ring indices Init reads from the settings (enigma.js:105-109). */
  function RingIndices(rings: seq<char>): (ix: seq<int>)
    ensures |ix| == |rings|
    ensures forall r :: 0 <= r < |rings| && IsLetter(rings[r]) ==> InRange(ix[r]) && ChFromI(ix[r]) == Upper(rings[r])
  {
    assert forall r :: 0 <= r < |rings| && IsLetter(rings[r]) ==> ChFromI(IFromCh(rings[r])) == Upper(rings[r]) by {
      forall r | 0 <= r < |rings| && IsLetter(rings[r]) {
        LetterRoundTrip(rings[r]);
      }
    }
    seq(|rings|, r requires 0 <= r < |rings| => IFromCh(rings[r]))
  }

  /** The fixed part of the machine that Init builds from cleaned settings. */
  function SetupOf(s: Settings): (setup: Setup)
    requires ValidSettings(s) && AllLetters(s.plugs)
    ensures ValidSetup(setup)
    ensures forall r :: 0 <= r < 3 ==> setup.rotors[r].wires == RotorWires(s.rotors[r])
    ensures setup.reflector.wires == ReflectorWires(s.reflector)
  {
    CleanPlugsKeepsLetters(s.plugs);
    Setup(RotorTables(s.rotors),
          ReflectorTable(s.reflector),
          RingIndices(s.rings),
          PlugTable(s.plugs))
  }

  /** The rotor table of each name, left to right. */
  function RotorTables(names: seq<RotorName>): (rs: seq<Rotor>)
    ensures |rs| == |names|
    ensures forall k :: 0 <= k < |names| ==> rs[k] == RotorTable(names[k])
  {
    seq(|names|, k requires 0 <= k < |names| => RotorTable(names[k]))
  }

  /** enigma.js:91-93: look up the rotor of each name, left to right. */
  method LookUpRotors(names: seq<RotorName>) returns (rs: seq<Rotor>)
    ensures rs == RotorTables(names)
  {
    rs := [];
    for r := 0 to |names|
      invariant |rs| == r
      invariant forall k :: 0 <= k < r ==> rs[k] == RotorTable(names[k])
    {
      rs := rs + [RotorTable(names[r])];
    }
  }

  /** enigma.js:99-103: the index of the letter of each of the first n
      positions, in a new array. */
  method ReadPosition(letters: seq<char>, n: nat) returns (pos: array<int>)
    requires n <= |letters|
    ensures fresh(pos) && pos.Length == n
    ensures forall k :: 0 <= k < n ==> pos[k] == IFromCh(letters[k])
  {
    pos := new int[n];
    for r := 0 to n
      invariant forall k :: 0 <= k < r ==> pos[k] == IFromCh(letters[k])
    {
      pos[r] := IFromCh(letters[r]);
    }
  }

  /** enigma.js:105-109: the index of every ring letter. */
  method ReadRings(letters: seq<char>) returns (ix: seq<int>)
    ensures ix == RingIndices(letters)
  {
    ix := [];
    for r := 0 to |letters|
      invariant |ix| == r
      invariant forall k :: 0 <= k < r ==> ix[k] == IFromCh(letters[k])
    {
      ix := ix + [IFromCh(letters[r])];
    }
  }

  /** The body of Init (enigma.js:91-133) on the given settings: the rotor
      tables, the reflector table, the start positions in a new array, the
      ring indices, the plugboard table and the redefined-plug warnings. */
  method Configure(given: Settings) returns (rs: seq<Rotor>, reflector: Reflector, pos: array<int>, ix: seq<int>, table: seq<int>, redefined: seq<char>)
    requires ValidSettings(given)
    ensures ValidSettings(Cleaned(given))
    ensures fresh(pos) && pos.Length == 3 && pos[..] == StartPosition(Cleaned(given))
    ensures Setup(rs, reflector, ix, table) == SetupOf(Cleaned(given))
    ensures redefined == PlugWarnings(Cleaned(given).plugs)
  {
    rs := LookUpRotors(given.rotors);
    reflector := ReflectorTable(given.reflector);
    pos := ReadPosition(given.position, |given.rotors|);
    ix := ReadRings(given.rings);
    CleanPlugsIdempotent(given.plugs);
    table, redefined := BuildPlugTable(Cleaned(given).plugs);
    assert pos[..] == StartPosition(Cleaned(given));
  }

  class Enigma {
    var settings: Settings
    var rotors: seq<Rotor>
    var reflector: Reflector
    /** The visible letter of each rotor, as an index; turned in place by IncrementRotors. */
    var position: array<int>
    var rings: seq<int>
    /** The plugboard table (enigma.js, mPlugs). */
    var plugs: seq<int>

    /** What holds of the state Init leaves behind, with the rotors anywhere. */
    ghost predicate Valid()
      reads this, position
    {
      && ValidSetup(Parts())
      && position.Length == 3
      && ValidPosition(position[..])
    }

    ghost function Parts(): Setup
      reads this
    {
      Setup(rotors, reflector, rings, plugs)
    }

    /** enigma.js:72-84: a machine from the default settings, or from the
        given ones, already initialised. */
    constructor(update: Option<Settings>)
      requires ValidSettings(if update.Some? then update.value else DefaultSettings)
      ensures Valid() && fresh(position)
      ensures settings == Cleaned(if update.Some? then update.value else DefaultSettings)
      ensures ValidSettings(settings) && Parts() == SetupOf(settings)
      ensures position[..] == StartPosition(settings)
    {
      settings := DefaultSettings;
      position := new int[3];
      new;
      var _ := Init(update);
    }

    /** enigma.js:87-137: take the new settings if any, look up the rotors
        and the reflector, set the rotors to their start positions, read the
        rings, and build the plugboard. The letters enigma.js warns about
        as redefined plugs are returned, in order. */
    method Init(update: Option<Settings>) returns (redefined: seq<char>)
      requires ValidSettings(if update.Some? then update.value else settings)
      modifies this
      ensures Valid() && fresh(position)
      ensures settings == Cleaned(if update.Some? then update.value else old(settings))
      ensures ValidSettings(settings) && Parts() == SetupOf(settings)
      ensures position[..] == StartPosition(settings)
      ensures redefined == PlugWarnings(settings.plugs)
    {
      var given := if update.Some? then update.value else settings;
      CleanPlugsIdempotent(given.plugs);
      var rs, reflector', pos, ix, table, warned := Configure(given);
      Install(Cleaned(given), rs, reflector', pos, ix, table);
      redefined := warned;
    }

    /** The assignments at the end of Init, one field each. */
    method Install(s: Settings, rs: seq<Rotor>, f: Reflector, pos: array<int>, ix: seq<int>, table: seq<int>)
      modifies this
      ensures settings == s && rotors == rs && reflector == f && position == pos && rings == ix && plugs == table
    {
      settings, rotors, reflector, position, rings, plugs := s, rs, f, pos, ix, table;
    }

    /** enigma.js:179-201: one key press turns the rotors. */
    method IncrementRotors()
      requires Valid()
      modifies position
      ensures Valid()
      ensures position[..] == Step(Parts(), old(position[..]))
    {
      if position[1] == IFromCh(rotors[1].notch) {
        position[0] := position[0] + 1;
        position[1] := position[1] + 1;
      } else if position[2] == IFromCh(rotors[2].notch) {
        position[1] := position[1] + 1;
      }
      position[2] := position[2] + 1;

      ghost var turned := position[..];
      for r := 0 to |rotors|
        invariant forall k :: 0 <= k < r ==> position[k] == turned[k] % 26
        invariant forall k :: r <= k < 3 ==> position[k] == turned[k]
      {
        position[r] := position[r] % 26;
      }
    }

    /** enigma.js:203-256: encode one character, turning the rotors first
        when it is a letter. */
    method EncodeCh(ch: char) returns (out: char)
      requires Valid()
      modifies position
      ensures Valid()
      ensures (out, position[..]) == EncodeChar(Parts(), old(position[..]), ch)
    {
      var c := Upper(ch);
      if c < 'A' || c > 'Z' {
        return c;
      }

      IncrementRotors();
      ghost var s, pos := Parts(), position[..];

      var i := IFromCh(c);
      i := plugs[i];
      ghost var entry := i;

      var r := 2;
      while r >= 0
        invariant -1 <= r <= 2
        invariant i == RightToLeft(s, pos, entry, 2 - r)
      {
        i := Pass(rotors[r].mapFwd, position[r], rings[r], i);
        r := r - 1;
      }

      i := Reflect(reflector.mapFwd, i);
      ghost var reflected := i;

      for r := 0 to 3
        invariant i == LeftToRight(s, pos, reflected, r)
      {
        i := Pass(rotors[r].mapRev, position[r], rings[r], i);
      }

      i := plugs[i];
      out := ChFromI(i);
    }

    /** enigma.js:258-264: encode a string character by character. */
    method Encode(s: string) returns (out: string)
      requires Valid()
      modifies position
      ensures Valid()
      ensures (out, position[..]) == EncodeString(Parts(), old(position[..]), s)
    {
      out := "";
      for i := 0 to |s|
        invariant Valid()
        invariant (out, position[..]) == EncodeString(Parts(), old(position[..]), s[..i])
      {
        assert s[..i + 1][..i] == s[..i];
        var c := EncodeCh(s[i]);
        out := out + [c];
      }
      assert s[..|s|] == s;
    }
  }

  /** The usage of enigma.js:13-16: encode, re-initialise, encode the
      cipher text again. With a plugboard that draws no warning, the second
      pass gives back the plain text upper-cased; the cipher text has the
      same length, no letter is encoded to itself, and every other
      character is passed through. */
  method EncryptThenDecrypt(update: Option<Settings>, text: string) returns (cipher: string, plain: string)
    requires ValidSettings(if update.Some? then update.value else DefaultSettings)
    requires PlugWarnings(Cleaned(if update.Some? then update.value else DefaultSettings).plugs) == []
    ensures |cipher| == |text|
    ensures forall k :: 0 <= k < |text| && IsLetter(text[k]) ==> IsUpperLetter(cipher[k]) && cipher[k] != Upper(text[k])
    ensures forall k :: 0 <= k < |text| && !IsLetter(text[k]) ==> cipher[k] == Upper(text[k])
    ensures plain == UpperString(text)
  {
    var machine := new Enigma(update);
    ghost var setup, start := machine.Parts(), machine.position[..];
    QuietPlugboardIsInvolution(machine.settings.plugs);
    cipher := machine.Encode(text);
    EncodeStringChars(setup, start, text);
    CleanedIsIdempotent(if update.Some? then update.value else DefaultSettings);
    var _ := machine.Init(None);
    assert machine.Parts() == setup && machine.position[..] == start;
    plain := machine.Encode(cipher);
    EncodeStringRoundTrip(setup, start, text);
  }
}
