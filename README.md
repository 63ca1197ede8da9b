# Enigma machine model

A Dafny model of `enigma.js`, Mike Koss's simulator of the three-rotor
Wehrmacht Enigma. The model covers the rotors I–V and reflectors B and C with
their wirings and notches, the offset tables that `MapRotor` derives from a
wiring, and the `Enigma` object.

`Init` reads the settings (rotor names, reflector, visible rotor letters,
ring letters and plug string). It cleans the plug string and builds the
plugboard, reporting any plug that is redefined. `IncrementRotors` turns the
rotors, including the double step of the middle rotor. `EncodeCh` sends one
key press through the plugboard, the three rotors, the reflector and back.
`Encode` does this for every character of a string.

The model has six modules:

- `Alphabet` (alphabet.dfy): letters and their indices.
- `Wiring` (wiring.dfy): the rotor and reflector tables and one rotor's arithmetic.
- `Plugboard` (plugboard.dfy): cleaning the plug string, building the table, and the warnings.
- `Stepping` (stepping.dfy): the stepping rule.
- `SignalPath` (signal.dfy): `EncodeCh` and `Encode` as pure functions of the fixed setup and the rotor positions, with the reciprocity proofs.
- `Machine` (enigma.dfy): the `Enigma` class.

In the class, the rotor positions are an `array<int>` that `IncrementRotors`
turns in place. Each method is proved against the functions of
`SignalPath`, and the properties of the machine are proved about those
functions.

## Model

| member | source | states |
|---|---|---|
| Alphabet.Upper | enigma.js:42 | ASCII letters, and only they, become upper-case letters with the same index; every other character is unchanged; upper-casing twice changes nothing |
| Alphabet.UpperString | enigma.js:16 | the upper-cased string has the same length, and each character is the upper-cased input character |
| Alphabet.IFromCh | enigma.js:40-44 | the index of a character is in 0..25 exactly when the character is a letter of either case |
| Alphabet.ChFromI | enigma.js:46-49 | an index in 0..25 gives an upper-case letter whose index is that same number |
| Alphabet.LetterRoundTrip | enigma.js:40-49 | letter → index → letter gives the letter upper-cased |
| Wiring.WiresIDistinct | enigma.js:24 | the wiring of rotor I has 26 distinct letters |
| Wiring.WiresIIDistinct | enigma.js:25 | the wiring of rotor II has 26 distinct letters |
| Wiring.WiresIIIDistinct | enigma.js:26 | the wiring of rotor III has 26 distinct letters |
| Wiring.WiresIVDistinct | enigma.js:27 | the wiring of rotor IV has 26 distinct letters |
| Wiring.WiresVDistinct | enigma.js:28 | the wiring of rotor V has 26 distinct letters |
| Wiring.WiresBDistinct | enigma.js:32 | the wiring of reflector B has 26 distinct letters |
| Wiring.WiresCDistinct | enigma.js:33 | the wiring of reflector C has 26 distinct letters |
| Wiring.WiresBPairs | enigma.js:32 | reflector B wires every contact to a different contact that is wired back to it |
| Wiring.WiresCPairs | enigma.js:33 | reflector C wires every contact to a different contact that is wired back to it |
| Wiring.DistinctLettersAreAll | enigma.js:23-34 | 26 distinct letters contain every letter of the alphabet, so each wiring is a permutation |
| Wiring.RotorTablesAreWirings | enigma.js:23-29 | every rotor's wiring is a permutation of the alphabet, and its notch is a letter |
| Wiring.ReflectorTablesAreReflections | enigma.js:31-34 | every reflector's wiring is a permutation that pairs letters off, with no letter wired to itself |
| Wiring.WirePosition | enigma.js:61 | the contact at which a letter appears in a wiring holds that letter |
| Wiring.ForwardOffsets | enigma.js:57-60 | the forward table has 26 entries, each an offset in 0..25 |
| Wiring.ReverseOffsets | enigma.js:57-61 | the reverse table has 26 entries, each an offset in 0..25 |
| Wiring.MapRotor | enigma.js:51-63 | the loop fills both tables exactly as the offset functions define them |
| Wiring.RotorTable | enigma.js:23-67 | a named rotor has its wiring, its notch, and the tables MapRotor computes from the wiring |
| Wiring.ReflectorTable | enigma.js:31-70 | a named reflector has its wiring and the tables MapRotor computes from the wiring |
| Wiring.Contact | enigma.js:223 | the contact a signal enters is its index shifted by the position less the ring, taken mod 26 |
| Wiring.Pass | enigma.js:221-236 | one rotor passed in either direction, with that direction's table, leaves the signal in 0..25 |
| Wiring.Reflect | enigma.js:228 | the reflector leaves the signal in 0..25 |
| Wiring.ForwardFollowsWire | enigma.js:223-224 | passing right to left follows the wire from the shifted contact, then undoes the shift |
| Wiring.BackwardFollowsWire | enigma.js:233-234 | passing left to right follows the wire back to where the shifted letter sits, then undoes the shift |
| Wiring.BackwardUndoesForward | enigma.js:221-236 | at any position and ring, the reverse table undoes the forward table |
| Wiring.ForwardUndoesBackward | enigma.js:221-236 | at any position and ring, the forward table undoes the reverse table |
| Wiring.ReflectFollowsWire | enigma.js:228 | the reflector sends a contact to the letter wired to it |
| Wiring.ReflectIsFixedPointFreeInvolution | enigma.js:228 | reflecting twice gives back the contact, and no contact is reflected onto itself |
| Wiring.RotorStepsUndoEachOther | enigma.js:221-236 | for a table-built rotor, the forward and reverse passes invert each other in both orders |
| Plugboard.CleanPlugs | enigma.js:111-112 | the cleaned plug string holds only upper-case letters and is no longer than the input |
| Plugboard.CleanPlugsKeepsOnlyLetters | enigma.js:111-112 | every cleaned character is an upper-cased input character, and every input letter appears upper-cased |
| Plugboard.CleanPlugsOfOne | enigma.js:111-112 | a single character is kept, upper-cased, exactly when it is a letter |
| Plugboard.CleanPlugsAppend | enigma.js:111-112 | cleaning a concatenation is concatenating the cleaned parts, so the letters keep their order and multiplicity |
| Plugboard.CleanPlugsKeepsLetters | enigma.js:111-112 | a string of upper-case letters is left as it is |
| Plugboard.CleanPlugsIdempotent | enigma.js:111-112 | cleaning twice is the same as cleaning once |
| Plugboard.Identity | enigma.js:117-119 | the starting plugboard is an involution, with every letter unplugged |
| Plugboard.IdentityTable | enigma.js:117-119 | the loop builds the identity table |
| Plugboard.Swap | enigma.js:131-132 | plugging a pair sends each letter to the other and changes no other entry |
| Plugboard.PlugTable | enigma.js:117-133 | the plugboard built from a plug string is a table of 26 indices in 0..25 |
| Plugboard.PairWarnings | enigma.js:126-129 | a pair warns once about each of its two letters that is already plugged to another letter, the first letter's warning first, and about nothing else |
| Plugboard.PlugWarnings | enigma.js:121-133 | there are no more warnings than plug letters |
| Plugboard.WarningsNamePlugLetters | enigma.js:126-129 | every warning names a letter of the plug string |
| Plugboard.UnnamedLetterIsFixed | enigma.js:117-133 | a letter that no plug names is wired to itself |
| Plugboard.SwapOfFixedKeepsInvolution | enigma.js:131-132 | plugging two unplugged letters keeps the board an involution |
| Plugboard.QuietPlugboardIsInvolution | enigma.js:121-133 | a plug string that draws no warning builds an involution |
| Plugboard.DistinctPlugsAreQuiet | enigma.js:121-133 | a plug string with no letter repeated draws no warning |
| Plugboard.DistinctPlugsPairUp | enigma.js:121-133 | with no letter repeated, the board is an involution and each pair's letters are wired to each other |
| Plugboard.RedefinitionBreaksInvolution | enigma.js:121-133 | for "ABAC": B goes to A but A goes to C, the board is not an involution, and one warning names A |
| Plugboard.ReadPair | enigma.js:123-132 | the table after a pair is the earlier table with the pair swapped in, and the warnings are extended by that pair's warnings |
| Plugboard.PlugPair | enigma.js:123-132 | one turn of the plug loop swaps the pair in and appends that pair's warnings |
| Plugboard.ReadNextPair | enigma.js:121-132 | one turn of the pair loop takes the table and warnings of the pairs read so far to those of one more pair |
| Plugboard.BuildPlugTable | enigma.js:117-133 | the loops build exactly the plug table and the warnings of the plug string |
| Stepping.Stepped | enigma.js:187-200 | the right rotor always turns; the middle rotor turns when it or the right rotor is at its notch; the left rotor turns when the middle rotor is at its notch; all positions stay in 0..25 |
| Stepping.DoubleStep | enigma.js:187-200 | after the right rotor carries the middle rotor onto its notch, the next key press turns the middle rotor again and the left rotor with it |
| Stepping.DoubleStepExample | enigma.js:187-200 | with rotors II and III on the middle and right, A-D-U steps to A-D-V, then A-E-W, then B-F-X |
| SignalPath.Step | enigma.js:188-194 | a key press keeps every position in 0..25 |
| SignalPath.StepIgnoresRings | enigma.js:181-194 | two setups whose middle and right notches agree step alike, whatever their rings, wirings and plugboard |
| SignalPath.RightToLeft | enigma.js:221-226 | the signal stays in 0..25 through the rotors, right to left |
| SignalPath.LeftToRight | enigma.js:231-236 | the signal stays in 0..25 through the rotors, left to right |
| SignalPath.Path | enigma.js:216-238 | the whole path from plugboard back to plugboard gives an index in 0..25 |
| SignalPath.LeftToRightUndoesRightToLeft | enigma.js:221-236 | going back through the rotors retraces the path, one rotor at a time |
| SignalPath.RightToLeftUndoesLeftToRight | enigma.js:221-236 | the same in the other direction |
| SignalPath.PathIsReciprocal | enigma.js:216-238 | with an involutive plugboard, the path is an involution with no fixed point |
| SignalPath.EncodeChar | enigma.js:203-241 | a non-letter is upper-cased and leaves the rotors alone; a letter turns the rotors once, then encodes to an upper-case letter |
| SignalPath.EncodeCharIsReciprocal | enigma.js:214-241 | a letter never encodes to itself, and from the same positions its output encodes back to it |
| SignalPath.EncodeCharTwice | enigma.js:208-241 | from the same positions, encoding the output of any character gives back that character upper-cased |
| SignalPath.EncodeString | enigma.js:258-264 | encoding keeps the length of the text |
| SignalPath.EncodeStringAt | enigma.js:258-264 | each output character is the input character encoded at the positions left by the text before it |
| SignalPath.EncodeStringChars | enigma.js:208-264 | every letter is encoded to a different upper-case letter, and every other character is upper-cased |
| SignalPath.LetterCount | enigma.js:211-214 | there are no more letters than characters |
| SignalPath.Steps | enigma.js:179-201 | any number of key presses keeps the positions in 0..25 |
| SignalPath.RightRotorTurnsEveryPress | enigma.js:197-200 | after n key presses the right rotor has moved n places, mod 26 |
| SignalPath.EncodeStringSteps | enigma.js:258-264 | the rotors turn once per letter of the text and never for another character |
| SignalPath.EncodeStringRoundTrip | enigma.js:258-264 | encoding the cipher text from the same start positions gives back the upper-cased text and leaves the rotors where the first pass left them |
| Machine.Cleaned | enigma.js:111-112 | the settings after Init hold a plug string of letters only, and differ from the input only in the plug string |
| Machine.CleanedIsIdempotent | enigma.js:111-112 | re-initialising with the stored settings leaves them as they are |
| Machine.StartPosition | enigma.js:99-103 | each start position is the index of that rotor's visible letter |
| Machine.DefaultSettingsAreValid | enigma.js:75-81 | the default settings can be initialised, draw no warning, and put the rotors at M, C, K |
| Machine.RingIndices | enigma.js:105-109 | each ring letter gives its index in 0..25 |
| Machine.SetupOf | enigma.js:91-133 | the settings give rotor and reflector tables with the named wirings, the rings and the plug table, which satisfy the setup invariant |
| Machine.RotorTables | enigma.js:91-93 | the rotor tables are looked up left to right, one per name |
| Machine.LookUpRotors | enigma.js:91-93 | the loop builds the rotor tables of the names |
| Machine.ReadPosition | enigma.js:99-103 | the loop fills a new array with the index of each visible letter |
| Machine.ReadRings | enigma.js:105-109 | the loop gives the ring indices |
| Machine.Configure | enigma.js:91-133 | Init's body gives exactly the setup and start positions of the cleaned settings, and the warnings of the cleaned plug string |
| Machine.Enigma.constructor | enigma.js:72-84 | a new machine has the default or given settings, cleaned, and is initialised from them |
| Machine.Enigma.Init | enigma.js:87-137 | stores the new or old settings, cleaned; builds their setup; sets the rotors to their start positions; returns the redefinition warnings |
| Machine.Enigma.IncrementRotors | enigma.js:179-201 | turns the position array in place to the next stepping position and changes nothing else |
| Machine.Enigma.EncodeCh | enigma.js:203-256 | returns the output character and leaves the positions that the EncodeChar function defines |
| Machine.Enigma.Encode | enigma.js:258-264 | returns the output text and leaves the positions that the EncodeString function defines |
| Machine.EncryptThenDecrypt | enigma.js:12-16 | with a plugboard that draws no warning: the cipher has the text's length, every letter is encoded to a different letter, other characters are upper-cased, and after Init() the second pass gives back the upper-cased text |

## Left out

- Warnings: `console.warn` is not modelled as output. Init returns the redefined letters, in order, as a string; the odd-length warning of enigma.js:114-115 is not returned.
- Odd-length plug strings: the model requires an even number of plug letters. With an odd count, enigma.js warns, then reads past the end of the string and fails on the last pair.
- Tracing: `fnTrace`, the `aTrace` list built in EncodeCh, and `toString` (enigma.js:139-177) are diagnostics only, and are not modelled.
- Settings merge: `NS.Extend` merges only the given keys. The model takes either no settings (`None`, the stored ones) or a complete record (`Some`). The namespace wrapper `global_namespace.Define` is not part of this model.
- Names: unknown rotor or reflector names cannot be expressed, because names are datatypes. enigma.js would store `undefined` and fail on first use.
- Rotor count: exactly three rotors, the number that IncrementRotors and EncodeCh index.
- Alphabet.Upper: upper-cases ASCII letters only. JavaScript's `toUpperCase` also turns some other characters into capital A..Z strings: 'ı' becomes "I", 'ſ' becomes "S", 'ß' becomes "SS" and 'ﬀ' becomes "FF". In enigma.js such a character passes the letter test of EncodeCh, steps the rotors and is encoded from its first letter; in a plug string it becomes plug letters. The model treats these characters as non-letters: SignalPath.EncodeChar passes them through unchanged without stepping, and Plugboard.CleanPlugs drops them.
- Alphabet.ChFromI: defined for 0..25 only, which is every index the machine produces.
- Tables: the objects `map`, `mapRev` and `mPlugs` are sequences of 26 entries.
- Machine.ValidSettings: position and ring characters must be letters. enigma.js also accepts non-letters there and then computes with out-of-range indices.
- Plugboard.PlugWarnings: its own contract bounds only the number of warnings. It is the concatenation, pair by pair, of Plugboard.PairWarnings, whose contract gives each pair's letters, count and order; Plugboard.WarningsNamePlugLetters states that every warning names a plug letter.
- Machine.Enigma.EncodeCh: the offset arithmetic of each rotor is written as calls to Wiring.Pass and Wiring.Reflect, which compute the same expressions as enigma.js:223-224, 228 and 233-234.
