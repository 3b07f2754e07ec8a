# Genetic melody generator: engine, MIDI encoder and scale schemes

This project models three parts of a program that evolves bit-string genomes
with a genetic algorithm and turns the fittest genome into a MIDI file:

- **`Genetic`** (`genetic.dfy`) models the genetic-algorithm engine of
  `src/algorithm/genetic.cpp`.
  - Genomes are `seq<bool>` and a population is a `seq` of genomes.
  - The fitness callback is a pure `Genome -> int32` function.
  - The `std::map<int, Genome>` weighted distribution is a key-sorted list
    of entries. Insertion overwrites, so members with the same score
    replace each other.
  - Each loop of the source is a method whose `ensures` ties its result to
    a function: genome and population generation, in-place mutation of an
    `array<bool>`, the map-building loop, the two walks of
    `sortPopulation`, the roulette wheel of `selectionPair`, the breeding
    loop and the generation loop of `runEvolution`. Lemmas then state what
    those functions mean.
  - One breeding round is the function `Offspring`: the wheel's two picks
    (`Pick`), their crossover (`SinglePointCrossover`) and one mutation
    attempt per child (`Mutated`). The generation loop is the function
    `Evolve`.
  - Every random draw is a parameter.
- **`Midi`** (`midi.dfy`) models the encoder of `src/midi.cpp` and its
  class declaration in `include/midi.h`. The class `MidiEncoder` owns the
  byte buffer `midiBytes`, which starts as the 25 header bytes.
  - `WriteGenomeToMidiBytes` reads the genome four bits at a time, least
    significant bit first, carrying `prevIdx`. For every group it appends
    a Note On / Note Off pair.
  - `EncodeGenomeToMidi` frames these events between the fixed byte blocks
    and never clears the buffer.
  - The lemmas read the resulting file against the Standard MIDI File 1.0
    layout: the MThd header chunk, the first MTrk track (Set Tempo and
    Time Signature meta-events) and the second track (Track Name, the
    events, End of Track).
  - `std::array::at` throwing `std::out_of_range` is an explicit `failed`
    outcome.
- **`Scales`** (`scale.dfy`) models `Scale::setScheme` of `src/scale.cpp`.
  - It holds the eight 14-entry semitone tables and the class `Scale`,
    whose `SetScheme` switches on the stored scale type.
  - The step formulas in the source comments (whole = 2, half = 1,
    3*half = 3) are constants.
  - Lemmas prove which tables follow their formula over both octaves,
    which tables repeat one octave higher, and that all tables increase.
- **`Results`** (`results.dfy`) holds the `Option` and `Result` datatypes.

In these places the code does not do what it evidently sets out to do. The
model follows the code:

- **Crossover length.** A crossover is meant to give children as long as
  their parents. The code merges `first[0, p)` with `second[p + 1, end)`, so each
  child is one bit shorter (`Genetic.SinglePointCrossover`).
- **Uneven lengths across generations.** After one generation the two elites
  keep the old length and the children are one bit shorter. A later
  crossover between an elite and a child therefore throws the length
  mismatch error (`Genetic.BreedPair` may return `LengthMismatchThrown`).
- **Fixed population size.** The population is meant to keep its size from
  one generation to the next. In the code the map keyed by score drops members with tied scores,
  so the sorted population and the next generation can shrink
  (`Genetic.DistributionShrinksOnTie`, `Genetic.Breed`). With fewer than two
  distinct scores, reading the second elite is undefined behaviour; it is
  modelled as the error `TooFewDistinctScores`.
- **The root fallback.** A 1111 group with no previous note is meant to play
  the root (the comment on src/midi.cpp:67). In the code that branch is
  unreachable: its guard already requires a previous note (`Midi.Resolve`). A first group
  of 0000 or 1111 indexes out of range and throws
  (`Midi.EmitFailsOnlyOnFirstGroup`).
- **The tempo bytes.** The Set Tempo event is meant to carry the tempo the
  encoder was built with, in big-endian bytes. The code computes those bytes
  (`[0, 0, tempo]`) but never writes them. It writes the literal `03 07 0A`
  instead (`Midi.MidiEncoder.EncodeGenomeToMidi`).

## Model

| member | source | states |
|---|---|---|
| `Genetic.GenerateGenome` | src/algorithm/genetic.cpp:11-26 | the genome has exactly `genomeLength` bits, bit n being the n-th Bernoulli draw |
| `Genetic.GeneratePopulation` | src/algorithm/genetic.cpp:28-38 | exactly `populationSize` genomes of `genomeLength` bits each, filled from the draws |
| `Genetic.Merge` | src/algorithm/genetic.cpp:58-59 | `std::merge` of two bool ranges keeps every bit: the length is the sum of the lengths and the multiset the union |
| `Genetic.MergeOfSortedIsSorted` | src/algorithm/genetic.cpp:58-59 | on ranges that meet `std::merge`'s sortedness precondition the result is sorted |
| `Genetic.SinglePointCrossover` | src/algorithm/genetic.cpp:40-62 | error exactly when the lengths differ; both parents unchanged below length 2; otherwise two children of length L - 1 |
| `Genetic.CrossoverConservesBits` | src/algorithm/genetic.cpp:51-59 | each child holds exactly the bits of its two source slices; together the children hold every parent bit except the two at the split point |
| `Genetic.Mutated` | src/algorithm/genetic.cpp:73-80 | mutation never changes the genome's length |
| `Genetic.Mutation` | src/algorithm/genetic.cpp:64-82 | the array after the loop is the genome with each firing attempt's index flipped, in order |
| `Genetic.MutationDistance` | src/algorithm/genetic.cpp:73-80 | the mutated genome differs from the original in at most as many positions as attempts fired, with the same parity |
| `Genetic.MutationWithoutFiringIsIdentity` | src/algorithm/genetic.cpp:73-80 | with no firing attempt (in particular num = 0) the genome is unchanged |
| `Genetic.SingleFiringMutationFlipsOneBit` | src/algorithm/genetic.cpp:73-80 | one firing attempt flips exactly the drawn bit and no other: Hamming distance 1 |
| `Genetic.PopulationFitness` | src/algorithm/genetic.cpp:84-95 | the loop's sum is the total of the members' scores |
| `Genetic.TotalFitnessAppend` | src/algorithm/genetic.cpp:84-95 | the total of two populations put together is the sum of their totals |
| `Genetic.Insert` | src/algorithm/genetic.cpp:136 | `wp[weight] = gene` keeps keys sorted, maps `weight` to `gene`, leaves every other key alone, and grows by one exactly when the key is new |
| `Genetic.InsertNewKeyAddsGenome` | src/algorithm/genetic.cpp:136 | inserting a new key adds exactly that genome to the map's genomes |
| `Genetic.Distribution` | src/algorithm/genetic.cpp:128-140 | keys sorted, each entry's key is its genome's score, every genome is a member, and each key maps to the last member with that score |
| `Genetic.GenerateWeightedDistribution` | src/algorithm/genetic.cpp:128-140 | the insertion loop builds exactly `Distribution` |
| `Genetic.LastScoredFindsEveryScore` | src/algorithm/genetic.cpp:130-137 | a score has a last member exactly when some member has that score: the keys are exactly the members' scores |
| `Genetic.DistributionSize` | src/algorithm/genetic.cpp:130-137 | the map has one entry per distinct score, never more than the population |
| `Genetic.DistributionShrinksOnTie` | src/algorithm/genetic.cpp:130-137 | two members with the same score make the map smaller than the population |
| `Genetic.DistributionKeepsAllOnDistinctScores` | src/algorithm/genetic.cpp:130-137 | with distinct scores the map's genomes are the population, as a multiset |
| `Genetic.SortedPopulation` | src/algorithm/genetic.cpp:142-164 | scores strictly decrease when `reversed`, strictly increase otherwise; every genome is a member; one genome per map entry |
| `Genetic.SortPopulation` | src/algorithm/genetic.cpp:142-164 | the method returns `SortedPopulation` |
| `Genetic.WalkMap` | src/algorithm/genetic.cpp:152-161 | the reverse walk yields the map's genomes reversed, the forward walk yields them in key order |
| `Genetic.SortOrdersAreReverses` | src/algorithm/genetic.cpp:152-161 | the descending result is exactly the reverse of the ascending one |
| `Genetic.SortedSize` | src/algorithm/genetic.cpp:144-161 | the output length is the number of distinct scores, at most the population size |
| `Genetic.SortIsPermutationOnDistinctScores` | src/algorithm/genetic.cpp:144-161 | with distinct scores the output is a permutation of the population |
| `Genetic.SumWeights` | src/algorithm/genetic.cpp:101-105 | the loop sums the map's weights |
| `Genetic.Spin` | src/algorithm/genetic.cpp:113-122 | the inner walk that subtracts weights returns the wheel's pick (`Pick`) for the draw |
| `Genetic.PickFirstExceeding` | src/algorithm/genetic.cpp:113-122 | the wheel picks the first entry, in ascending score order, whose cumulative weight exceeds the draw |
| `Genetic.PickFallsThrough` | src/algorithm/genetic.cpp:113-122 | a draw no cumulative weight exceeds leaves the empty genome |
| `Genetic.PickAtTotalWeight` | src/algorithm/genetic.cpp:99-123 | with positive weights a draw equal to the total leaves the slot as the empty genome |
| `Genetic.Pick` | src/algorithm/genetic.cpp:113-122 | the walk that subtracts each passed weight returns the empty genome or a genome stored in the map |
| `Genetic.SelectionPair` | src/algorithm/genetic.cpp:97-126 | each slot is the wheel's pick for its draw, and is empty or a member of the population |
| `Genetic.PickIsMember` | src/algorithm/genetic.cpp:97-126 | a selected genome is empty or a member of the population |
| `Genetic.Stops` | src/algorithm/genetic.cpp:177-178 | the `int` score is compared as `uint32_t`: a non-negative score stops iff it reaches the limit; a negative score stops for any limit up to 2^31 |
| `Genetic.Clamp` | src/algorithm/genetic.cpp:109 | a raw draw brought into [0, hi] stays in range, and every value of the range is reachable as itself |
| `Genetic.Offspring` | src/algorithm/genetic.cpp:183-196 | one breeding round (the wheel's picks, their crossover, one mutation attempt per child) never reports too few scores, and its offspring are non-empty |
| `Genetic.Bred` | src/algorithm/genetic.cpp:187-192 | crossover and mutation of two given parents never report too few scores, and the offspring are non-empty |
| `Genetic.OffspringOutcome` | src/algorithm/genetic.cpp:40-62 | when a round fails: `EmptyDrawRange` exactly when the total weight is negative or both picks are empty, `LengthMismatchThrown` exactly when the picks differ in length, success exactly when they have one positive length |
| `Genetic.OffspringLength` | src/algorithm/genetic.cpp:51-59 | over a map of `len`-bit genomes, a successful round yields two offspring of `len - 1` bits |
| `Genetic.PickBelowTotal` | src/algorithm/genetic.cpp:113-122 | a draw below the total weight of a non-empty map lands on a stored genome |
| `Genetic.OffspringSucceeds` | src/algorithm/genetic.cpp:183-196 | over stored genomes of one positive length, a round whose two clamped draws stay below the total weight succeeds |
| `Genetic.OffspringOfParents` | src/algorithm/genetic.cpp:185-192 | with a non-negative total weight a round breeds from the two genomes the wheel selects |
| `Genetic.BreedPair` | src/algorithm/genetic.cpp:185-195 | the round is exactly `Offspring` of the sorted members' map; by `OffspringOutcome`, `Err(EmptyDrawRange)` iff the total weight is negative or both picks are empty, `Err(LengthMismatchThrown)` iff the picks differ in length, `Ok` otherwise |
| `Genetic.CrossAndMutate` | src/algorithm/genetic.cpp:189-192 | crossover of the selected parents then a mutation attempt on each child's copy is exactly `Bred` |
| `Genetic.MutateCopy` | src/algorithm/genetic.cpp:187-192 | the offspring is the child after one mutation attempt and has its length |
| `Genetic.Breed` | src/algorithm/genetic.cpp:173-197 | the generation is exactly `BredGeneration`: `TooFewDistinctScores` below two sorted members, otherwise the rounds over the sorted members' map |
| `Genetic.BreedRounds` | src/algorithm/genetic.cpp:180-196 | the loop of `|sorted| / 2 - 1` rounds after the two elites is exactly `Rounds`, stopping at the first failing round |
| `Genetic.Rounds` | src/algorithm/genetic.cpp:180-196 | a successful breeding of n rounds holds 2 + 2n genomes, the two best sorted members first |
| `Genetic.RoundsErrorPersists` | src/algorithm/genetic.cpp:183-196 | once a round has failed, later rounds do not change the outcome |
| `Genetic.RoundsSucceed` | src/algorithm/genetic.cpp:183-196 | the breeding succeeds exactly when every round does |
| `Genetic.RoundsChildren` | src/algorithm/genetic.cpp:194-195 | round i contributes the members at 2 + 2i and 3 + 2i |
| `Genetic.RoundsFirstFailure` | src/algorithm/genetic.cpp:183-196 | a failed breeding carries the error of a failing round i < n, and every round before i succeeded |
| `Genetic.RoundsLength` | src/algorithm/genetic.cpp:194-195 | when every successful round yields two `len`-bit genomes, so does the breeding at every position after the elites |
| `Genetic.RoundsNonEmpty` | src/algorithm/genetic.cpp:194-195 | when every successful round yields non-empty offspring, the breeding holds no empty child |
| `Genetic.BredChildren` | src/algorithm/genetic.cpp:183-196 | in a generation that breeds, members 2 + 2i and 3 + 2i are the offspring of round i, which is `Offspring` of the map with the draws of round i |
| `Genetic.BredFailure` | src/algorithm/genetic.cpp:183-196 | a generation that fails after the elites never reports too few scores, and reports the error `Offspring` gives for its first failing round i < n |
| `Genetic.BredChildrenLength` | src/algorithm/genetic.cpp:183-196 | over a map of `len`-bit genomes every child is `len - 1` bits long |
| `Genetic.RoundOutcomesNonEmpty` | src/algorithm/genetic.cpp:187-195 | every successful round of a generation yields two non-empty offspring |
| `Genetic.BredViable` | src/algorithm/genetic.cpp:180-197 | the rounds bred from the sorted members of a viable population give a non-empty, even-sized population of at most six genomes, none empty |
| `Genetic.BredGenerationRounds` | src/algorithm/genetic.cpp:180-196 | a generation that breeds had at least two sorted members and is the outcome of its rounds |
| `Genetic.DistributionStoredLength` | src/algorithm/genetic.cpp:128-140 | the map of a population of `len`-bit genomes stores only `len`-bit genomes |
| `Genetic.NextGeneration` | src/algorithm/genetic.cpp:175-197 | one generation's breeding from a viable population, when it succeeds, is viable |
| `Genetic.Generation` | src/algorithm/genetic.cpp:173-197 | one pass sorts, stops iff the unsorted first member passes `Stops`, and otherwise breeds exactly `NextGeneration` |
| `Genetic.InitialPopulation` | src/algorithm/genetic.cpp:28-38 | the default population is viable and all its members have 256 bits |
| `Genetic.GeneratedIsInitial` | src/algorithm/genetic.cpp:169 | a population drawn bit by bit from `coin` is the default population |
| `Genetic.Evolve` | src/algorithm/genetic.cpp:171-198 | a run that returns a population returns a viable one |
| `Genetic.EvolveEndsAtStopOrLimit` | src/algorithm/genetic.cpp:171-198 | a successful run breeds no generation past the limit, and a run that ends before the limit returns a population whose first member passes `Stops` |
| `Genetic.RunEvolution` | src/algorithm/genetic.cpp:166-203 | the generation loop returns exactly `Evolve` from the default population; when `generationLimit` is 0, or the default population's first member already passes `Stops`, it returns `Ok` of that default population |
| `Midi.ToUlong` | src/midi.cpp:49-54 | bit k of a group, in genome order, has weight 2^k |
| `Midi.Groups` | src/midi.cpp:47-54 | one value per whole group of four bits: `|genome| / 4` groups |
| `Midi.DecimalTempoToBytes` | src/midi.cpp:23-31 | three big-endian bytes of the tempo: `[0, 0, tempo]`, whose big-endian value is the tempo |
| `Midi.ShiftedByteIsZero` | src/midi.cpp:28 | a one-byte tempo shifted right by 8 bits or more is 0 |
| `Midi.Resolve` | src/midi.cpp:53-68 | 0000 and 1111 reuse the previous index when there is one, any other group (and 0000 or 1111 with no previous index) is its own index; only 0000 has velocity 0. The root fallback `idx = 1` never fires, since its branch already requires a previous index |
| `Midi.Emit` | src/midi.cpp:37-85 | without a throw the encoding is 8 bytes per group; a throw leaves only the `00 90` pushed before it |
| `Midi.EmitShape` | src/midi.cpp:37-85 | 8 bytes per group; after a group `prevIdx` lies in 1..14 and names the pitch of the last event; a throw leaves only `00 90` |
| `Midi.EmitFailsOnlyOnFirstGroup` | src/midi.cpp:56-73 | the encoding throws exactly when the first group is 0000 or 1111 |
| `Midi.EmitFailureAbsorbs` | src/midi.cpp:70-79 | once `at` has thrown, later groups add nothing |
| `Midi.EmitEventLayout` | src/midi.cpp:53-82 | event k is `00 90 p v 60 80 p 40`, v = 0 for 0000 and 0x64 otherwise, p = scale[g - 1] for g in 1..14, and 0000/1111 repeat the previous pitch |
| `Midi.EarlierEventKept` | src/midi.cpp:71-80 | appending a group leaves the earlier events untouched |
| `Midi.GroupsOfPrefix` | src/midi.cpp:47-51 | the groups of a prefix cut at a group boundary are a prefix of the groups |
| `Midi.TrailingBitsIgnored` | src/midi.cpp:47-51 | the trailing `|genome| mod 4` bits never reach the output |
| `Midi.MidiEncoder.constructor` | src/midi.cpp:33-35 | `m_tempoBytes` holds the three tempo bytes; the buffer starts as the 25 initial bytes |
| `Midi.MidiEncoder.WriteGenomeToMidiBytes` | src/midi.cpp:37-85 | the output is the input buffer followed by the encoding of the genome's groups; `thrown` reports `at`'s exception |
| `Midi.MidiEncoder.PushEvent` | src/midi.cpp:51-83 | one completed group extends the encoding by exactly that group's event, or by `00 90` and a throw |
| `Midi.MidiEncoder.EncodeGenomeToMidi` | src/midi.cpp:87-106 | the buffer becomes `old(midiBytes) + Appended(...)`: `03 07 0A`, the 34-byte block, the events and, unless `at` threw, `00 FF 2F 00`; it is never cleared, so a second call appends a second copy and encoding is not idempotent |
| `Midi.MidiEncoder.PushAll` | src/midi.cpp:97-98 | a range-for of `push_back`s appends the whole constant |
| `Midi.FileLength` | src/midi.cpp:92-105 | the first file is 66 + 8·⌊L/4⌋ bytes, or 64 after a throw |
| `Midi.HeaderChunk` | include/midi.h:25-26 | file bytes 0-13: "MThd", length 6, format 1, 2 tracks, 96 ticks per quarter note |
| `Midi.FirstTrack` | include/midi.h:26-28 | track 1 is "MTrk" of declared length 19, the Set Tempo event with 461538 µs, the time signature and End of Track ending exactly at byte 22 + 19, then "MTrk" |
| `Midi.SecondTrackHead` | src/midi.cpp:15-18 | file bytes 45-61: the declared length `00 00 01 11` and the "Sampler 1" name event |
| `Midi.SecondTrackBody` | src/midi.cpp:100-105 | from byte 62: the events, then End of Track unless `at` threw |
| `Midi.SecondTrack` | src/midi.cpp:12-19 | track 2 declares 273 bytes, which is its real length exactly when the genome has 32 groups |
| `Scales.Scheme` | src/scale.cpp:37-88 | each named type has a 14-entry table starting at 0 with values in [0, 27]; the default branch has none |
| `Scales.Formula` | src/scale.cpp:39-82 | every commented step is 1, 2 or 3 semitones |
| `Scales.FormulaRepeatsOctave` | src/scale.cpp:39-41 | a table that follows a one-octave formula repeats 12 semitones higher after one formula length |
| `Scales.FormulaAscends` | src/scale.cpp:39-41 | a table that follows a formula of positive steps is strictly increasing |
| `Scales.FormulasSpanAnOctave` | src/scale.cpp:39-82 | every commented formula sums to 12 semitones |
| `Scales.SchemeFollowsFormula` | src/scale.cpp:39-83 | every table except LYDIAN climbs by its formula over all 14 entries |
| `Scales.MajorFollowsFormula` | src/scale.cpp:39-41 | MAJOR follows whole, whole, half, whole, whole, whole, half |
| `Scales.MinorFollowsFormula` | src/scale.cpp:46-47 | MINOR follows its formula |
| `Scales.DorianFollowsFormula` | src/scale.cpp:52-53 | DORIAN follows its formula |
| `Scales.PhrygianFollowsFormula` | src/scale.cpp:58-59 | PHRYGIAN follows its formula |
| `Scales.MixolydianFollowsFormula` | src/scale.cpp:70-71 | MIXOLYDIAN follows its formula |
| `Scales.MajorBluesFollowsFormula` | src/scale.cpp:76-77 | MAJOR_BLUES follows whole, half, half, 3*half, whole, 3*half |
| `Scales.MinorBluesFollowsFormula` | src/scale.cpp:82-83 | MINOR_BLUES follows 3*half, whole, half, half, 3*half, whole |
| `Scales.LydianBreaksFormula` | src/scale.cpp:64-65 | LYDIAN follows its formula for six entries, but entry 6 is 10 where the formula gives 11 |
| `Scales.SchemeAscends` | src/scale.cpp:41-83 | every table is strictly increasing |
| `Scales.OctaveRepetition` | src/scale.cpp:40-83 | entry i + 7 is entry i + 12 for the five modes other than LYDIAN, entry i + 6 is entry i + 12 for the blues tables, and LYDIAN does not repeat |
| `Scales.SchemeRepeatsAfterFormula` | src/scale.cpp:39-83 | every table but LYDIAN repeats 12 semitones higher after one formula length |
| `Scales.Scale.constructor` | src/scale.h:26 | the type and key are stored; the scheme, exactly 14 entries as `std::array<int, 14>`, keeps whatever it held |
| `Scales.Scale.SetScheme` | src/scale.cpp:33-89 | the scheme becomes the table of the stored type, whatever the argument; the default branch leaves it as it was; nothing else changes |

## Left out

- Randomness (`std::random_device`, `mt19937` and the Bernoulli, uniform-int
  and uniform-real distributions) is not modelled. The standalone
  operations take the value a distribution would produce. `RunEvolution`
  takes raw draws and clamps them into each range (`Clamp`), so every
  value of each range is reachable. The float
  comparison `p < probability` becomes the boolean `fires`.
- An empty uniform-int range is undefined behaviour in C++. This happens
  with a negative total weight, or when mutating an empty child. The model
  reports it as the error `EmptyDrawRange`.
- Sums of scores (`populationFitness`, `sumWeights`) are unbounded integers.
  Overflow of the C++ `int` is not modelled.
- All `spdlog` logging is left out.
- The file write at the end of `encodeGenomeToMidi` (opening, writing and
  closing the file) is left out. The model stops at the byte buffer.
- The pitch table is 14 given bytes. The float scale construction
  (`constructScale`, `calculteFrequency`) and the float-to-byte conversion
  of the pitches are not part of this model. For the same reason
  `Scales.Scale` has no `m_scale` field. `SetScheme`'s frame still shows
  that nothing but the scheme changes.
- The initial contents of `m_scheme`, which the constructor leaves
  uninitialised, are a constructor parameter.
- The eight named enumerators are datatype constructors. Any other value the
  enum may hold is `Unlisted`, which reaches the `default` branch.
- SDL playback, the program entry point and its interactive fitness
  function are not part of this model.
- Genetic.RunEvolution: it does not promise that a run succeeds. After the
  first generation the elites keep their length and the children are one
  bit shorter, so a later round can pick parents of different lengths and
  throw (`OffspringOutcome` says exactly when). What each generation holds
  is stated by `BredChildren`, `BredFailure` and `BredChildrenLength`.
