# ImperatorToCK3 loader core, modelled in Dafny

This project models four sequential, id-keyed pieces of the ImperatorToCK3
converter's loader and proves properties about them.

- **The Imperator world's save handling** (`World.cs`).
  - `VerifySave` checks the `SAV` magic and skips the header line.
  - It then enforces the 65536-byte minimum, re-reads the first 64 KiB block and checks that the read was complete.
  - It scans the block for the ZIP local-file-header signature `0x04034B50` (section 4.3.7 of PKWARE's APPNOTE.TXT), preceded by the 16-bit word 4.
  - The scan leaves the save type as `Plaintext` or `CompressedEncoded`.
  - `ProcessSave` dispatches on the save type.
- **The pre-Imperator ruler intake** (`World.LoadPreImperatorRulers`).
  - Terms without a ruler or a country are dropped.
  - Every kept term goes to its country's list and to the intake dictionary.
  - Each country's terms are stable-sorted by start date.
  - The regnal names of each country are counted and compared with its historical regnal numbers.
- **The province collection** (`Provinces.cpp`).
  - Provinces are registered under integer keys with `emplace`.
  - `linkPops` restricts each province's pop map to the globally defined pops.
  - `linkCountries` makes the two-way province/country link.
  - Both passes count what they do.
- **The CK3 character loading rule** (`CharactersLoader.cs`).
  - Only characters with a dated birth entry are stored (add-or-replace) and recorded.
  - After parsing, the children cache of every recorded character's parents is updated.

Modules:
- `Wrappers` holds `Option` and `Result`.
- `SaveFormat` holds the byte-level specification of the save check and the dispatch.
- `World` holds the world class with its `saveType` field, its imperative save check, and the ruler intake over the world's countries.
- `RulerTerms` holds the pure functions the intake is specified by.
- `Provinces` holds the province collection, its registration and its two linkers.
- `CharactersLoader` holds the character collection and its loader.

State that the source updates in place is modelled by classes with fields and `modifies` clauses:
- the world's `saveType`;
- a country's ruler-term list;
- a province's pops and country link;
- a country's province set;
- the character map.

Each imperative method is proved against a pure function of its inputs or of the old state, and the properties are proved about those functions.

How the source's foreign parts are modelled:
- The save file is a byte sequence.
- The byte count returned by the block read is a parameter.
- The parser library's callbacks are methods applied to already-parsed entries: a `ProvinceEntry` has a key and the parsed data, and a `CharacterEntry` has an id and the dates of its birth field.
- std::map iteration order is the ascending id sequence `ids`, which the class keeps alongside the map.

## Model

| member | source | states |
|---|---|---|
| SaveFormat.MagicIsPrefix | ImperatorToCK3/Imperator/World.cs:302-306 | the magic test on the zero-padded 10-byte header buffer holds exactly when the file has at least three bytes and they are 'S', 'A', 'V'; a shorter file never passes |
| SaveFormat.SignatureBytes | ImperatorToCK3/Imperator/World.cs:326 | the little-endian dword at i equals 0x04034B50 exactly when bytes i..i+3 are 50 4B 03 04 |
| SaveFormat.WordBytes | ImperatorToCK3/Imperator/World.cs:326 | the little-endian word at i equals 4 exactly when bytes i, i+1 are 04 00 |
| SaveFormat.MagicExcludesEarlySignature | ImperatorToCK3/Imperator/World.cs:304-326 | behind the magic the dword test fails at offsets 0 and 1, so the word at i-2 is never read at a negative offset |
| SaveFormat.ClassifyIsMarkerSearch | ImperatorToCK3/Imperator/World.cs:324-329 | a 64 KiB block is classified CompressedEncoded exactly when the bytes 04 00 50 4B 03 04 start at some i-2 with i below 65533, and Plaintext otherwise; the scan never stops early, so this is an existence test that does not depend on scan order |
| SaveFormat.VerificationOrder | ImperatorToCK3/Imperator/World.cs:288-337 | for a save whose header skip ends: a missing magic fails with "unknown type" before the size check; a small file fails with "too small" before the block read; verification succeeds exactly when magic, size and a complete block read all hold; a verified save is never Invalid, so its dispatch never reaches "Unknown save type"; it opens the save itself when the block holds no ZIP header and the melted temp/melted_save.rome otherwise |
| World.SkipHeaderLine | ImperatorToCK3/Imperator/World.cs:308-311 | the skip stops just after the first line end at or after offset 4, having read no line end before it |
| World.World.constructor | ImperatorToCK3/Imperator/World.cs:41-42 | the save type starts as Invalid |
| World.World.ScanBlock | ImperatorToCK3/Imperator/World.cs:324-329 | the scan leaves the save type that Classify gives for the block; every index read is in range |
| World.World.VerifySave | ImperatorToCK3/Imperator/World.cs:300-330 | the outcome is the specified Verification of the bytes; on success the field holds the classified type; on failure the field is unchanged |
| World.World.LoadSave | ImperatorToCK3/Imperator/World.cs:167-171 | verification followed by dispatch: any error is a verification error and never "Unknown save type"; on success the result is the dispatch of the verified type |
| RulerTerms.TermsOfAreKept | ImperatorToCK3/Imperator/World.cs:205-215 | every term filed under a country comes from the input and has a ruler whose country is that one |
| RulerTerms.KeptTermsAreFiled | ImperatorToCK3/Imperator/World.cs:214-215 | every input term with a ruler and a country is filed under that country |
| RulerTerms.IntakeIsTermsOf | ImperatorToCK3/Imperator/World.cs:216-220 | the intake dictionary has an entry exactly for the countries with kept terms, and the entry lists that country's kept terms in input order |
| World.World.IntakeRulerTerms | ImperatorToCK3/Imperator/World.cs:204-221 | the returned dictionary is the specified intake, and each country's list is its old list followed by its kept terms in order |
| RulerTerms.SortByStartSortsAndPermutes | ImperatorToCK3/Imperator/World.cs:226 | the ordering by start date is non-decreasing and a permutation of its input |
| RulerTerms.SortByStartIsStable | ImperatorToCK3/Imperator/World.cs:226 | terms with the same start date keep their relative input order (OrderBy is stable) |
| RulerTerms.InsertByStartSorted | ImperatorToCK3/Imperator/World.cs:226 | inserting into a sorted sequence keeps it sorted |
| RulerTerms.InsertByStartPermutes | ImperatorToCK3/Imperator/World.cs:226 | inserting adds exactly the new term to the multiset |
| RulerTerms.InsertByStartMembers | ImperatorToCK3/Imperator/World.cs:226 | the result of inserting holds the new term and the old ones, and nothing else |
| RulerTerms.InsertByStartStable | ImperatorToCK3/Imperator/World.cs:226 | inserting places the new term before the terms with its start date |
| World.World.SortRulerTerms | ImperatorToCK3/Imperator/World.cs:225-227 | every country's terms are replaced by their stable ordering by start date |
| RulerTerms.NameCountsPositive | ImperatorToCK3/Imperator/World.cs:249-253 | a name has a count exactly when some term is named so, and every count is positive |
| RulerTerms.NameCountsSnoc | ImperatorToCK3/Imperator/World.cs:244-253 | one more term increments its ruler's name count or starts it at 1; a term without a name changes nothing |
| World.CountRegnalNames | ImperatorToCK3/Imperator/World.cs:236-254 | the counting loop yields the name counts of the country's terms |
| World.World.BuildRegnalNameCounts | ImperatorToCK3/Imperator/World.cs:230-255 | counts are built exactly for the countries present in the intake, and each is the name counts of that country's intake terms |
| World.World.FindRegnalMismatches | ImperatorToCK3/Imperator/World.cs:256-269 | a country without counts mismatches exactly when its historical table is non-empty; otherwise it mismatches exactly when the tables differ |
| World.World.LoadPreImperatorRulers | ImperatorToCK3/Imperator/World.cs:197-270 | each country ends with the stable ordering of its old terms followed by its kept terms; the mismatch report compares each country's historical numbers with the name counts of its kept terms (none when it has none); nothing throws |
| Provinces.RegistryKeys | ImperatorToCK3/Source/Imperator/Provinces/Provinces.cpp:19-23 | an id is registered exactly when some integer-keyed entry names it; other keys are ignored |
| Provinces.RegistryFirstWins | ImperatorToCK3/Source/Imperator/Provinces/Provinces.cpp:21 | with emplace a duplicate id keeps the data of the first entry that names it |
| Provinces.InsertAscendingKeeps | ImperatorToCK3/Source/Imperator/Provinces/Provinces.cpp:21 | inserting a new id keeps the id sequence strictly ascending and adds exactly that id |
| Provinces.Provinces.RegisterEntry | ImperatorToCK3/Source/Imperator/Provinces/Provinces.cpp:19-23 | an integer key whose id is new adds a fresh, unlinked province; a known id or another key leaves the collection as it was |
| Provinces.Provinces.constructor | ImperatorToCK3/Source/Imperator/Provinces/Provinces.cpp:10-24 | after all entries, the collection's data is the registry of the entries, and every province is fresh and unlinked |
| Provinces.ResolvePops | ImperatorToCK3/Source/Imperator/Provinces/Provinces.cpp:34-47 | the inner loop collects exactly the resolvable pop ids, each bound to its global pop, and counts them |
| Provinces.LinkProvincePops | ImperatorToCK3/Source/Imperator/Provinces/Provinces.cpp:32-49 | a province with pops gets its linked pop map; an empty map is left alone; the count is the number of resolved ids |
| Provinces.LinkedPopsKeys | ImperatorToCK3/Source/Imperator/Provinces/Provinces.cpp:32-48 | a linked non-empty pop map has exactly the ids present both locally and globally, each bound to the global pop; an empty map stays empty |
| Provinces.LinkedPopsCount | ImperatorToCK3/Source/Imperator/Provinces/Provinces.cpp:34-48 | the linked map holds one pop per resolved id |
| Provinces.LinkedPopsIdempotent | ImperatorToCK3/Source/Imperator/Provinces/Provinces.cpp:35-48 | linking again with the same global pops changes nothing |
| Provinces.Provinces.LinkPopsAt | ImperatorToCK3/Source/Imperator/Provinces/Provinces.cpp:30-49 | one step of the pop linker changes the pop map of the province at this position only |
| Provinces.PopsLinkedStep | ImperatorToCK3/Source/Imperator/Provinces/Provinces.cpp:30-49 | linking the next position advances the pop linker's state by one position and adds that province's resolved ids to the counter |
| Provinces.PopsLinkedDone | ImperatorToCK3/Source/Imperator/Provinces/Provinces.cpp:30-50 | after all positions, every province has its linked pop map and the counter is the total of resolved ids |
| Provinces.Provinces.LinkPopsNext | ImperatorToCK3/Source/Imperator/Provinces/Provinces.cpp:30-49 | one iteration of the pop linker keeps the linker's heap state, one position further |
| Provinces.Provinces.LinkPopsLoop | ImperatorToCK3/Source/Imperator/Provinces/Provinces.cpp:30-50 | the whole loop over the provinces in id order ends in the final state |
| Provinces.Provinces.LinkPops | ImperatorToCK3/Source/Imperator/Provinces/Provinces.cpp:26-52 | every province's pop map becomes its linked pop map; only pop maps change; the counter is the total number of pop ids resolved over all provinces |
| Provinces.Country.RegisterProvince | ImperatorToCK3/Source/Imperator/Provinces/Provinces.cpp:67 | the province is added to the country's province set |
| Provinces.Provinces.OwnersTakePart | ImperatorToCK3/Source/Imperator/Provinces/Provinces.cpp:60-63 | a province takes part in the country link exactly when it has pops and its owner is defined, and it is linked to that owner; a province without pops never takes part |
| Provinces.Provinces.LinkCountriesAt | ImperatorToCK3/Source/Imperator/Provinces/Provinces.cpp:60-74 | when the province takes part, it is linked to its owner and added to that owner's set, and the counter grows by one; otherwise nothing changes |
| Provinces.CountriesLinkedStep | ImperatorToCK3/Source/Imperator/Provinces/Provinces.cpp:58-75 | one step advances the country linker's state by one position |
| Provinces.Provinces.LinkCountriesStep | ImperatorToCK3/Source/Imperator/Provinces/Provinces.cpp:58-75 | the heap step and the state step agree |
| Provinces.Provinces.LinkCountriesNext | ImperatorToCK3/Source/Imperator/Provinces/Provinces.cpp:58-75 | one iteration of the country linker keeps the linker's heap state, one position further |
| Provinces.Provinces.LinkCountriesLoop | ImperatorToCK3/Source/Imperator/Provinces/Provinces.cpp:58-75 | the whole loop over the provinces in id order ends in the final state |
| Provinces.GainedIsSet | ImperatorToCK3/Source/Imperator/Provinces/Provinces.cpp:67 | the provinces a country gains over the loop are those that take part and have it as owner |
| Provinces.CountPartsIsCardinality | ImperatorToCK3/Source/Imperator/Provinces/Provinces.cpp:56-68 | over distinct ids, the counter counts the distinct provinces that take part |
| Provinces.CountPartsAll | ImperatorToCK3/Source/Imperator/Provinces/Provinces.cpp:68-76 | over all positions, the counter is the number of provinces that take part |
| Provinces.CountriesLinkedLinks | ImperatorToCK3/Source/Imperator/Provinces/Provinces.cpp:60-73 | after the loop, every province that takes part is linked to its owner and every other province keeps its link |
| Provinces.CountriesLinkedSets | ImperatorToCK3/Source/Imperator/Provinces/Provinces.cpp:66-67 | after the loop, every country has gained exactly its provinces that take part, and each such province is in its owner's set |
| Provinces.CountriesLinkedCount | ImperatorToCK3/Source/Imperator/Provinces/Provinces.cpp:56-76 | after the loop, the counter equals the number of links made |
| Provinces.Provinces.LinkCountries | ImperatorToCK3/Source/Imperator/Provinces/Provinces.cpp:54-77 | a province with pops and a defined owner is linked both ways; any other province keeps its country; every country's set grows by exactly its linked provinces; the counter is the number of two-way links made |
| CharactersLoader.Accepted | ImperatorToCK3/CK3/Characters/CharactersLoader.cs:18-24 | the recorded entries are exactly the parsed entries with a dated birth entry, and there are no more of them than were parsed |
| CharactersLoader.AcceptedAppend | ImperatorToCK3/CK3/Characters/CharactersLoader.cs:11-24 | recording keeps the parsing order across any split of the input |
| CharactersLoader.StoredContents | ImperatorToCK3/CK3/Characters/CharactersLoader.cs:18-23 | the collection ends with the old ids plus the accepted ids; an id no accepted entry names keeps its entry; an accepted id holds an accepted entry with that id; a rejected entry is never stored |
| CharactersLoader.StoredAppend | ImperatorToCK3/CK3/Characters/CharactersLoader.cs:14-27 | loading a sequence of entries is loading its first part and then the rest on the result |
| CharactersLoader.LastAcceptedWins | ImperatorToCK3/CK3/Characters/CharactersLoader.cs:23 | add-or-replace: an accepted entry that no later accepted entry with the same id follows is the one stored under its id, whatever entries with other ids come after it |
| CharactersLoader.StoredOnlyAccepted | ImperatorToCK3/CK3/Characters/CharactersLoader.cs:18-21 | dropping the rejected entries beforehand does not change the outcome |
| CharactersLoader.StoredHoldsAccepted | ImperatorToCK3/CK3/Characters/CharactersLoader.cs:23 | with unique accepted ids, every accepted entry is the one stored under its id |
| CharactersLoader.OrderIndependent | ImperatorToCK3/CK3/Characters/CharactersLoader.cs:14-27 | with unique accepted ids, any processing order (the folder is parsed in parallel) gives the same collection |
| CharactersLoader.LoadLogOrder | ImperatorToCK3/CK3/Characters/CharactersLoader.cs:23-31 | no children-cache update precedes an addition, and the cache is updated exactly once per recorded character, in recording order |
| CharactersLoader.ParsedAccepted | ImperatorToCK3/CK3/Characters/CharactersLoader.cs:15-24 | handling an accepted entry keeps the parsing invariant, one entry further, with the character stored and recorded |
| CharactersLoader.ParsedRejected | ImperatorToCK3/CK3/Characters/CharactersLoader.cs:18-21 | handling a rejected entry keeps the parsing invariant, one entry further, with nothing stored or recorded |
| CharactersLoader.Character.constructor | ImperatorToCK3/CK3/Characters/CharactersLoader.cs:15 | the character takes the id and birth dates of its entry |
| CharactersLoader.CharacterCollection.AddOrReplace | ImperatorToCK3/CK3/Characters/CharactersLoader.cs:23 | the character is stored under its id, replacing any character stored there, and nothing else changes |
| CharactersLoader.CharacterCollection.UpdateChildrenCacheOfParents | ImperatorToCK3/CK3/Characters/CharactersLoader.cs:30 | the call is recorded; the collection is unchanged |
| CharactersLoader.CharacterCollection.ParseCharacter | ImperatorToCK3/CK3/Characters/CharactersLoader.cs:14-25 | an entry without a dated birth entry is neither stored nor recorded; any other is stored with add-or-replace and recorded |
| CharactersLoader.CharacterCollection.ParseEntries | ImperatorToCK3/CK3/Characters/CharactersLoader.cs:14-27 | after parsing, the collection is the specified Stored of the entries; the recorded list is exactly the accepted entries in order; a stored character was there before or is recorded |
| CharactersLoader.CharacterCollection.UpdateCaches | ImperatorToCK3/CK3/Characters/CharactersLoader.cs:29-31 | one cache update per recorded character, in recording order |
| CharactersLoader.CharacterCollection.LoadCK3Characters | ImperatorToCK3/CK3/Characters/CharactersLoader.cs:8-32 | the parse pass and the cache pass together: the collection and the recorded list as in ParseEntries, and the calls are all additions first, then one cache update per recorded character |

## Left out

- File and stream I/O (`File.Open`, `BufferedReader`, `ReadByte`, `Read`) is replaced by the save as a byte sequence. The byte count of the 64 KiB block read is a parameter, because a stream may return fewer bytes than asked.
- SaveFormat.Verification: it describes only a save whose header skip ends, that is one without the magic or with a line end at or after offset 4. For any other save, the header-skip loop at World.cs:309-311 never ends: `ReadByte`'s -1 becomes the character U+FFFF, which is never a line end. The model does not describe that non-termination. For example, a 65536-byte file of 'S', 'A', 'V' followed only by 'x' hangs in the source.
- SaveFormat.VerificationOrder: it requires that a save with the magic has a line end at or after offset 4, for the same reason.
- World.World.VerifySave: it requires the same line end, so that the header skip ends. The skip does not affect the classification, because the position is reset to 0 before the block read.
- SaveFormat.LeU32, SaveFormat.LeU16: `BitConverter` reads in the host's byte order (World.cs:326). The model assumes a little-endian host, which is what the signature constant 0x04034B50 for the bytes "PK\x03\x04" presumes.
- World.World.IntakeRulerTerms and World.World.LoadPreImperatorRulers: they require that the country of every kept term is in the world's countries (`CountriesResolve`). Otherwise `Countries[countryId]` at World.cs:215 throws. The assumption rests on the `RulerTerm` constructor, which is not shown: it is given `Countries` to resolve the country (World.cs:205). The claim that the intake never throws holds only under it.
- The external Rakaly melt of a compressed save is a foreign process. The model only names the file it writes.
- Failures of `MeltSave` and of `File.Open` (World.cs:332, 335-336) are not modelled. So `ProcessSave(...).Success?` in SaveFormat.VerificationOrder means only that the dispatch never throws "Unknown save type", not that opening the stream succeeds.
- The commonItems parser library (keyword and regex registration, parsing of streams, files and game folders) is not modelled. Its callbacks are applied to already-parsed entries.
- The constructors of `RulerTerm` and `Province` run the parser and are not modelled. The model starts from their parsed results. `Character`'s constructor takes the already-parsed id and birth dates.
- `registerProvince`'s body is not shown. It is modelled as adding the province to the country's set.
- CharactersLoader.CharacterCollection.UpdateChildrenCacheOfParents: its body is not shown. The model records the call in a ghost log and does not model the cache.
- The game-version bounds check, mod loading, localization, defines, named colors, religions, genes, units, jobs and the other loaders of `World.cs` are outside this core.
- Dates: a start date is an integer ordinal. Only its order matters for the sort, and the AUC date conversion is not modelled.
- World.World.FindRegnalMismatches: the comparison after OrderBy by key (World.cs:261-263) is modelled as map equality. This assumes no two distinct keys compare as equal under the culture-sensitive comparer. If some did, the stable OrderBy would keep each dictionary's own enumeration order for them, and `SequenceEqual` could be false for equal maps; the model reports a match in that case.
- Provinces.IsInteger: only plain digit strings are integer keys. A leading '-' and values beyond 64 bits are not modelled.
- std::map iteration order is the ascending id sequence `ids`, which is kept next to the map.
- linkPops' inner loop visits a province's pop ids in an arbitrary order. Its result does not depend on the order.
- Parallel parsing of the character folder and the thread-safe list are modelled as a sequential fold. The order-independence lemma states why the outcome does not depend on the order when ids are unique.
- Logging and progress reporting are left out throughout. A mismatch of regnal numbers is only logged, so the model returns the set of mismatched countries.
