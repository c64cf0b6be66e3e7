# DNA origami fit analysis — a verified model of the linker, the PDB corrector and the motif categorisation

This project models three parts of a toolkit that analyses an atomic model fitted into a cryo-EM
map of a DNA origami, and proves properties of the model:

- **The linker** (`linker.py`, class `Linker`). It links every base of the cadnano design to its
  residue in the fitted structure:
  - `DidFid` maps design-ids to fit-ids;
  - `DhpsDid` maps lattice addresses `(helix, position, is_scaffold)` to design-ids;
  - `Dcolor` gives each staple segment its colour.

  From those maps it derives:
  - the scaffold-to-staple base pairs `Fbp`;
  - the crossovers `Fco`, each tagged full, half or end;
  - the nicks `Fnicks`;
  - each base's local and global sequence context (`FidSeq_local`, `FidSeq_global`);
  - each base's count of occupied neighbouring helices (`FidHN`).

  `create_linkage` runs these phases in this order.
- **The PDB corrector** (`pdbCorrection.py`):
  - `number_to_hybrid36_number` with its `encode_pure`;
  - the class `PDB_Corr`, whose renumbering state `current` changes record by record. It renames
    atoms and bases between the old and new nomenclature, renumbers chains and residues, inserts
    TER records, renumbers atoms in hybrid-36, resets occupancy and B-factor, derives the element
    symbol, drops hydrogens, and sorts ATOM records by segment and residue (`reshuffle_pdb`).
- **The motif categorisation** (`segmentation.py`, `_categorise_lists`). It collects the
  crossover and nick motifs of a linkage, together with the fit-ids within `plus` positions of
  each motif on the same helix.

Each part takes the source's own form:
- `Linker` and `PDB_Corr` are classes whose methods update their fields.
- Loops are methods with invariants, proved against specification functions (`LinkerSpec`,
  `PdbCorrection`, `PdbRun`, `Reshuffle`, `Segmentation`).
- Slicing, lookups and expressions are functions.

Python's exceptions are a `Result` (`IndexError`, `KeyError`, `ValueError`,
`UnboundLocalError`). Dictionaries and sets are `map` and `set`. Slicing clamps as Python's does
(`PyStr.Slice`).

Files:
- `wrappers.dfy`: `Option` and `Result`.
- `dicts.dfy`: comprehensions, `zip`, inversion and merging of dictionaries.
- `pystr.dfy`: string slicing, stripping, justification and integer parsing.
- `radix.dfy`: `encode_pure`.
- `hybrid36.dfy`: `number_to_hybrid36_number`.
- `pdb_lines.dfy`: the per-record corrections that keep no state.
- `pdb_correction.dfy`: renumbering and the run of `correct_pdb` as functions.
- `reshuffle.dfy`: `reshuffle_pdb` as functions.
- `pdb_corr.dfy`: the `PDB_Corr` class.
- `design.dfy`: the Design and Fit inputs, and strand and helix walks.
- `linker_spec.dfy`: what each linker phase computes.
- `linker.dfy`: the `Linker` class.
- `segmentation.dfy`: `_categorise_lists`.

Two places where the code does less than its own names and comments suggest; the model follows
the code:
- The comment at linker.py:68 says the global context runs along the scaffold 5'->3' on even
  helices and 3'->5' on odd ones. For a base on an odd helix, the code's two direction flips cancel:
  the negative steps of the global loop (linker.py:70) and the odd-helix flip when not local
  (linker.py:252-255). The global context of such a base therefore equals its local one
  (`LinkerSpec.GlobalContext`).
- In `_identify_nicks`, the flag named `is_ds` (linker.py:387) reads like the double-strand test of
  `BasePair.is_ds` (basepair.py:32-36). It only tests that both fit-ids are among `Fbp.values()`,
  which holds the staple-side fit-ids, so a scaffold-side fit-id never passes.
  `LinkerSpec.NickNeeds` states the code's test.

## Model

| member | source | states |
|---|---|---|
| Dicts.IndexOf | linker.py:174 | `list.index`: the first position holding the value |
| Dicts.IndexOfDistinct | linker.py:174 | in a list without repeats, `index` of the k-th element is k |
| Dicts.ZipMapSpec | linker.py:177-178 | `dict(zip(keys, vals))` has exactly the listed keys; a key gets the value paired with its last occurrence, and every entry comes from some pair |
| Dicts.ZipMapDistinct | linker.py:177-178 | for distinct keys, the k-th key maps to the k-th value |
| Dicts.DictCompSpec | linker.py:240-244 | a dict comprehension has exactly the keys of its kept entries, and the last kept entry for a key wins |
| Dicts.DictCompExtend | linker.py:219-220 | merging with one more entry is a single map update |
| Dicts.KeyedBy | linker.py:65-66 | storing one value per base under its fit-id yields exactly the fit-ids of the bases as keys; each stored value belongs to a base with that fit-id, and for an injective fit-id map to that very base |
| Dicts.Invert | segmentation.py:124-125 | `{v: k for k, v in d.items()}`: the keys are exactly the values of `d`, each mapped back to a key that carried it |
| Dicts.InverseOfInjective | segmentation.py:124-125 | an injective dictionary is inverted exactly |
| Dicts.Symmetrize | linker.py:289 | `{**bp, **inverse}` has the keys and the values of `bp` as keys; a value goes back to a key carrying it; a key that is no value keeps its partner |
| Dicts.SymmetrizeInvolution | linker.py:289 | for an injective map whose keys and values are disjoint, the merged map is an involution without fixed points |
| PyStr.Slice | pdbCorrection.py:68 | `s[i:j]` clamps to the string: its length and each character |
| PyStr.From | pdbCorrection.py:117 | `s[i:]` is empty past the end and the suffix otherwise |
| PyStr.PrefixKept | pdbCorrection.py:117 | a line rebuilt from its own slice `[0:m]` keeps its first `n <= m` characters |
| PyStr.LStrip | pdbCorrection.py:73 | the removed prefix is all whitespace and the result starts with none |
| PyStr.RStrip | pdbCorrection.py:73 | the removed suffix is all whitespace and the result ends with none |
| PyStr.Strip | pdbCorrection.py:73 | the result neither starts nor ends with whitespace |
| PyStr.StripPadded | pdbCorrection.py:215 | stripping whitespace padding gives the padded text back |
| PyStr.RJust | pdbCorrection.py:186 | `rjust(w, c)`: width `max(w, len)`, the text at the right, fill on the left |
| PyStr.RemoveCharSpec | pdbCorrection.py:159 | `replace(' ', '')` keeps exactly the other characters |
| PyStr.Find | pdbCorrection.py:145 | `str.find`: the first index of the character, `-1` exactly when it is absent |
| PyStr.IntToString | pdbCorrection.py:186 | `str(n)`: non-empty, a sign exactly for negative numbers, digits otherwise |
| PyStr.NatToStringValue | pdbCorrection.py:186 | the decimal digits of `n` read back as `n` |
| PyStr.ParseIntToString | pdbCorrection.py:73 | `int(s.strip())` reads back any right-justified `str(n)` |
| Radix.Encode | pdbCorrection.py:13-25 | the digit string of a value is never empty |
| Radix.EncodeInDigits | pdbCorrection.py:13-25 | the encoding uses only the given digits |
| Radix.DecodeEncode | pdbCorrection.py:13-25 | decoding the encoding of `v` gives `v` back |
| Radix.EncodeNoLeadingZero | pdbCorrection.py:13-25 | a positive value never starts with the zero digit |
| Radix.EncodeLength | pdbCorrection.py:13-25 | a value in `[n^(k-1), n^k)` has exactly k digits, the first being its leading digit |
| Radix.EncodePure | pdbCorrection.py:13-25 | the loop (repeated division, then `reverse`) returns the encoding of the value |
| Hybrid36.DigitsLiterals | pdbCorrection.py:11-27 | the upper digit alphabet and its lower-case copy |
| Hybrid36.NumberToHybrid36 | pdbCorrection.py:28-39 | an error is always `ValueError` |
| Hybrid36.Hybrid36Defined | pdbCorrection.py:28-39 | encoding succeeds exactly in `[1-10^(w-1), 10^w + 52*36^(w-1))` |
| Hybrid36.Hybrid36Decimal | pdbCorrection.py:29-30 | below `10^w` the field is the decimal right-justified to width `w` |
| Hybrid36.Hybrid36Upper | pdbCorrection.py:31-34 | the next `26*36^(w-1)` numbers give `w` characters, upper-case digits, led by a letter |
| Hybrid36.Hybrid36Lower | pdbCorrection.py:35-38 | the next block gives `w` characters, lower-case digits, led by a letter |
| Hybrid36.UpperEncoding | pdbCorrection.py:31-34 | the upper block is the base-36 encoding of the shifted number |
| Hybrid36.LowerEncoding | pdbCorrection.py:35-38 | the lower block is the base-36 encoding of the shifted number |
| Hybrid36.Hybrid36Width | pdbCorrection.py:28-39 | every successful field has exactly the requested width |
| Hybrid36.Hybrid36RoundTrip | pdbCorrection.py:28-39 | the hybrid-36 reading of the field gives the number back |
| Hybrid36.DecimalRoundTrip | pdbCorrection.py:29-30 | the decimal block reads back |
| Hybrid36.UpperRoundTrip | pdbCorrection.py:31-34 | the upper block reads back |
| Hybrid36.LowerRoundTrip | pdbCorrection.py:35-38 | the lower block reads back |
| PdbLines.AtomNameSettled | pdbCorrection.py:55 | a renamed atom name is 4 characters long and is not renamed again |
| PdbLines.AtomNameRevSettled | pdbCorrection.py:56 | the same for the reverse atom table |
| PdbLines.BaseNameSettled | pdbCorrection.py:57-60 | a renamed residue name is 3 characters long and is not renamed again |
| PdbLines.BaseNameRevSettled | pdbCorrection.py:61-62 | the same for the reverse residue table |
| PdbLines.TableWidths | pdbCorrection.py:130-134 | renaming keeps the field widths, 4 for atoms and 3 for residues |
| PdbLines.TablesSettled | pdbCorrection.py:130-134 | renaming a renamed field changes nothing |
| PdbLines.AtomNamesInverse | pdbCorrection.py:55-56 | the two atom tables are inverse to each other |
| PdbLines.BaseNamesInverse | pdbCorrection.py:57-62 | the reverse residue table inverts the forward one on the four old names |
| PdbLines.Rewrite | pdbCorrection.py:135 | columns 12-15 take the atom, 16 a blank, 17-19 the residue; everything else is kept |
| PdbLines.RewriteTwice | pdbCorrection.py:135 | a second rewrite overrides the first |
| PdbLines.RewriteSame | pdbCorrection.py:135 | rewriting a line with its own fields leaves it unchanged |
| PdbLines.CorrectNomenclature | pdbCorrection.py:121-136 | the atom and residue fields are renamed through the chosen tables; the rest of the line is kept |
| PdbLines.NomenclatureIdempotent | pdbCorrection.py:121-136 | correcting twice equals correcting once |
| PdbLines.NomenclatureRoundTrip | pdbCorrection.py:121-136 | forward then reverse gives the line back, for names the forward table does not merge |
| PdbLines.NomenclatureRoundTripReverse | pdbCorrection.py:121-136 | reverse then forward gives the line back |
| PdbLines.CorrectOccupancy | pdbCorrection.py:138-140 | columns 54-65 become `  1.00  9.99`; the rest is kept, and a short line is extended |
| PdbLines.OccupancyIdempotent | pdbCorrection.py:138-140 | correcting twice equals correcting once |
| PdbLines.RemoveH | pdbCorrection.py:203-208 | the line becomes empty exactly when its atom field contains `H` |
| PdbLines.RemoveHIdempotent | pdbCorrection.py:203-208 | removing twice equals removing once |
| PdbLines.ElementSymbol | pdbCorrection.py:211-215 | two characters, made of the name's characters and blanks; a blank second column means a blank first one; after a digit the first column is blank |
| PdbLines.ElementSymbolOutcomes | pdbCorrection.py:211-215 | case by case: after a digit in the second column, a blank and the first character (two blanks when it is whitespace); otherwise the characters of the name that are not whitespace, right-justified to two columns |
| PdbLines.PutElement | pdbCorrection.py:216 | columns 76-77 take the symbol; the rest is kept |
| PdbLines.PutElementTwice | pdbCorrection.py:216 | a second symbol overrides the first |
| PdbLines.CorrectAtomtype | pdbCorrection.py:210-217 | `IndexError` exactly for lines shorter than 14; otherwise columns 76-77 hold the element symbol of columns 12-13 |
| PdbLines.AtomtypeIdempotent | pdbCorrection.py:210-217 | correcting twice equals correcting once |
| PdbCorrection.ChainIdPosition | pdbCorrection.py:144-145 | `find` of an upper-case letter is its alphabet position |
| PdbCorrection.NotChainId | pdbCorrection.py:144-145 | `find` of any other character is `-1` |
| PdbCorrection.IncreaseChainId | pdbCorrection.py:143-151 | a letter below `Z` steps to the next letter; `Z` wraps to `B`; anything else becomes `A` |
| PdbCorrection.IncreaseChainIdNeverA | pdbCorrection.py:150-151 | from a letter, the next chain is never `A`, which is reserved for the scaffold |
| PdbCorrection.RenumberTer | pdbCorrection.py:156-183 | a TER record is asked for exactly when the segment changes or the residue number jumps |
| PdbCorrection.RenumberWithinSegment | pdbCorrection.py:165-177 | in the same segment the chain is kept and the residue number grows by 0, 1 or 10 |
| PdbCorrection.RenumberNewSegment | pdbCorrection.py:178-183 | a new segment restarts at residue 1 with the next chain letter, and counts a repeat when leaving `Z` |
| PdbCorrection.RenumberRepeats | pdbCorrection.py:182-183 | the repeat counter grows by at most one per record |
| PdbCorrection.RenumberValid | pdbCorrection.py:156-183 | residue numbers stay positive, repeats never decrease, chain ids stay letters, and `A` is never re-entered |
| PdbCorrection.ChainStrWidth | pdbCorrection.py:185-186 | the chain string has 4 characters while repeats stay below 1000 |
| PdbCorrection.ChainLine | pdbCorrection.py:193-194 | the rebuilt record: chain id at 21, residue field at 22-25, blanks at 67-71, chain string at 72-75; everything else is kept |
| PdbCorrection.MoleculeChainStep | pdbCorrection.py:142-201 | errors are `ValueError`; an unreadable residue number leaves the state unchanged; the record name is kept |
| PdbCorrection.MoleculeChainStepOk | pdbCorrection.py:185-201 | on success, the output record and the new state follow from the renumbering decision |
| PdbCorrection.MoleculeChainStepState | pdbCorrection.py:196-201 | the new state records the segment, the old and new residue numbers and the chain; `is_ter` is the break test |
| PdbCorrection.MoleculeChainStepTer | pdbCorrection.py:156-183 | on success `is_ter` holds exactly when the record breaks its segment |
| PdbCorrection.MoleculeChainStepColumns | pdbCorrection.py:193-194 | the output's residue field reads back as the new (or the old) residue number, and the chain string is that of the new state |
| PdbCorrection.ChainLineRead | pdbCorrection.py:193-194 | the hybrid-36 residue field of a rebuilt record reads back |
| PdbCorrection.MoleculeChainStepFirst | pdbCorrection.py:161-164 | the first record gets chain `A`, residue 1, chain string `A001` and no TER |
| PdbCorrection.OneField | pdbCorrection.py:188-189 | residue 1 is written as `   1` |
| PdbCorrection.AtomNumberStep | pdbCorrection.py:114-119 | fails with `ValueError`, state unchanged, exactly outside the 5-wide hybrid-36 range; otherwise the counter grows by one |
| PdbCorrection.SerialLine | pdbCorrection.py:117 | columns 6-10 take the serial after a blank at 5; everything else is kept |
| PdbCorrection.AtomNumberColumns | pdbCorrection.py:114-119 | the serial field reads back as the counter before the step |
| PdbRun.RunStep | pdbCorrection.py:86-108 | one more input line extends the run by that line's pieces, or ends it with that line's error |
| PdbRun.RunErrKept | pdbCorrection.py:86-108 | once a prefix of the file fails, the whole run fails the same way |
| PdbRun.RunAll | pdbCorrection.py:86-108 | the run over the full prefix is the run over the file |
| PdbRun.ConcatAppend | pdbCorrection.py:111 | `''.join` distributes over concatenation |
| PdbRun.CorrectPdbTrailer | pdbCorrection.py:110-111 | a corrected file always ends with `TER\nEND\n` |
| PdbRun.SamePrefixName | pdbCorrection.py:87 | records agreeing on their first six characters have the same record name |
| PdbRun.StepsKeepName | pdbCorrection.py:93-103 | every correction step keeps the six-character record name |
| PdbRun.FinishAtomShape | pdbCorrection.py:98-108 | the rest of an ATOM record's treatment yields an optional TER and then the record (or empty); it fails unless `is_ter` was bound |
| PdbRun.AtomBlank | pdbCorrection.py:90 | an `ATOM  ` record has a blank at column 5 |
| PdbRun.CorrectAtomChained | pdbCorrection.py:93-97 | a successful ATOM treatment ran the chain correction on the renamed record, then the rest |
| PdbRun.CorrectAtomTer | pdbCorrection.py:95-107 | a TER precedes the record exactly when the chain correction saw a break |
| PdbRun.CorrectAtomPieces | pdbCorrection.py:90-108 | an ATOM record yields itself, possibly after `TER\n`, and it is still an ATOM record unless removed |
| PdbRun.LineStepEmitted | pdbCorrection.py:86-108 | each piece is a kept TITLE/CRYST1 record, a TER record, an ATOM record or empty |
| PdbRun.RunEmitted | pdbCorrection.py:86-108 | the same for every piece of the whole body |
| PdbRun.EmittedLead | pdbCorrection.py:86-108 | a non-empty piece never starts with `AU` |
| PdbRun.HeaderBegins | pdbCorrection.py:45 | the header starts with `AU` |
| PdbRun.ConcatLead | pdbCorrection.py:111 | joined pieces that do not start with `AU` (and end in a non-empty one) do not start with `AU` |
| PdbRun.CorrectPdbHeader | pdbCorrection.py:83-84 | the output starts with the header exactly when `add_header` is set |
| Reshuffle.Atoms | pdbCorrection.py:67-72 | the ATOM records are no more than the lines |
| Reshuffle.SplitPermutes | pdbCorrection.py:67-72 | ATOM and other records together are a permutation of the file |
| Reshuffle.AtomsAreAtoms | pdbCorrection.py:69-70 | every record set apart is an ATOM record |
| Reshuffle.OthersAreOthers | pdbCorrection.py:71-72 | no remaining record is an ATOM record |
| Reshuffle.StrLessTotal | pdbCorrection.py:73 | string comparison is total |
| Reshuffle.StrLessTransitive | pdbCorrection.py:73 | string comparison is transitive |
| Reshuffle.KeyOrder | pdbCorrection.py:73 | the `(chain, residue)` key order is a strict total order |
| Reshuffle.Insert | pdbCorrection.py:73 | inserting one keyed record adds exactly that record |
| Reshuffle.SortByKey | pdbCorrection.py:73 | sorting is a permutation |
| Reshuffle.InsertSorted | pdbCorrection.py:73 | insertion keeps a sorted list sorted |
| Reshuffle.SortByKeySorted | pdbCorrection.py:73 | the result is sorted by key |
| Reshuffle.InsertWithKey | pdbCorrection.py:73 | insertion puts a record after those with an equal key |
| Reshuffle.SortByKeyStable | pdbCorrection.py:73 | records with equal keys keep their input order, as `list.sort` guarantees |
| Reshuffle.KeyAll | pdbCorrection.py:73 | keys exist exactly when every residue field parses; each record is paired with its own key |
| Reshuffle.KeyAllLines | pdbCorrection.py:73 | dropping the keys gives the records back |
| Reshuffle.SortByKeyLines | pdbCorrection.py:73 | the sorted records are a permutation of the records |
| Reshuffle.SortedAtoms | pdbCorrection.py:73-74 | the result is the other records followed by the sorted ATOM records, which permute the ATOM records |
| Reshuffle.ReshuffledPermutes | pdbCorrection.py:64-75 | reshuffling is a permutation of the file |
| Reshuffle.ReshuffledOthersFirst | pdbCorrection.py:74 | the other records come first, in their input order |
| Reshuffle.ReshuffledAtomsLast | pdbCorrection.py:74 | everything after them is an ATOM record |
| Reshuffle.ReshuffledAtomsOrdered | pdbCorrection.py:73 | the ATOM records are sorted by key, and records with equal keys keep their order |
| PdbCorrector.PdbCorr.constructor | pdbCorrection.py:50-54 | the state starts at atom 1, residue 1, chain `A`, one repeat and no segment |
| PdbCorrector.PdbCorr.ReshufflePdb | pdbCorrection.py:64-75 | returns the reshuffled file, or `ValueError` for an unparsable residue field |
| PdbCorrector.PdbCorr.SplitAtoms | pdbCorrection.py:67-72 | the loop sets the ATOM records apart from the others, each in input order |
| PdbCorrector.PdbCorr.CorrectAtomNumber | pdbCorrection.py:114-119 | output and new state are those of the atom-number step |
| PdbCorrector.PdbCorr.CorrectMoleculeChainAndNumber | pdbCorrection.py:142-201 | output and new state are those of the chain-and-number step, including the partial update before a `ValueError` |
| PdbCorrector.PdbCorr.ChooseChainAndNumber | pdbCorrection.py:159-183 | chooses chain, residue number and TER as `Renumber` does; records the first segment and the repeat |
| PdbCorrector.PdbCorr.CorrectAtom | pdbCorrection.py:93-97 | one ATOM record's treatment, as `PdbRun.CorrectAtom` |
| PdbCorrector.PdbCorr.FinishAtom | pdbCorrection.py:98-108 | the rest of that treatment, as `PdbRun.FinishAtom` |
| PdbCorrector.PdbCorr.CorrectLine | pdbCorrection.py:87-108 | one input record's pieces, as `PdbRun.LineStep` |
| PdbCorrector.PdbCorr.CorrectLines | pdbCorrection.py:86-108 | the loop's pieces and state, as `PdbRun.Run` |
| PdbCorrector.PdbCorr.CorrectPdb | pdbCorrection.py:77-112 | output and state as `PdbRun.CorrectPdb` |
| DesignModel.FlattenMember | linker.py:48 | a base is in the flattened staples exactly when some staple holds it |
| DesignModel.FlattenDistinct | linker.py:48 | staples without a shared or repeated base flatten without repeats |
| DesignModel.AllBasesSpec | linker.py:48 | `allbases` lists each base of the design exactly once |
| DesignModel.LinksInDesign | linker.py:258 | a base's `up`, `down` and `across` links stay inside the design |
| DesignModel.WellFormedStrandsIn | linker.py:171-211 | in a well-formed design the scaffold and staples hold design bases, without repeats |
| DesignModel.Walk | linker.py:257-261 | a walk along the strand ends on a design base or nothing |
| DesignModel.WalkSnoc | linker.py:257-261 | a walk of n+1 steps is a walk of n steps followed by one more |
| DesignModel.WalkAdd | linker.py:257-261 | walks compose |
| DesignModel.WalkBack | linker.py:247-261 | walking back the same number of steps in the other direction returns to the start |
| DesignModel.SkipsPassed | linker.py:273-277 | no more skips are counted than positions passed |
| DesignModel.LandingBeyond | linker.py:279-281 | skips only push the landing position further; without skips it is `p + direct*steps` |
| DesignModel.HelixStep | linker.py:263-282 | `ValueError` exactly for a zero direction with non-zero steps; zero steps return the base; a hit is on the same helix and strand type |
| DesignModel.HelixStepPosition | linker.py:268-282 | a hit lies at least `steps` positions away in the walking direction, exactly there when no skip intervenes |
| LinkerSpec.BasePairsSpec | linker.py:240-244 | `Fbp` holds exactly the fit-ids of paired scaffold bases, each mapped to its partner's fit-id (the last scaffold base wins a shared fit-id) |
| LinkerSpec.GetBp | linker.py:284-297 | no pair for no base; otherwise the base's fit-id on its own side, the partner's on the other, `is_ds` exactly when the fit-id is paired, and the base's helix and position |
| LinkerSpec.ContextShape | linker.py:50-64 | a context has `steps+1` letters, each `N`, `X` or the letter of a base on the same helix |
| LinkerSpec.ContextStart | linker.py:50-64 | a context starts with the base's own letter |
| LinkerSpec.GlobalContext | linker.py:68-85 | on odd helices the global context equals the local one; on even helices they walk the strand in opposite directions |
| LinkerSpec.ContextWalkBack | linker.py:247-261 | a base reached by a context walk leads back to the start |
| LinkerSpec.ContextsSource | linker.py:48-85 | the context map is keyed by fit-ids, each holding the context of a base with that fit-id |
| LinkerSpec.ContextsSpec | linker.py:48-85 | the context map has exactly the fit-ids of the design bases; for an injective `DidFid` each holds its base's context |
| LinkerSpec.NeighborCounts | linker.py:111-123 | one count per distance, each between 0 and 4 |
| LinkerSpec.ProfilesSource | linker.py:104-125 | the profile map is keyed by fit-ids, each holding the profile of a base with that fit-id |
| LinkerSpec.ProfilesSpec | linker.py:104-125 | the profile map has exactly the fit-ids of the design bases; for an injective `DidFid` each holds its base's profile |
| LinkerSpec.CountFour | linker.py:113-122 | four cells count 4 exactly when all are occupied, 0 exactly when none is |
| LinkerSpec.NeighborCountExtremes | linker.py:92-123 | a count is 4 exactly when all four lattice neighbours at that distance carry a base at the position, 0 exactly when none does |
| LinkerSpec.CoEdge | linker.py:349-353 | a base's crossover edge, if any, is an edge of the design containing the base |
| LinkerSpec.Candidates | linker.py:347-353 | every candidate is an edge of two design bases |
| LinkerSpec.CandidatesSpec | linker.py:347-353 | the candidates are exactly the pairs of a base and its first neighbour on another helix |
| LinkerSpec.PositionsFour | linker.py:333-336 | `co_pos` lists the positions of the bases present among A, B, C, D in that order |
| LinkerSpec.KeyFacts | linker.py:344 | the key is sorted, holds A's and C's positions, and has one entry per base present |
| LinkerSpec.InsertPair | linker.py:344 | inserting one position adds exactly that position |
| LinkerSpec.InsertPairSorted | linker.py:344 | insertion keeps the positions sorted |
| LinkerSpec.SortPairs | linker.py:344 | `sorted` returns a sorted permutation |
| LinkerSpec.Flank | linker.py:357-361 | the partner bases B and D are on the helices of A and C, and the direction is never 0 |
| LinkerSpec.Leg | linker.py:311-316 | a leg is a design base or nothing |
| LinkerSpec.Resolve | linker.py:355-374 | resolving a popped edge only removes candidates |
| LinkerSpec.ResolveTag | linker.py:362-370 | `full` exactly when B-D is still a candidate (then it is removed); `half` when both exist otherwise; `end` when one is missing; `is_scaf` is A's |
| LinkerSpec.ResolveRecord | linker.py:326-345 | the record holds four base pairs and four legs, the ones at A and C on their positions, under the sorted key |
| LinkerSpec.DrainPopsOnce | linker.py:355-374 | every popped edge was a candidate, no edge is popped twice, and the worklist shrinks by at least one per pass |
| LinkerSpec.DrainFullPartner | linker.py:364-366 | the B-D edge a `full` crossover removes is never popped afterwards |
| LinkerSpec.LastNickEnd | linker.py:396-401 | the chosen end is the last end base that forms a nick with the start |
| LinkerSpec.NickMapSpec | linker.py:396-401 | `Fnicks` has exactly the fit-ids of starts that have a nick end, each mapped to the last such end |
| LinkerSpec.StartBases | linker.py:393 | the first base of every staple |
| LinkerSpec.EndBases | linker.py:394 | the last base of every staple |
| LinkerSpec.NickNeeds | linker.py:381-388 | a nick end is on the start's helix, within 2 positions, not the start itself, and both fit-ids are values of `Fbp` |
| Linking.PyIndex | linker.py:197-198 | a Python list index: defined exactly between `-len` and `len-1`, counting negative ones from the end |
| Linking.FirstIndicesDistinct | linker.py:174 | for a strand without repeats the local indices are `0..n-1` |
| Linking.LinkScaffoldFails | linker.py:171-179 | linking the scaffold fails, with `IndexError`, exactly when the fit scaffold is shorter than the design scaffold |
| Linking.LinkScaffoldSpec | linker.py:171-179 | otherwise the k-th scaffold base maps to the k-th fit residue, and each scaffold address to its base |
| Linking.ScaffoldAddrsSpec | linker.py:173-178 | each scaffold address `(h, p, True)` maps back to its base |
| Linking.ScaffoldFids | linker.py:175-177 | zipping the scaffold with its residues maps the k-th base to the k-th residue |
| Linking.StapleResidues | linker.py:211 | one residue per local index |
| Linking.StapleResiduesPrefix | linker.py:196-211 | the residues of a staple are the first residues of its fit segment |
| Linking.StapleResiduesLinkable | linker.py:196-211 | they exist exactly when the segment exists and is long enough |
| Linking.StapleFidsStep | linker.py:217-219 | merging one staple's map extends the fit-ids of the staples so far |
| Linking.StapleAddrsStep | linker.py:218-220 | merging one staple's addresses extends the addresses so far |
| Linking.StapleAddrKeys | linker.py:218-220 | the merged addresses are exactly those of the staples so far |
| Linking.StapleAddrValues | linker.py:218-220 | every merged address maps to a staple base carrying that address |
| Linking.StapleStep | linker.py:204-220 | one loop pass links one more staple, its addresses and its colour |
| Linking.StapleColorsStep | linker.py:213-215 | the segment of the staple gets the colour of its design strand |
| Linking.LinkCovers | linker.py:224-227 | the merged `DidFid` covers every base: scaffold bases map to the fit scaffold, staple bases to their segment |
| Linking.NotStaple | linker.py:227 | no staple entry overrides a scaffold base |
| Linking.LinkAddresses | linker.py:228 | the merged `DhpsDid` holds every base's address, each mapping back to a base with that address |
| Linking.PopEdge | linker.py:356 | `pop` yields two distinct bases of a pending edge |
| Linking.PassStep | linker.py:355-374 | one pass of the crossover loop is one step of `Drain` |
| Linking.Classify | linker.py:355-374 | the loop drains the worklist as `Drain` does; on an error, `Fco` is as the passes before it left it |
| Linking.Linker.constructor | linker.py:26-38 | a linker over the given design and fit, with every map empty |
| Linking.Linker.LinkStaples | linker.py:181-222 | succeeds exactly when every staple is linkable, else `IndexError`; links every staple's fit-ids, addresses and colours |
| Linking.Linker.LinkBoth | linker.py:224-225 | links scaffold and staples, failing exactly when the design cannot be linked |
| Linking.Linker.Link | linker.py:155-229 | sets `DidFid` and `DhpsDid` to the merged maps and `Dcolor`, covering every base; on failure nothing changes |
| Linking.Linker.IdentifyBp | linker.py:231-245 | `Fbp` is the base-pair map of the scaffold |
| Linking.Linker.GetNStrand | linker.py:247-261 | the base reached by the strand walk in the resolved direction |
| Linking.Linker.GetNHelix | linker.py:263-282 | the base the skip-aware helix step reaches |
| Linking.Linker.CollectCandidates | linker.py:347-353 | the loop collects exactly the crossover candidates |
| Linking.Linker.IdentifyCrossover | linker.py:306-374 | `Fco` is what draining the candidates with the symmetrised pairs yields, for the pop order taken; after an `AttributeError` or `ValueError`, `Fco` holds the records of the passes before the raising one |
| Linking.Linker.IdentifyNicks | linker.py:376-401 | `Fnicks` is the nick map of the staples' starts and ends |
| Linking.Linker.SequenceContext | linker.py:50-64 | the loop builds the context string of one base |
| Linking.Linker.EvalSequence | linker.py:40-85 | adds every base's local and global context under its fit-id |
| Linking.Linker.StoreContexts | linker.py:48-85 | the loop over `allbases` stores those contexts |
| Linking.Linker.NeighborProfile | linker.py:111-123 | the loop counts occupied neighbour helices at each distance |
| Linking.Linker.EvalHelixNeighbors | linker.py:87-125 | `FidHN` is the profile map |
| Linking.Linker.StoreProfiles | linker.py:104-125 | the loop over `allbases` builds the profile map |
| Linking.Linker.PairAndCross | linker.py:135-136 | base pairs, then crossovers, with `Fco` as `IdentifyCrossover` leaves it, also on an exception |
| Linking.Linker.Describe | linker.py:137-139 | nicks, contexts and profiles |
| Linking.Linker.Analyse | linker.py:135-139 | the phases after linking, in order; the later ones run only when crossovers succeed; on a crossover exception `Fco` keeps the records written before it |
| Linking.Linker.CreateLinkage | linker.py:127-153 | `IndexError` and no change when the design cannot be linked. Otherwise `DidFid` maps the k-th scaffold base to the k-th fit scaffold residue and each staple base to its residue in its segment, `DhpsDid` maps every address back to its base, and `Dcolor` holds the staple colours. After that come the base pairs and the crossovers, which keep the records written before an exception. When no exception is raised, the nicks, contexts and profiles follow, all returned together as the `Linkage` |
| Segmentation.FullBothWays | segmentation.py:126 | `dict_bpFULL` holds every `dict_bp` pair in both directions when `dict_bp` is injective and its keys and values are disjoint |
| Segmentation.DoubleStranded | segmentation.py:128-133 | `id_ds` is exactly the keys and values of `dict_bp` |
| Segmentation.SingleStrandedExact | segmentation.py:134 | `id_ss` is exactly the fit-ids of `dict_idid` that are neither key nor value of `dict_bp` |
| Segmentation.CoInit | segmentation.py:137-138 | `id_co_init` is exactly the crossover bases that are not single-stranded |
| Segmentation.Found | segmentation.py:169-177 | a lattice address yields at most one fit-id |
| Segmentation.Window | segmentation.py:168-177 | a window has at most one fit-id per position |
| Segmentation.WindowExact | segmentation.py:168-177 | a window holds exactly the fit-ids of the existing positions in range on the same helix and strand type |
| Segmentation.Windows | segmentation.py:166-177 | failures are `KeyError`; at most `2*plus` fit-ids per input fit-id |
| Segmentation.WindowsErr | segmentation.py:167 | the windows fail exactly when some fit-id has no lattice address |
| Segmentation.AppendWindow | segmentation.py:168-177 | the inner loop appends the window of one address |
| Segmentation.WindowsOf | segmentation.py:166-177 | the nested loops compute the windows, or the `KeyError` |
| Segmentation.GroupShape | segmentation.py:145-164 | a crossover tuple has 10 entries for `double` and 6 otherwise, ends with `(co_index, type)`, and its base, `co`, `dou` and `dou_co` are marked done |
| Segmentation.PlusShape | segmentation.py:166-181 | an extended tuple keeps the two tags and has at most `2*plus` fit-ids per fit-id of the tuple |
| Segmentation.UnionMarksMember | segmentation.py:143-157 | a fit-id is done exactly when some earlier tuple marked it |
| Segmentation.Crossovers | segmentation.py:139-181 | every base of `id_co_init` ends up marked; no tuple starts from a base an earlier tuple marked; `id_co` and `id_coplus` hold exactly the tuples taken; a failure is a `KeyError` or `IndexError` caused by some base |
| Segmentation.CrossoverOnce | segmentation.py:143-146 | tuples taken at different steps start from different bases and differ |
| Segmentation.CrossoverStartsDouble | segmentation.py:136-138 | no tuple starts from a single-stranded fit-id |
| Segmentation.Nicks | segmentation.py:183-190 | a nick is taken only when its start was not an end of an earlier nick, and is stored with both partners; every nick start ends up seen; a failure is a `KeyError` for a missing partner |
| Segmentation.NickWindows | segmentation.py:192-204 | one window list per nick, without tags; failures are `KeyError` |
| Segmentation.NickWindowBound | segmentation.py:192-204 | each nick's list has at most `4*2*plus` fit-ids |
| Segmentation.CategoriseLists | segmentation.py:122-205 | the maps are inverted and merged as the source does; the four results satisfy all of the above; errors are `KeyError` or `IndexError` |

## Left out

- File and terminal I/O are not modelled: `proc_input`, `main`, the reading and writing of PDB files, pickling and the command-line entry points.
- The Design and Fit providers are abstract, fully loaded inputs. Their construction from cadnano JSON and MDAnalysis universes is not part of this model.
- `design.allbases` is taken to be the scaffold followed by the staples.
- The first letter of a residue name (`fit.u.residues[i].resname[0]`) is a function parameter.
- A strand's colour (`strands[...].icolor`) is a function parameter.
- `get_linkage` and the persistence of the `Linkage` are not modelled.
- The class-level dictionaries shared between `Linker` instances are not modelled.
- `BasePair`'s plane fitting (numpy floats) is left out. Only its residues and `(h, p)` are kept.
- The geometry and I/O of `segmentation.py` (`mrc_segment`, `remove_padding`, `mrc_localres`, `_topology`) are left out.
- Dictionary insertion order and set iteration order are not recorded by `map`/`set`:
  - `Dicts.Invert` takes keys in an arbitrary order (the last one wins, as in the comprehension). Its result agrees with the source whenever the dictionary is injective.
  - The crossover worklist `pop`, `id_co_init`, `dict_nicks.items()` and `id_nick` are walked in an arbitrary order, logged in ghost parameters. Every property holds for every order.
- `Reshuffle.SortByKey`: `list.sort` (Timsort) is modelled as a stable insertion sort on values. Only its result is modelled: sorted by key, stable, a permutation. The in-place moves are not.
- Crossover keys `str(sorted(co_pos))` are the sorted position lists themselves, not their string rendering. Distinct lists have distinct renderings, so the map has the same entries.
- Each crossover record's `type` list is assumed non-empty. `type[0]` of an empty list would raise `IndexError`. A missing `co` or `co_index` field is likewise not modelled.
- `Segmentation.FullBothWays`: stated only for an injective `dict_bp` whose keys and values are disjoint. Otherwise `{**bp, **inverse}` loses pairs: a shared partner keeps one key, and a fit-id that is both key and value takes its inverted entry.
- `PdbCorrector.PdbCorr.FinishAtom`: with `molecule_chain` off, `correct_pdb` reads `is_ter` before assigning it. This is modelled as `UnboundLocalError` on the first rewritten ATOM record, after the earlier steps have run.
- `PyStr.ParseInt`: reads only ASCII digits, whereas Python's `int()` also accepts the other Unicode decimal digits; such digits never occur in the columns of a PDB record.
- `PdbCorrection.ChainStrWidth`: the chain string has width 4 only while the repeat counter is below 1000. Beyond that, the columns of `MoleculeChainStepColumns` shift, as in the source.
