# cadnano2 strand core in Dafny

This project models two parts of cadnano2, a DNA-origami design tool:

- the `Strand` segment of `model/strand.py`;
- the two neighbour-table predicates of the legacy importer in `model/io/legacydecoder.py`.

It proves properties of both models.

A strand is an inclusive interval `[low, high]` of base indices on one strand set of a virtual helix. It is drawn either 5' to 3' (low to high) or the other way. It has:

- optional 5' and 3' links to other strands;
- an optional sequence;
- a view onto the part's insertion dictionary for its helix. This dictionary maps a base index to an `Insertion` with a signed length: more than 0 for an insertion, -1 for a skip. It is shared by every strand on that helix.

## Files

- `strand_spec.dfy` (module `StrandSpec`) holds the value-level reference definitions and their lemmas:
  - Python slicing, `range` and `list.remove`;
  - the ascending registry keys inside an interval;
  - sums of insertion lengths;
  - how `getSequenceList` cuts a sequence at the insertions.
- `strand.dfy` (module `StrandModel`) holds the classes:
  - `Insertion`;
  - `InsertionRegistry`, the dictionary with its iteration order;
  - `Strand`;
  - the four undo commands.

  It also holds the accumulator loops of the queries as methods proved against `StrandSpec`, and client methods that run a command and then undo it.
- `legacy_decoder.dfy` (module `LegacyDecoder`) holds `isSegmentStartOrEnd` and `is3primeXover`, with closed forms and case lemmas.

## How the model is set up

- **Signals.** Qt signals become `Event`s appended to the strand's `events` log.
- **Commands.** A command is returned to the caller instead of being pushed onto an undo stack.
- **Collaborators.** The strand set's neighbours and the part's base limits are parameters:
  - a neighbour is given as an `Option<Interval>`;
  - `partMin` and `partMax` are integers.
- **Python 2 semantics** are kept:
  - slices clamp and accept negative bounds (`PyIndex`);
  - `idxL <= x <= None` is false, so `insertionsOnStrand(idxL, None)` selects nothing;
  - `list.remove` of a missing value raises `ValueError`.
- **Dictionary order.** The iteration order of the insertion dictionary is the field `InsertionRegistry.order`. The model assumes a new key goes to the end and a deleted key leaves it. Python 2 iterates integer keys by hash slot instead, and a resize can reorder the remaining keys, so any clause about `order` holds only under this assumption (see "## Left out").
- **Errors.** The model has three error results:
  - `TypeError` from `getSequenceList` when no sequence is stored;
  - `ValueError` from `getPreDecoratorIdxList`;
  - `IndexError` from `merge` at an index that is not an end.

  The `KeyError`s the commands can raise on a missing key are excluded by preconditions instead (see "## Left out").
- **Where the source cannot be followed literally:**
  - `updateIdxs` is a syntax error in the source, at `model/strand.py:286` (`self._baseIdxHigh) += delta`). There is no code to follow, so it is modelled as evidently meant: both ends shift by `delta`.
  - `idx5Prime`/`idx3Prime` are class methods at `model/strand.py:297-303` that would return the bound methods themselves. The constructor sets instance attributes of the same names (`model/strand.py:75-83`). These attributes shadow the class methods, so the methods never run on an instance. The model follows the constructor: `Idx5Prime` and `Idx3Prime` give low or high, depending on the drawing direction.
- **Where the source's docstrings and its code disagree, the model follows the code:**
  - The docstring of `addInsertion` (`model/strand.py:518-523`) asks for a length above 0 for an insertion and -1 for a skip. The code stores a length of 0 as given and only normalises negative lengths.
  - The docstring of `getPreDecoratorIdxList` (`model/strand.py:186-190`) says it returns the positions where pre-decorators are shown, by a simple check for crossovers on the strand. The model reads this as every index except the linked ends and their inner neighbours. Read that way, it should never fail. The code can raise `ValueError` (see Findings). `PreDecoratorIdxListFixed` is the evident meaning: the strand's indices, leaving out each linked end and its inner neighbour.
  - The docstring of `getRemoveInsertionCommandsAfterSplit` (`model/strand.py:588-596`) speaks of an insertion the split copy should not keep. The code iterates over every key of the helix's dictionary (`model/strand.py:603-606`), not only over keys near this strand. Its commands therefore also remove insertions that belong to other strands on the same helix.
  - The docstring of `hasXoverAt` (`model/strand.py:409-411`) says a crossover is necessarily at an endpoint. On a one-base strand (low == high), however, `hasXoverAt` tests only the high link (`model/strand.py:412-413`). A strand drawn 5' to 3' with only a 5' link then reports no crossover at its only base, although that base is a linked end. `HasXoverAt` models this as written, and `XoverAtEnds` states the 5'/3' reading only for strands of two or more bases.
  - On a one-base strand, `getResizeBounds(high)` takes the `idx == low` branch (`model/strand.py:436`) and returns the low end's limits, below high. Its high end can therefore never be dragged to the right. `GetResizeBounds` models this as written. `LowEndBounds` covers this case, and `HighEndBounds` covers every other index.
  - `getSequenceList` slices the text read from the strand's low end (`model/strand.py:367-397`). A strand drawn 3' to 5' whose stored text is longer than the strand (a resize to fewer bases leaves `_sequence` as it was, `model/strand.py:663-674`) therefore shows the last bases of its stored text, where a strand drawn 5' to 3' shows the first. `SequenceListWithoutInsertions` states both cases.

## Model

| member | source | states |
|---|---|---|
| StrandModel.Strand.Length | model/strand.py:309-311 | the strand has at least one base exactly when low <= high |
| StrandModel.Strand.EndsCarryTheirLinks | model/strand.py:72-87 | about Idx5Prime, Idx3Prime, ConnectionLow and ConnectionHigh, the attributes the constructor rebinds by drawing direction: the rebound accessors agree: the 5' end (low when drawn 5' to 3', else high) carries the 5' link and the 3' end the 3' link; the two ends are {low, high} |
| StrandModel.Strand.SetConnectionLow | model/strand.py:72-87 | the setter bound to the low end sets the low link (5' or 3' by drawing direction) and leaves the high link alone |
| StrandModel.Strand.SetConnectionHigh | model/strand.py:72-87 | the setter bound to the high end sets the high link and leaves the low link alone |
| StrandModel.Strand.SetConnection3p | model/strand.py:451-453 | the 3' link becomes the given strand |
| StrandModel.Strand.SetConnection5p | model/strand.py:455-457 | the 5' link becomes the given strand |
| StrandModel.Strand.HasXoverAt | model/strand.py:408-418 | a crossover only at an end; at high exactly when the high link is set; at low (not high) exactly when the low link is set; false at every interior index |
| StrandModel.Strand.XoverAtEnds | model/strand.py:408-418 | on a strand of two or more bases, a crossover at the 3' end iff there is a 3' link and at the 5' end iff there is a 5' link |
| StrandModel.Strand.constructor | model/strand.py:58-88 | a new strand over [low, high] of the given strand set's direction and helix dictionary, with no links, no sequence and an empty event log |
| StrandModel.Strand.GetResizeBounds | model/strand.py:420-447 | from the low end: the upper limit is below high and the lower limit is past the low neighbour or is the part minimum; from any other index: the lower limit is above low and the upper limit is before the high neighbour or is the part maximum (whenever some position is legal, LowEndBounds and HighEndBounds pin the exact limits; when none is, as on a one-base strand whose low neighbour ends just below it, the returned pair is empty and no iff over positions can tell it apart from another empty pair) |
| StrandModel.LowEndBounds | model/strand.py:436-441 | an index lies within the low end's drag limits exactly when it is below high and above the low neighbour's high end (or, with no neighbour, at or above the part minimum) |
| StrandModel.HighEndBounds | model/strand.py:442-447 | from any index other than low, an index lies within the drag limits exactly when it is above low and below the high neighbour's low end (or, with no neighbour, at or below the part maximum); on a one-base strand high is low, so this branch is not reached for it |
| StrandModel.Strand.Merge | model/strand.py:501-515 | IndexError exactly at a non-end index; merges with the low neighbour exactly when idx is low and that neighbour ends at idx - 1; with the high neighbour exactly when idx is high (not low) and that neighbour starts at idx + 1; otherwise nothing |
| StrandModel.Strand.HasInsertionAtIsSelected | model/strand.py:563-567 | at an index on the strand, hasInsertionAt holds exactly when that index is among those insertionsOnStrand() reports |
| StrandModel.Strand.SelectedKeysSpec | model/strand.py:313-330 | the indices insertionsOnStrand selects ascend strictly and are exactly the dictionary keys in [low, high] by default, in [idxL, idxH] with both bounds, and none with idxL alone |
| StrandModel.Strand.InsertionsOnStrand | model/strand.py:313-330 | returns, in ascending index order, exactly the dictionary's insertions at the selected indices |
| StrandModel.SelectInsertions | model/strand.py:320-328 | the loop keeps, in the order of the sorted keys, exactly the insertions whose idx passes Python 2's `lo <= idx <= hi` |
| StrandSpec.SortedFilterIsKeysInRange | model/strand.py:319-328 | filtering the sorted keys by the bounds gives the keys in range in ascending order, and nothing when the upper bound is None |
| StrandSpec.SortedInts | model/strand.py:320 | `sorted` of the dictionary's distinct keys: strictly increasing with the same members |
| StrandModel.Strand.TotalLength | model/strand.py:332-342 | bases plus the lengths of every insertion in [low, high], a skip counting -1 |
| StrandModel.Strand.InsertionLengthBetweenIdxs | model/strand.py:344-353 | the sum of the insertion lengths recorded in [idxL, idxH] |
| StrandModel.SumLengths | model/strand.py:337-341 | the accumulator loop returns the sum of the lengths at the selected indices |
| StrandSpec.SumOverKeysInRange | model/strand.py:332-342 | summing over the ascending keys in range equals summing over every index in range |
| StrandSpec.RangeSumUpdate | model/strand.py:332-342 | setting the length at idx changes the total by the difference, and only when idx is inside the interval |
| StrandSpec.RangeSumRemove | model/strand.py:332-342 | removing the entry at idx takes its length out of the total when idx is inside the interval |
| StrandSpec.SkipShortensByOne | model/strand.py:332-342 | a new skip inside the strand shortens totalLength by exactly one; outside it changes nothing |
| StrandSpec.RangeSumLowerBound | model/strand.py:332-342 | with lengths at least -1 the insertion sum is at least minus the number of bases, so totalLength is never negative |
| StrandSpec.TotalLengthExample | model/strand.py:332-342 | a strand over 5..10 has 6 bases; an insertion of 3 at 7 makes 9, and a skip at 9 then makes 8 |
| StrandModel.Strand.SetSequence | model/strand.py:169-182 | None clears the sequence and returns (None, None); otherwise stores and returns s[0:totalLength()] with the rest s[totalLength():], and used + unused == s |
| StrandSpec.SliceAndRest | model/strand.py:178-182 | s[:n] + s[n:] == s for every n; a non-negative n no larger than the text takes exactly n characters |
| StrandModel.Strand.GetSequenceList | model/strand.py:355-405 | TypeError with no stored sequence; otherwise the partition of the (reversed when drawn 3' to 5') sequence at the strand's insertions, each text turned back when drawn 3' to 5' |
| StrandModel.PartitionAtInsertions | model/strand.py:371-397 | the main loop builds one entry per insertion plus the trailing entry, equal to the reference partition |
| StrandModel.CutPiece | model/strand.py:377-394 | one iteration: the strand text since the last cut, a blank for a skip, the insertion's characters, and where the next cut starts |
| StrandModel.ReverseEach | model/strand.py:399-403 | reverses both texts of every entry and keeps the indices |
| StrandSpec.PartitionShape | model/strand.py:376-397 | one entry per insertion at that insertion's index, and a last entry at low + totalLength with an empty insertion text |
| StrandSpec.PartitionWithoutInsertions | model/strand.py:396-397 | with no insertions the list is a single entry holding the first totalLength characters |
| StrandModel.SequenceListWithoutInsertions | model/strand.py:355-405 | with no insertion on the strand the list is the single entry at high + 1 holding the first length() characters of the text read from the strand's low end, turned back to 5' to 3' order: for a strand drawn 5' to 3' the first length() characters of the stored text, for one drawn 3' to 5' its last length() characters (reversed twice, so in stored order) |
| StrandModel.SequenceListGivesBackStoredText | model/strand.py:355-405 | with no insertion on the strand, a stored text no longer than the strand comes back whole, whichever way the strand is drawn |
| StrandModel.SetThenGetSequence | model/strand.py:169-182 | after setSequence(s) on a strand without insertions, getSequenceList gives one entry holding the first length() characters of s |
| StrandSpec.SequenceListSpellsText | model/strand.py:371-397 | without skips, the texts of the partition, read in order, spell exactly the first totalLength characters of the sequence |
| StrandModel.SequenceListSpellsSequence | model/strand.py:355-405 | for a strand drawn 5' to 3' without skips, the entries' texts concatenate to the stored sequence's first totalLength characters |
| StrandSpec.SortedItemsFit | model/strand.py:376-393 | insertions in ascending order inside the strand, none a skip, never move the cut backwards, and the last cut is within totalLength |
| StrandSpec.PiecesReassemble | model/strand.py:376-394 | while the cuts never go backwards, the texts of the first k entries spell the text up to the k-th cut |
| StrandSpec.PartitionReassembles | model/strand.py:376-397 | when the cuts fit, all entries' texts spell the text up to total |
| StrandSpec.CutAfterLength | model/strand.py:383 | the insertion length passed after k insertions is the sum of their lengths |
| StrandModel.Strand.GetPreDecoratorIdxList | model/strand.py:185-202 | ValueError exactly when a linked end was already removed (a linked end on an empty range, or both ends linked on a strand of at most two bases); otherwise ascending, holding exactly the indices not at or next to a linked end, and equal to the guarded version |
| StrandModel.Strand.PreDecoratorIdxListFixed | model/strand.py:185-202 | the guarded removals: ascending, exactly the strand's indices not at or next to a linked end |
| StrandModel.TwoBaseLinkedStrandFails | model/strand.py:197-198 | on a two-base strand linked at both ends the source raises ValueError, while the guarded version gives the empty list |
| StrandModel.DropIfPresent | model/strand.py:195-196 | the guarded remove keeps the list ascending and drops exactly the given value |
| StrandSpec.RemoveFirst | model/strand.py:194 | `list.remove`: one item fewer, every other value kept |
| StrandSpec.RemoveFirstIncreasing | model/strand.py:194-200 | removal keeps an ascending list ascending and the value is gone |
| StrandSpec.Range | model/strand.py:192 | `range(a, b)` ascends and holds exactly a..b-1 |
| StrandSpec.SortedUnique | model/strand.py:185-202 | two ascending lists with the same members are equal |
| StrandModel.Strand.Chain3p | model/strand.py:96-111 | the walk yields exactly the strands of the 3' chain from this one, each once, stopping at a null link or at a link back to this strand |
| StrandModel.Strand.SetIdxs | model/strand.py:467-470 | low and high become the given pair |
| StrandModel.Strand.UpdateIdxs | model/strand.py:284-286 | both ends shift by delta and the length is unchanged |
| StrandModel.Strand.Resize | model/strand.py:496-499 | runs a ResizeCommand: the indices become newIdxs, two events are logged, and the command remembers the old indices |
| StrandModel.Strand.AddInsertion | model/strand.py:517-534 | inside [low, high] at a free index: a new entry with the length normalised (negative to -1) and no other key touched; otherwise nothing changes |
| StrandSpec.NormalisedLength | model/strand.py:528-529 | negative lengths become -1, others are kept (the same normalisation is repeated in changeInsertion at model/strand.py:554-555) |
| StrandModel.Strand.RemoveInsertion | model/strand.py:536-544 | inside [low, high] at an occupied index: that key is deleted and nothing else; otherwise nothing changes |
| StrandModel.Strand.ChangeInsertion | model/strand.py:546-561 | length 0 removes the entry; any other length (negative to -1) is set on the same Insertion object; other keys and lengths unchanged; outside the strand or at a free index nothing changes |
| StrandModel.Strand.GetRemoveInsertionCommandsAfterSplit | model/strand.py:587-616 | one RemoveInsertionCommand per dictionary key outside [low, high], in dictionary order, each holding that key's insertion |
| StrandSpec.FilterMembers | model/strand.py:603-606 | the keys kept are exactly those that pass the test |
| StrandModel.ResizeCommand.constructor | model/strand.py:656-661 | remembers the strand, the strand's (low, high) at creation as the old indices, and the target pair |
| StrandModel.AddInsertionCommand.constructor | model/strand.py:691-699 | remembers the strand, its helix dictionary, idx and length, and a fresh Insertion of that length at idx |
| StrandModel.RemoveInsertionCommand.constructor | model/strand.py:717-724 | remembers the strand, its helix dictionary, idx and the very Insertion object stored at idx |
| StrandModel.ChangeInsertionCommand.constructor | model/strand.py:749-757 | remembers the strand, its helix dictionary, idx, the new length, and the length the entry at idx has at creation |
| StrandModel.ResizeCommand.Redo | model/strand.py:663-674 | sets newIdxs and logs the resize and part-changed events |
| StrandModel.ResizeCommand.Undo | model/strand.py:676-687 | sets back the old indices and logs the same two events |
| StrandModel.ResizeThenUndo | model/strand.py:655-687 | redo then undo gives back the original (low, high) |
| StrandModel.AddInsertionCommand.Redo | model/strand.py:701-706 | puts the new Insertion at idx and no other key changes |
| StrandModel.AddInsertionCommand.Undo | model/strand.py:708-713 | deletes idx, with the registry still valid |
| StrandModel.AddInsertionThenUndo | model/strand.py:690-713 | addInsertion then undo gives back the same dictionary and the same iteration order |
| StrandSpec.RemoveFirstAppended | model/strand.py:701-713 | deleting a key just added at the end gives the old key order back |
| StrandModel.RemoveInsertionCommand.Redo | model/strand.py:726-732 | deletes idx and nothing else |
| StrandModel.RemoveInsertionCommand.Undo | model/strand.py:734-740 | puts the very same Insertion object back at idx |
| StrandModel.RemoveInsertionThenUndo | model/strand.py:716-740 | removeInsertion then undo gives back the same dictionary, the same Insertion objects, and the same key set |
| StrandModel.ChangeInsertionCommand.Redo | model/strand.py:759-764 | sets the new length on the entry in place; every other recorded length is unchanged |
| StrandModel.ChangeInsertionCommand.Undo | model/strand.py:766-771 | sets back the length read when the command was made; every other length unchanged |
| StrandModel.ChangeInsertionThenUndo | model/strand.py:743-771 | changeInsertion with a non-zero length then undo gives back every recorded length |
| LegacyDecoder.Offset | model/io/legacydecoder.py:225-228 | +1 for the scaffold, -1 for the staple |
| LegacyDecoder.IsSegmentStartOrEnd | model/io/legacydecoder.py:223-245 | true exactly when one neighbour leaves the helix, a same-helix neighbour is not the natural one for the parity, or exactly one neighbour is missing |
| LegacyDecoder.Is3primeXover | model/io/legacydecoder.py:247-262 | true exactly when the 3' neighbour exists and is on another helix or is not the natural 3' base |
| LegacyDecoder.NoXoverWithout3pNeighbour | model/io/legacydecoder.py:250-251 | a missing 3' neighbour is never a crossover |
| LegacyDecoder.XoverToOtherHelix | model/io/legacydecoder.py:252-253 | a 3' neighbour on another existing helix is always a crossover |
| LegacyDecoder.XoverOnEvenHelix | model/io/legacydecoder.py:254-259 | on an even helix, a same-helix 3' neighbour is a crossover iff its index is not base + offset |
| LegacyDecoder.XoverOnOddHelix | model/io/legacydecoder.py:260-261 | on an odd helix, iff its index is not base - offset |
| LegacyDecoder.BoundaryWhenOneNeighbourLeavesHelix | model/io/legacydecoder.py:229-232 | exactly one neighbour on the current helix: always a boundary |
| LegacyDecoder.InteriorBaseIsNotBoundary | model/io/legacydecoder.py:233-245 | both neighbours natural on the current helix: not a boundary |
| LegacyDecoder.InteriorBaseByParity | model/io/legacydecoder.py:233-245 | the same spelt out: (base - offset, base + offset) on an even helix, the mirror on an odd one |
| LegacyDecoder.BoundaryAtEmptySpace | model/io/legacydecoder.py:241-244 | exactly one neighbour missing: always a boundary |
| LegacyDecoder.XoverIsBoundary | model/io/legacydecoder.py:235-261 | a same-helix 3' crossover is always a segment boundary, whatever the 5' neighbour |
| LegacyDecoder.ScaffoldEvenHelixExample | model/io/legacydecoder.py:223-262 | worked cases: scaffold on helix 2 at base 10 with neighbours 9 and 11 is interior; a 3' jump to 15 is a boundary and a crossover; a staple on helix 3 stepping to 11 is not a crossover |

## Left out

- `setComplimentSequence` (model/strand.py:204-268) is not modelled. Its offset arithmetic with insertions on both strands, and its `array` slice assignment, which can change the length, are outside this model.
- `copy`, `shallowCopy` and `deepCopy` are not modelled. `copy` is a stub, and `deepCopy` iterates a dictionary as pairs.
- `split`, `destroy`, `setStrandSet`, `setOligo` and `addDecorators` are not modelled. They call into the strand set, Qt or oligo code, which is not part of this model.
- `hasDecoratorAt`, `hasModifierAt`, `hasConnection3p`/`hasConnection5p` and the plain accessors are not modelled. They are one-line lookups of state the model does not keep, or restate a field.
- StrandModel.Strand.Merge: it returns the side that `mergeStrands` would be called with. The merge itself belongs to the strand set, which is not part of this model.
- StrandModel.Strand.GetResizeBounds: the neighbours and the part limits are parameters instead of calls to `getNeighbors`, `minBaseIdx` and `maxBaseIdx`.
- StrandModel.Strand.Chain3p: it needs a ghost description of the 3' chain. A chain that closes into a loop not through the starting strand would make the Python generator run forever, and the precondition excludes it.
- StrandModel.RemoveInsertionThenUndo: states only that the key set comes back, not the iteration order. The model appends a re-added key at the end, while Python 2 orders dictionary keys by hash.
- StrandModel.SequenceListSpellsSequence: proved only for strands drawn 5' to 3' without skips. A skip adds a blank that is not in the text.
- The `Insertion` class (imported from `decorators.insertion` at `model/strand.py:32`) is not part of this model. Only its `idx`, `length` and `setLength` are used, as a constant and a field.
- `doc_from_legacy_dict` is not modelled. It runs modal dialogs and builds documents through classes not part of this model.
- Qt is not modelled:
  - Qt signals are reduced to the event log;
  - `QObject` parenting, `deleteLater`, `util.execCommandList` and the undo stack are left out;
  - the `print` statements are left out.
- Integers are unbounded, as in Python.
- StrandModel.AddInsertionThenUndo: its clause that the iteration order comes back holds only under the model's append order for new keys. In Python 2, an insertion that makes the dictionary resize can reorder the surviving keys, so the order after add and delete can differ.
- StrandModel.Strand.AddInsertion, StrandModel.AddInsertionCommand.Redo, StrandModel.RemoveInsertionCommand.Undo: `order == old(order) + [idx]` is the model's append-order assumption, not Python 2's hash order. The order of the commands from `GetRemoveInsertionCommandsAfterSplit` rests on the same assumption.
- StrandModel.AddInsertionCommand.Undo, StrandModel.RemoveInsertionCommand.constructor, StrandModel.RemoveInsertionCommand.Redo, StrandModel.ChangeInsertionCommand.constructor, StrandModel.ChangeInsertionCommand.Redo, StrandModel.ChangeInsertionCommand.Undo: each requires `idx in registry.entries`. The source raises KeyError there instead (`del self._insertions[idx]` at `model/strand.py:711` and `730`; `self._insertions[idx]` at `723`, `756`, `761` and `768`). This KeyError path is not modelled. It is excluded rather than modelled because `addInsertion`, `removeInsertion` and `changeInsertion` create these commands only after their `hasInsertionAt` guard, and the undo stack runs an undo only after its redo.

## Findings

| source | as written | input that shows it | evidently intended | confidence | as-written member | corrected member |
|---|---|---|---|---|---|---|
| model/strand.py:197-198 | after the low end and its neighbour are removed, the high end is removed with an unguarded `ret.remove(self._baseIdxHigh)` | a strand over [5, 6] with both a 5' and a 3' link: removing 5 and then 6 empties the list, and the next `remove(6)` raises ValueError | no pre-decorator positions: the empty list | medium, not executed | StrandModel.Strand.GetPreDecoratorIdxList, StrandModel.TwoBaseLinkedStrandFails | StrandModel.Strand.PreDecoratorIdxListFixed |
