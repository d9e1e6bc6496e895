/**
 * A strand: an inclusive interval [low, high] of base indices on one strand set of a
 * virtual helix, drawn either 5' to 3' (low to high) or the other way, with optional
 * 5' and 3' links to other strands, an optional sequence, and a view onto the part's
 * insertion dictionary for its helix (shared by every strand on that helix).
 *
 * Qt signals become an append-only event log on the strand; commands are returned to
 * the caller instead of going onto an undo stack.
 */
module StrandModel {
  import opened StrandSpec

  /** An insertion (length > 0) or skip (length -1) at one base index of a helix. */
  class Insertion {
    const idx: int
    var length: int

    constructor (idx: int, length: int)
      ensures this.idx == idx && this.length == length
    {
      this.idx := idx;
      this.length := length;
    }
  }

  /** The part's insertion dictionary for one helix: base index to Insertion. */
  class InsertionRegistry {
    var entries: map<int, Insertion>
    /** The order in which the dictionary iterates over its keys. */
    var order: seq<int>

    /** Every entry sits under its own index, and the iteration order lists each key once. */
    ghost predicate Valid()
      reads this
    {
      && (forall k :: k in entries ==> entries[k].idx == k)
      && Distinct(order)
      && (forall k :: k in order <==> k in entries)
    }

    /** The recorded length at every index that has an entry. */
    ghost function Lengths(): (m: map<int, int>)
      reads this, entries.Values
      ensures m.Keys == entries.Keys
      ensures forall k :: k in m ==> m[k] == entries[k].length
    {
      map k | k in entries :: entries[k].length
    }

    constructor ()
      ensures entries == map[] && order == [] && Valid()
    {
      entries := map[];
      order := [];
    }
  }

  /** What the strand would have signalled. */
  datatype Event =
    | StrandResized(idxs: (int, int))
    | PartStrandChanged
    | InsertionAdded(insertion: Insertion)
    | InsertionChanged(insertion: Insertion)
    | InsertionRemoved(idx: int)

  /** Which neighbour a merge joins with. */
  datatype Side = LowSide | HighSide

  class Strand {
    var low: int
    var high: int
    const drawn5to3: bool
    const registry: InsertionRegistry
    var strand5p: Strand?
    var strand3p: Strand?
    var sequence: Option<string>
    var events: seq<Event>

    /** A new strand over [low, high] of a strand set with the given direction and helix registry. */
    constructor (registry: InsertionRegistry, drawn5to3: bool, low: int, high: int)
      ensures this.registry == registry && this.drawn5to3 == drawn5to3
      ensures this.low == low && this.high == high
      ensures strand5p == null && strand3p == null && sequence == None && events == []
    {
      this.registry := registry;
      this.drawn5to3 := drawn5to3;
      this.low := low;
      this.high := high;
      strand5p := null;
      strand3p := null;
      sequence := None;
      events := [];
    }

    // ----- Ends and connections -----

    /** The 5' end: low when drawn 5' to 3', high otherwise. */
    function Idx5Prime(): int
      reads this
    {
      if drawn5to3 then low else high
    }

    /** The 3' end: high when drawn 5' to 3', low otherwise. */
    function Idx3Prime(): int
      reads this
    {
      if drawn5to3 then high else low
    }

    /** The link at the low end: the 5' link when drawn 5' to 3', else the 3' link. */
    function ConnectionLow(): Strand?
      reads this
    {
      if drawn5to3 then strand5p else strand3p
    }

    /** The link at the high end: the 3' link when drawn 5' to 3', else the 5' link. */
    function ConnectionHigh(): Strand?
      reads this
    {
      if drawn5to3 then strand3p else strand5p
    }

    /** The rebound accessors agree: the 5' end carries the 5' link and the 3' end the 3' link. */
    lemma EndsCarryTheirLinks()
      ensures (Idx5Prime() == low && ConnectionLow() == strand5p) || (Idx5Prime() == high && ConnectionHigh() == strand5p)
      ensures (Idx3Prime() == high && ConnectionHigh() == strand3p) || (Idx3Prime() == low && ConnectionLow() == strand3p)
      ensures {Idx5Prime(), Idx3Prime()} == {low, high}
    {
    }

    method SetConnection3p(s: Strand?)
      modifies this`strand3p
      ensures strand3p == s
    {
      strand3p := s;
    }

    method SetConnection5p(s: Strand?)
      modifies this`strand5p
      ensures strand5p == s
    {
      strand5p := s;
    }

    /** The setter bound to the low end: afterwards ConnectionLow() is s and the high end is untouched. */
    method SetConnectionLow(s: Strand?)
      modifies this`strand5p, this`strand3p
      ensures ConnectionLow() == s
      ensures ConnectionHigh() == old(ConnectionHigh())
    {
      if drawn5to3 {
        SetConnection5p(s);
      } else {
        SetConnection3p(s);
      }
    }

    /** The setter bound to the high end: afterwards ConnectionHigh() is s and the low end is untouched. */
    method SetConnectionHigh(s: Strand?)
      modifies this`strand5p, this`strand3p
      ensures ConnectionHigh() == s
      ensures ConnectionLow() == old(ConnectionLow())
    {
      if drawn5to3 {
        SetConnection3p(s);
      } else {
        SetConnection5p(s);
      }
    }

    // ----- Interval queries -----

    /** Number of bases, not counting insertions. */
    function Length(): (n: int)
      reads this
      ensures n >= 1 <==> low <= high
    {
      high - low + 1
    }

    /** A crossover can only sit at an end that has a link; the high end is tested first. */
    function HasXoverAt(idx: int): (r: bool)
      reads this
      ensures r ==> idx == low || idx == high
      ensures idx == high ==> (r <==> ConnectionHigh() != null)
      ensures idx != high && idx == low ==> (r <==> ConnectionLow() != null)
    {
      if idx == high then ConnectionHigh() != null
      else if idx == low then ConnectionLow() != null
      else false
    }

    /** On a strand of two or more bases, there is a crossover at the 3' end exactly when it has a 3' link, and likewise at the 5' end. */
    lemma XoverAtEnds()
      requires low != high
      ensures HasXoverAt(Idx3Prime()) <==> strand3p != null
      ensures HasXoverAt(Idx5Prime()) <==> strand5p != null
    {
    }

    /**
     * Inclusive drag limits for the end at idx, given the neighbouring strands in the same
     * strand set and the part's base range: from the low end, down to just past the low
     * neighbour (or the part minimum) and up to high - 1; from any other index, from low + 1
     * up to just before the high neighbour (or the part maximum).
     */
    function GetResizeBounds(idx: int, lowNeighbour: Option<Interval>, highNeighbour: Option<Interval>,
                             partMin: int, partMax: int): (b: (int, int))
      reads this
      ensures idx == low ==> b.1 < high
      ensures idx == low && lowNeighbour.Some? ==> lowNeighbour.value.high < b.0
      ensures idx == low && lowNeighbour.None? ==> b.0 == partMin
      ensures idx != low ==> low < b.0
      ensures idx != low && highNeighbour.Some? ==> b.1 < highNeighbour.value.low
      ensures idx != low && highNeighbour.None? ==> b.1 == partMax
    {
      if idx == low then
        (if lowNeighbour.Some? then lowNeighbour.value.high + 1 else partMin, high - 1)
      else
        (low + 1, if highNeighbour.Some? then highNeighbour.value.low - 1 else partMax)
    }

    /**
     * The guard of merge: Err(IndexError) for an index that is not an end, Some(side) when
     * mergeStrands would be called with that neighbour, None when nothing happens.
     */
    function Merge(idx: int, lowNeighbour: Option<Interval>, highNeighbour: Option<Interval>): (r: Result<Option<Side>>)
      reads this
      ensures r.Err? <==> idx != low && idx != high
      ensures r.Err? ==> r.error == IndexError
      ensures r == Ok(Some(LowSide)) <==> idx == low && lowNeighbour.Some? && lowNeighbour.value.high == idx - 1
      ensures r == Ok(Some(HighSide)) <==>
        idx != low && idx == high && highNeighbour.Some? && highNeighbour.value.low == idx + 1
    {
      if idx == low then
        (if lowNeighbour.Some? && lowNeighbour.value.high == idx - 1 then Ok(Some(LowSide)) else Ok(None))
      else if idx == high then
        (if highNeighbour.Some? && highNeighbour.value.low == idx + 1 then Ok(Some(HighSide)) else Ok(None))
      else Err(IndexError)
    }

    function HasInsertionAt(idx: int): bool
      reads this, registry
    {
      idx in registry.entries
    }

    /** On the strand, hasInsertionAt agrees with the indices insertionsOnStrand() reports. */
    lemma HasInsertionAtIsSelected(idx: int)
      requires low <= idx <= high
      ensures HasInsertionAt(idx) <==> idx in SelectedKeys(None, None)
    {
      SelectedKeysSpec(None, None);
    }

    /**
     * The registry indices insertionsOnStrand(idxL, idxH) reports, ascending: with no idxL the
     * strand's own [low, high]; with idxL but no idxH nothing (Python 2's `x <= None` is False).
     */
    ghost function SelectedKeys(idxL: Option<int>, idxH: Option<int>): seq<int>
      reads this, registry
    {
      if idxL.None? then KeysInRange(registry.entries.Keys, low, high)
      else if idxH.None? then []
      else KeysInRange(registry.entries.Keys, idxL.value, idxH.value)
    }

    /**
     * The selected indices ascend strictly and are exactly the registry keys in the bounds:
     * [low, high] with no idxL, [idxL, idxH] with both, none with idxL alone.
     */
    lemma SelectedKeysSpec(idxL: Option<int>, idxH: Option<int>)
      ensures StrictlyIncreasing(SelectedKeys(idxL, idxH))
      ensures forall k :: k in SelectedKeys(idxL, idxH) <==>
        && k in registry.entries
        && (idxL.None? ==> low <= k <= high)
        && (idxL.Some? ==> idxH.Some? && idxL.value <= k <= idxH.value)
    {
      if idxL.None? {
        KeysInRangeSpec(registry.entries.Keys, low, high);
      } else if idxH.Some? {
        KeysInRangeSpec(registry.entries.Keys, idxL.value, idxH.value);
      }
    }

    /** insertionsOnStrand: the registry insertions that lie in the bounds, by ascending index. */
    method InsertionsOnStrand(idxL: Option<int>, idxH: Option<int>) returns (r: seq<Insertion>)
      requires registry.Valid()
      ensures |r| == |SelectedKeys(idxL, idxH)|
      ensures forall j :: 0 <= j < |r| ==>
        SelectedKeys(idxL, idxH)[j] in registry.entries && r[j] == registry.entries[SelectedKeys(idxL, idxH)[j]]
    {
      var lo: int, hi: Option<int> := if idxL.None? then low else idxL.value, if idxL.None? then Some(high) else idxH;
      var sortedIndices := SortedInts(registry.order);
      r := SelectInsertions(sortedIndices, registry.entries, lo, hi);
      SortedFilterIsKeysInRange(sortedIndices, registry.entries.Keys, lo, hi);
    }

    /** totalLength: the bases plus the lengths of every insertion in [low, high] (a skip counts -1). */
    method TotalLength() returns (n: int)
      requires registry.Valid()
      ensures n == Length() + RangeSum(registry.Lengths(), low, high)
    {
      var insertions := InsertionsOnStrand(None, None);
      ghost var lens := registry.Lengths();
      var tL := SumLengths(insertions, lens, SelectedKeys(None, None));
      SumOverKeysInRange(lens, low, high);
      n := tL + Length();
    }

    /** insertionLengthBetweenIdxs: the lengths of the insertions in [idxL, idxH], summed. */
    method InsertionLengthBetweenIdxs(idxL: int, idxH: int) returns (n: int)
      requires registry.Valid()
      ensures n == RangeSum(registry.Lengths(), idxL, idxH)
    {
      var insertions := InsertionsOnStrand(Some(idxL), Some(idxH));
      ghost var lens := registry.Lengths();
      var tL := SumLengths(insertions, lens, SelectedKeys(Some(idxL), Some(idxH)));
      SumOverKeysInRange(lens, idxL, idxH);
      n := tL;
    }

    // ----- Sequence -----

    /**
     * setSequence: stores the first totalLength characters and returns them with the rest;
     * None clears the sequence and returns (None, None).
     */
    method SetSequence(s: Option<string>) returns (used: Option<string>, unused: Option<string>)
      requires registry.Valid()
      modifies this`sequence
      ensures s.None? ==> sequence == None && used == None && unused == None
      ensures s.Some? ==>
        var total := Length() + RangeSum(registry.Lengths(), low, high);
        && used == Some(PySlice(s.value, 0, total))
        && unused == Some(PySliceFrom(s.value, total))
        && sequence == used
      ensures s.Some? ==> used.Some? && unused.Some? && used.value + unused.value == s.value
    {
      if s.None? {
        sequence := None;
        return None, None;
      }
      var length := TotalLength();
      var temp := PySlice(s.value, 0, length);
      sequence := Some(temp);
      SliceAndRest(s.value, length);
      return Some(temp), Some(PySliceFrom(s.value, length));
    }

    /**
     * What getSequenceList returns for a stored sequence s: the partition of s (read low to
     * high) at the strand's insertions, each text turned 5' to 3' when drawn 3' to 5'.
     */
    ghost function SequenceList(s: string): seq<SeqItem>
      reads this, registry, registry.entries.Values
    {
      SequenceListOf(s, drawn5to3, low, high, registry.Lengths())
    }

    /** getSequenceList: TypeError when no sequence is stored, otherwise SequenceList of it. */
    method GetSequenceList() returns (r: Result<seq<SeqItem>>)
      requires registry.Valid()
      ensures sequence.None? ==> r == Err(TypeError)
      ensures sequence.Some? ==> r == Ok(SequenceList(sequence.value))
    {
      if sequence.None? {
        return Err(TypeError);
      }
      var text := if drawn5to3 then sequence.value else Reversed(sequence.value);
      ghost var lens, ks := registry.Lengths(), KeysInRange(registry.entries.Keys, low, high);
      ghost var whole := Partition(text, low, Length() + RangeSum(lens, low, high), LengthItems(lens, ks));
      ghost var expected := SequenceList(sequence.value);
      assert expected == if drawn5to3 then whole else ReverseTexts(whole);
      var tL := TotalLength();
      var insertions := InsertionsOnStrand(None, None);
      ghost var items := LengthItems(lens, ks);
      assert forall j :: 0 <= j < |insertions| ==> items[j].index == insertions[j].idx && items[j].length == insertions[j].length;
      var seqList := PartitionAtInsertions(text, low, tL, insertions, items);
      assert seqList == whole;
      if !drawn5to3 {
        seqList := ReverseEach(seqList);
      }
      assert seqList == expected;
      LengthsFramed(registry);
      r := Ok(seqList);
    }

    // ----- Pre-decorator positions -----

    /** Whether getPreDecoratorIdxList as written raises ValueError: `remove` of a value already gone. */
    predicate PreDecoratorFails()
      reads this
    {
      var connLow, connHigh := ConnectionLow() != null, ConnectionHigh() != null;
      || ((connLow || connHigh) && high < low)
      || (connLow && connHigh && high <= low + 1)
    }

    /** Whether index k is a pre-decorator position: on the strand and not at or next to a linked end. */
    predicate PreDecoratorKeeps(k: int)
      reads this
    {
      && low <= k <= high
      && !(ConnectionLow() != null && (k == low || k == low + 1))
      && !(ConnectionHigh() != null && (k == high || k == high - 1))
    }

    /**
     * getPreDecoratorIdxList as written: range(low, high + 1), then each linked end is removed
     * unconditionally (ValueError when it is already gone) and its inner neighbour only if present.
     */
    method GetPreDecoratorIdxList() returns (r: Result<seq<int>>)
      ensures r.Err? <==> PreDecoratorFails()
      ensures r.Err? ==> r.error == ValueError
      ensures r.Ok? ==> StrictlyIncreasing(r.value) && forall k :: k in r.value <==> PreDecoratorKeeps(k)
      ensures r.Ok? ==> r.value == PreDecoratorIdxListFixed()
    {
      var ret := Range(low, high + 1);
      if ConnectionLow() != null {
        if low !in ret {
          return Err(ValueError);
        }
        RemoveFirstIncreasing(ret, low);
        ret := RemoveFirst(ret, low);
        ret := DropIfPresent(ret, low + 1);
      }
      if ConnectionHigh() != null {
        if high !in ret {
          return Err(ValueError);
        }
        RemoveFirstIncreasing(ret, high);
        ret := RemoveFirst(ret, high);
        ret := DropIfPresent(ret, high - 1);
      }
      SortedUnique(ret, PreDecoratorIdxListFixed());
      r := Ok(ret);
    }

    /**
     * The positions getPreDecoratorIdxList evidently means, with the unconditional removals
     * guarded like the inner ones: never an error, ascending, exactly the kept positions.
     */
    function PreDecoratorIdxListFixed(): (r: seq<int>)
      reads this
      ensures StrictlyIncreasing(r)
      ensures forall k :: k in r <==> PreDecoratorKeeps(k)
    {
      var ret := Range(low, high + 1);
      var ret := if ConnectionLow() != null then DropIfPresent(DropIfPresent(ret, low), low + 1) else ret;
      if ConnectionHigh() != null then DropIfPresent(DropIfPresent(ret, high), high - 1) else ret
    }

    // ----- The 3' walk -----

    /**
     * path is a 3' walk from this strand: it starts here, repeats no strand, each link is the
     * strand3p of the one before, and the last strand's strand3p is null or leads back here.
     */
    ghost predicate Is3pChain(path: seq<Strand>)
      reads set i | 0 <= i < |path| :: path[i]
    {
      && |path| > 0
      && path[0] == this
      && (forall i, j :: 0 <= i < j < |path| ==> path[i] != path[j])
      && (forall i :: 0 <= i < |path| - 1 ==> path[i].strand3p == path[i + 1])
      && (path[|path| - 1].strand3p == null || path[|path| - 1].strand3p == this)
    }

    /**
     * generator3pStrand: the strands from this one along the 3' links until a null link or a
     * link back to this strand, each once.
     */
    method Chain3p(ghost path: seq<Strand>) returns (nodes: seq<Strand>)
      requires Is3pChain(path)
      ensures nodes == path
    {
      nodes := [];
      var originalCount := 0;
      var node: Strand? := this;
      ghost var i := 0;
      while node != null && originalCount == 0
        invariant 0 <= i <= |path|
        invariant nodes == path[..i]
        invariant originalCount == 0 || originalCount == 1
        invariant originalCount == 0 && i < |path| ==> node == path[i]
        invariant originalCount == 0 && i == |path| ==> node == null
        invariant originalCount == 1 ==> i == |path|
        decreases |path| - i, 1 - originalCount
      {
        nodes := nodes + [node];
        node := node.strand3p;
        i := i + 1;
        assert i < |path| ==> node == path[i] && path[i] != path[0];
        if node == this {
          originalCount := originalCount + 1;
        }
      }
      assert path[..|path|] == path;
    }

    // ----- Edits -----

    method SetIdxs(idxs: (int, int))
      modifies this`low, this`high
      ensures low == idxs.0 && high == idxs.1
    {
      low := idxs.0;
      high := idxs.1;
    }

    /** updateIdxs: shifts both ends by delta; the length is unchanged. */
    method UpdateIdxs(delta: int)
      modifies this`low, this`high
      ensures low == old(low) + delta && high == old(high) + delta
      ensures Length() == old(Length())
    {
      low := low + delta;
      high := high + delta;
    }

    /** resize: runs a ResizeCommand to newIdxs and hands it back for undoing. */
    method Resize(newIdxs: (int, int)) returns (c: ResizeCommand)
      modifies this`low, this`high, this`events
      ensures fresh(c) && c.strand == this
      ensures c.oldIndices == old((low, high)) && c.newIdxs == newIdxs
      ensures low == newIdxs.0 && high == newIdxs.1
      ensures events == old(events) + [StrandResized(newIdxs), PartStrandChanged]
    {
      c := new ResizeCommand(this, newIdxs);
      c.Redo();
    }

    /**
     * addInsertion: inside [low, high] and with no entry at idx yet, runs an AddInsertionCommand
     * for idx with a negative length turned into -1; otherwise does nothing.
     */
    method AddInsertion(idx: int, length: int) returns (c: AddInsertionCommand?)
      requires registry.Valid()
      modifies registry, this`events
      ensures registry.Valid()
      ensures low <= idx <= high && idx !in old(registry.entries) ==>
        && c != null && fresh(c) && fresh(c.insertion) && c.Valid()
        && c.strand == this && c.registry == registry && c.idx == idx
        && c.insertion.length == NormalisedLength(length)
        && registry.entries == old(registry.entries)[idx := c.insertion]
        && registry.order == old(registry.order) + [idx]
        && registry.Lengths() == old(registry.Lengths())[idx := NormalisedLength(length)]
        && events == old(events) + [InsertionAdded(c.insertion)]
      ensures !(low <= idx <= high && idx !in old(registry.entries)) ==>
        && c == null
        && registry.entries == old(registry.entries) && registry.order == old(registry.order)
        && events == old(events)
    {
      c := null;
      if low <= idx <= high {
        if !HasInsertionAt(idx) {
          var len := if length < 0 then -1 else length;
          c := new AddInsertionCommand(this, idx, len);
          c.Redo();
        }
      }
    }

    /** removeInsertion: inside [low, high] and with an entry at idx, runs a RemoveInsertionCommand. */
    method RemoveInsertion(idx: int) returns (c: RemoveInsertionCommand?)
      requires registry.Valid()
      modifies registry, this`events
      ensures registry.Valid()
      ensures low <= idx <= high && idx in old(registry.entries) ==>
        && c != null && fresh(c) && c.Valid()
        && c.strand == this && c.registry == registry && c.idx == idx
        && c.insertion == old(registry.entries[idx])
        && registry.entries == old(registry.entries) - {idx}
        && registry.order == RemoveFirst(old(registry.order), idx)
        && events == old(events) + [InsertionRemoved(idx)]
      ensures !(low <= idx <= high && idx in old(registry.entries)) ==>
        && c == null
        && registry.entries == old(registry.entries) && registry.order == old(registry.order)
        && events == old(events)
    {
      c := null;
      if low <= idx <= high {
        if HasInsertionAt(idx) {
          c := new RemoveInsertionCommand(this, idx);
          c.Redo();
        }
      }
    }

    /**
     * changeInsertion: inside [low, high] and with an entry at idx, a zero length removes the
     * entry and any other length (a negative one turned into -1) is set on the same Insertion.
     */
    method ChangeInsertion(idx: int, length: int) returns (removed: RemoveInsertionCommand?, changed: ChangeInsertionCommand?)
      requires registry.Valid()
      modifies registry, registry.entries.Values, this`events
      ensures registry.Valid()
      ensures forall k :: k in old(registry.entries) && k != idx ==>
        k in registry.entries && registry.entries[k] == old(registry.entries[k])
        && registry.entries[k].length == old(registry.entries[k].length)
      ensures low <= idx <= high && idx in old(registry.entries) && length == 0 ==>
        && changed == null && removed != null && fresh(removed)
        && removed.insertion == old(registry.entries[idx])
        && registry.entries == old(registry.entries) - {idx}
        && registry.order == RemoveFirst(old(registry.order), idx)
        && events == old(events) + [InsertionRemoved(idx)]
      ensures low <= idx <= high && idx in old(registry.entries) && length != 0 ==>
        && removed == null && changed != null && fresh(changed) && changed.Valid()
        && changed.strand == this && changed.registry == registry && changed.idx == idx
        && changed.oldLength == old(registry.entries[idx].length)
        && registry.entries == old(registry.entries) && registry.order == old(registry.order)
        && registry.entries[idx].length == NormalisedLength(length)
        && registry.Lengths() == old(registry.Lengths())[idx := NormalisedLength(length)]
        && events == old(events) + [InsertionChanged(registry.entries[idx])]
      ensures !(low <= idx <= high && idx in old(registry.entries)) ==>
        && removed == null && changed == null
        && registry.entries == old(registry.entries) && registry.order == old(registry.order)
        && registry.Lengths() == old(registry.Lengths())
        && events == old(events)
    {
      removed, changed := null, null;
      if low <= idx <= high {
        if HasInsertionAt(idx) {
          if length == 0 {
            removed := RemoveInsertion(idx);
          } else {
            var len := if length < 0 then -1 else length;
            changed := new ChangeInsertionCommand(this, idx, len);
            changed.Redo();
          }
        }
      }
    }

    /** The keys, in dictionary order, that getRemoveInsertionCommandsAfterSplit removes. */
    ghost function KeysOutside(): seq<int>
      reads this, registry
    {
      Filter(registry.order, Outside(low, high))
    }

    /**
     * getRemoveInsertionCommandsAfterSplit: one RemoveInsertionCommand for each key of the
     * helix's dictionary outside [low, high], in dictionary order; nothing runs yet.
     */
    method GetRemoveInsertionCommandsAfterSplit() returns (cmds: seq<RemoveInsertionCommand>)
      requires registry.Valid()
      ensures |cmds| == |KeysOutside()|
      ensures forall j :: 0 <= j < |cmds| ==>
        && fresh(cmds[j]) && cmds[j].Valid()
        && cmds[j].strand == this && cmds[j].registry == registry && cmds[j].idx == KeysOutside()[j]
        && KeysOutside()[j] in registry.entries && cmds[j].insertion == registry.entries[KeysOutside()[j]]
    {
      var idxMin, idxMax := low, high;
      var insts := registry.entries;
      var keys := registry.order;
      ghost var p := Outside(idxMin, idxMax);
      ghost var ks: seq<int> := [];
      cmds := [];
      var i := 0;
      while i < |keys|
        invariant 0 <= i <= |keys|
        invariant ks == Filter(keys[..i], p)
        invariant |cmds| == |ks|
        invariant forall j :: 0 <= j < |ks| ==> ks[j] in insts
        invariant forall j :: 0 <= j < |cmds| ==>
          && fresh(cmds[j]) && cmds[j].Valid()
          && cmds[j].strand == this && cmds[j].registry == registry
          && cmds[j].idx == ks[j] && cmds[j].insertion == insts[ks[j]]
      {
        var key := keys[i];
        FilterStep(keys, i, p);
        assert key in keys;
        if key > idxMax || key < idxMin {
          var c := new RemoveInsertionCommand(this, key);
          cmds := cmds + [c];
          ks := ks + [key];
        }
        i := i + 1;
      }
      assert keys[..|keys|] == keys;
    }
  }

  /**
   * The sequence list of text on a strand over [low, high] with the given direction and
   * insertion lengths: the text read low to high, partitioned at the insertions in range,
   * each piece turned back to 5' to 3' order when the strand is drawn 3' to 5'.
   */
  ghost function SequenceListOf(s: string, drawn5to3: bool, low: int, high: int, lens: map<int, int>): seq<SeqItem>
  {
    var text := if drawn5to3 then s else Reversed(s);
    var total := high - low + 1 + RangeSum(lens, low, high);
    var parts := Partition(text, low, total, LengthItems(lens, KeysInRange(lens.Keys, low, high)));
    if drawn5to3 then parts else ReverseTexts(parts)
  }

  /** The recorded lengths stay the same while the registry and its insertions are unchanged. */
  twostate lemma LengthsFramed(r: InsertionRegistry)
    requires unchanged(r) && unchanged(old(r.entries.Values))
    ensures r.Lengths() == old(r.Lengths())
  {
  }

  /**
   * The loop of insertionsOnStrand: walks the sorted indices and keeps each insertion whose
   * own idx passes Python 2's `lo <= idx <= hi`.
   */
  method SelectInsertions(sortedIndices: seq<int>, insertionsDict: map<int, Insertion>, lo: int, hi: Option<int>)
    returns (r: seq<Insertion>)
    requires forall k :: k in sortedIndices ==> k in insertionsDict && insertionsDict[k].idx == k
    ensures |r| == |Filter(sortedIndices, Between(lo, hi))|
    ensures forall j :: 0 <= j < |r| ==>
      Filter(sortedIndices, Between(lo, hi))[j] in insertionsDict
      && r[j] == insertionsDict[Filter(sortedIndices, Between(lo, hi))[j]]
  {
    ghost var p := Between(lo, hi);
    r := [];
    ghost var ks: seq<int> := [];
    var i := 0;
    while i < |sortedIndices|
      invariant 0 <= i <= |sortedIndices|
      invariant ks == Filter(sortedIndices[..i], p)
      invariant |r| == |ks|
      invariant forall j :: 0 <= j < |ks| ==> ks[j] in insertionsDict && r[j] == insertionsDict[ks[j]]
    {
      var index := sortedIndices[i];
      var insertion := insertionsDict[index];
      FilterStep(sortedIndices, i, p);
      assert p(index) == Py2Between(lo, insertion.idx, hi);
      if Py2Between(lo, insertion.idx, hi) {
        r := r + [insertion];
        ks := ks + [index];
      }
      i := i + 1;
    }
    assert sortedIndices[..|sortedIndices|] == sortedIndices;
  }

  /** The loop of totalLength and insertionLengthBetweenIdxs: sums the insertions' lengths. */
  method SumLengths(insertions: seq<Insertion>, ghost lens: map<int, int>, ghost ks: seq<int>) returns (tL: int)
    requires |ks| == |insertions|
    requires forall j :: 0 <= j < |ks| ==> Get(lens, ks[j]) == insertions[j].length
    ensures tL == SumOver(lens, ks)
  {
    tL := 0;
    var i := 0;
    while i < |insertions|
      invariant 0 <= i <= |insertions|
      invariant tL == SumOver(lens, ks[..i])
    {
      assert ks[..i + 1] == ks[..i] + [ks[i]];
      SumOverSnoc(lens, ks[..i], ks[i]);
      tL := tL + insertions[i].length;
      i := i + 1;
    }
    assert ks[..|insertions|] == ks;
  }

  /**
   * The main loop of getSequenceList: walks the insertions in ascending order, cutting text
   * into the strand item before each one and the insertion's own characters (a skip gets a
   * blank and no characters), then adds the rest up to tL as the last entry.
   */
  method PartitionAtInsertions(text: string, lI: int, tL: int, insertions: seq<Insertion>, ghost items: seq<Cut>)
    returns (seqList: seq<SeqItem>)
    requires |items| == |insertions|
    requires forall j :: 0 <= j < |insertions| ==> items[j].index == insertions[j].idx && items[j].length == insertions[j].length
    ensures seqList == Partition(text, lI, tL, items)
  {
    var offsetLast := 0;
    var lengthSoFar := 0;
    seqList := [];
    var i := 0;
    while i < |insertions|
      invariant 0 <= i <= |insertions|
      invariant seqList == PiecesBefore(text, lI, items, i)
      invariant CutAfter(lI, items, i) == Cursor(offsetLast, lengthSoFar)
    {
      var index, iLength := insertions[i].idx, insertions[i].length;
      var piece, nextOffset := CutPiece(text, lI, index, iLength, offsetLast, lengthSoFar, items[i]);
      seqList := seqList + [piece];
      offsetLast, lengthSoFar := nextOffset, lengthSoFar + iLength;
      i := i + 1;
    }
    seqList := seqList + [SeqItem(lI + tL, PySlice(text, offsetLast, tL), "")];
  }

  /**
   * The body of getSequenceList's loop for one insertion: the strand text since the last cut
   * (with a blank for a skip), the insertion's own characters, and where the next cut starts.
   */
  method CutPiece(text: string, lI: int, index: int, iLength: int, offsetLast: int, lengthSoFar: int,
                  ghost item: Cut)
    returns (piece: SeqItem, nextOffset: int)
    requires item == Cut(index, iLength)
    ensures piece == Piece(text, lI, item, offsetLast, lengthSoFar)
    ensures nextOffset == NextOffset(lI, item, lengthSoFar)
  {
    var offset := index + 1 - lI + lengthSoFar;
    if iLength < 0 {
      offset := offset - 1;
    }
    var seqItem := PySlice(text, offsetLast, offset);
    if iLength < 0 {
      seqItem := seqItem + " ";
      nextOffset := offset;
    } else {
      nextOffset := offset + iLength;
    }
    piece := SeqItem(index, seqItem, PySlice(text, offset, nextOffset));
  }

  /** The final loop of getSequenceList for a strand drawn 3' to 5': reverses both texts of every entry. */
  method ReverseEach(items: seq<SeqItem>) returns (r: seq<SeqItem>)
    ensures r == ReverseTexts(items)
  {
    r := items;
    var j := 0;
    while j < |r|
      invariant 0 <= j <= |r| == |items|
      invariant forall k :: 0 <= k < j ==> r[k] == ReverseTexts(items)[k]
      invariant forall k :: j <= k < |r| ==> r[k] == items[k]
    {
      var item := r[j];
      r := r[j := SeqItem(item.index, Reversed(item.strandText), Reversed(item.insertionText))];
      j := j + 1;
    }
  }

  /** Drops x if it is present (the guarded `remove` of getPreDecoratorIdxList). */
  function DropIfPresent(s: seq<int>, x: int): (r: seq<int>)
    requires StrictlyIncreasing(s)
    ensures StrictlyIncreasing(r)
    ensures forall y :: y in r <==> y in s && y != x
  {
    if x in s then
      RemoveFirstIncreasing(s, x);
      RemoveFirst(s, x)
    else s
  }

  /** With no insertion inside [low, high] the list is one entry: the first Length() characters, at high + 1. */
  lemma SequenceListWithoutInsertions(s: string, drawn5to3: bool, low: int, high: int, lens: map<int, int>)
    requires forall k :: k in lens ==> !(low <= k <= high)
    ensures var text := if drawn5to3 then s else Reversed(s);
      var only := PySlice(text, 0, high - low + 1);
      SequenceListOf(s, drawn5to3, low, high, lens)
        == [SeqItem(high + 1, if drawn5to3 then only else Reversed(only), "")]
  {
    var text := if drawn5to3 then s else Reversed(s);
    var n := high - low + 1;
    NoKeysInRange(lens, low, high);
    var items := LengthItems(lens, KeysInRange(lens.Keys, low, high));
    assert items == [];
    PartitionWithoutInsertions(text, low, n);
    var parts := Partition(text, low, n, items);
    var only := PySlice(text, 0, n);
    assert parts == [SeqItem(high + 1, only, "")];
    if drawn5to3 {
      assert SequenceListOf(s, drawn5to3, low, high, lens) == parts;
    } else {
      ReverseTextsSingle(high + 1, only);
      assert SequenceListOf(s, drawn5to3, low, high, lens) == ReverseTexts(parts);
    }
  }

  /**
   * With no insertion inside [low, high], a stored text no longer than the strand comes back
   * whole as the single entry, whichever way the strand is drawn.
   */
  lemma SequenceListGivesBackStoredText(s: string, drawn5to3: bool, low: int, high: int, lens: map<int, int>)
    requires forall k :: k in lens ==> !(low <= k <= high)
    requires |s| <= high - low + 1
    ensures SequenceListOf(s, drawn5to3, low, high, lens) == [SeqItem(high + 1, s, "")]
  {
    var text := if drawn5to3 then s else Reversed(s);
    SequenceListWithoutInsertions(s, drawn5to3, low, high, lens);
    SliceAndRest(text, high - low + 1);
    var only := PySlice(text, 0, high - low + 1);
    assert only == text;
    if !drawn5to3 {
      ReversedTwice(s);
      assert Reversed(only) == s;
    }
  }

  /**
   * A strand drawn 5' to 3' with no skips: the texts of its sequence list, read in order,
   * spell exactly the first totalLength characters of the stored sequence.
   */
  lemma SequenceListSpellsSequence(s: string, low: int, high: int, lens: map<int, int>)
    requires low <= high
    requires forall k :: k in lens ==> lens[k] >= 0
    ensures Concat(SequenceListOf(s, true, low, high, lens)) == PySlice(s, 0, high - low + 1 + RangeSum(lens, low, high))
  {
    SequenceListSpellsText(s, low, high, lens);
  }

  /**
   * The drag limits for the low end are tight: an index lies within them exactly when it is
   * below high and clear of the low neighbour (or not below the part minimum).
   */
  lemma LowEndBounds(st: Strand, lowNeighbour: Option<Interval>, highNeighbour: Option<Interval>,
                     partMin: int, partMax: int, p: int)
    ensures var b := st.GetResizeBounds(st.low, lowNeighbour, highNeighbour, partMin, partMax);
      b.0 <= p <= b.1 <==>
        && p < st.high
        && (lowNeighbour.Some? ==> lowNeighbour.value.high < p)
        && (lowNeighbour.None? ==> partMin <= p)
  {
  }

  /**
   * The drag limits from any index other than low (the high end of a strand of two or more
   * bases) are tight: an index lies within them exactly when it is above low and clear of the
   * high neighbour (or not above the part maximum).  On a one-base strand the high end is the
   * low end, so getResizeBounds(high) gives the low end's limits.
   */
  lemma HighEndBounds(st: Strand, idx: int, lowNeighbour: Option<Interval>, highNeighbour: Option<Interval>,
                      partMin: int, partMax: int, p: int)
    requires idx != st.low
    ensures var b := st.GetResizeBounds(idx, lowNeighbour, highNeighbour, partMin, partMax);
      b.0 <= p <= b.1 <==>
        && st.low < p
        && (highNeighbour.Some? ==> p < highNeighbour.value.low)
        && (highNeighbour.None? ==> p <= partMax)
  {
  }

  /**
   * The discrepancy in getPreDecoratorIdxList: on a two-base strand linked at both ends the low
   * removals already take the high end, so its unconditional removal raises ValueError, while
   * the guarded version gives the empty list.
   */
  lemma TwoBaseLinkedStrandFails(st: Strand)
    requires st.high == st.low + 1
    requires st.strand5p != null && st.strand3p != null
    ensures st.PreDecoratorFails()
    ensures st.PreDecoratorIdxListFixed() == []
  {
    FirstIsMember(st.PreDecoratorIdxListFixed());
  }

  // ----- Undo after redo -----

  /**
   * The round trip of a strand without insertions: after setSequence(s), getSequenceList gives
   * one entry holding the first length() characters of s, in 5' to 3' order.
   */
  method SetThenGetSequence(st: Strand, s: string) returns (r: Result<seq<SeqItem>>)
    requires st.registry.Valid()
    requires st.low <= st.high + 1
    requires forall k :: k in st.registry.entries ==> !(st.low <= k <= st.high)
    modifies st`sequence
    ensures r == Ok([SeqItem(st.high + 1, PySlice(s, 0, st.Length()), "")])
  {
    ghost var lens := st.registry.Lengths();
    NoKeysInRange(lens, st.low, st.high);
    var used, unused := st.SetSequence(Some(s));
    LengthsFramed(st.registry);
    SliceAndRest(s, st.Length());
    ghost var stored := PySlice(s, 0, st.Length());
    assert st.sequence == Some(stored);
    SequenceListGivesBackStoredText(stored, st.drawn5to3, st.low, st.high, lens);
    r := st.GetSequenceList();
    LengthsFramed(st.registry);
    assert st.SequenceList(stored) == SequenceListOf(stored, st.drawn5to3, st.low, st.high, lens);
  }


  /** Resizing and undoing gives back the original indices. */
  method ResizeThenUndo(st: Strand, newIdxs: (int, int))
    modifies st`low, st`high, st`events
    ensures st.low == old(st.low) && st.high == old(st.high)
    ensures st.events == old(st.events) + [StrandResized(newIdxs), PartStrandChanged,
                                           StrandResized((old(st.low), old(st.high))), PartStrandChanged]
  {
    var c := st.Resize(newIdxs);
    c.Undo();
  }

  /** Adding an insertion and undoing gives back the same dictionary and iteration order. */
  method AddInsertionThenUndo(st: Strand, idx: int, length: int)
    requires st.registry.Valid()
    modifies st.registry, st`events
    ensures st.registry.Valid()
    ensures st.registry.entries == old(st.registry.entries)
    ensures st.registry.order == old(st.registry.order)
  {
    var c := st.AddInsertion(idx, length);
    if c != null {
      ghost var before, order := old(st.registry.entries), old(st.registry.order);
      c.Undo();
      assert before[idx := c.insertion] - {idx} == before;
      RemoveFirstAppended(order, idx);
    }
  }

  /**
   * Removing an insertion and undoing puts the very same Insertion object back under its key;
   * the key set is the same, though the key now comes last in iteration order.
   */
  method RemoveInsertionThenUndo(st: Strand, idx: int)
    requires st.registry.Valid()
    modifies st.registry, st`events
    ensures st.registry.Valid()
    ensures st.registry.entries == old(st.registry.entries)
    ensures forall k :: k in st.registry.order <==> k in old(st.registry.order)
  {
    var c := st.RemoveInsertion(idx);
    if c != null {
      ghost var before := old(st.registry.entries);
      c.Undo();
      assert (before - {idx})[idx := before[idx]] == before;
    }
  }

  /** Changing an insertion's length and undoing gives back every recorded length. */
  method ChangeInsertionThenUndo(st: Strand, idx: int, length: int)
    requires st.registry.Valid()
    requires length != 0
    modifies st.registry, st.registry.entries.Values, st`events
    ensures st.registry.Valid()
    ensures st.registry.entries == old(st.registry.entries)
    ensures st.registry.Lengths() == old(st.registry.Lengths())
  {
    var removed, changed := st.ChangeInsertion(idx, length);
    if changed != null {
      ghost var before := old(st.registry.Lengths());
      changed.Undo();
      assert before[idx := NormalisedLength(length)][idx := changed.oldLength] == before;
    }
  }

  // ----- Commands -----

  /** Sets a strand's indices to newIdxs; undo sets back the indices it had when created. */
  class ResizeCommand {
    const strand: Strand
    const oldIndices: (int, int)
    const newIdxs: (int, int)

    constructor (strand: Strand, newIdxs: (int, int))
      ensures this.strand == strand && this.newIdxs == newIdxs
      ensures oldIndices == (strand.low, strand.high)
    {
      this.strand := strand;
      this.oldIndices := (strand.low, strand.high);
      this.newIdxs := newIdxs;
    }

    method Redo()
      modifies strand`low, strand`high, strand`events
      ensures strand.low == newIdxs.0 && strand.high == newIdxs.1
      ensures strand.events == old(strand.events) + [StrandResized(newIdxs), PartStrandChanged]
    {
      strand.SetIdxs(newIdxs);
      strand.events := strand.events + [StrandResized(newIdxs), PartStrandChanged];
    }

    method Undo()
      modifies strand`low, strand`high, strand`events
      ensures strand.low == oldIndices.0 && strand.high == oldIndices.1
      ensures strand.events == old(strand.events) + [StrandResized(oldIndices), PartStrandChanged]
    {
      strand.SetIdxs(oldIndices);
      strand.events := strand.events + [StrandResized(oldIndices), PartStrandChanged];
    }
  }

  /** Puts a new Insertion(idx, length) into the helix's dictionary; undo deletes the key. */
  class AddInsertionCommand {
    const strand: Strand
    const registry: InsertionRegistry
    const idx: int
    const length: int
    const insertion: Insertion

    ghost predicate Valid()
    {
      insertion.idx == idx && registry == strand.registry
    }

    constructor (strand: Strand, idx: int, length: int)
      ensures this.strand == strand && this.registry == strand.registry
      ensures this.idx == idx && this.length == length
      ensures fresh(insertion) && insertion.length == length
      ensures Valid()
    {
      this.strand := strand;
      this.registry := strand.registry;
      this.idx := idx;
      this.length := length;
      this.insertion := new Insertion(idx, length);
    }

    method Redo()
      requires Valid() && registry.Valid()
      modifies registry, strand`events
      ensures registry.Valid()
      ensures registry.entries == old(registry.entries)[idx := insertion]
      ensures registry.order == if idx in old(registry.entries) then old(registry.order) else old(registry.order) + [idx]
      ensures strand.events == old(strand.events) + [InsertionAdded(insertion)]
    {
      if idx !in registry.entries {
        registry.order := registry.order + [idx];
      }
      registry.entries := registry.entries[idx := insertion];
      strand.events := strand.events + [InsertionAdded(insertion)];
    }

    /** Deleting a key that is not there raises KeyError, so undo needs the key present. */
    method Undo()
      requires Valid() && registry.Valid() && idx in registry.entries
      modifies registry, strand`events
      ensures registry.Valid()
      ensures registry.entries == old(registry.entries) - {idx}
      ensures registry.order == RemoveFirst(old(registry.order), idx)
      ensures strand.events == old(strand.events) + [InsertionRemoved(idx)]
    {
      RemoveFirstDistinct(registry.order, idx);
      registry.entries := registry.entries - {idx};
      registry.order := RemoveFirst(registry.order, idx);
      strand.events := strand.events + [InsertionRemoved(idx)];
    }
  }

  /** Deletes the entry at idx; undo puts the very same Insertion object back. */
  class RemoveInsertionCommand {
    const strand: Strand
    const registry: InsertionRegistry
    const idx: int
    const insertion: Insertion

    ghost predicate Valid()
    {
      insertion.idx == idx && registry == strand.registry
    }

    /** The entry at idx is looked up on creation (KeyError if absent). */
    constructor (strand: Strand, idx: int)
      requires strand.registry.Valid() && idx in strand.registry.entries
      ensures this.strand == strand && this.registry == strand.registry && this.idx == idx
      ensures insertion == strand.registry.entries[idx]
      ensures Valid()
    {
      this.strand := strand;
      this.registry := strand.registry;
      this.idx := idx;
      this.insertion := strand.registry.entries[idx];
    }

    method Redo()
      requires Valid() && registry.Valid() && idx in registry.entries
      modifies registry, strand`events
      ensures registry.Valid()
      ensures registry.entries == old(registry.entries) - {idx}
      ensures registry.order == RemoveFirst(old(registry.order), idx)
      ensures strand.events == old(strand.events) + [InsertionRemoved(idx)]
    {
      RemoveFirstDistinct(registry.order, idx);
      registry.entries := registry.entries - {idx};
      registry.order := RemoveFirst(registry.order, idx);
      strand.events := strand.events + [InsertionRemoved(idx)];
    }

    method Undo()
      requires Valid() && registry.Valid()
      modifies registry, strand`events
      ensures registry.Valid()
      ensures registry.entries == old(registry.entries)[idx := insertion]
      ensures registry.order == if idx in old(registry.entries) then old(registry.order) else old(registry.order) + [idx]
      ensures strand.events == old(strand.events) + [InsertionAdded(insertion)]
    {
      if idx !in registry.entries {
        registry.order := registry.order + [idx];
      }
      registry.entries := registry.entries[idx := insertion];
      strand.events := strand.events + [InsertionAdded(insertion)];
    }
  }

  /** Sets the length of the entry at idx in place; undo sets back the length read on creation. */
  class ChangeInsertionCommand {
    const strand: Strand
    const registry: InsertionRegistry
    const idx: int
    const newLength: int
    const oldLength: int

    ghost predicate Valid()
    {
      registry == strand.registry
    }

    constructor (strand: Strand, idx: int, newLength: int)
      requires idx in strand.registry.entries
      ensures this.strand == strand && this.registry == strand.registry
      ensures this.idx == idx && this.newLength == newLength
      ensures oldLength == strand.registry.entries[idx].length
      ensures Valid()
    {
      this.strand := strand;
      this.registry := strand.registry;
      this.idx := idx;
      this.newLength := newLength;
      this.oldLength := strand.registry.entries[idx].length;
    }

    method Redo()
      requires Valid() && registry.Valid() && idx in registry.entries
      modifies registry.entries[idx], strand`events
      ensures registry.entries[idx].length == newLength
      ensures registry.Lengths() == old(registry.Lengths())[idx := newLength]
      ensures strand.events == old(strand.events) + [InsertionChanged(registry.entries[idx])]
    {
      var inst := registry.entries[idx];
      assert forall k :: k in registry.entries && k != idx ==> registry.entries[k] != inst;
      inst.length := newLength;
      assert registry.Lengths() == old(registry.Lengths())[idx := newLength];
      strand.events := strand.events + [InsertionChanged(inst)];
    }

    method Undo()
      requires Valid() && registry.Valid() && idx in registry.entries
      modifies registry.entries[idx], strand`events
      ensures registry.entries[idx].length == oldLength
      ensures registry.Lengths() == old(registry.Lengths())[idx := oldLength]
      ensures strand.events == old(strand.events) + [InsertionChanged(registry.entries[idx])]
    {
      var inst := registry.entries[idx];
      assert forall k :: k in registry.entries && k != idx ==> registry.entries[k] != inst;
      inst.length := oldLength;
      assert registry.Lengths() == old(registry.Lengths())[idx := oldLength];
      strand.events := strand.events + [InsertionChanged(inst)];
    }
  }
}
