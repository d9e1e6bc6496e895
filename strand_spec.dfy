/**
 * Value-level reference definitions for the Strand model: Python slicing and list
 * removal, the ascending run of registry keys inside a base interval, sums of insertion
 * lengths over an interval, and the partition of a sequence at insertions that
 * getSequenceList produces.  The classes in module StrandModel are proved against these.
 */
module StrandSpec {

  datatype Option<T> = None | Some(value: T)

  /** The Python exceptions the modelled code raises. */
  datatype Error = IndexError | ValueError | TypeError

  datatype Result<T> = Ok(value: T) | Err(error: Error)

  /** A neighbouring strand, reduced to its inclusive base interval. */
  datatype Interval = Interval(low: int, high: int)

  /** One entry of getSequenceList: (base index, (strand-item text, insertion text)). */
  datatype SeqItem = SeqItem(index: int, strandText: string, insertionText: string)

  /** One insertion as the partition sees it: the base it follows and its length (negative for a skip). */
  datatype Cut = Cut(index: int, length: int)

  /** How far the partition has read: where the last strand item ended and the insertion length passed. */
  datatype Cursor = Cursor(offsetLast: int, lengthSoFar: int)

  // ----- Python sequence operations -----

  /** Python's normalisation of a slice bound against a sequence of length n. */
  function PyIndex(i: int, n: nat): (k: nat)
    ensures k <= n
  {
    if i < 0 then (if n + i < 0 then 0 else n + i)
    else if i > n then n
    else i
  }

  /** Python's `s[a:b]`. */
  function PySlice(s: string, a: int, b: int): string
  {
    var i, j := PyIndex(a, |s|), PyIndex(b, |s|);
    if i <= j then s[i..j] else []
  }

  /** Python's `s[a:]`. */
  function PySliceFrom(s: string, a: int): string
  {
    s[PyIndex(a, |s|)..]
  }

  /** Python's `s[::-1]`. */
  function Reversed<T>(s: seq<T>): (r: seq<T>)
    ensures |r| == |s|
    ensures forall i :: 0 <= i < |s| ==> r[i] == s[|s| - 1 - i]
  {
    seq(|s|, i requires 0 <= i < |s| => s[|s| - 1 - i])
  }

  /** `s[:n] + s[n:] == s` for every n, and a non-negative n no larger than |s| takes exactly n items. */
  lemma SliceAndRest(s: string, n: int)
    ensures PySlice(s, 0, n) + PySliceFrom(s, n) == s
    ensures 0 <= n <= |s| ==> |PySlice(s, 0, n)| == n
    ensures n >= |s| ==> PySlice(s, 0, n) == s && PySliceFrom(s, n) == []
  {
    var j := PyIndex(n, |s|);
    assert s[0..j] + s[j..] == s;
  }

  /** Adjacent non-negative slices concatenate. */
  lemma SliceConcat(s: string, a: int, b: int, c: int)
    requires 0 <= a <= b <= c
    ensures PySlice(s, a, b) + PySlice(s, b, c) == PySlice(s, a, c)
  {
    var i, j, k := PyIndex(a, |s|), PyIndex(b, |s|), PyIndex(c, |s|);
    assert i <= j <= k;
    assert s[i..j] + s[j..k] == s[i..k];
  }

  lemma ReversedTwice<T>(s: seq<T>)
    ensures Reversed(Reversed(s)) == s
  {
  }

  /** Python's `range(a, b)`. */
  function Range(a: int, b: int): (r: seq<int>)
    ensures StrictlyIncreasing(r)
    ensures forall x :: x in r <==> a <= x < b
  {
    var n := if b > a then b - a else 0;
    var r := seq(n, i requires 0 <= i < n => a + i);
    assert forall x | a <= x < b :: x in r by {
      forall x | a <= x < b ensures x in r { assert r[x - a] == x; }
    }
    r
  }

  /**
   * Python's `list.remove(x)`: drops the first occurrence of x and keeps every other
   * value in order.
   */
  function RemoveFirst(s: seq<int>, x: int): (r: seq<int>)
    requires x in s
    ensures |r| == |s| - 1
    ensures forall y :: y in r ==> y in s
    ensures forall y :: y in s && y != x ==> y in r
  {
    if s[0] == x then
      assert forall y :: y in s && y != x ==> y in s[1..] by {
        assert s == [s[0]] + s[1..];
      }
      s[1..]
    else
      var rest := RemoveFirst(s[1..], x);
      assert forall y :: y in s && y != x ==> y == s[0] || y in s[1..] by {
        assert s == [s[0]] + s[1..];
      }
      [s[0]] + rest
  }

  /** Removal keeps a strictly increasing list strictly increasing, and x is gone. */
  lemma {:induction false} RemoveFirstIncreasing(s: seq<int>, x: int)
    requires x in s && StrictlyIncreasing(s)
    ensures StrictlyIncreasing(RemoveFirst(s, x))
    ensures x !in RemoveFirst(s, x)
  {
    HeadIsLeast(s);
    if s[0] != x {
      var tail := s[1..];
      assert x in tail by { assert s == [s[0]] + tail; }
      assert StrictlyIncreasing(tail) by {
        assert forall i :: 0 <= i < |tail| ==> tail[i] == s[i + 1];
      }
      RemoveFirstIncreasing(tail, x);
      var rest := RemoveFirst(tail, x);
      ConsIncreasing(s[0], rest);
      assert RemoveFirst(s, x) == [s[0]] + rest;
    }
  }

  /** A head below every member of a strictly increasing tail keeps the list strictly increasing. */
  lemma ConsIncreasing(h: int, t: seq<int>)
    requires StrictlyIncreasing(t)
    requires forall y :: y in t ==> h < y
    ensures StrictlyIncreasing([h] + t)
  {
    var r := [h] + t;
    forall i, j | 0 <= i < j < |r| ensures r[i] < r[j] {
      assert r[j] == t[j - 1];
      if i > 0 {
        assert r[i] == t[i - 1];
      } else {
        assert t[j - 1] in t;
      }
    }
  }

  /** Removal keeps a list without repeats free of repeats, and x is gone. */
  lemma {:induction false} RemoveFirstDistinct(s: seq<int>, x: int)
    requires x in s && Distinct(s)
    ensures Distinct(RemoveFirst(s, x))
    ensures x !in RemoveFirst(s, x)
  {
    assert forall j :: 0 <= j < |s[1..]| ==> s[1..][j] == s[j + 1];
    if s[0] != x {
      RemoveFirstDistinct(s[1..], x);
      var rest := RemoveFirst(s[1..], x);
      Members(rest);
      assert RemoveFirst(s, x) == [s[0]] + rest;
    }
  }

  /** Removing a value that was just appended (and was not there before) gives the list back. */
  lemma {:induction false} RemoveFirstAppended(s: seq<int>, x: int)
    requires x !in s
    ensures RemoveFirst(s + [x], x) == s
  {
    if |s| > 0 {
      assert (s + [x])[1..] == s[1..] + [x];
      RemoveFirstAppended(s[1..], x);
    }
  }

  // ----- Sorted registry keys -----

  /** In a strictly increasing sequence the head is below everything after it. */
  lemma HeadIsLeast(s: seq<int>)
    requires StrictlyIncreasing(s) && |s| > 0
    ensures forall y :: y in s[1..] ==> s[0] < y
  {
    forall y | y in s[1..] ensures s[0] < y {
      var j :| 0 <= j < |s[1..]| && s[1..][j] == y;
      assert s[j + 1] == y;
    }
  }

  /** Every position's value is a member. */
  lemma Members<T>(s: seq<T>)
    ensures forall i :: 0 <= i < |s| ==> s[i] in s
  {
  }

  lemma FirstIsMember<T>(s: seq<T>)
    ensures |s| > 0 ==> s[0] in s
  {
  }

  ghost predicate StrictlyIncreasing(s: seq<int>)
  {
    forall i, j :: 0 <= i < j < |s| ==> s[i] < s[j]
  }

  /** The keys of `keys` that lie in [lo, hi], in ascending order (the reference for sorting and filtering). */
  function KeysInRange(keys: set<int>, lo: int, hi: int): seq<int>
    decreases hi - lo
  {
    if hi < lo then []
    else (if lo in keys then [lo] else []) + KeysInRange(keys, lo + 1, hi)
  }

  lemma {:induction false} KeysInRangeSpec(keys: set<int>, lo: int, hi: int)
    ensures StrictlyIncreasing(KeysInRange(keys, lo, hi))
    ensures forall k :: k in KeysInRange(keys, lo, hi) <==> k in keys && lo <= k <= hi
    decreases hi - lo
  {
    if lo <= hi {
      KeysInRangeSpec(keys, lo + 1, hi);
      var rest := KeysInRange(keys, lo + 1, hi);
      var head: seq<int> := if lo in keys then [lo] else [];
      assert KeysInRange(keys, lo, hi) == head + rest;
      assert forall i :: 0 <= i < |rest| ==> rest[i] in rest;
    }
  }

  /** A strictly increasing sequence holding exactly the keys in [lo, hi] IS KeysInRange: sorting is unique. */
  lemma {:induction false} SortedSelectionIsKeysInRange(s: seq<int>, keys: set<int>, lo: int, hi: int)
    requires StrictlyIncreasing(s)
    requires forall k :: k in s <==> k in keys && lo <= k <= hi
    ensures s == KeysInRange(keys, lo, hi)
    decreases hi - lo
  {
    if hi < lo {
      FirstIsMember(s);
    } else if lo in keys {
      assert lo in s;
      var i :| 0 <= i < |s| && s[i] == lo;
      assert s[0] in s;
      assert i == 0;
      forall k
        ensures k in s[1..] <==> k in keys && lo + 1 <= k <= hi
      {
        if k in s[1..] {
          var j :| 0 <= j < |s[1..]| && s[1..][j] == k;
          assert s[j + 1] == k;
        }
        if k in keys && lo + 1 <= k <= hi {
          var j :| 0 <= j < |s| && s[j] == k;
          assert j != 0;
          assert s[1..][j - 1] == k;
        }
      }
      SortedSelectionIsKeysInRange(s[1..], keys, lo + 1, hi);
      assert s == [lo] + s[1..];
    } else {
      SortedSelectionIsKeysInRange(s, keys, lo + 1, hi);
    }
  }

  /** Two strictly increasing sequences with the same members are the same sequence. */
  lemma {:induction false} SortedUnique(a: seq<int>, b: seq<int>)
    requires StrictlyIncreasing(a) && StrictlyIncreasing(b)
    requires forall x :: x in a <==> x in b
    ensures a == b
    decreases |a|
  {
    FirstIsMember(a);
    FirstIsMember(b);
    if |a| > 0 && |b| > 0 {
      HeadIsLeast(a);
      HeadIsLeast(b);
      assert a == [a[0]] + a[1..] && b == [b[0]] + b[1..];
      assert a[0] == b[0];
      forall x
        ensures x in a[1..] <==> x in b[1..]
      {
        assert x in a <==> x == a[0] || x in a[1..];
        assert x in b <==> x == b[0] || x in b[1..];
      }
      SortedUnique(a[1..], b[1..]);
    }
  }

  /** No two positions hold the same value (the keys of a dict, listed in iteration order). */
  ghost predicate Distinct(s: seq<int>)
  {
    forall i, j :: 0 <= i < j < |s| ==> s[i] != s[j]
  }

  /** Inserts a new value into a strictly increasing sequence at its place. */
  function InsertSorted(s: seq<int>, x: int): (r: seq<int>)
    requires StrictlyIncreasing(s) && x !in s
    ensures StrictlyIncreasing(r)
    ensures forall y :: y in r <==> y in s || y == x
    ensures |r| == |s| + 1
  {
    if |s| == 0 then [x]
    else if x < s[0] then
      assert forall i :: 0 <= i < |s| ==> s[i] in s;
      HeadIsLeast(s);
      [x] + s
    else
      var t := InsertSorted(s[1..], x);
      assert forall i :: 0 <= i < |t| ==> s[0] < t[i] by {
        HeadIsLeast(s);
        assert forall i :: 0 <= i < |t| ==> t[i] in t;
      }
      assert forall y :: y in s <==> y == s[0] || y in s[1..] by {
        assert s == [s[0]] + s[1..];
      }
      [s[0]] + t
  }

  /** Python's `sorted(keys)` for the distinct keys of a dict. */
  function SortedInts(keys: seq<int>): (r: seq<int>)
    requires Distinct(keys)
    ensures StrictlyIncreasing(r)
    ensures forall k :: k in r <==> k in keys
  {
    if |keys| == 0 then []
    else
      assert forall k :: k in keys <==> k == keys[0] || k in keys[1..] by {
        assert keys == [keys[0]] + keys[1..];
      }
      assert keys[0] !in keys[1..] by {
        assert forall j :: 0 <= j < |keys[1..]| ==> keys[1..][j] == keys[j + 1] != keys[0];
      }
      InsertSorted(SortedInts(keys[1..]), keys[0])
  }

  /** The members of s that satisfy p, in their original order. */
  function Filter(s: seq<int>, p: int -> bool): (r: seq<int>)
    ensures |r| <= |s|
  {
    if |s| == 0 then [] else Filter(s[..|s| - 1], p) + (if p(s[|s| - 1]) then [s[|s| - 1]] else [])
  }

  /** One more element of the prefix: Filter grows by that element exactly when it passes. */
  lemma FilterStep(s: seq<int>, i: int, p: int -> bool)
    requires 0 <= i < |s|
    ensures Filter(s[..i + 1], p) == Filter(s[..i], p) + (if p(s[i]) then [s[i]] else [])
  {
    assert s[..i + 1][..i] == s[..i];
  }

  lemma {:induction false} FilterMembers(s: seq<int>, p: int -> bool)
    ensures forall x :: x in Filter(s, p) <==> x in s && p(x)
  {
    if |s| > 0 {
      var init, last := s[..|s| - 1], s[|s| - 1];
      FilterMembers(init, p);
      assert s == init + [last];
    }
  }

  lemma {:induction false} FilterIncreasing(s: seq<int>, p: int -> bool)
    requires StrictlyIncreasing(s)
    ensures StrictlyIncreasing(Filter(s, p))
  {
    if |s| > 0 {
      var init, last := s[..|s| - 1], s[|s| - 1];
      FilterIncreasing(init, p);
      FilterMembers(init, p);
      var f := Filter(init, p);
      Members(f);
      Members(init);
      assert forall i :: 0 <= i < |f| ==> f[i] < last;
    }
  }

  /**
   * Python 2's chained comparison `lo <= x <= hi` when hi may be None: every int compares
   * above None, so the test fails whenever hi is None.
   */
  predicate Py2Between(lo: int, x: int, hi: Option<int>)
  {
    hi.Some? && lo <= x <= hi.value
  }

  /** The test insertionsOnStrand applies to an insertion's index, as a function value. */
  function Between(lo: int, hi: Option<int>): int -> bool
  {
    k => Py2Between(lo, k, hi)
  }

  /** The test getRemoveInsertionCommandsAfterSplit applies to a key, as a function value. */
  function Outside(idxMin: int, idxMax: int): int -> bool
  {
    k => k > idxMax || k < idxMin
  }

  /**
   * Filtering the sorted keys by Python 2's `lo <= k <= hi` gives KeysInRange, and nothing at
   * all when hi is None.
   */
  lemma SortedFilterIsKeysInRange(s: seq<int>, keys: set<int>, lo: int, hi: Option<int>)
    requires StrictlyIncreasing(s)
    requires forall k :: k in s <==> k in keys
    ensures hi.Some? ==> Filter(s, Between(lo, hi)) == KeysInRange(keys, lo, hi.value)
    ensures hi.None? ==> Filter(s, Between(lo, hi)) == []
  {
    var p := Between(lo, hi);
    FilterIncreasing(s, p);
    FilterMembers(s, p);
    if hi.Some? {
      SortedSelectionIsKeysInRange(Filter(s, p), keys, lo, hi.value);
    } else {
      SortedSelectionIsKeysInRange(Filter(s, p), keys, lo, lo - 1);
    }
  }

  // ----- Insertion lengths -----

  /** The length stored for a requested one: any negative request becomes a skip (-1). */
  function NormalisedLength(length: int): (l: int)
    ensures l >= -1
    ensures l < 0 <==> length < 0
    ensures length >= 0 ==> l == length
  {
    if length < 0 then -1 else length
  }

  function Get(lens: map<int, int>, k: int): int
  {
    if k in lens then lens[k] else 0
  }

  /** Sum of the insertion lengths recorded at the indices lo..hi (the reference for the accumulator loops). */
  function RangeSum(lens: map<int, int>, lo: int, hi: int): int
    decreases hi - lo
  {
    if hi < lo then 0 else Get(lens, lo) + RangeSum(lens, lo + 1, hi)
  }

  /** Sum of the insertion lengths at the listed indices. */
  function SumOver(lens: map<int, int>, ks: seq<int>): int
  {
    if |ks| == 0 then 0 else Get(lens, ks[0]) + SumOver(lens, ks[1..])
  }

  lemma {:induction false} SumOverSnoc(lens: map<int, int>, ks: seq<int>, k: int)
    ensures SumOver(lens, ks + [k]) == SumOver(lens, ks) + Get(lens, k)
  {
    if |ks| > 0 {
      assert (ks + [k])[1..] == ks[1..] + [k];
      SumOverSnoc(lens, ks[1..], k);
    }
  }

  /** Summing over the ascending keys in range equals summing over every index in range. */
  lemma {:induction false} SumOverKeysInRange(lens: map<int, int>, lo: int, hi: int)
    ensures SumOver(lens, KeysInRange(lens.Keys, lo, hi)) == RangeSum(lens, lo, hi)
    decreases hi - lo
  {
    if lo <= hi {
      SumOverKeysInRange(lens, lo + 1, hi);
      var rest := KeysInRange(lens.Keys, lo + 1, hi);
      if lo in lens {
        assert KeysInRange(lens.Keys, lo, hi) == [lo] + rest;
        assert ([lo] + rest)[1..] == rest;
      } else {
        assert KeysInRange(lens.Keys, lo, hi) == rest;
      }
    }
  }

  /** With no recorded index in [lo, hi] there are no keys in range and nothing to add. */
  lemma NoKeysInRange(lens: map<int, int>, lo: int, hi: int)
    requires forall k :: k in lens ==> !(lo <= k <= hi)
    ensures KeysInRange(lens.Keys, lo, hi) == []
    ensures RangeSum(lens, lo, hi) == 0
  {
    var ks := KeysInRange(lens.Keys, lo, hi);
    KeysInRangeSpec(lens.Keys, lo, hi);
    FirstIsMember(ks);
    SumOverKeysInRange(lens, lo, hi);
  }

  /** Setting the length at idx changes the sum over [lo, hi] by the difference, and only when idx is inside. */
  lemma {:induction false} RangeSumUpdate(lens: map<int, int>, idx: int, len: int, lo: int, hi: int)
    ensures RangeSum(lens[idx := len], lo, hi)
         == RangeSum(lens, lo, hi) + (if lo <= idx <= hi then len - Get(lens, idx) else 0)
    decreases hi - lo
  {
    if lo <= hi {
      RangeSumUpdate(lens, idx, len, lo + 1, hi);
    }
  }

  /** Removing the entry at idx takes its length out of the sum over [lo, hi] when idx is inside. */
  lemma {:induction false} RangeSumRemove(lens: map<int, int>, idx: int, lo: int, hi: int)
    ensures RangeSum(lens - {idx}, lo, hi)
         == RangeSum(lens, lo, hi) - (if lo <= idx <= hi then Get(lens, idx) else 0)
    decreases hi - lo
  {
    if lo <= hi {
      RangeSumRemove(lens, idx, lo + 1, hi);
    }
  }

  /** A new skip (-1) inside [lo, hi] shortens the sum by exactly one; outside it changes nothing. */
  lemma SkipShortensByOne(lens: map<int, int>, idx: int, lo: int, hi: int)
    requires idx !in lens
    ensures RangeSum(lens[idx := -1], lo, hi) == RangeSum(lens, lo, hi) - (if lo <= idx <= hi then 1 else 0)
  {
    RangeSumUpdate(lens, idx, -1, lo, hi);
  }

  /** With every length at least -1 (skips), the sum over [lo, hi] is at least minus the number of bases. */
  lemma {:induction false} RangeSumLowerBound(lens: map<int, int>, lo: int, hi: int)
    requires forall k :: k in lens ==> lens[k] >= -1
    ensures RangeSum(lens, lo, hi) >= (if hi < lo then 0 else lo - hi - 1)
    decreases hi - lo
  {
    if lo <= hi {
      RangeSumLowerBound(lens, lo + 1, hi);
    }
  }

  /**
   * The worked example: a strand over 5..10 has 6 bases; an insertion of 3 at 7 makes 9;
   * a skip at 9 then makes 8.
   */
  lemma TotalLengthExample()
    ensures (10 - 5 + 1) + RangeSum(map[], 5, 10) == 6
    ensures (10 - 5 + 1) + RangeSum(map[7 := 3], 5, 10) == 9
    ensures (10 - 5 + 1) + RangeSum(map[7 := 3, 9 := -1], 5, 10) == 8
  {
  }

  // ----- Partition of a sequence at insertions (getSequenceList) -----

  /** Where the insertion at `index` starts in the text: after its own base, one earlier for a skip. */
  function ItemOffset(lowIdx: int, index: int, iLength: int, lengthSoFar: int): int
  {
    index + 1 - lowIdx + lengthSoFar - (if iLength < 0 then 1 else 0)
  }

  /** Where the next strand item starts: after the insertion's characters (a skip has none). */
  function NextOffset(lowIdx: int, item: Cut, lengthSoFar: int): int
  {
    var offset := ItemOffset(lowIdx, item.index, item.length, lengthSoFar);
    if item.length < 0 then offset else offset + item.length
  }

  /** n blank characters: a skip adds one to the strand item before it. */
  function Blanks(n: nat): (r: string)
    ensures |r| == n
  {
    if n == 0 then "" else Blanks(n - 1) + " "
  }

  /** The entry for one insertion: the strand item up to it (plus a blank for a skip) and its characters. */
  function Piece(text: string, lowIdx: int, item: Cut, offsetLast: int, lengthSoFar: int): SeqItem
  {
    var offset := ItemOffset(lowIdx, item.index, item.length, lengthSoFar);
    var seqItem := PySlice(text, offsetLast, offset);
    SeqItem(item.index, seqItem + Blanks(if item.length < 0 then 1 else 0),
            PySlice(text, offset, NextOffset(lowIdx, item, lengthSoFar)))
  }

  /** Where the cut stands after the first k insertions: the end of the last entry and the insertion length passed. */
  function CutAfter(lowIdx: int, items: seq<Cut>, k: nat): Cursor
    requires k <= |items|
  {
    if k == 0 then Cursor(0, 0)
    else
      var c := CutAfter(lowIdx, items, k - 1);
      Cursor(NextOffset(lowIdx, items[k - 1], c.lengthSoFar), c.lengthSoFar + items[k - 1].length)
  }

  /** The entries the partition makes for the first k insertions, each cut where the previous one ended. */
  function PiecesBefore(text: string, lowIdx: int, items: seq<Cut>, k: nat): seq<SeqItem>
    requires k <= |items|
  {
    if k == 0 then []
    else
      var c := CutAfter(lowIdx, items, k - 1);
      PiecesBefore(text, lowIdx, items, k - 1) + [Piece(text, lowIdx, items[k - 1], c.offsetLast, c.lengthSoFar)]
  }

  /**
   * The entries getSequenceList builds from `text` (already in low-to-high order) for the
   * insertions `items`, ascending: one entry per insertion holding the strand item before it
   * and its own characters, then a last entry holding the rest up to `total`.
   */
  function Partition(text: string, lowIdx: int, total: int, items: seq<Cut>): seq<SeqItem>
  {
    var c := CutAfter(lowIdx, items, |items|);
    PiecesBefore(text, lowIdx, items, |items|) + [SeqItem(lowIdx + total, PySlice(text, c.offsetLast, total), "")]
  }

  /** The first k insertions make k entries, each at its insertion's index. */
  lemma {:induction false} PiecesShape(text: string, lowIdx: int, items: seq<Cut>, k: nat)
    requires k <= |items|
    ensures |PiecesBefore(text, lowIdx, items, k)| == k
    ensures forall j :: 0 <= j < k ==> PiecesBefore(text, lowIdx, items, k)[j].index == items[j].index
  {
    if k > 0 {
      PiecesShape(text, lowIdx, items, k - 1);
      var c := CutAfter(lowIdx, items, k - 1);
      var done, piece := PiecesBefore(text, lowIdx, items, k - 1), Piece(text, lowIdx, items[k - 1], c.offsetLast, c.lengthSoFar);
      assert piece.index == items[k - 1].index;
      assert forall j :: 0 <= j < k - 1 ==> (done + [piece])[j] == done[j];
    }
  }

  /** One entry per insertion, at the insertion's index, and a last entry at lowIdx + total. */
  lemma PartitionShape(text: string, lowIdx: int, total: int, items: seq<Cut>)
    ensures var r := Partition(text, lowIdx, total, items);
      && |r| == |items| + 1
      && (forall j :: 0 <= j < |items| ==> r[j].index == items[j].index)
      && r[|items|].index == lowIdx + total && r[|items|].insertionText == ""
  {
    PiecesShape(text, lowIdx, items, |items|);
  }

  /** Each entry's two texts reversed (getSequenceList's final step for a strand drawn 3' to 5'). */
  function ReverseTexts(items: seq<SeqItem>): (r: seq<SeqItem>)
    ensures |r| == |items|
    ensures forall j :: 0 <= j < |items| ==>
      r[j] == SeqItem(items[j].index, Reversed(items[j].strandText), Reversed(items[j].insertionText))
  {
    seq(|items|, j requires 0 <= j < |items| =>
      SeqItem(items[j].index, Reversed(items[j].strandText), Reversed(items[j].insertionText)))
  }

  /** Turning back a single entry with no insertion text. */
  lemma ReverseTextsSingle(index: int, text: string)
    ensures ReverseTexts([SeqItem(index, text, "")]) == [SeqItem(index, Reversed(text), "")]
  {
    var back := ReverseTexts([SeqItem(index, text, "")]);
    assert back[0] == SeqItem(index, Reversed(text), Reversed(""));
  }

  /** With no insertions the partition is the single entry holding the first `total` characters. */
  lemma PartitionWithoutInsertions(text: string, lowIdx: int, total: int)
    ensures Partition(text, lowIdx, total, []) == [SeqItem(lowIdx + total, PySlice(text, 0, total), "")]
    ensures 0 <= total <= |text| ==> |Partition(text, lowIdx, total, [])[0].strandText| == total
    ensures total >= |text| ==> Partition(text, lowIdx, total, [])[0].strandText == text
  {
    SliceAndRest(text, total);
  }

  /** The insertions at the listed indices, with their lengths. */
  function LengthItems(lens: map<int, int>, ks: seq<int>): (r: seq<Cut>)
    ensures |r| == |ks|
    ensures forall j :: 0 <= j < |ks| ==> r[j] == Cut(ks[j], Get(lens, ks[j]))
  {
    seq(|ks|, j requires 0 <= j < |ks| => Cut(ks[j], Get(lens, ks[j])))
  }

  /** Total length of a list of insertions. */
  function SumLens(items: seq<Cut>): int
  {
    if |items| == 0 then 0 else SumLens(items[..|items| - 1]) + items[|items| - 1].length
  }

  lemma {:induction false} SumLensOfLengthItems(lens: map<int, int>, ks: seq<int>)
    ensures SumLens(LengthItems(lens, ks)) == SumOver(lens, ks)
  {
    if |ks| > 0 {
      var n := |ks| - 1;
      var items, init := LengthItems(lens, ks), LengthItems(lens, ks[..n]);
      SumLensOfLengthItems(lens, ks[..n]);
      assert items[..n] == init;
      assert SumLens(items) == SumLens(init) + Get(lens, ks[n]);
      SumOverSnoc(lens, ks[..n], ks[n]);
      assert ks[..n] + [ks[n]] == ks;
    }
  }

  /** The insertion length passed after k insertions is the sum of their lengths. */
  lemma {:induction false} CutAfterLength(lowIdx: int, items: seq<Cut>, k: nat)
    requires k <= |items|
    ensures CutAfter(lowIdx, items, k).lengthSoFar == SumLens(items[..k])
  {
    if k > 0 {
      CutAfterLength(lowIdx, items, k - 1);
      assert items[..k][..k - 1] == items[..k - 1];
    }
  }

  /** All the texts of a getSequenceList result, in order: strand item, then insertion, per entry. */
  function Concat(items: seq<SeqItem>): string
  {
    if |items| == 0 then "" else Concat(items[..|items| - 1]) + items[|items| - 1].strandText + items[|items| - 1].insertionText
  }

  /**
   * None of the first k insertions is a skip, and none starts before the previous entry ended:
   * the offsets getSequenceList computes never go backwards.
   */
  ghost predicate FitsUpTo(items: seq<Cut>, lowIdx: int, k: nat)
    requires k <= |items|
  {
    forall j {:trigger CutAfter(lowIdx, items, j)} :: 0 <= j < k ==>
      && items[j].length >= 0
      && CutAfter(lowIdx, items, j).offsetLast
         <= ItemOffset(lowIdx, items[j].index, items[j].length, CutAfter(lowIdx, items, j).lengthSoFar)
  }

  /** The j-th insertion of a fitting prefix: no skip, and it starts no earlier than the previous entry ended. */
  lemma FitsAt(items: seq<Cut>, lowIdx: int, k: nat, j: nat)
    requires j < k <= |items|
    requires FitsUpTo(items, lowIdx, k)
    ensures FitsUpTo(items, lowIdx, j)
    ensures items[j].length >= 0
    ensures CutAfter(lowIdx, items, j).offsetLast
            <= ItemOffset(lowIdx, items[j].index, items[j].length, CutAfter(lowIdx, items, j).lengthSoFar)
  {
    var c := CutAfter(lowIdx, items, j);
    forall i | 0 <= i < j
      ensures items[i].length >= 0
      ensures CutAfter(lowIdx, items, i).offsetLast
              <= ItemOffset(lowIdx, items[i].index, items[i].length, CutAfter(lowIdx, items, i).lengthSoFar)
    {
      var d := CutAfter(lowIdx, items, i);
    }
  }

  /** Appending an entry appends its two texts. */
  lemma ConcatSnoc(done: seq<SeqItem>, piece: SeqItem)
    ensures Concat(done + [piece]) == Concat(done) + piece.strandText + piece.insertionText
  {
    assert (done + [piece])[..|done|] == done;
  }

  /** The texts of the entry for an insertion that is not a skip. */
  lemma PieceTexts(text: string, lowIdx: int, item: Cut, offsetLast: int, lengthSoFar: int)
    requires item.length >= 0
    ensures var offset := ItemOffset(lowIdx, item.index, item.length, lengthSoFar);
      && Piece(text, lowIdx, item, offsetLast, lengthSoFar).strandText == PySlice(text, offsetLast, offset)
      && Piece(text, lowIdx, item, offsetLast, lengthSoFar).insertionText == PySlice(text, offset, offset + item.length)
  {
  }

  /** Texts spelling the text up to a, followed by an entry holding [a, b) and [b, c), spell the text up to c. */
  lemma ReassembleStep(text: string, done: seq<SeqItem>, piece: SeqItem, a: int, b: int, c: int)
    requires 0 <= a <= b <= c
    requires Concat(done) == PySlice(text, 0, a)
    requires piece.strandText == PySlice(text, a, b) && piece.insertionText == PySlice(text, b, c)
    ensures Concat(done + [piece]) == PySlice(text, 0, c)
  {
    ConcatSnoc(done, piece);
    SliceConcat(text, 0, a, b);
    SliceConcat(text, 0, b, c);
  }

  /** One more entry that does not start before the last one ended keeps the texts spelling a prefix of the text. */
  lemma PiecesReassembleStep(text: string, lowIdx: int, items: seq<Cut>, k: nat)
    requires 0 < k <= |items|
    requires items[k - 1].length >= 0
    requires var c := CutAfter(lowIdx, items, k - 1);
      0 <= c.offsetLast <= ItemOffset(lowIdx, items[k - 1].index, items[k - 1].length, c.lengthSoFar)
    requires Concat(PiecesBefore(text, lowIdx, items, k - 1)) == PySlice(text, 0, CutAfter(lowIdx, items, k - 1).offsetLast)
    ensures 0 <= CutAfter(lowIdx, items, k).offsetLast
    ensures Concat(PiecesBefore(text, lowIdx, items, k)) == PySlice(text, 0, CutAfter(lowIdx, items, k).offsetLast)
  {
    var c := CutAfter(lowIdx, items, k - 1);
    var item := items[k - 1];
    var offset := ItemOffset(lowIdx, item.index, item.length, c.lengthSoFar);
    var done, piece := PiecesBefore(text, lowIdx, items, k - 1), Piece(text, lowIdx, item, c.offsetLast, c.lengthSoFar);
    assert PiecesBefore(text, lowIdx, items, k) == done + [piece];
    assert CutAfter(lowIdx, items, k).offsetLast == offset + item.length;
    PieceTexts(text, lowIdx, item, c.offsetLast, c.lengthSoFar);
    ReassembleStep(text, done, piece, c.offsetLast, offset, offset + item.length);
  }

  /** When the offsets fit, the texts of the first k entries spell the text up to the k-th cut. */
  lemma {:induction false} PiecesReassemble(text: string, lowIdx: int, items: seq<Cut>, k: nat)
    requires k <= |items|
    requires FitsUpTo(items, lowIdx, k)
    ensures 0 <= CutAfter(lowIdx, items, k).offsetLast
    ensures Concat(PiecesBefore(text, lowIdx, items, k)) == PySlice(text, 0, CutAfter(lowIdx, items, k).offsetLast)
  {
    if k > 0 {
      FitsAt(items, lowIdx, k, k - 1);
      PiecesReassemble(text, lowIdx, items, k - 1);
      PiecesReassembleStep(text, lowIdx, items, k);
    }
  }

  /** When the offsets fit and the last cut is within total, the entries' texts spell the text up to total. */
  lemma PartitionReassembles(text: string, lowIdx: int, total: int, items: seq<Cut>)
    requires FitsUpTo(items, lowIdx, |items|)
    requires CutAfter(lowIdx, items, |items|).offsetLast <= total
    ensures Concat(Partition(text, lowIdx, total, items)) == PySlice(text, 0, total)
  {
    var c := CutAfter(lowIdx, items, |items|);
    var done := PiecesBefore(text, lowIdx, items, |items|);
    var last := SeqItem(lowIdx + total, PySlice(text, c.offsetLast, total), "");
    PiecesReassemble(text, lowIdx, items, |items|);
    ConcatSnoc(done, last);
    SliceConcat(text, 0, c.offsetLast, total);
  }

  /** Without skips, the cut after an insertion sits just past its characters. */
  lemma CutAfterNoSkip(lowIdx: int, items: seq<Cut>, k: nat)
    requires 0 < k <= |items| && items[k - 1].length >= 0
    ensures CutAfter(lowIdx, items, k).offsetLast == items[k - 1].index + 1 - lowIdx + CutAfter(lowIdx, items, k).lengthSoFar
  {
  }

  /**
   * Ascending insertion indices within the strand [lowIdx, highIdx], with non-negative lengths,
   * fit the strand's total length (bases plus insertions).
   */
  lemma SortedItemsFit(items: seq<Cut>, lowIdx: int, highIdx: int)
    requires lowIdx <= highIdx
    requires forall j :: 0 <= j < |items| ==> items[j].length >= 0 && lowIdx <= items[j].index <= highIdx
    requires forall i, j :: 0 <= i < j < |items| ==> items[i].index < items[j].index
    ensures FitsUpTo(items, lowIdx, |items|)
    ensures CutAfter(lowIdx, items, |items|).offsetLast <= highIdx + 1 - lowIdx + SumLens(items)
  {
    forall j | 0 <= j < |items|
      ensures CutAfter(lowIdx, items, j).offsetLast
              <= ItemOffset(lowIdx, items[j].index, items[j].length, CutAfter(lowIdx, items, j).lengthSoFar)
    {
      if j > 0 {
        CutAfterNoSkip(lowIdx, items, j);
      }
    }
    var n := |items|;
    if n > 0 {
      CutAfterNoSkip(lowIdx, items, n);
      CutAfterLength(lowIdx, items, n);
      assert items[..n] == items;
    }
  }

  /**
   * The insertions of a skip-free registry inside [lowIdx, highIdx], in ascending order, fit
   * the strand: offsets never go backwards and the last cut is within totalLength.
   */
  lemma RegistryItemsFit(lens: map<int, int>, lowIdx: int, highIdx: int)
    requires lowIdx <= highIdx
    requires forall k :: k in lens ==> lens[k] >= 0
    ensures var items := LengthItems(lens, KeysInRange(lens.Keys, lowIdx, highIdx));
      && FitsUpTo(items, lowIdx, |items|)
      && CutAfter(lowIdx, items, |items|).offsetLast <= highIdx - lowIdx + 1 + RangeSum(lens, lowIdx, highIdx)
  {
    var ks := KeysInRange(lens.Keys, lowIdx, highIdx);
    var items := LengthItems(lens, ks);
    SumLensOfLengthItems(lens, ks);
    SumOverKeysInRange(lens, lowIdx, highIdx);
    KeysInRangeSpec(lens.Keys, lowIdx, highIdx);
    Members(ks);
    SortedItemsFit(items, lowIdx, highIdx);
  }

  /**
   * Without skips, the texts of the partition of a sequence over [lowIdx, highIdx], read in
   * order, spell the first totalLength characters of the sequence.
   */
  lemma SequenceListSpellsText(text: string, lowIdx: int, highIdx: int, lens: map<int, int>)
    requires lowIdx <= highIdx
    requires forall k :: k in lens ==> lens[k] >= 0
    ensures var total := highIdx - lowIdx + 1 + RangeSum(lens, lowIdx, highIdx);
      Concat(Partition(text, lowIdx, total, LengthItems(lens, KeysInRange(lens.Keys, lowIdx, highIdx))))
        == PySlice(text, 0, total)
  {
    RegistryItemsFit(lens, lowIdx, highIdx);
    PartitionReassembles(text, lowIdx, highIdx - lowIdx + 1 + RangeSum(lens, lowIdx, highIdx),
                         LengthItems(lens, KeysInRange(lens.Keys, lowIdx, highIdx)));
  }
}
