/** sas-server/src/timeout.c: the heap of session timeouts, on sequences.
    TimeoutHeapArray.dfy proves the array code against these functions.

    Line 69 assigns `lowest = left` where the comparison before it found that the
    right child is lowest. Both forms are modelled: `AsWritten` and `Intended`,
    which assigns `lowest = right`. */
module TimeoutHeap {
  datatype Entry = Entry(session: nat, timeout: int)

  datatype Variant = AsWritten | Intended

  function Parent(i: nat): nat
    requires i > 0
  {
    (i - 1) / 2
  }

  function Swap(s: seq<Entry>, i: nat, j: nat): (t: seq<Entry>)
    requires i < |s| && j < |s|
    ensures |t| == |s| && t[i] == s[j] && t[j] == s[i]
    ensures forall k :: 0 <= k < |s| && k != i && k != j ==> t[k] == s[k]
  {
    s[i := s[j]][j := s[i]]
  }

  function SiftUp(s: seq<Entry>, i: nat): (t: seq<Entry>)
    requires i < |s|
    ensures |t| == |s|
    decreases i
  {
    if i == 0 || s[Parent(i)].timeout < s[i].timeout then s
    else SiftUp(Swap(s, i, Parent(i)), Parent(i))
  }

  function Add(s: seq<Entry>, e: Entry): (t: seq<Entry>)
    ensures |t| == |s| + 1
  {
    SiftUp(s + [e], |s|)
  }

  /** Lines 58-70. */
  function Lowest(v: Variant, s: seq<Entry>, i: nat): (low: nat)
    ensures low == i || (i < low < |s|)
  {
    var left, right := 2 * i + 1, 2 * i + 2;
    var low := if left < |s| && s[left].timeout < s[i].timeout then left else i;
    if right < |s| && s[right].timeout < s[low].timeout then
      (match v case AsWritten => left case Intended => right)
    else low
  }

  /** The index strictly increases below the size, so the recursion ends in either
      variant. */
  function Heapify(v: Variant, s: seq<Entry>, i: nat): (t: seq<Entry>)
    requires i <= |s|
    ensures |t| == |s|
    decreases |s| - i
  {
    var low := Lowest(v, s, i);
    if low == i then s else Heapify(v, Swap(s, low, i), low)
  }

  /** What is left in the array when the heap is popped, before it is heapified. */
  function Plugged(s: seq<Entry>): (t: seq<Entry>)
    requires s != []
    ensures |t| == |s| - 1
  {
    s[0 := s[|s| - 1]][..|s| - 1]
  }

  function Pop(v: Variant, s: seq<Entry>): (r: (Entry, seq<Entry>))
    requires s != []
    ensures |r.1| == |s| - 1
  {
    (s[0], Heapify(v, Plugged(s), 0))
  }

  // ----- Conservation, in both variants ---------------------------------------------------

  lemma SwapConserves(s: seq<Entry>, i: nat, j: nat)
    requires i < |s| && j < |s|
    ensures multiset(Swap(s, i, j)) == multiset(s)
  {
  }

  lemma {:induction false} SiftUpConserves(s: seq<Entry>, i: nat)
    requires i < |s|
    ensures multiset(SiftUp(s, i)) == multiset(s)
    decreases i
  {
    if i > 0 && s[Parent(i)].timeout >= s[i].timeout {
      SwapConserves(s, i, Parent(i));
      SiftUpConserves(Swap(s, i, Parent(i)), Parent(i));
    }
  }

  /** Adding changes the entries by exactly the one added. */
  lemma AddConserves(s: seq<Entry>, e: Entry)
    ensures multiset(Add(s, e)) == multiset(s) + multiset{e}
  {
    SiftUpConserves(s + [e], |s|);
  }

  lemma {:induction false} HeapifyConserves(v: Variant, s: seq<Entry>, i: nat)
    requires i <= |s|
    ensures multiset(Heapify(v, s, i)) == multiset(s)
    decreases |s| - i
  {
    var low := Lowest(v, s, i);
    if low != i {
      SwapConserves(s, low, i);
      HeapifyConserves(v, Swap(s, low, i), low);
    }
  }

  lemma PluggedConserves(s: seq<Entry>)
    requires s != []
    ensures multiset(Plugged(s)) + multiset{s[0]} == multiset(s)
  {
    var n := |s| - 1;
    assert s == s[..n] + [s[n]];
    if n > 0 {
      assert s[..n] == [s[0]] + s[1..n] && Plugged(s) == [s[n]] + s[1..n];
    }
  }

  /** Popping changes the entries by exactly the one returned. */
  lemma PopConserves(v: Variant, s: seq<Entry>)
    requires s != []
    ensures multiset(Pop(v, s).1) + multiset{Pop(v, s).0} == multiset(s)
  {
    PluggedConserves(s);
    HeapifyConserves(v, Plugged(s), 0);
  }

  // ----- The heap order ---------------------------------------------------------------

  predicate InPlace(s: seq<Entry>, j: nat)
    requires 0 < j < |s|
  {
    s[Parent(j)].timeout <= s[j].timeout
  }

  predicate IsHeap(s: seq<Entry>) {
    forall j :: 0 < j < |s| ==> InPlace(s, j)
  }

  /** A heap, but for the place i: `up` when it may be too small for its parent,
      otherwise when it may be too large for its children. */
  predicate IsHeapExcept(s: seq<Entry>, i: nat, up: bool) {
    && (forall j :: 0 < j < |s| && (if up then j != i else Parent(j) != i) ==> InPlace(s, j))
    && (forall j :: 0 < j < |s| && Parent(j) == i && i > 0 ==> s[Parent(i)].timeout <= s[j].timeout)
  }

  lemma {:induction false} SiftUpMakesHeap(s: seq<Entry>, i: nat)
    requires i < |s| && IsHeapExcept(s, i, true)
    ensures IsHeap(SiftUp(s, i))
    decreases i
  {
    if i > 0 && s[Parent(i)].timeout >= s[i].timeout {
      var p, t := Parent(i), Swap(s, i, Parent(i));
      forall j | 0 < j < |t| && j != p
        ensures InPlace(t, j)
      {
        assert j != i ==> InPlace(s, j);
        assert p > 0 && Parent(j) == p ==> InPlace(s, p);
      }
      forall j | 0 < j < |t| && Parent(j) == p && p > 0
        ensures t[Parent(p)].timeout <= t[j].timeout
      {
        assert InPlace(s, p);
        assert j != i ==> InPlace(s, j);
      }
      SiftUpMakesHeap(t, p);
    } else {
      forall j | 0 < j < |s|
        ensures InPlace(s, j)
      {
      }
    }
  }

  /** Adding keeps the heap order. */
  lemma AddKeepsHeap(s: seq<Entry>, e: Entry)
    requires IsHeap(s)
    ensures IsHeap(Add(s, e))
  {
    var t := s + [e];
    forall j | 0 < j < |t| && j != |s|
      ensures InPlace(t, j)
    {
      assert InPlace(s, j);
    }
    SiftUpMakesHeap(t, |s|);
  }

  /** Swapping i with its lower child moves the exception to the child. */
  lemma SwapDown(s: seq<Entry>, i: nat, low: nat)
    requires 0 < low < |s| && Parent(low) == i && IsHeapExcept(s, i, false)
    requires s[low].timeout < s[i].timeout
    requires forall j :: 0 < j < |s| && Parent(j) == i ==> s[low].timeout <= s[j].timeout
    ensures IsHeapExcept(Swap(s, low, i), low, false)
  {
    var t := Swap(s, low, i);
    forall j | 0 < j < |t| && Parent(j) != low
      ensures InPlace(t, j)
    {
      if j == i {
        assert s[Parent(i)].timeout <= s[low].timeout;
      } else if Parent(j) != i {
        assert InPlace(s, j);
      }
    }
    forall j | 0 < j < |t| && Parent(j) == low
      ensures t[Parent(low)].timeout <= t[j].timeout
    {
      assert InPlace(s, j);
    }
  }

  lemma {:induction false} HeapifyMakesHeap(s: seq<Entry>, i: nat)
    requires i <= |s| && IsHeapExcept(s, i, false)
    ensures IsHeap(Heapify(Intended, s, i))
    decreases |s| - i
  {
    var low := Lowest(Intended, s, i);
    if low != i {
      IntendedFindsLowest(s, i);
      SwapDown(s, i, low);
      HeapifyMakesHeap(Swap(s, low, i), low);
    } else {
      NothingToMove(Intended, s, i);
    }
  }

  lemma IntendedFindsLowest(s: seq<Entry>, i: nat)
    requires i < |s| && Lowest(Intended, s, i) != i
    ensures var low := Lowest(Intended, s, i);
            && Parent(low) == i && s[low].timeout < s[i].timeout
            && forall j :: 0 < j < |s| && Parent(j) == i ==> s[low].timeout <= s[j].timeout
  {
    forall j | 0 < j < |s| && Parent(j) == i
      ensures s[Lowest(Intended, s, i)].timeout <= s[j].timeout
    {
      assert j == 2 * i + 1 || j == 2 * i + 2;
    }
  }

  /** Where neither child is lower the exception is none. */
  lemma NothingToMove(v: Variant, s: seq<Entry>, i: nat)
    requires i <= |s| && IsHeapExcept(s, i, false) && Lowest(v, s, i) == i
    ensures IsHeap(s) && Heapify(v, s, i) == s
  {
    forall j | 0 < j < |s|
      ensures InPlace(s, j)
    {
      assert Parent(j) == i ==> j == 2 * i + 1 || j == 2 * i + 2;
    }
  }

  lemma PluggedExcept(s: seq<Entry>)
    requires s != [] && IsHeap(s)
    ensures IsHeapExcept(Plugged(s), 0, false)
  {
    var t := Plugged(s);
    forall j | 0 < j < |t| && Parent(j) != 0
      ensures InPlace(t, j)
    {
      assert InPlace(s, j);
    }
  }

  lemma {:induction false} FirstIsLowest(s: seq<Entry>, k: nat)
    requires IsHeap(s) && k < |s|
    ensures s[0].timeout <= s[k].timeout
    decreases k
  {
    if k > 0 {
      assert InPlace(s, k);
      FirstIsLowest(s, Parent(k));
    }
  }

  /** Popping returns an entry of minimal timeout and keeps the order (`Intended`). */
  lemma PopKeepsHeap(s: seq<Entry>)
    requires s != [] && IsHeap(s)
    ensures IsHeap(Pop(Intended, s).1)
    ensures forall k :: 0 <= k < |s| ==> Pop(Intended, s).0.timeout <= s[k].timeout
  {
    PluggedExcept(s);
    HeapifyMakesHeap(Plugged(s), 0);
    forall k | 0 <= k < |s|
      ensures s[0].timeout <= s[k].timeout
    {
      FirstIsLowest(s, k);
    }
  }

  // ----- Equal timeouts -------------------------------------------------------------------

  /** Where an entry that rises comes to rest: under a parent with a strictly lower
      timeout, or on top. */
  lemma {:induction false} SiftUpRests(s: seq<Entry>, i: nat) returns (k: nat)
    requires i < |s|
    ensures k <= i && SiftUp(s, i)[k] == s[i]
    ensures k > 0 ==> SiftUp(s, i)[Parent(k)].timeout < s[i].timeout
    decreases i
  {
    k := i;
    if i > 0 && s[Parent(i)].timeout >= s[i].timeout {
      k := SiftUpRests(Swap(s, i, Parent(i)), Parent(i));
    }
  }

  /** Among equal timeouts the latest one added is the next to be popped. */
  lemma LatestOfEqualsIsNext(s: seq<Entry>, e: Entry)
    requires forall k :: 0 <= k < |s| ==> e.timeout <= s[k].timeout
    ensures forall v :: Pop(v, Add(s, e)).0 == e
  {
    var k := SiftUpRests(s + [e], |s|);
    AddConserves(s, e);
    forall j | 0 <= j < |Add(s, e)|
      ensures e.timeout <= Add(s, e)[j].timeout
    {
      assert Add(s, e)[j] in multiset(Add(s, e));
      assert Add(s, e)[j] == e || Add(s, e)[j] in s;
    }
  }

  lemma {:induction false} HeapifyLeavesAbove(v: Variant, s: seq<Entry>, i: nat, k: nat)
    requires k < i <= |s|
    ensures Heapify(v, s, i)[k] == s[k]
    decreases |s| - i
  {
    var low := Lowest(v, s, i);
    if low != i {
      HeapifyLeavesAbove(v, Swap(s, low, i), low, k);
    }
  }

  /** An entry sinks only below strictly lower ones. As intended, the lower child takes
      its place, the left one if they are equal; as written, the left one always. */
  lemma HeapifyTop(v: Variant, s: seq<Entry>, i: nat)
    requires i < |s|
    ensures var left, right, top := 2 * i + 1, 2 * i + 2, Heapify(v, s, i)[i];
            var x := s[i].timeout;
            if (left < |s| && s[left].timeout < x) || (right < |s| && s[right].timeout < x)
            then top == (if v == AsWritten || right >= |s| || s[left].timeout <= s[right].timeout
                         then s[left] else s[right])
            else top == s[i] && Heapify(v, s, i) == s
  {
    var low := Lowest(v, s, i);
    if low != i {
      HeapifyLeavesAbove(v, Swap(s, low, i), low, i);
    }
  }

  // ----- Draining -----------------------------------------------------------------------

  function AddAll(es: seq<Entry>): seq<Entry> {
    if es == [] then [] else Add(AddAll(es[..|es| - 1]), es[|es| - 1])
  }

  lemma {:induction false} AddAllConserves(es: seq<Entry>)
    ensures multiset(AddAll(es)) == multiset(es)
  {
    if es != [] {
      var n := |es| - 1;
      AddAllConserves(es[..n]);
      AddConserves(AddAll(es[..n]), es[n]);
      assert es == es[..n] + [es[n]];
    }
  }

  function DrainAll(v: Variant, s: seq<Entry>): seq<Entry>
    decreases |s|
  {
    if s == [] then [] else [Pop(v, s).0] + DrainAll(v, Pop(v, s).1)
  }

  lemma {:induction false} DrainAllConserves(v: Variant, s: seq<Entry>)
    ensures multiset(DrainAll(v, s)) == multiset(s)
    decreases |s|
  {
    if s != [] {
      PopConserves(v, s);
      DrainAllConserves(v, Pop(v, s).1);
    }
  }

  predicate Sorted(s: seq<Entry>) {
    forall i, j :: 0 <= i < j < |s| ==> s[i].timeout <= s[j].timeout
  }

  lemma {:induction false} AddAllMakesHeap(es: seq<Entry>)
    ensures IsHeap(AddAll(es))
  {
    if es != [] {
      AddAllMakesHeap(es[..|es| - 1]);
      AddKeepsHeap(AddAll(es[..|es| - 1]), es[|es| - 1]);
    }
  }

  lemma {:induction false} DrainSorts(s: seq<Entry>)
    requires IsHeap(s)
    ensures Sorted(DrainAll(Intended, s))
    decreases |s|
  {
    if s != [] {
      var (min, rest) := Pop(Intended, s);
      PopKeepsHeap(s);
      DrainSorts(rest);
      PopConserves(Intended, s);
      DrainAllConserves(Intended, rest);
      SortedCons(min, DrainAll(Intended, rest), s);
    }
  }

  lemma SortedCons(min: Entry, later: seq<Entry>, s: seq<Entry>)
    requires Sorted(later) && multiset(later) + multiset{min} == multiset(s)
    requires forall k :: 0 <= k < |s| ==> min.timeout <= s[k].timeout
    ensures Sorted([min] + later)
  {
    forall j | 0 <= j < |later|
      ensures min.timeout <= later[j].timeout
    {
      assert later[j] in multiset(later) && later[j] in multiset(s);
      assert later[j] in s;
    }
  }

  /** Adding any entries and popping them all gives a sorted permutation of them. */
  lemma AddThenDrainSorts(es: seq<Entry>)
    ensures var out := DrainAll(Intended, AddAll(es));
            Sorted(out) && multiset(out) == multiset(es)
  {
    AddAllMakesHeap(es);
    DrainSorts(AddAll(es));
    AddAllConserves(es);
    DrainAllConserves(Intended, AddAll(es));
  }

  // ----- Any order of adds and pops --------------------------------------------------------

  datatype HeapOp = Push(entry: Entry) | PopMin

  /** The heap after a history, from empty; popping an empty heap does nothing. */
  function After(v: Variant, ops: seq<HeapOp>): seq<Entry> {
    if ops == [] then []
    else
      var s := After(v, ops[..|ops| - 1]);
      match ops[|ops| - 1]
      case Push(e) => Add(s, e)
      case PopMin => if s == [] then s else Pop(v, s).1
  }

  /** What the pops of a history returned, in order. */
  function Returned(v: Variant, ops: seq<HeapOp>): seq<Entry> {
    if ops == [] then []
    else
      var s, out := After(v, ops[..|ops| - 1]), Returned(v, ops[..|ops| - 1]);
      if ops[|ops| - 1].PopMin? && s != [] then out + [Pop(v, s).0] else out
  }

  function Entered(ops: seq<HeapOp>): multiset<Entry> {
    if ops == [] then multiset{}
    else
      Entered(ops[..|ops| - 1]) +
      if ops[|ops| - 1].Push? then multiset{ops[|ops| - 1].entry} else multiset{}
  }

  /** Over every history, in both variants, what was added is what was returned
      and what is left. */
  lemma {:induction false} HistoryConserves(v: Variant, ops: seq<HeapOp>)
    ensures multiset(After(v, ops)) + multiset(Returned(v, ops)) == Entered(ops)
  {
    if ops != [] {
      var front := ops[..|ops| - 1];
      HistoryConserves(v, front);
      var s := After(v, front);
      match ops[|ops| - 1]
      case Push(e) => AddConserves(s, e);
      case PopMin =>
        if s != [] {
          PopConserves(v, s);
        }
    }
  }

  /** Over every history the heap is in order and the next pop returns a minimal
      entry of those that are left (`Intended`). */
  lemma {:induction false} HistoryKeepsHeap(ops: seq<HeapOp>)
    ensures IsHeap(After(Intended, ops))
    ensures var s := After(Intended, ops);
            s != [] ==> forall e <- s :: Pop(Intended, s).0.timeout <= e.timeout
  {
    if ops != [] {
      var s := After(Intended, ops[..|ops| - 1]);
      HistoryKeepsHeap(ops[..|ops| - 1]);
      match ops[|ops| - 1]
      case Push(e) => AddKeepsHeap(s, e);
      case PopMin =>
        if s != [] {
          PopKeepsHeap(s);
        }
    }
    if After(Intended, ops) != [] {
      PopKeepsHeap(After(Intended, ops));
    }
  }

  // ----- Line 69 as written ------------------------------------------------------------------

  /** The comparison of line 67 fails at i, and at every place that the moving
      entry, with timeout x, reaches from i. Only the array before the call is
      looked at. */
  predicate RightNeverLowest(s: seq<Entry>, i: nat, x: int)
    decreases |s| - i
  {
    var left, right := 2 * i + 1, 2 * i + 2;
    var down := left < |s| && s[left].timeout < x;
    && (right < |s| ==> s[right].timeout >= if down then s[left].timeout else x)
    && (down ==> RightNeverLowest(s, left, x))
  }

  lemma {:induction false} RightNeverLowestReadsBelow(s: seq<Entry>, t: seq<Entry>, i: nat, x: int)
    requires |s| == |t| && forall k :: i < k < |s| ==> s[k] == t[k]
    ensures RightNeverLowest(s, i, x) == RightNeverLowest(t, i, x)
    decreases |s| - i
  {
    if 2 * i + 1 < |s| {
      RightNeverLowestReadsBelow(s, t, 2 * i + 1, x);
    }
  }

  /** As written, only the places on the way to the left are touched. */
  lemma {:induction false} WrittenGoesLeft(s: seq<Entry>, i: nat, k: nat)
    requires i <= |s| && k < |s| && (k < i || i < k < 2 * i + 1)
    ensures Heapify(AsWritten, s, i)[k] == s[k]
    decreases |s| - i
  {
    var low := Lowest(AsWritten, s, i);
    if low != i {
      WrittenGoesLeft(Swap(s, low, i), low, k);
    }
  }

  /** The code as written restores the order if and only if the comparison of line
      67 fails at every place it visits. */
  lemma {:induction false} WrittenHeapifyExactly(s: seq<Entry>, i: nat)
    requires i < |s| && IsHeapExcept(s, i, false)
    ensures IsHeap(Heapify(AsWritten, s, i)) <==> RightNeverLowest(s, i, s[i].timeout)
    decreases |s| - i
  {
    var left, right := 2 * i + 1, 2 * i + 2;
    if left >= |s| || (s[left].timeout >= s[i].timeout && (right >= |s| || s[right].timeout >= s[i].timeout)) {
      WrittenStays(s, i);
    } else if right < |s| && (s[right].timeout < s[left].timeout || s[left].timeout >= s[i].timeout) {
      WrittenMisplacesRight(s, i);
    } else {
      WrittenSwapDown(s, i);
      WrittenHeapifyExactly(Swap(s, left, i), left);
      WrittenGoesOn(s, i);
    }
  }

  lemma WrittenStays(s: seq<Entry>, i: nat)
    requires i < |s| && IsHeapExcept(s, i, false)
    requires forall j :: 0 < j < |s| && (j == 2 * i + 1 || j == 2 * i + 2) ==> s[j].timeout >= s[i].timeout
    ensures IsHeap(Heapify(AsWritten, s, i)) && RightNeverLowest(s, i, s[i].timeout)
  {
    assert Lowest(AsWritten, s, i) == i;
    NothingToMove(AsWritten, s, i);
  }

  lemma WrittenGoesOn(s: seq<Entry>, i: nat)
    requires 2 * i + 1 < |s| && s[2 * i + 1].timeout < s[i].timeout
    requires 2 * i + 2 < |s| ==> s[2 * i + 2].timeout >= s[2 * i + 1].timeout
    requires var t := Swap(s, 2 * i + 1, i);
             IsHeap(Heapify(AsWritten, t, 2 * i + 1)) <==> RightNeverLowest(t, 2 * i + 1, s[i].timeout)
    ensures IsHeap(Heapify(AsWritten, s, i)) <==> RightNeverLowest(s, i, s[i].timeout)
  {
    RightNeverLowestReadsBelow(s, Swap(s, 2 * i + 1, i), 2 * i + 1, s[i].timeout);
  }

  lemma WrittenMisplacesRight(s: seq<Entry>, i: nat)
    requires 2 * i + 2 < |s|
    requires var left, right := 2 * i + 1, 2 * i + 2;
             s[right].timeout < s[left].timeout < s[i].timeout ||
             (s[right].timeout < s[i].timeout <= s[left].timeout)
    ensures !IsHeap(Heapify(AsWritten, s, i)) && !RightNeverLowest(s, i, s[i].timeout)
  {
    var left, right := 2 * i + 1, 2 * i + 2;
    var t := Swap(s, left, i);
    assert Lowest(AsWritten, s, i) == left;
    WrittenGoesLeft(t, left, i);
    WrittenGoesLeft(t, left, right);
    assert !InPlace(Heapify(AsWritten, t, left), right);
  }

  lemma WrittenSwapDown(s: seq<Entry>, i: nat)
    requires 2 * i + 1 < |s| && IsHeapExcept(s, i, false) && s[2 * i + 1].timeout < s[i].timeout
    requires 2 * i + 2 < |s| ==> s[2 * i + 2].timeout >= s[2 * i + 1].timeout
    ensures Lowest(AsWritten, s, i) == 2 * i + 1
    ensures IsHeapExcept(Swap(s, 2 * i + 1, i), 2 * i + 1, false)
  {
    forall j | 0 < j < |s| && Parent(j) == i
      ensures j == 2 * i + 1 || j == 2 * i + 2
    {
    }
    SwapDown(s, i, 2 * i + 1);
  }

  /** Popping with line 69 as written: it returns a minimal entry, and leaves a heap
      if and only if, for the last entry sinking from the top, the right child is
      never the lowest. */
  lemma WrittenPopExactly(s: seq<Entry>)
    requires s != [] && IsHeap(s)
    ensures forall k :: 0 <= k < |s| ==> Pop(AsWritten, s).0.timeout <= s[k].timeout
    ensures IsHeap(Pop(AsWritten, s).1) <==>
            |s| == 1 || RightNeverLowest(Plugged(s), 0, s[|s| - 1].timeout)
  {
    forall k | 0 <= k < |s|
      ensures s[0].timeout <= s[k].timeout
    {
      FirstIsLowest(s, k);
    }
    if |s| > 1 {
      PluggedExcept(s);
      WrittenHeapifyExactly(Plugged(s), 0);
    }
  }

  lemma AddOnTop(es: seq<Entry>, e: Entry)
    requires AddAll(es) == es && (es != [] ==> es[Parent(|es|)].timeout < e.timeout)
    ensures AddAll(es + [e]) == es + [e]
  {
    assert (es + [e])[..|es|] == es;
    assert es != [] ==> (es + [e])[Parent(|es|)] == es[Parent(|es|)];
  }

  lemma FourAdded(a: Entry, b: Entry, c: Entry, d: Entry)
    requires a.timeout < b.timeout && a.timeout < c.timeout && b.timeout < d.timeout
    ensures AddAll([a] + [b] + [c] + [d]) == [a] + [b] + [c] + [d]
  {
    assert [] + [a] == [a];
    AddOnTop([], a);
    AddOnTop([a], b);
    AddOnTop([a] + [b], c);
    AddOnTop([a] + [b] + [c], d);
  }

  lemma PopOfFour(a: Entry, b: Entry, c: Entry, d: Entry)
    requires c.timeout < b.timeout < d.timeout
    ensures Pop(AsWritten, [a] + [b] + [c] + [d]) == (a, [b] + [d] + [c])
  {
    var s := [d] + [b] + [c];
    assert Plugged([a] + [b] + [c] + [d]) == s;
    assert Lowest(AsWritten, s, 0) == 1;
    assert Swap(s, 1, 0) == [b] + [d] + [c];
    var t := [b] + [d] + [c];
    assert Lowest(AsWritten, t, 1) == 1;
    assert Heapify(AsWritten, s, 0) == Heapify(AsWritten, t, 1) == t;
  }

  /** Timeouts 1, 5, 2, 6: the second pop returns 5 although 2 is still there. */
  lemma WrittenPopsOutOfOrder()
    ensures var es := [Entry(0, 1)] + [Entry(1, 5)] + [Entry(2, 2)] + [Entry(3, 6)];
            var rest := Pop(AsWritten, AddAll(es)).1;
            && Pop(AsWritten, AddAll(es)).0 == Entry(0, 1)
            && Entry(2, 2) in rest && Pop(AsWritten, rest).0 == Entry(1, 5)
  {
    var a, b, c, d := Entry(0, 1), Entry(1, 5), Entry(2, 2), Entry(3, 6);
    FourAdded(a, b, c, d);
    PopOfFour(a, b, c, d);
    assert ([b] + [d] + [c])[2] == c && ([b] + [d] + [c])[0] == b;
  }
}
