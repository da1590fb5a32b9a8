/** sas-server/src/timeout.c in place: an array that is reallocated when it is
    full, with swaps, a sift-up loop and a recursive sift-down. */
module TimeoutHeapArray {
  import opened TimeoutHeap

  datatype Popped = Empty | Min(entry: Entry)

  class Heap {
    const variant: Variant
    var count: nat
    var heap: array<Entry>

    /** `capacity` is the length of the array. */
    ghost predicate Valid()
      reads this
    {
      count <= heap.Length && heap.Length > 0
    }

    ghost function Contents(): seq<Entry>
      reads this, heap
      requires Valid()
    {
      heap[..count]
    }

    /** The server allocates 32 places (server.c:29 and 41-43). */
    constructor (variant: Variant, capacity: nat)
      requires capacity > 0
      ensures Valid() && Contents() == [] && this.variant == variant && fresh(heap)
    {
      this.variant := variant;
      count := 0;
      heap := new Entry[capacity](_ => Entry(0, 0));
    }

    method Double()
      requires Valid()
      modifies this
      ensures Valid() && fresh(heap) && heap.Length == 2 * old(heap.Length)
      ensures count == old(count) && Contents() == old(Contents())
    {
      var bigger := new Entry[2 * heap.Length](_ => Entry(0, 0));
      forall i | 0 <= i < count {
        bigger[i] := heap[i];
      }
      assert bigger[..count] == heap[..count];
      heap := bigger;
    }

    /** `sas_server_timeout_add` */
    method TimeoutAdd(entry: Entry)
      requires Valid()
      modifies this, heap
      ensures Valid() && (heap == old(heap) || fresh(heap))
      ensures Contents() == Add(old(Contents()), entry)
    {
      if count == heap.Length {
        Double();
      }
      ghost var before := Contents();
      var index := count;
      count := count + 1;
      heap[index] := entry;
      assert Contents() == before + [entry];
      Bubble(index);
    }

    /** Lines 38-53. */
    method Bubble(start: nat)
      requires Valid() && start < count
      modifies heap
      ensures Contents() == SiftUp(old(Contents()), start)
    {
      var index := start;
      while index > 0
        invariant 0 <= index < count
        invariant SiftUp(Contents(), index) == SiftUp(old(Contents()), start)
      {
        ghost var now := Contents();
        var parent := (index - 1) / 2;
        if heap[parent].timeout < heap[index].timeout {
          break;
        }
        heap[index], heap[parent] := heap[parent], heap[index];
        assert Contents() == Swap(now, index, parent);
        index := parent;
      }
    }

    /** `sas_server_timeout_heapify` */
    method Heapify(index: nat)
      requires Valid() && index <= count
      modifies heap
      ensures Contents() == TimeoutHeap.Heapify(variant, old(Contents()), index)
      decreases count - index
    {
      ghost var s := Contents();
      var left := 2 * index + 1;
      var right := left + 1;
      var lowest := index;
      if count > left && heap[left].timeout < heap[lowest].timeout {
        lowest := left;
      }
      if count > right && heap[right].timeout < heap[lowest].timeout {
        lowest := match variant case AsWritten => left case Intended => right;
      }
      assert lowest == Lowest(variant, s, index);
      if lowest != index {
        heap[lowest], heap[index] := heap[index], heap[lowest];
        assert Contents() == Swap(s, lowest, index);
        Heapify(lowest);
      }
    }

    /** `sas_server_timeout_pop` */
    method TimeoutPop() returns (r: Popped)
      requires Valid()
      modifies this, heap
      ensures Valid() && heap == old(heap)
      ensures old(Contents()) == [] ==> r == Empty && Contents() == []
      ensures old(Contents()) != [] ==> r.Min? && (r.entry, Contents()) == Pop(variant, old(Contents()))
    {
      if count == 0 {
        return Empty;
      }
      ghost var s := Contents();
      var min := heap[0];
      count := count - 1;
      heap[0] := heap[count];
      assert Contents() == Plugged(s);
      Heapify(0);
      return Min(min);
    }
  }
}
