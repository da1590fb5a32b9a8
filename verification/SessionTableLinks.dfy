/** sas-server/src/session.c, lines 80-173 in place: an array of buckets, each the
    head of a chain of sessions linked by `next`. */
module SessionTableLinks {
  import opened AddrHash
  import opened SessionTable

  /** The i-th session of a chain, or null outside it. */
  function NodeAt(chain: seq<Session>, i: int): Session? {
    if 0 <= i < |chain| then chain[i] else null
  }

  /** The nodes of `chain` are linked from `head` to null, in this order. */
  ghost predicate Linked(head: Session?, chain: seq<Session>)
    reads chain
  {
    && head == NodeAt(chain, 0)
    && forall i {:trigger chain[i].next} :: 0 <= i < |chain| ==> chain[i].next == NodeAt(chain, i + 1)
  }

  ghost predicate OnlyAt(chains: seq<seq<Session>>, s: Session?, b: int, k: int) {
    forall c, i :: 0 <= c < |chains| && 0 <= i < |chains[c]| && chains[c][i] == s ==> c == b && i == k
  }

  class Table {
    const comparison: Comparison
    var table: array<Session?>
    var count: int

    /** The sessions of each bucket, in the order of the links. */
    ghost var chains: seq<seq<Session>>

    ghost function Sessions(): set<Session>
      reads `chains
    {
      set b, i | 0 <= b < |chains| && 0 <= i < |chains[b]| :: chains[b][i]
    }

    ghost predicate AllLinked()
      reads this, table, Sessions()
    {
      |chains| == table.Length && forall b :: 0 <= b < |chains| ==> Linked(table[b], chains[b])
    }

    ghost predicate Valid()
      reads this, table, Sessions()
    {
      AllLinked() && TableOk(comparison, chains) && count == Size(chains)
    }

    /** `calloc` with 32 buckets (server.c:28 and 37-39). */
    constructor (comparison: Comparison, capacity: nat)
      requires capacity > 0
      ensures Valid() && chains == Empty(capacity) && this.comparison == comparison
      ensures fresh(table)
    {
      this.comparison := comparison;
      table := new Session?[capacity](_ => null);
      chains := Empty(capacity);
      count := 0;
      new;
      EmptySize(capacity);
    }

    /** What find, get and delete begin with: the bucket of the address, and where
        the walk along its chain stops. */
    method Walk(addr: Addr) returns (index: nat, prev: Session?, curr: Session?)
      requires Valid()
      ensures index < |chains| == table.Length && index == Bucket(addr, |chains|)
      ensures var k := FirstMatch(comparison, chains[index], addr);
              && curr == NodeAt(chains[index], k) && (curr == null <==> k == |chains[index]|)
              && prev == NodeAt(chains[index], k - 1) && OnlyAt(chains, prev, index, k - 1)
      ensures prev != null ==> prev in Sessions()
    {
      index := BucketOf(addr, table.Length);
      prev, curr := WalkTo(comparison, table[index], addr, chains[index]);
      BeforeIsOnce(index, FirstMatch(comparison, chains[index], addr));
    }

    /** `sas_server_session_find` */
    method SessionFind(addr: Addr) returns (session: Session?)
      requires Valid()
      ensures session == NodeAt(ChainOf(chains, addr), FirstMatch(comparison, ChainOf(chains, addr), addr))
    {
      var index, prev;
      index, prev, session := Walk(addr);
    }

    /** `sas_server_session_get` */
    method SessionGet(addr: Addr) returns (session: Session)
      requires Valid()
      modifies this, table, Sessions()
      ensures Valid() && table == old(table)
      ensures var chain := ChainOf(old(chains), addr); var k := FirstMatch(comparison, chain, addr);
              if k < |chain| then session == chain[k] && chains == old(chains)
              else fresh(session) && session.addr == addr && chains == Inserted(old(chains), session)
    {
      var index, prev, found := Walk(addr);
      if found != null {
        return found;
      }
      ghost var before := chains;
      session := Append(index, prev, addr);
      Admitted(comparison, before, session);
    }

    lemma Listed(b: nat, i: nat)
      requires b < |chains| && i < |chains[b]|
      ensures chains[b][i] in Sessions()
    {
    }

    /** The session before the k-th of a chain is one of the table's, and occurs only there. */
    lemma BeforeIsOnce(index: nat, k: nat)
      requires TableOk(comparison, chains) && index < |chains| && k <= |chains[index]|
      ensures var prev := NodeAt(chains[index], k - 1);
              OnlyAt(chains, prev, index, k - 1) && (prev != null ==> prev in Sessions())
    {
      PrevIsOnce(comparison, chains, index, k);
      if k > 0 {
        Listed(index, k - 1);
      }
    }

    /** Lines 114-137: a new session at the end of a chain. */
    method Append(index: nat, prev: Session?, addr: Addr) returns (session: Session)
      requires AllLinked() && index < |chains|
      requires prev == NodeAt(chains[index], |chains[index]| - 1)
      requires OnlyAt(chains, prev, index, |chains[index]| - 1)
      modifies this`chains, this`count, table, prev
      ensures AllLinked() && chains == old(chains)[index := old(chains[index]) + [session]]
      ensures count == old(count) + 1 && fresh(session) && session.addr == addr
    {
      ghost var chain, before := chains[index], chains;
      session := new Session(addr);
      if prev != null {
        prev.next := session;
      } else {
        table[index] := session;
      }
      count := count + 1;
      chains := chains[index := chain + [session]];
      forall b | 0 <= b < |chains|
        ensures Linked(table[b], chains[b])
      {
        if b != index {
          assert chains[b] == before[b];
        }
      }
    }

    /** `sas_server_session_delete` */
    method SessionDelete(session: Session)
      requires Valid()
      modifies this, table, Sessions()
      ensures Valid() && table == old(table)
      ensures chains == Deleted(comparison, old(chains), session.addr)
    {
      ghost var before := chains;
      var index, prev, curr := Walk(session.addr);
      if curr != null {
        ghost var k := FirstMatch(comparison, chains[index], session.addr);
        Unlink(index, prev, curr, k);
        Dismissed(comparison, before, index, k);
      }
    }

    /** Lines 152-156. */
    method Unlink(index: nat, prev: Session?, curr: Session?, ghost k: nat)
      requires AllLinked() && index < |chains| && k < |chains[index]| && curr == chains[index][k]
      requires prev == NodeAt(chains[index], k - 1)
      requires OnlyAt(chains, prev, index, k - 1)
      modifies this`chains, this`count, table, prev
      ensures AllLinked() && chains == Removed(old(chains), index, k) && count == old(count) - 1
    {
      ghost var chain, before := chains[index], chains;
      assert Linked(table[index], chain);
      assert curr.next == NodeAt(chain, k + 1);
      if prev != null {
        prev.next := curr.next;
      } else {
        table[index] := curr.next;
      }
      count := count - 1;
      chains := Removed(chains, index, k);
      ghost var left := Without(chain, k);
      forall i | 0 <= i < |left|
        ensures left[i].next == NodeAt(left, i + 1)
      {
        ghost var m := if i < k then i else i + 1;
        assert left[i] == chain[m] && (i != k - 1 ==> before[index][m] != prev);
        assert i != k - 1 ==> chain[m].next == old(chain[m].next);
        if i + 1 < |left| {
          assert left[i + 1] == chain[if i + 1 < k then i + 1 else i + 2];
        }
      }
      assert Linked(table[index], left);
      forall b | 0 <= b < |chains| && b != index
        ensures Linked(table[b], chains[b])
      {
        assert chains[b] == before[b] && old(Linked(table[b], before[b]));
        assert forall i :: 0 <= i < |before[b]| ==> before[b][i] != prev;
      }
    }
  }

  /** The loop of find, get and delete: where the walk stops, and the session
      before that one. */
  method WalkTo(comparison: Comparison, head: Session?, addr: Addr, ghost chain: seq<Session>)
    returns (prev: Session?, curr: Session?)
    requires Linked(head, chain)
    ensures curr == NodeAt(chain, FirstMatch(comparison, chain, addr))
    ensures prev == NodeAt(chain, FirstMatch(comparison, chain, addr) - 1)
    ensures curr == null <==> FirstMatch(comparison, chain, addr) == |chain|
  {
    ghost var k := 0;
    prev, curr := null, head;
    while curr != null
      invariant k <= |chain| && curr == NodeAt(chain, k) && prev == NodeAt(chain, k - 1)
      invariant forall i :: 0 <= i < k ==> !Matches(comparison, chain[i].addr, addr)
      decreases |chain| - k
    {
      if Matches(comparison, curr.addr, addr) {
        break;
      }
      assert curr == chain[k];
      prev := curr;
      curr := curr.next;
      k := k + 1;
    }
    FirstMatchIs(comparison, chain, addr, k);
  }

  lemma Admitted(v: Comparison, chains: seq<seq<Session>>, s: Session)
    requires TableOk(v, chains) && FirstMatch(v, ChainOf(chains, s.addr), s.addr) == |ChainOf(chains, s.addr)|
    ensures TableOk(v, Inserted(chains, s)) && Size(Inserted(chains, s)) == Size(chains) + 1
  {
    InsertStaysOk(v, chains, s);
    SizeUpdate(chains, Bucket(s.addr, |chains|), ChainOf(chains, s.addr) + [s]);
  }

  lemma Dismissed(v: Comparison, chains: seq<seq<Session>>, b: nat, k: nat)
    requires TableOk(v, chains) && b < |chains| && k < |chains[b]|
    ensures TableOk(v, Removed(chains, b, k)) && Size(Removed(chains, b, k)) == Size(chains) - 1
  {
    RemoveStaysOk(v, chains, b, k);
    SizeUpdate(chains, b, Without(chains[b], k));
  }

  /** The session before the k-th of a chain occurs nowhere else. */
  lemma PrevIsOnce(v: Comparison, chains: seq<seq<Session>>, b: nat, k: nat)
    requires TableOk(v, chains) && b < |chains| && k <= |chains[b]|
    ensures OnlyAt(chains, NodeAt(chains[b], k - 1), b, k - 1)
  {
    forall c, i | 0 <= c < |chains| && 0 <= i < |chains[c]| && k > 0 && chains[c][i] == chains[b][k - 1]
      ensures c == b && i == k - 1
    {
      ChainsAreApart(v, chains, c, i, b, k - 1);
    }
  }
}
