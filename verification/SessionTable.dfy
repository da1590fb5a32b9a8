/** sas-server/src/session.c, lines 57-173: the hash table of sessions.

    `addr_eq` returns the nonzero result of `memcmp` for two different IPs, which
    its callers read as "equal" (line 74). Both forms are modelled: `AsWritten`,
    and `Intended`, which compares IP and port. */
module SessionTable {
  import opened AddrHash

  datatype Comparison = AsWritten | Intended

  /** What the callers of `addr_eq` make of its result. The fast path for equal
      pointers agrees with both forms. */
  predicate Matches(v: Comparison, a: Addr, b: Addr) {
    match v
    case AsWritten => a.ip != b.ip || a.port == b.port
    case Intended => a == b
  }

  class Session {
    const addr: Addr
    var next: Session?

    constructor (addr: Addr)
      ensures this.addr == addr && next == null
    {
      this.addr := addr;
      next := null;
    }
  }

  // ----- Chains as sequences ------------------------------------------------------------

  /** Where a walk along a chain stops; the length of the chain if nowhere. */
  function FirstMatch(v: Comparison, chain: seq<Session>, a: Addr): (k: nat)
    ensures k <= |chain|
    ensures k < |chain| ==> Matches(v, chain[k].addr, a)
    ensures forall i :: 0 <= i < k ==> !Matches(v, chain[i].addr, a)
  {
    if chain == [] || Matches(v, chain[0].addr, a) then 0 else 1 + FirstMatch(v, chain[1..], a)
  }

  lemma FirstMatchIs(v: Comparison, chain: seq<Session>, a: Addr, k: nat)
    requires k <= |chain| && (k < |chain| ==> Matches(v, chain[k].addr, a))
    requires forall i :: 0 <= i < k ==> !Matches(v, chain[i].addr, a)
    ensures FirstMatch(v, chain, a) == k
  {
  }

  predicate InBucket(chain: seq<Session>, b: nat, capacity: nat)
    requires capacity > 0
  {
    forall i :: 0 <= i < |chain| ==> Bucket(chain[i].addr, capacity) == b
  }

  predicate Distinct(chain: seq<Session>) {
    forall i, j :: 0 <= i < j < |chain| ==> chain[i].addr != chain[j].addr
  }

  predicate SingleIp(chain: seq<Session>) {
    forall i, j :: 0 <= i < j < |chain| ==> chain[i].addr.ip == chain[j].addr.ip
  }

  /** A chain of bucket b: addresses hash to b and are unique, so chains share no
      session and none occurs twice; with the comparison as written, a chain also
      holds the sessions of one IP only. */
  predicate ChainOk(v: Comparison, chain: seq<Session>, b: nat, capacity: nat)
    requires capacity > 0
  {
    InBucket(chain, b, capacity) && Distinct(chain) && (v == AsWritten ==> SingleIp(chain))
  }

  ghost predicate TableOk(v: Comparison, chains: seq<seq<Session>>) {
    |chains| > 0 && forall b :: 0 <= b < |chains| ==> ChainOk(v, chains[b], b, |chains|)
  }

  function ChainOf(chains: seq<seq<Session>>, a: Addr): seq<Session>
    requires |chains| > 0
  {
    chains[Bucket(a, |chains|)]
  }

  ghost function Addrs(chains: seq<seq<Session>>): set<Addr> {
    set b, i | 0 <= b < |chains| && 0 <= i < |chains[b]| :: chains[b][i].addr
  }

  // ----- The table as a map ------------------------------------------------------------------

  /** The session of each address that has one. */
  ghost function AsMap(chains: seq<seq<Session>>): map<Addr, Session>
    requires |chains| > 0
  {
    map a | a in Addrs(chains) && FirstMatch(Intended, ChainOf(chains, a), a) < |ChainOf(chains, a)| ::
      ChainOf(chains, a)[FirstMatch(Intended, ChainOf(chains, a), a)]
  }

  lemma InMap(v: Comparison, chains: seq<seq<Session>>, a: Addr)
    requires TableOk(v, chains)
    ensures var chain := ChainOf(chains, a); var k := FirstMatch(Intended, chain, a);
            && (a in AsMap(chains) <==> k < |chain|)
            && (k < |chain| ==> AsMap(chains)[a] == chain[k] && chain[k].addr == a)
  {
    var chain := ChainOf(chains, a);
    var k := FirstMatch(Intended, chain, a);
    if k < |chain| {
      assert chains[Bucket(a, |chains|)][k].addr == a;
    }
  }

  /** A session in the table is the one that the map has for its address. */
  lemma ListedIsMapped(v: Comparison, chains: seq<seq<Session>>, b: nat, k: nat)
    requires TableOk(v, chains) && b < |chains| && k < |chains[b]|
    ensures var s := chains[b][k]; s.addr in AsMap(chains) && AsMap(chains)[s.addr] == s
    ensures FirstMatch(Intended, chains[b], chains[b][k].addr) == k
  {
    var s := chains[b][k];
    assert ChainOk(v, chains[b], b, |chains|);
    FirstMatchIs(Intended, chains[b], s.addr, k);
    InMap(v, chains, s.addr);
  }

  // ----- Insertion and removal ----------------------------------------------------------------

  function Inserted(chains: seq<seq<Session>>, s: Session): seq<seq<Session>>
    requires |chains| > 0
  {
    chains[Bucket(s.addr, |chains|) := ChainOf(chains, s.addr) + [s]]
  }

  lemma FirstMatchAppend(chain: seq<Session>, s: Session, a: Addr)
    ensures FirstMatch(Intended, chain + [s], a) ==
            if FirstMatch(Intended, chain, a) < |chain| then FirstMatch(Intended, chain, a)
            else if s.addr == a then |chain| else |chain| + 1
  {
    var k := FirstMatch(Intended, chain, a);
    forall i | 0 <= i < |chain|
      ensures (chain + [s])[i] == chain[i]
    {
    }
    FirstMatchIs(Intended, chain + [s], a, if k < |chain| then k else if s.addr == a then |chain| else |chain| + 1);
  }

  lemma ChainStaysOk(v: Comparison, chain: seq<Session>, s: Session, b: nat, capacity: nat)
    requires capacity > 0 && ChainOk(v, chain, b, capacity)
    requires Bucket(s.addr, capacity) == b && FirstMatch(v, chain, s.addr) == |chain|
    ensures ChainOk(v, chain + [s], b, capacity)
  {
    var more := chain + [s];
    forall i, j | 0 <= i < j < |more|
      ensures more[i].addr != more[j].addr && (v == AsWritten ==> more[i].addr.ip == more[j].addr.ip)
    {
      assert more[i] == chain[i];
      if j < |chain| {
        assert more[j] == chain[j];
      } else {
        assert !Matches(v, chain[i].addr, s.addr);
      }
    }
  }

  /** Appending a session that no walk finds adds it to the map and nothing else. */
  lemma InsertRefines(v: Comparison, chains: seq<seq<Session>>, s: Session)
    requires TableOk(v, chains) && FirstMatch(v, ChainOf(chains, s.addr), s.addr) == |ChainOf(chains, s.addr)|
    ensures TableOk(v, Inserted(chains, s))
    ensures s.addr !in AsMap(chains) && AsMap(Inserted(chains, s)) == AsMap(chains)[s.addr := s]
  {
    var after := Inserted(chains, s);
    InsertStaysOk(v, chains, s);
    NoMatchMeansAbsent(v, chains, s.addr);
    forall a
      ensures a in AsMap(after) <==> a == s.addr || a in AsMap(chains)
      ensures a in AsMap(after) ==> AsMap(after)[a] == if a == s.addr then s else AsMap(chains)[a]
    {
      InsertAt(v, chains, s, a);
    }
  }

  lemma InsertStaysOk(v: Comparison, chains: seq<seq<Session>>, s: Session)
    requires TableOk(v, chains) && FirstMatch(v, ChainOf(chains, s.addr), s.addr) == |ChainOf(chains, s.addr)|
    ensures TableOk(v, Inserted(chains, s))
  {
    var n, b, after := |chains|, Bucket(s.addr, |chains|), Inserted(chains, s);
    ChainStaysOk(v, chains[b], s, b, n);
    forall c | 0 <= c < |after|
      ensures ChainOk(v, after[c], c, n)
    {
      assert c != b ==> after[c] == chains[c];
    }
  }

  lemma InsertAt(v: Comparison, chains: seq<seq<Session>>, s: Session, a: Addr)
    requires TableOk(v, chains) && TableOk(v, Inserted(chains, s)) && s.addr !in AsMap(chains)
    ensures var after := AsMap(Inserted(chains, s));
            && (a in after <==> a == s.addr || a in AsMap(chains))
            && (a in after ==> after[a] == if a == s.addr then s else AsMap(chains)[a])
  {
    var chain := ChainOf(chains, a);
    InMap(v, chains, a);
    InMap(v, Inserted(chains, s), a);
    if Bucket(a, |chains|) == Bucket(s.addr, |chains|) {
      FirstMatchAppend(chain, s, a);
      assert ChainOf(Inserted(chains, s), a) == chain + [s];
    }
  }

  lemma NoMatchMeansAbsent(v: Comparison, chains: seq<seq<Session>>, a: Addr)
    requires TableOk(v, chains) && FirstMatch(v, ChainOf(chains, a), a) == |ChainOf(chains, a)|
    ensures a !in AsMap(chains)
  {
    InMap(v, chains, a);
  }

  function Without(chain: seq<Session>, k: nat): seq<Session>
    requires k < |chain|
  {
    chain[..k] + chain[k + 1..]
  }

  function Removed(chains: seq<seq<Session>>, b: nat, k: nat): seq<seq<Session>>
    requires b < |chains| && k < |chains[b]|
  {
    chains[b := Without(chains[b], k)]
  }

  lemma WithoutStaysOk(v: Comparison, chain: seq<Session>, k: nat, b: nat, capacity: nat)
    requires capacity > 0 && ChainOk(v, chain, b, capacity) && k < |chain|
    ensures ChainOk(v, Without(chain, k), b, capacity)
    ensures forall i :: 0 <= i < |chain| - 1 ==> Without(chain, k)[i] == chain[if i < k then i else i + 1]
  {
  }

  lemma FirstMatchWithout(chain: seq<Session>, k: nat, a: Addr)
    requires k < |chain| && Distinct(chain)
    ensures var left, j := Without(chain, k), FirstMatch(Intended, chain, a);
            FirstMatch(Intended, left, a) ==
              if a == chain[k].addr || j == |chain| then |left| else if j < k then j else j - 1
  {
    var left, j := Without(chain, k), FirstMatch(Intended, chain, a);
    forall i | 0 <= i < |left|
      ensures left[i] == chain[if i < k then i else i + 1]
    {
    }
    if a == chain[k].addr {
      FirstMatchIs(Intended, left, a, |left|);
    } else {
      FirstMatchIs(Intended, left, a, if j == |chain| then |left| else if j < k then j else j - 1);
    }
  }

  /** Unlinking a session removes it from the map and nothing else. */
  lemma RemoveRefines(v: Comparison, chains: seq<seq<Session>>, b: nat, k: nat)
    requires TableOk(v, chains) && b < |chains| && k < |chains[b]|
    ensures TableOk(v, Removed(chains, b, k))
    ensures AsMap(Removed(chains, b, k)) == AsMap(chains) - {chains[b][k].addr}
  {
    RemoveStaysOk(v, chains, b, k);
    var after, addr := Removed(chains, b, k), chains[b][k].addr;
    forall a
      ensures a in AsMap(after) <==> a != addr && a in AsMap(chains)
      ensures a in AsMap(after) ==> AsMap(after)[a] == AsMap(chains)[a]
    {
      RemoveAt(v, chains, b, k, a);
    }
    MapWithout(AsMap(after), AsMap(chains), addr);
  }

  lemma MapWithout<K, V>(left: map<K, V>, m: map<K, V>, k: K)
    requires forall a :: a in left <==> a != k && a in m
    requires forall a :: a in left ==> left[a] == m[a]
    ensures left == m - {k}
  {
  }

  lemma RemoveStaysOk(v: Comparison, chains: seq<seq<Session>>, b: nat, k: nat)
    requires TableOk(v, chains) && b < |chains| && k < |chains[b]|
    ensures TableOk(v, Removed(chains, b, k))
  {
    var after := Removed(chains, b, k);
    WithoutStaysOk(v, chains[b], k, b, |chains|);
    forall c | 0 <= c < |after|
      ensures ChainOk(v, after[c], c, |chains|)
    {
      assert c != b ==> after[c] == chains[c];
    }
  }

  lemma RemoveAt(v: Comparison, chains: seq<seq<Session>>, b: nat, k: nat, a: Addr)
    requires TableOk(v, chains) && b < |chains| && k < |chains[b]| && TableOk(v, Removed(chains, b, k))
    ensures var after := AsMap(Removed(chains, b, k));
            && (a in after <==> a != chains[b][k].addr && a in AsMap(chains))
            && (a in after ==> after[a] == AsMap(chains)[a])
  {
    InMap(v, chains, a);
    InMap(v, Removed(chains, b, k), a);
    assert ChainOk(v, chains[b], b, |chains|) && Bucket(chains[b][k].addr, |chains|) == b;
    if Bucket(a, |chains|) == b {
      FirstMatchWithout(chains[b], k, a);
      WithoutStaysOk(v, chains[b], k, b, |chains|);
    }
  }

  /** The chains after a session with this address was to be deleted: without the
      session that the walk finds, if any. */
  function Deleted(v: Comparison, chains: seq<seq<Session>>, a: Addr): seq<seq<Session>>
    requires |chains| > 0
  {
    var k := FirstMatch(v, ChainOf(chains, a), a);
    if k < |ChainOf(chains, a)| then Removed(chains, Bucket(a, |chains|), k) else chains
  }

  /** Deleting removes from the map what the walk finds, and nothing else. */
  lemma DeleteRefines(v: Comparison, chains: seq<seq<Session>>, a: Addr)
    requires TableOk(v, chains)
    ensures var chain, after := ChainOf(chains, a), Deleted(v, chains, a); var k := FirstMatch(v, chain, a);
            && TableOk(v, after)
            && (k == |chain| ==> AsMap(after) == AsMap(chains))
            && (k < |chain| ==>
                  && chain[k].addr in AsMap(chains) && AsMap(chains)[chain[k].addr] == chain[k]
                  && AsMap(after) == AsMap(chains) - {chain[k].addr})
  {
    var chain := ChainOf(chains, a);
    var k := FirstMatch(v, chain, a);
    if k < |chain| {
      ListedIsMapped(v, chains, Bucket(a, |chains|), k);
      RemoveRefines(v, chains, Bucket(a, |chains|), k);
    }
  }

  /** For a session of the table that is the session itself, in both forms. */
  lemma DeleteRemovesItself(v: Comparison, chains: seq<seq<Session>>, b: nat, k: nat)
    requires TableOk(v, chains) && b < |chains| && k < |chains[b]|
    ensures Deleted(v, chains, chains[b][k].addr) == Removed(chains, b, k)
    ensures AsMap(Removed(chains, b, k)) == AsMap(chains) - {chains[b][k].addr}
  {
    WalkFindsListed(v, chains, b, k);
    DeleteRefines(v, chains, chains[b][k].addr);
  }

  // ----- Walks that stay as they are ------------------------------------------------------------

  /** A new session hides no other: whatever a walk found before, it finds after, with
      either comparison; new sessions come last. */
  lemma InsertKeepsFinds(v: Comparison, chains: seq<seq<Session>>, s: Session, a: Addr)
    requires |chains| > 0 && FirstMatch(v, ChainOf(chains, a), a) < |ChainOf(chains, a)|
    ensures var chain, k := ChainOf(Inserted(chains, s), a), FirstMatch(v, ChainOf(chains, a), a);
            FirstMatch(v, chain, a) == k && k < |chain| && chain[k] == ChainOf(chains, a)[k]
  {
    var before, after, k := ChainOf(chains, a), ChainOf(Inserted(chains, s), a), FirstMatch(v, ChainOf(chains, a), a);
    forall i | 0 <= i < |before|
      ensures i < |after| && after[i] == before[i]
    {
    }
    FirstMatchIs(v, after, a, k);
  }

  /** Nor does unlinking one: a walk that found another session still finds it. */
  lemma RemoveKeepsFinds(v: Comparison, chains: seq<seq<Session>>, b: nat, k: nat, a: Addr)
    requires b < |chains| && k < |chains[b]|
    requires var chain := ChainOf(chains, a); var j := FirstMatch(v, chain, a);
             j < |chain| && (Bucket(a, |chains|) == b ==> j != k)
    ensures var chain, after := ChainOf(chains, a), ChainOf(Removed(chains, b, k), a);
            && FirstMatch(v, after, a) < |after|
            && after[FirstMatch(v, after, a)] == chain[FirstMatch(v, chain, a)]
  {
    var chain, after := ChainOf(chains, a), ChainOf(Removed(chains, b, k), a);
    var j := FirstMatch(v, chain, a);
    if Bucket(a, |chains|) == b {
      forall i | 0 <= i < |after|
        ensures after[i] == chain[if i < k then i else i + 1]
      {
      }
      FirstMatchIs(v, after, a, if j < k then j else j - 1);
    }
  }

  // ----- The number of sessions ------------------------------------------------------------------

  /** How many sessions the chains hold. */
  ghost function Size(chains: seq<seq<Session>>): nat {
    if chains == [] then 0 else Size(chains[..|chains| - 1]) + |chains[|chains| - 1]|
  }

  lemma {:induction false} SizeUpdate(chains: seq<seq<Session>>, b: nat, chain: seq<Session>)
    requires b < |chains|
    ensures Size(chains[b := chain]) == Size(chains) - |chains[b]| + |chain|
  {
    var n := |chains| - 1;
    if b == n {
      assert chains[b := chain][..n] == chains[..n];
    } else {
      assert chains[b := chain][..n] == chains[..n][b := chain];
      SizeUpdate(chains[..n], b, chain);
    }
  }

  lemma {:induction false} EmptySize(capacity: nat)
    ensures Size(Empty(capacity)) == 0
  {
    if capacity > 0 {
      assert Empty(capacity)[..capacity - 1] == Empty(capacity - 1);
      EmptySize(capacity - 1);
    }
  }

  ghost function AddrsOf(chain: seq<Session>): set<Addr> {
    set i | 0 <= i < |chain| :: chain[i].addr
  }

  lemma {:induction false} DistinctAddrs(chain: seq<Session>)
    requires Distinct(chain)
    ensures |AddrsOf(chain)| == |chain|
  {
    if chain != [] {
      var n := |chain| - 1;
      DistinctAddrs(chain[..n]);
      assert AddrsOf(chain) == AddrsOf(chain[..n]) + {chain[n].addr};
    }
  }

  lemma {:induction false} AddrsCounted(v: Comparison, chains: seq<seq<Session>>, n: nat)
    requires TableOk(v, chains) && n <= |chains|
    ensures |Addrs(chains[..n])| == Size(chains[..n])
  {
    if n > 0 {
      AddrsCounted(v, chains, n - 1);
      assert ChainOk(v, chains[n - 1], n - 1, |chains|);
      BucketsApart(v, chains, n - 1);
      OneChainMore(chains[..n - 1], chains[n - 1]);
      assert chains[..n] == chains[..n - 1] + [chains[n - 1]];
    }
  }

  lemma OneChainMore(front: seq<seq<Session>>, last: seq<Session>)
    requires |Addrs(front)| == Size(front) && Distinct(last) && Addrs(front) !! AddrsOf(last)
    ensures |Addrs(front + [last])| == Size(front + [last])
  {
    DistinctAddrs(last);
    AddrsSnoc(front, last);
    assert (front + [last])[..|front|] == front;
  }

  lemma AddrsSnoc(front: seq<seq<Session>>, last: seq<Session>)
    ensures Addrs(front + [last]) == Addrs(front) + AddrsOf(last)
  {
    var both := front + [last];
    forall a | a in Addrs(front) + AddrsOf(last)
      ensures a in Addrs(both)
    {
      if a in Addrs(front) {
        var b, i :| 0 <= b < |front| && 0 <= i < |front[b]| && front[b][i].addr == a;
        assert both[b][i].addr == a;
      } else {
        var i :| 0 <= i < |last| && last[i].addr == a;
        assert both[|front|][i].addr == a;
      }
    }
  }

  lemma BucketsApart(v: Comparison, chains: seq<seq<Session>>, n: nat)
    requires TableOk(v, chains) && n < |chains|
    ensures Addrs(chains[..n]) !! AddrsOf(chains[n])
  {
    forall b, i, j | 0 <= b < n && 0 <= i < |chains[b]| && 0 <= j < |chains[n]|
      ensures chains[b][i].addr != chains[n][j].addr
    {
      assert ChainOk(v, chains[b], b, |chains|) && ChainOk(v, chains[n], n, |chains|);
    }
  }

  /** That is the size of the map. */
  lemma SizeIsMapSize(v: Comparison, chains: seq<seq<Session>>)
    requires TableOk(v, chains)
    ensures |AsMap(chains)| == Size(chains)
  {
    AddrsCounted(v, chains, |chains|);
    assert chains[..|chains|] == chains;
    forall a | a in Addrs(chains)
      ensures a in AsMap(chains)
    {
      var b, i :| 0 <= b < |chains| && 0 <= i < |chains[b]| && chains[b][i].addr == a;
      ListedIsMapped(v, chains, b, i);
    }
    assert AsMap(chains).Keys == Addrs(chains);
    assert |AsMap(chains).Keys| == |AsMap(chains)|;
  }

  // ----- The comparison as written -------------------------------------------------------------

  /** Nobody else's sessions are in the bucket of this address: a caller can see it
      at the head of the chain. */
  predicate BucketFreeFor(chains: seq<seq<Session>>, a: Addr)
    requires |chains| > 0
  {
    var chain := ChainOf(chains, a);
    chain == [] || chain[0].addr.ip == a.ip
  }

  /** With the comparison as written, a walk stops where it should if and only if
      the bucket is free for the IP; otherwise it takes the first session of the
      bucket, which belongs to another IP. */
  lemma WrittenWalkExactly(chains: seq<seq<Session>>, a: Addr)
    requires TableOk(AsWritten, chains)
    ensures var chain := ChainOf(chains, a);
            && (BucketFreeFor(chains, a) <==>
                  FirstMatch(AsWritten, chain, a) == FirstMatch(Intended, chain, a))
            && (!BucketFreeFor(chains, a) ==>
                  FirstMatch(AsWritten, chain, a) == 0 && chain[0].addr.ip != a.ip)
  {
    var chain := ChainOf(chains, a);
    assert ChainOk(AsWritten, chain, Bucket(a, |chains|), |chains|);
    if BucketFreeFor(chains, a) {
      var k := FirstMatch(Intended, chain, a);
      forall i | 0 <= i < |chain|
        ensures Matches(AsWritten, chain[i].addr, a) == Matches(Intended, chain[i].addr, a)
      {
        assert chain[i].addr.ip == chain[0].addr.ip;
      }
      FirstMatchIs(AsWritten, chain, a, k);
    } else {
      FirstMatchIs(AsWritten, chain, a, 0);
    }
  }

  /** A walk looks the address up in the map, always with the intended comparison,
      and exactly in a bucket free for the IP with the one as written. */
  lemma WalkLooksUpExactly(v: Comparison, chains: seq<seq<Session>>, a: Addr)
    requires TableOk(v, chains)
    ensures var chain := ChainOf(chains, a); var k := FirstMatch(v, chain, a);
            (if a in AsMap(chains) then k < |chain| && chain[k] == AsMap(chains)[a] else k == |chain|)
              <==> v == Intended || BucketFreeFor(chains, a)
  {
    InMap(v, chains, a);
    if v == AsWritten {
      WrittenWalkExactly(chains, a);
    }
  }

  /** After a session has been added, a second walk for its address finds it. */
  lemma GetIsIdempotent(v: Comparison, chains: seq<seq<Session>>, s: Session)
    requires TableOk(v, chains) && FirstMatch(v, ChainOf(chains, s.addr), s.addr) == |ChainOf(chains, s.addr)|
    ensures var chain := ChainOf(Inserted(chains, s), s.addr); var k := FirstMatch(v, chain, s.addr);
            k < |chain| && chain[k] == s
  {
    InsertStaysOk(v, chains, s);
    WalkFindsListed(v, Inserted(chains, s), Bucket(s.addr, |chains|), |ChainOf(chains, s.addr)|);
  }

  /** With 32 buckets and the comparison as written, a client's address finds the
      session of another, whose IP has its first two bytes the other way round. */
  lemma WrittenFindsAStranger(s: Session, a: Addr, x: Char, y: Char, rest: seq<Char>)
    requires x != y && s.addr.ip == [x, y] + rest && a.ip == [y, x] + rest && s.addr.port == a.port
    ensures var chains := Inserted(Empty(32), s);
            TableOk(AsWritten, chains) && a !in AsMap(chains) && ChainOf(chains, a) == [s]
              && FirstMatch(AsWritten, ChainOf(chains, a), a) == 0
  {
    SwappedBytesCollide(x, y, rest, a.port);
    assert a.ip[0] != s.addr.ip[0];
    InsertRefines(AsWritten, Empty(32), s);
    OnlyAddr(s, a);
  }

  function Empty(capacity: nat): seq<seq<Session>> {
    seq(capacity, _ => [])
  }

  lemma OnlyAddr(s: Session, a: Addr)
    requires a != s.addr
    ensures a !in AsMap(Inserted(Empty(32), s))
  {
    assert Addrs(Empty(32)) == {};
    InsertRefines(Intended, Empty(32), s);
  }

  /** For a session in the table the walk stops at that session, in both forms. */
  lemma WalkFindsListed(v: Comparison, chains: seq<seq<Session>>, b: nat, k: nat)
    requires TableOk(v, chains) && b < |chains| && k < |chains[b]|
    ensures Bucket(chains[b][k].addr, |chains|) == b && FirstMatch(v, chains[b], chains[b][k].addr) == k
  {
    var s := chains[b][k];
    assert ChainOk(v, chains[b], b, |chains|);
    forall i | 0 <= i < k
      ensures !Matches(v, chains[b][i].addr, s.addr)
    {
    }
    FirstMatchIs(v, chains[b], s.addr, k);
  }

  /** Chains share no session, and none contains one twice. */
  lemma ChainsAreApart(v: Comparison, chains: seq<seq<Session>>, b: nat, i: nat, c: nat, j: nat)
    requires TableOk(v, chains) && b < |chains| && i < |chains[b]| && c < |chains| && j < |chains[c]|
    ensures chains[b][i] == chains[c][j] ==> b == c && i == j
  {
    assert ChainOk(v, chains[b], b, |chains|) && ChainOk(v, chains[c], c, |chains|);
  }
}
