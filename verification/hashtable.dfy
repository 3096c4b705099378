/**
 The open-addressing hash table: linear probing, tombstones that are never
 reused, and growth by re-insertion into a larger table.
 */
module HashTables {

  datatype Slot<K, V> = Empty | Tombstone | Full(key: K, value: V)

  // ---------------------------------------------------------------------
  // Probing.

  /** The i-th slot probed from home h. */
  function Probe(h: nat, i: nat, n: nat): (s: nat)
    requires h < n && i < n
    ensures s < n
  {
    if h + i < n then h + i else h + i - n
  }

  /** The number of steps from home h to slot s. */
  function Dist(h: nat, s: nat, n: nat): (i: nat)
    requires h < n && s < n
    ensures i < n && Probe(h, i, n) == s
  {
    if s >= h then s - h else s + n - h
  }

  lemma DistProbe(h: nat, i: nat, n: nat)
    requires h < n && i < n
    ensures Dist(h, Probe(h, i, n), n) == i
  {
  }

  /** The step the source takes: (s + 1) % size. */
  lemma NextProbe(h: nat, i: nat, n: nat)
    requires h < n && i < n
    ensures (Probe(h, i, n) + 1) % n == if i + 1 < n then Probe(h, i + 1, n) else h
  {
    var s := Probe(h, i, n) + 1;
    if s < n {
      assert s % n == s;
    } else {
      assert s == n;
      assert s % n == 0;
    }
  }

  function Home<K>(hash: K -> nat, k: K, n: nat): (h: nat)
    requires n > 0
    ensures h < n
  {
    hash(k) % n
  }

  /** No slot before step i is Empty. */
  ghost predicate Run<K, V>(d: seq<Slot<K, V>>, h: nat, i: nat)
    requires h < |d| && i <= |d|
  {
    forall j :: 0 <= j < i ==> d[Probe(h, j, |d|)] != Empty
  }

  predicate Holds<K(==), V>(d: seq<Slot<K, V>>, s: nat, k: K)
    requires s < |d|
  {
    d[s].Full? && d[s].key == k
  }

  /** Every entry is reached from its home without meeting an Empty slot. */
  ghost predicate Placed<K, V>(d: seq<Slot<K, V>>, hash: K -> nat)
    requires |d| > 0
  {
    forall s {:trigger d[s]} :: 0 <= s < |d| && d[s].Full? ==>
      Run(d, Home(hash, d[s].key, |d|), Dist(Home(hash, d[s].key, |d|), s, |d|))
  }

  /** Slot s is the first of the probes for k that holds it. */
  ghost predicate FirstHolding<K, V>(d: seq<Slot<K, V>>, hash: K -> nat, k: K, s: nat)
    requires |d| > 0
  {
    && s < |d| && Holds(d, s, k)
    && forall j :: 0 <= j < Dist(Home(hash, k, |d|), s, |d|) ==> !Holds(d, Probe(Home(hash, k, |d|), j, |d|), k)
  }

  /** Slot s is the first of the probes for k that is Empty. */
  ghost predicate FirstEmpty<K, V>(d: seq<Slot<K, V>>, hash: K -> nat, k: K, s: nat)
    requires |d| > 0
  {
    s < |d| && d[s].Empty? && Run(d, Home(hash, k, |d|), Dist(Home(hash, k, |d|), s, |d|))
  }

  // ---------------------------------------------------------------------
  // The entries of a table: a pair may occur twice, and so may a key.

  ghost function EntryOf<K, V>(x: Slot<K, V>): multiset<(K, V)>
  {
    if x.Full? then multiset{(x.key, x.value)} else multiset{}
  }

  ghost function Entries<K, V>(d: seq<Slot<K, V>>): multiset<(K, V)>
  {
    if d == [] then multiset{} else Entries(d[..|d| - 1]) + EntryOf(d[|d| - 1])
  }

  ghost predicate HasKey<K(!new), V(!new)>(c: multiset<(K, V)>, k: K) { exists v :: (k, v) in c }

  /** No key has two entries: the pairs form a finite map. */
  ghost predicate Once<K(!new), V(!new)>(c: multiset<(K, V)>)
  {
    forall k, v, w :: (k, v) in c && (k, w) in c ==> v == w && c[(k, v)] == 1
  }

  lemma Regroup<E>(a: multiset<E>, b: multiset<E>, l: multiset<E>, x: multiset<E>, y: multiset<E>)
    requires a + x == b + y
    ensures (a + l) + x == (b + l) + y
  {
    assert (a + l) + x == (a + x) + l;
    assert (b + l) + y == (b + y) + l;
  }

  lemma {:induction false} EntriesUpdate<K, V>(d: seq<Slot<K, V>>, i: nat, x: Slot<K, V>)
    requires i < |d|
    ensures Entries(d[i := x]) + EntryOf(d[i]) == Entries(d) + EntryOf(x)
    decreases |d|
  {
    hide EntryOf;
    var n := |d| - 1;
    var d' := d[i := x];
    assert Entries(d') == Entries(d'[..n]) + EntryOf(d'[n]);
    if i < n {
      EntriesUpdate(d[..n], i, x);
      assert d'[..n] == d[..n][i := x];
      Regroup(Entries(d'[..n]), Entries(d[..n]), EntryOf(d[n]), EntryOf(d[i]), EntryOf(x));
    } else {
      assert d'[..n] == d[..n];
      Regroup(Entries(d[..n]), Entries(d[..n]), multiset{}, EntryOf(x) + EntryOf(d[n]), EntryOf(d[n]) + EntryOf(x));
    }
  }

  lemma {:induction false} EntryAt<K, V>(d: seq<Slot<K, V>>, s: nat)
    requires s < |d| && d[s].Full?
    ensures (d[s].key, d[s].value) in Entries(d)
    decreases |d|
  {
    var n := |d| - 1;
    if s < n {
      EntryAt(d[..n], s);
    }
  }

  lemma {:induction false} SlotOf<K, V>(d: seq<Slot<K, V>>, e: (K, V)) returns (s: nat)
    requires e in Entries(d)
    ensures s < |d| && d[s] == Full(e.0, e.1)
    decreases |d|
  {
    var n := |d| - 1;
    if e in EntryOf(d[n]) {
      s := n;
    } else {
      s := SlotOf(d[..n], e);
    }
  }

  /** A key has an entry exactly if some slot holds it. */
  lemma HasKeyIs<K(!new), V(!new)>(d: seq<Slot<K, V>>, k: K)
    ensures HasKey(Entries(d), k) <==> exists s :: 0 <= s < |d| && Holds(d, s, k)
  {
    hide Entries;
    if HasKey(Entries(d), k) {
      var v :| (k, v) in Entries(d);
      var s := SlotOf(d, (k, v));
      assert Holds(d, s, k);
    }
    if s :| 0 <= s < |d| && Holds(d, s, k) {
      EntryAt(d, s);
    }
  }

  /** A new pair keeps the entries a map exactly if its key is new. */
  lemma OnceAdded<K(!new), V(!new)>(c: multiset<(K, V)>, k: K, v: V)
    ensures Once(c + multiset{(k, v)}) <==> Once(c) && !HasKey(c, k)
  {
    var c' := c + multiset{(k, v)};
    if Once(c') {
      assert (k, v) in c' && c'[(k, v)] == c[(k, v)] + 1;
      forall w
        ensures (k, w) !in c
      {
        assert c'[(k, w)] >= c[(k, w)];
      }
      forall l, a, b | (l, a) in c && (l, b) in c
        ensures a == b && c[(l, a)] == 1
      {
        assert (l, a) in c' && (l, b) in c';
      }
    }
  }

  lemma OnceRemoved<K(!new), V(!new)>(c: multiset<(K, V)>, c': multiset<(K, V)>, e: (K, V))
    requires Once(c) && c' + multiset{e} == c
    ensures Once(c') && !HasKey(c', e.0)
  {
    forall l, a, b | (l, a) in c' && (l, b) in c'
      ensures a == b && c'[(l, a)] == 1
    {
      assert (l, a) in c && (l, b) in c && c'[(l, a)] <= c[(l, a)];
    }
    assert (e.0, e.1) in c && c[e] == c'[e] + 1;
    forall v
      ensures (e.0, v) !in c'
    {
      assert c[(e.0, v)] >= c'[(e.0, v)];
    }
  }

  // ---------------------------------------------------------------------
  // Counting.

  function CountEmpty<K, V>(d: seq<Slot<K, V>>): nat
  {
    if d == [] then 0 else CountEmpty(d[..|d| - 1]) + if d[|d| - 1].Empty? then 1 else 0
  }

  function CountFull<K, V>(d: seq<Slot<K, V>>): nat
  {
    if d == [] then 0 else CountFull(d[..|d| - 1]) + if d[|d| - 1].Full? then 1 else 0
  }

  lemma {:induction false} CountUpdate<K, V>(d: seq<Slot<K, V>>, i: nat, x: Slot<K, V>)
    requires i < |d|
    ensures CountEmpty(d[i := x]) == CountEmpty(d) - (if d[i].Empty? then 1 else 0) + if x.Empty? then 1 else 0
    ensures CountFull(d[i := x]) == CountFull(d) - (if d[i].Full? then 1 else 0) + if x.Full? then 1 else 0
    decreases |d|
  {
    var n := |d| - 1;
    if i < n {
      CountUpdate(d[..n], i, x);
      assert d[i := x][..n] == d[..n][i := x];
    } else {
      assert d[i := x][..n] == d[..n];
    }
  }

  lemma {:induction false} CountBounds<K, V>(d: seq<Slot<K, V>>)
    ensures CountEmpty(d) + CountFull(d) <= |d|
    ensures (forall i :: 0 <= i < |d| ==> d[i] != Tombstone) ==> CountEmpty(d) + CountFull(d) == |d|
    decreases |d|
  {
    if d != [] {
      CountBounds(d[..|d| - 1]);
    }
  }

  /** Two Empty slots: one of them is not s. */
  lemma {:induction false} AnotherEmpty<K, V>(d: seq<Slot<K, V>>, s: int)
    requires CountEmpty(d) >= if 0 <= s < |d| && d[s].Empty? then 2 else 1
    ensures exists i :: 0 <= i < |d| && i != s && d[i].Empty?
    decreases |d|
  {
    var n := |d| - 1;
    if d[n].Empty? && n != s {
    } else {
      AnotherEmpty(d[..n], s);
      var i :| 0 <= i < n && i != s && d[..n][i].Empty?;
      assert d[i].Empty?;
    }
  }

  lemma {:induction false} AllEmpty<K, V>(d: seq<Slot<K, V>>)
    requires forall i :: 0 <= i < |d| ==> d[i] == Empty
    ensures CountEmpty(d) == |d| && CountFull(d) == 0 && Entries(d) == multiset{}
    decreases |d|
  {
    if d != [] {
      AllEmpty(d[..|d| - 1]);
    }
  }

  // ---------------------------------------------------------------------
  // What a search finds.

  /** A key not met before an Empty slot is nowhere. */
  lemma AbsentAt<K, V>(d: seq<Slot<K, V>>, hash: K -> nat, k: K, i: nat)
    requires |d| > 0 && Placed(d, hash) && i < |d| && d[Probe(Home(hash, k, |d|), i, |d|)] == Empty
    requires forall j :: 0 <= j < i ==> !Holds(d, Probe(Home(hash, k, |d|), j, |d|), k)
    ensures forall s :: 0 <= s < |d| ==> !Holds(d, s, k)
  {
    var h := Home(hash, k, |d|);
    forall s | 0 <= s < |d|
      ensures !Holds(d, s, k)
    {
      var e := Dist(h, s, |d|);
    }
  }

  /** A key met nowhere on the whole round is nowhere. */
  lemma AbsentRound<K, V>(d: seq<Slot<K, V>>, h: nat, k: K)
    requires h < |d| && forall j :: 0 <= j < |d| ==> !Holds(d, Probe(h, j, |d|), k)
    ensures forall s :: 0 <= s < |d| ==> !Holds(d, s, k)
  {
    forall s | 0 <= s < |d|
      ensures !Holds(d, s, k)
    {
      var e := Dist(h, s, |d|);
    }
  }

  // ---------------------------------------------------------------------
  // Updates.

  /** Writing an entry at the first Empty slot of its run keeps every entry reachable. */
  lemma Inserted<K, V>(d: seq<Slot<K, V>>, hash: K -> nat, k: K, v: V, p: nat)
    requires |d| > 0 && Placed(d, hash) && FirstEmpty(d, hash, k, p)
    ensures Placed(d[p := Full(k, v)], hash)
    ensures Entries(d[p := Full(k, v)]) == Entries(d) + multiset{(k, v)}
  {
    hide Entries;
    var n, d' := |d|, d[p := Full(k, v)];
    EntriesUpdate(d, p, Full(k, v));
    forall s | 0 <= s < n && d'[s].Full?
      ensures Run(d', Home(hash, d'[s].key, n), Dist(Home(hash, d'[s].key, n), s, n))
    {
      if s != p {
        assert Run(d, Home(hash, d[s].key, n), Dist(Home(hash, d[s].key, n), s, n));
      }
    }
  }

  /** and where the key was found before it is found still: a second put does not replace. */
  lemma StillFirst<K, V>(d: seq<Slot<K, V>>, hash: K -> nat, k: K, v: V, p: nat, l: K, s: nat)
    requires |d| > 0 && Placed(d, hash) && FirstEmpty(d, hash, k, p) && FirstHolding(d, hash, l, s)
    ensures FirstHolding(d[p := Full(k, v)], hash, l, s)
  {
    var n, h, d' := |d|, Home(hash, l, |d|), d[p := Full(k, v)];
    assert Run(d, h, Dist(h, s, n));
    forall j | 0 <= j < Dist(h, s, n)
      ensures !Holds(d', Probe(h, j, n), l)
    {
      assert !Holds(d, Probe(h, j, n), l);
    }
  }

  /** Turning an entry into a tombstone removes it and keeps the others reachable. */
  lemma Removed<K, V>(d: seq<Slot<K, V>>, hash: K -> nat, k: K, s: nat)
    requires |d| > 0 && Placed(d, hash) && s < |d| && Holds(d, s, k)
    ensures Placed(d[s := Tombstone], hash)
    ensures Entries(d[s := Tombstone]) + multiset{(k, d[s].value)} == Entries(d)
  {
    hide Entries;
    var n, d' := |d|, d[s := Tombstone];
    EntriesUpdate(d, s, Tombstone);
    forall t | 0 <= t < n && d'[t].Full?
      ensures Run(d', Home(hash, d'[t].key, n), Dist(Home(hash, d'[t].key, n), t, n))
    {
      assert Run(d, Home(hash, d[t].key, n), Dist(Home(hash, d[t].key, n), t, n));
    }
  }

  // ---------------------------------------------------------------------
  // Copying the entries of one table into another.

  /** Entry p comes before entry q among the probes for their key. */
  ghost predicate Before<K, V>(d: seq<Slot<K, V>>, hash: K -> nat, k: K, p: nat, q: nat)
    requires p < |d| && q < |d|
  {
    Dist(Home(hash, k, |d|), p, |d|) < Dist(Home(hash, k, |d|), q, |d|)
  }

  /** Table t holds the entries in the first n slots of d and nothing else; origin gives the slot each comes from. */
  ghost predicate Copies<K, V>(d: seq<Slot<K, V>>, t: seq<Slot<K, V>>, origin: map<nat, nat>, n: nat)
    requires n <= |d|
  {
    && (forall p :: p in origin ==> p < |t| && origin[p] < n && t[p].Full? && t[p] == d[origin[p]])
    && (forall p: nat :: p < |t| && t[p].Full? ==> p in origin)
    && (forall i: nat :: i < n && d[i].Full? ==> exists p :: p in origin && origin[p] == i)
  }

  /** The entries of one key are probed in the order of the slots they come from. */
  ghost predicate InSlotOrder<K, V>(t: seq<Slot<K, V>>, hash: K -> nat, origin: map<nat, nat>)
  {
    forall p, q :: p in origin && q in origin && p < |t| && q < |t| && t[p].Full? && Holds(t, q, t[p].key) ==>
      (Before(t, hash, t[p].key, p, q) <==> origin[p] < origin[q])
  }

  ghost predicate Copied<K, V>(d: seq<Slot<K, V>>, t: seq<Slot<K, V>>, hash: K -> nat, origin: map<nat, nat>, n: nat)
    requires n <= |d|
  {
    Copies(d, t, origin, n) && InSlotOrder(t, hash, origin)
  }

  /** The table d with the entry written at slot p; if it grew, d' is a copy of that. */
  ghost predicate PutInto<K, V>(d: seq<Slot<K, V>>, d': seq<Slot<K, V>>, hash: K -> nat, k: K, v: V, p: nat, grew: bool,
                                origin: map<nat, nat>)
    requires |d| > 0
  {
    && FirstEmpty(d, hash, k, p)
    && if grew then Copied(d[p := Full(k, v)], d', hash, origin, |d|) else d' == d[p := Full(k, v)]
  }

  lemma NothingCopied<K, V>(d: seq<Slot<K, V>>, t: seq<Slot<K, V>>, hash: K -> nat)
    requires forall p :: 0 <= p < |t| ==> t[p] == Empty
    ensures Copied(d, t, hash, map[], 0)
  {
  }

  lemma CopySkipped<K, V>(d: seq<Slot<K, V>>, t: seq<Slot<K, V>>, hash: K -> nat, origin: map<nat, nat>, n: nat)
    requires n < |d| && !d[n].Full? && Copied(d, t, hash, origin, n)
    ensures Copied(d, t, hash, origin, n + 1)
  {
  }

  /** The first Empty slot for a key is probed after all entries of the key. */
  lemma EmptyIsLast<K, V>(t: seq<Slot<K, V>>, hash: K -> nat, k: K, p: nat, q: nat)
    requires |t| > 0 && Placed(t, hash) && FirstEmpty(t, hash, k, p) && q < |t| && Holds(t, q, k)
    ensures Before(t, hash, k, q, p)
  {
    var h := Home(hash, k, |t|);
    assert Run(t, h, Dist(h, q, |t|));
    assert t[Probe(h, Dist(h, p, |t|), |t|)] == Empty;
    assert t[Probe(h, Dist(h, q, |t|), |t|)] != Empty;
  }

  lemma CopyAdded<K, V>(d: seq<Slot<K, V>>, t: seq<Slot<K, V>>, origin: map<nat, nat>, n: nat, p: nat)
    requires n < |d| && d[n].Full? && p < |t| && t[p] == Empty && Copies(d, t, origin, n)
    ensures Copies(d, t[p := d[n]], origin[p := n], n + 1)
  {
    var origin' := origin[p := n];
    assert p !in origin;
    forall i: nat | i < n + 1 && d[i].Full?
      ensures exists q :: q in origin' && origin'[q] == i
    {
      if i < n {
        var q :| q in origin && origin[q] == i;
        assert q in origin' && origin'[q] == i;
      } else {
        assert p in origin' && origin'[p] == i;
      }
    }
  }

  lemma LastInOrder<K, V>(d: seq<Slot<K, V>>, t: seq<Slot<K, V>>, hash: K -> nat, origin: map<nat, nat>, n: nat, p: nat)
    requires n < |d| && d[n].Full? && Copies(d, t, origin, n) && InSlotOrder(t, hash, origin)
    requires |t| > 0 && Placed(t, hash) && FirstEmpty(t, hash, d[n].key, p)
    ensures p < |t| && InSlotOrder(t[p := d[n]], hash, origin[p := n])
  {
    hide FirstEmpty, Placed, Dist, Probe;
    FirstEmptyIs(t, hash, d[n].key, p);
    var t', origin' := t[p := d[n]], origin[p := n];
    assert p !in origin;
    forall q, r | q in origin' && r in origin' && q < |t| && r < |t| && t'[q].Full? && Holds(t', r, t'[q].key)
      ensures Before(t', hash, t'[q].key, q, r) <==> origin'[q] < origin'[r]
    {
      if q == p && r != p {
        EmptyIsLast(t, hash, d[n].key, p, r);
      } else if r == p && q != p {
        EmptyIsLast(t, hash, d[n].key, p, q);
      } else if q != p {
        assert Holds(t, r, t[q].key);
      }
    }
  }

  lemma CopyPut<K, V>(d: seq<Slot<K, V>>, t: seq<Slot<K, V>>, t': seq<Slot<K, V>>, hash: K -> nat,
                      origin: map<nat, nat>, n: nat, p: nat, o: map<nat, nat>)
    requires n < |d| && d[n].Full? && |t| > 0 && Placed(t, hash) && Copied(d, t, hash, origin, n)
    requires PutInto(t, t', hash, d[n].key, d[n].value, p, false, o)
    ensures Copied(d, t', hash, origin[p := n], n + 1)
  {
    FirstEmptyIs(t, hash, d[n].key, p);
    CopyAdded(d, t, origin, n, p);
    LastInOrder(d, t, hash, origin, n, p);
  }

  /** Slot s is the lowest that holds k. */
  ghost predicate LowestHolding<K, V>(d: seq<Slot<K, V>>, k: K, s: nat)
  {
    s < |d| && Holds(d, s, k) && forall i :: 0 <= i < s ==> !Holds(d, i, k)
  }

  /** What is found after copying is the copy of the entry in the lowest slot, not of the one found before. */
  lemma CopyFinds<K, V>(d: seq<Slot<K, V>>, t: seq<Slot<K, V>>, hash: K -> nat, origin: map<nat, nat>, k: K, p: nat)
    requires |t| > 0 && Copied(d, t, hash, origin, |d|) && FirstHolding(t, hash, k, p)
    ensures p in origin && t[p] == d[origin[p]] && LowestHolding(d, k, origin[p])
  {
    forall q | q in origin && t[q].key == k
      ensures origin[p] <= origin[q]
    {
      assert Holds(t, q, k) && !Before(t, hash, k, q, p);
    }
  }

  // ---------------------------------------------------------------------
  // What a put does to a table and to what is found in it.

  /**
   A put keeps the entry that is found for a key exactly if the table does not grow or
   that entry has the lowest slot of the key's, the new entry among them.
   */
  lemma PutKeepsFound<K, V>(d: seq<Slot<K, V>>, d': seq<Slot<K, V>>, hash: K -> nat, k: K, v: V, p: nat, grew: bool,
                            origin: map<nat, nat>, l: K, s: nat, t: nat)
    requires |d| > 0 && |d'| > 0 && Placed(d, hash) && PutInto(d, d', hash, k, v, p, grew, origin)
    requires FirstHolding(d, hash, l, s) && FirstHolding(d', hash, l, t)
    ensures grew ==> t in origin
    ensures (if grew then origin[t] else t) == s <==> !grew || LowestHolding(d[p := Full(k, v)], l, s)
  {
    hide Placed, Copied, FirstHolding, FirstEmpty;
    FirstEmptyIs(d, hash, k, p);
    var d1 := d[p := Full(k, v)];
    StillFirst(d, hash, k, v, p, l, s);
    if grew {
      CopyFinds(d1, d', hash, origin, l, t);
    } else {
      OneFirst(d1, hash, l, s, t);
    }
  }

  // ---------------------------------------------------------------------
  // The table.

  predicate ShouldGrow(size: nat, used: nat) { size - used < size / 4 }

  predicate ShouldShrink(size: nat, used: nat) { used < size / 4 && size < 32 }

  /**
   A table grows once fewer than a quarter of its slots are left, and should shrink, below 32
   slots, with fewer used.
   */
  lemma LoadIs(size: nat, used: nat)
    requires used <= size
    ensures ShouldGrow(size, used) <==> 4 * (size - used + 1) <= size
    ensures ShouldShrink(size, used) <==> 4 * (used + 1) <= size < 32
  {
  }

  /** What a search comes to; NotReached is the assertion behind its loop. */
  datatype Outcome = Found(slot: nat) | Absent | NotReached

  datatype Lookup<V> = Value(value: V) | Nothing | SearchFails

  /** TableFull is the assertion behind the search for an Empty slot. */
  datatype PutResult = Stored | NoMemory | TableFull

  /** Shrinks is the assertion that a new size is larger, NullWrite the store through a search's NULL. */
  datatype RemoveResult = Dropped | Shrinks | NullWrite | RemoveFails

  /** A search for k ends: the key is there, or some slot besides its home is Empty. */
  ghost predicate Ends<K, V>(d: seq<Slot<K, V>>, hash: K -> nat, k: K)
    requires |d| > 0
  {
    (exists s :: 0 <= s < |d| && Holds(d, s, k)) || exists s :: 0 <= s < |d| && s != Home(hash, k, |d|) && d[s].Empty?
  }

  /** Two Empty slots end every search. */
  lemma TwoEmptyEnd<K, V>(d: seq<Slot<K, V>>, hash: K -> nat, k: K)
    requires |d| > 0 && CountEmpty(d) >= 2
    ensures Ends(d, hash, k)
  {
    AnotherEmpty(d, Home(hash, k, |d|));
  }

  /** Without tombstones, a table of at least 32 slots that need not grow has two Empty slots. */
  lemma EnoughEmpty<K, V>(d: seq<Slot<K, V>>)
    requires |d| >= 32 && (forall i :: 0 <= i < |d| ==> d[i] != Tombstone) && !ShouldGrow(|d|, CountFull(d))
    ensures CountEmpty(d) >= 8
  {
    CountBounds(d);
  }

  class HashTable<K(==, !new), V(!new)> {
    var size: nat
    var used: nat
    var data: array<Slot<K, V>>
    const hash: K -> nat

    ghost predicate Valid()
      reads this, data
    {
      size == data.Length && size > 0 && used == CountFull(data[..]) && Placed(data[..], hash)
    }

    ghost function Contents(): multiset<(K, V)>
      reads this, data
    {
      Entries(data[..])
    }

    /** No entry has been removed since the table was made or last grew. */
    ghost predicate NoTombstone()
      reads this, data
    {
      forall i :: 0 <= i < data.Length ==> data[i] != Tombstone
    }

    /** The state that runs without removals stay in. */
    ghost predicate Roomy()
      reads this, data
    {
      Valid() && size >= 32 && NoTombstone() && !ShouldGrow(size, used)
    }

    /** In a roomy table every search ends, for every key, and there is a slot for the next entry. */
    lemma RoomyEnds(k: K)
      requires Roomy()
      ensures Ends(data[..], hash, k) && CountEmpty(data[..]) >= 1
    {
      hide Placed, CountEmpty, CountFull;
      EnoughEmpty(data[..]);
      TwoEmptyEnd(data[..], hash, k);
    }

    /** hashtable_init. */
    constructor (n: nat, f: K -> nat)
      requires n > 0
      ensures n >= 32 ==> Roomy()
      ensures Valid() && Contents() == multiset{} && size == n && hash == f && NoTombstone() && used == 0 && fresh(data)
      ensures CountEmpty(data[..]) == n && forall i :: 0 <= i < n ==> data[i] == Empty
    {
      size, used, hash := n, 0, f;
      data := new Slot<K, V>[n](_ => Empty);
      new;
      AllEmpty(data[..]);
    }

    /** hashtable_seek. */
    method Seek(k: K) returns (r: Outcome)
      requires Valid()
      ensures r.Found? <==> HasKey(Contents(), k)
      ensures r.Found? ==> FirstHolding(data[..], hash, k, r.slot) && (k, data[r.slot].value) in Contents()
      ensures r.NotReached? <==> !Ends(data[..], hash, k)
    {
      hide Placed, Entries, HasKey, CountFull, Run;
      ghost var d := data[..];
      HasKeyIs(d, k);
      var h := hash(k) % size;
      assert h == Home(hash, k, |d|);
      if data[h].Full? && data[h].key == k {
        assert Holds(d, h, k);
        EntryAt(d, h);
        return Found(h);
      }
      var s := (h + 1) % size;
      NextProbe(h, 0, size);
      ghost var i := 1;
      while s != h
        invariant 1 <= i <= size && s == if i < size then Probe(h, i, size) else h
        invariant forall j :: 0 <= j < i ==> !Holds(d, Probe(h, j, size), k)
        invariant forall j :: 1 <= j < i ==> !d[Probe(h, j, size)].Empty?
        decreases size - i
      {
        if data[s].Empty? {
          AbsentAt(d, hash, k, i);
          return Absent;
        } else if data[s].Full? && data[s].key == k {
          assert Holds(d, s, k);
          EntryAt(d, s);
          DistProbe(h, i, size);
          return Found(s);
        }
        NextProbe(h, i, size);
        s := (s + 1) % size;
        i := i + 1;
      }
      ProbeHome(h, i, size);
      AbsentRound(d, h, k);
      NoneElsewhere(d, h);
      return NotReached;
    }

    /** hashtable_seek_empty: the first Empty slot of the key's run, unless the table has none. */
    method SeekEmpty(k: K) returns (found: bool, s: nat)
      requires Valid()
      ensures found <==> CountEmpty(data[..]) >= 1
      ensures found ==> FirstEmpty(data[..], hash, k, s)
    {
      hide Placed, CountFull, CountEmpty;
      ghost var d := data[..];
      var h := hash(k) % size;
      if data[h].Empty? {
        SomeEmpty(d, h);
        return true, h;
      }
      s := (h + 1) % size;
      NextProbe(h, 0, size);
      ghost var i := 1;
      while s != h
        invariant 1 <= i <= size && s == if i < size then Probe(h, i, size) else h
        invariant forall j :: 0 <= j < i ==> d[Probe(h, j, size)] != Empty
        decreases size - i
      {
        if data[s].Empty? {
          SomeEmpty(d, s);
          DistProbe(h, i, size);
          return true, s;
        }
        NextProbe(h, i, size);
        s := (s + 1) % size;
        i := i + 1;
      }
      ProbeHome(h, i, size);
      EveryProbe(d, h);
      NoEmpty(d);
      return false, 0;
    }

    /** hashtable_get. */
    method Get(k: K) returns (r: Lookup<V>)
      requires Valid()
      ensures r.Value? <==> HasKey(Contents(), k)
      ensures r.Value? ==> (k, r.value) in Contents() && forall s: nat :: FirstHolding(data[..], hash, k, s) ==>
                r.value == data[s].value
      ensures r.SearchFails? <==> !Ends(data[..], hash, k)
    {
      hide Placed, Entries, CountFull, Ends, HasKey;
      var hd := Seek(k);
      match hd {
        case Found(slot) =>
          forall s: nat | FirstHolding(data[..], hash, k, s)
            ensures s == slot
          {
            OneFirst(data[..], hash, k, s, slot);
          }
          return Value(data[slot].value);
        case Absent => return Nothing;
        case NotReached => return SearchFails;
      }
    }

    /**
     hashtable_put: adds a pair, whether or not the key has one already. The flag says whether
     growth finds memory.
     */
    method Put(k: K, v: V, memory: bool) returns (r: PutResult, ghost p: nat, ghost origin: map<nat, nat>)
      requires Valid()
      modifies this, data
      ensures Valid()
      ensures r.TableFull? <==> old(CountEmpty(data[..])) == 0
      ensures r.TableFull? ==> data == old(data) && data[..] == old(data[..]) && size == old(size) && used == old(used)
      ensures !r.TableFull? ==> Contents() == old(Contents()) + multiset{(k, v)} && used == old(used) + 1
      ensures !r.TableFull? ==> (Once(Contents()) <==> old(Once(Contents())) && !HasKey(old(Contents()), k))
      ensures r.NoMemory? <==> old(CountEmpty(data[..])) > 0 && ShouldGrow(old(size), old(used) + 1) && !memory
      ensures !r.TableFull? ==>
                PutInto(old(data[..]), data[..], hash, k, v, p, r.Stored? && ShouldGrow(old(size), old(used) + 1),
                        origin)
      ensures r.Stored? && ShouldGrow(old(size), old(used) + 1) ==>
                size == 2 * old(size) && NoTombstone() && fresh(data)
      ensures !r.TableFull? && !(r.Stored? && ShouldGrow(old(size), old(used) + 1)) ==>
                size == old(size) && data == old(data) && CountEmpty(data[..]) == old(CountEmpty(data[..])) - 1
      ensures old(NoTombstone()) ==> NoTombstone()
      ensures old(Roomy()) && !r.NoMemory? ==> Roomy() && r.Stored?
      decreases if ShouldGrow(size, used + 1) then 2 else 0
    {
      hide Placed, Entries, CountFull, CountEmpty, Run, FirstEmpty, Once, HasKey, Copied;
      p, origin := 0, map[];
      ghost var d := data[..];
      CountBounds(d);
      OnceAdded(Contents(), k, v);
      var found, s := SeekEmpty(k);
      if !found {
        r := TableFull;
        return;
      }
      p := s;
      FirstEmptyIs(d, hash, k, s);
      CountUpdate(d, s, Full(k, v));
      Inserted(d, hash, k, v, s);
      CountBounds(d[s := Full(k, v)]);
      data[s] := Full(k, v);
      assert data[..] == d[s := Full(k, v)];
      used := used + 1;
      if ShouldGrow(size, used) {
        var ok;
        ok, origin := Rebalance(size * 2, memory);
        r := if ok then Stored else NoMemory;
      } else {
        r := Stored;
      }
    }

    /** hashtable_rebalance: every entry is put, in slot order, into a larger table, which takes over. */
    method Rebalance(newSize: nat, memory: bool) returns (ok: bool, ghost origin: map<nat, nat>)
      requires Valid() && newSize > size && !ShouldGrow(newSize, used)
      modifies this
      ensures Valid() && Contents() == old(Contents()) && used == old(used) && ok == memory
      ensures ok ==> size == newSize && NoTombstone() && fresh(data)
      ensures ok ==> Copied(old(data[..]), data[..], hash, origin, old(size))
      ensures !ok ==> size == old(size) && data == old(data) && data[..] == old(data[..])
      decreases 1
    {
      hide Placed, CountFull, CountEmpty, Entries, Copied, PutInto, Once, HasKey, Roomy, Home;
      origin := map[];
      if !memory {
        ok := false;
        return;
      }
      ghost var d := data[..];
      CountBounds(d);
      var t := new HashTable<K, V>(newSize, hash);
      NothingYet<K, V>();
      NothingCopied(d, t.data[..], hash);
      assert d[..0] == [];
      for s := 0 to size
        invariant t.Valid() && t.size == newSize && t.hash == hash && t.NoTombstone() && fresh(t) && fresh(t.data)
        invariant t.used == CountFull(d[..s]) && t.Contents() == Entries(d[..s])
                  && Copied(d, t.data[..], hash, origin, s)
        invariant data[..] == d && Valid()
        invariant size == old(size) && used == old(used) && data == old(data) && allocated(data)
      {
        CountPrefix(d, s + 1);
        CountBounds(t.data[..]);
        NextEntry(d, s);
        if !data[s].Empty? && !data[s].Tombstone? {
          ghost var t0 := t.data[..];
          var r, p, o := t.Put(data[s].key, data[s].value, true);
          assert r.Stored?;
          CopyPut(d, t0, t.data[..], hash, origin, s, p, o);
          origin := origin[p := s];
        } else {
          CopySkipped(d, t.data[..], hash, origin, s);
        }
      }
      assert d[..size] == d;
      data, used, size := t.data, t.used, t.size;
      ok := true;
    }

    /** hashtable_remove. */
    method Remove(k: K) returns (r: RemoveResult, ghost s: nat)
      requires Valid()
      modifies this, data
      ensures Valid() && size == old(size) && data == old(data) && CountEmpty(data[..]) == old(CountEmpty(data[..]))
      ensures r.Dropped? || r.Shrinks? <==> HasKey(old(Contents()), k)
      ensures r.RemoveFails? <==> !Ends(old(data[..]), hash, k)
      ensures r.NullWrite? <==> Ends(old(data[..]), hash, k) && !HasKey(old(Contents()), k)
      ensures r.Shrinks? <==> HasKey(old(Contents()), k) && ShouldShrink(size, used)
      ensures r.RemoveFails? || r.NullWrite? ==> data[..] == old(data[..]) && used == old(used)
      ensures r.Dropped? || r.Shrinks? ==>
                && FirstHolding(old(data[..]), hash, k, s) && data[..] == old(data[..])[s := Tombstone]
                && Contents() + multiset{(k, old(data[..])[s].value)} == old(Contents()) && used == old(used) - 1
      ensures (r.Dropped? || r.Shrinks?) && old(Once(Contents())) ==> Once(Contents()) && !HasKey(Contents(), k)
    {
      hide Placed, Entries, CountFull, CountEmpty, Ends, HasKey, FirstHolding, Once;
      ghost var d := data[..];
      var hd := Seek(k);
      s := 0;
      if hd.NotReached? {
        return RemoveFails, 0;
      }
      if hd.Absent? {
        return NullWrite, 0;
      }
      s := hd.slot;
      FirstHoldingIs(d, hash, k, s);
      CountUpdate(d, s, Tombstone);
      Removed(d, hash, k, s);
      data[hd.slot] := Tombstone;
      assert data[..] == d[s := Tombstone];
      used := used - 1;
      if old(Once(Contents())) {
        OnceRemoved(old(Contents()), Contents(), (k, d[s].value));
      }
      // hashtable_rebalance(size / 2) starts with the assertion size / 2 > size.
      r := if ShouldShrink(size, used) then Shrinks else Dropped;
    }
  }

  lemma SomeEmpty<K, V>(d: seq<Slot<K, V>>, s: nat)
    requires s < |d| && d[s].Empty?
    ensures CountEmpty(d) >= 1
  {
    hide CountEmpty, CountFull;
    CountUpdate(d, s, Tombstone);
  }

  lemma NoEmpty<K, V>(d: seq<Slot<K, V>>)
    requires forall s :: 0 <= s < |d| ==> !d[s].Empty?
    ensures CountEmpty(d) == 0
  {
    hide CountEmpty;
    if CountEmpty(d) >= 1 {
      AnotherEmpty(d, -1);
    }
  }

  lemma FirstEmptyIs<K, V>(d: seq<Slot<K, V>>, hash: K -> nat, k: K, s: nat)
    requires |d| > 0 && FirstEmpty(d, hash, k, s)
    ensures s < |d| && d[s].Empty?
  {
  }

  lemma FirstHoldingIs<K, V>(d: seq<Slot<K, V>>, hash: K -> nat, k: K, s: nat)
    requires |d| > 0 && FirstHolding(d, hash, k, s)
    ensures s < |d| && Holds(d, s, k)
  {
  }

  lemma OneFirst<K, V>(d: seq<Slot<K, V>>, hash: K -> nat, k: K, s: nat, t: nat)
    requires |d| > 0 && FirstHolding(d, hash, k, s) && FirstHolding(d, hash, k, t)
    ensures s == t
  {
    var h := Home(hash, k, |d|);
    var i, j := Dist(h, s, |d|), Dist(h, t, |d|);
  }

  lemma NothingYet<K, V>()
    ensures Entries<K, V>([]) == multiset{} && CountFull<K, V>([]) == 0
  {
  }

  lemma {:induction false} CountPrefix<K, V>(d: seq<Slot<K, V>>, n: nat)
    requires n <= |d|
    ensures CountFull(d[..n]) <= CountFull(d)
    decreases |d|
  {
    if n < |d| {
      CountPrefix(d[..|d| - 1], n);
      assert d[..|d| - 1][..n] == d[..n];
    } else {
      assert d[..n] == d;
    }
  }

  /** The entries of the first s + 1 slots, from those of the first s. */
  lemma NextEntry<K, V>(d: seq<Slot<K, V>>, s: nat)
    requires s < |d|
    ensures CountFull(d[..s + 1]) == CountFull(d[..s]) + if d[s].Full? then 1 else 0
    ensures Entries(d[..s + 1]) == Entries(d[..s]) + EntryOf(d[s])
  {
    assert d[..s + 1][..s] == d[..s];
  }

  lemma ProbeHome(h: nat, i: nat, n: nat)
    requires h < n && 1 <= i <= n && h == if i < n then Probe(h, i, n) else h
    ensures i == n
  {
  }

  /** Every slot but the home was probed, and none was Empty. */
  lemma NoneElsewhere<K, V>(d: seq<Slot<K, V>>, h: nat)
    requires h < |d| && forall j :: 1 <= j < |d| ==> !d[Probe(h, j, |d|)].Empty?
    ensures forall s :: 0 <= s < |d| && s != h ==> !d[s].Empty?
  {
    forall s | 0 <= s < |d| && s != h
      ensures !d[s].Empty?
    {
      var j := Dist(h, s, |d|);
    }
  }

  lemma EveryProbe<K, V>(d: seq<Slot<K, V>>, h: nat)
    requires h < |d| && forall j :: 0 <= j < |d| ==> d[Probe(h, j, |d|)] != Empty
    ensures forall s :: 0 <= s < |d| ==> !d[s].Empty?
  {
    forall s | 0 <= s < |d|
      ensures !d[s].Empty?
    {
      var j := Dist(h, s, |d|);
    }
  }

  // ---------------------------------------------------------------------
  // Removals wear a table out.

  lemma OneEmpty<K, V>(d: seq<Slot<K, V>>) returns (e: nat)
    requires CountEmpty(d) == 1
    ensures e < |d| && d[e].Empty? && forall i :: 0 <= i < |d| && i != e ==> !d[i].Empty?
  {
    hide CountEmpty, CountFull;
    AnotherEmpty(d, -1);
    e :| 0 <= e < |d| && d[e].Empty?;
    var d' := d[e := Tombstone];
    CountUpdate(d, e, Tombstone);
    forall i | 0 <= i < |d| && i != e
      ensures !d[i].Empty?
    {
      CountUpdate(d', i, Tombstone);
    }
  }

  /**
   Thirty-one times one entry is put and removed again. The table is then as empty as
   at the start, but a search for some absent key finds no Empty slot and runs into
   the assertion behind the loop.
   */
  method WornOut() returns (t: HashTable<nat, int>, k: nat)
    ensures t.Valid() && t.Contents() == multiset{} && t.size == 32 && !Ends(t.data[..], t.hash, k)
  {
    hide Placed, Entries, CountEmpty, CountFull, HasKey, Run;
    t := new HashTable<nat, int>(32, (n: nat) => n);
    for i := 0 to 31
      invariant t.Valid() && fresh(t) && fresh(t.data) && t.size == 32 && t.used == 0 && t.Contents() == multiset{}
      invariant t.hash == ((n: nat) => n) && CountEmpty(t.data[..]) == 32 - i
    {
      var _ := PutAndRemove(t, i, 0);
    }
    ghost var e := OneEmpty(t.data[..]);
    k := 0;
    while k < 31 && !t.data[k].Empty?
      invariant k <= e
    {
      k := k + 1;
    }
    NobodyHome(t.data[..], k);
  }

  /** One put and one removal on a table without entries. */
  method PutAndRemove<K(==, !new), V(!new)>(t: HashTable<K, V>, k: K, v: V) returns (r: RemoveResult)
    requires t.Valid() && t.Contents() == multiset{} && t.used == 0 && t.size >= 4 && CountEmpty(t.data[..]) >= 1
    modifies t, t.data
    ensures t.Valid() && t.Contents() == multiset{} && t.used == 0 && t.size == old(t.size) && t.data == old(t.data)
    ensures CountEmpty(t.data[..]) == old(CountEmpty(t.data[..])) - 1
    ensures r == if ShouldShrink(t.size, 0) then Shrinks else Dropped
  {
    hide Placed, Entries, CountEmpty, CountFull, Run, FirstEmpty, FirstHolding, Ends;
    var _, p, _ := t.Put(k, v, true);
    assert (k, v) in t.Contents();
    ghost var d, c := t.data[..], t.Contents();
    assert HasKey(c, k);
    ghost var s;
    r, s := t.Remove(k);
    FirstHoldingIs(d, t.hash, k, s);
    assert t.Contents() + multiset{(k, d[s].value)} == c;
    Emptied(t.Contents(), k, v);
  }

  lemma Emptied<K(!new), V(!new)>(c: multiset<(K, V)>, k: K, v: V)
    requires exists w :: c + multiset{(k, w)} == multiset{(k, v)}
    ensures c == multiset{}
  {
    var w :| c + multiset{(k, w)} == multiset{(k, v)};
    assert |c| + 1 == |c + multiset{(k, w)}|;
  }

  lemma NobodyHome<K(!new), V(!new)>(d: seq<Slot<K, V>>, k: K)
    requires Entries(d) == multiset{}
    ensures forall s :: 0 <= s < |d| ==> !Holds(d, s, k)
  {
    hide Entries;
    HasKeyIs(d, k);
  }

  /** Removing the only entry of a table of 16 slots runs into the assertion that the new size is larger. */
  method ShrinkTrips() returns (r: RemoveResult)
    ensures r == Shrinks
  {
    hide Placed, Entries, CountEmpty, CountFull;
    var t := new HashTable<nat, int>(16, (n: nat) => n);
    r := PutAndRemove(t, 0, 0);
  }

  /** A table of two slots never grows; the third put finds no Empty slot. */
  method FillsUp() returns (r: PutResult)
    ensures r == TableFull
  {
    hide Placed, Entries, CountEmpty, CountFull, Run, FirstEmpty;
    var t := new HashTable<nat, int>(2, (n: nat) => n);
    var a, _, _ := t.Put(0, 0, true);
    var b, _, _ := t.Put(1, 0, true);
    var c, _, _ := t.Put(2, 0, true);
    r := c;
  }

  /** A put that finds room without growing leaves what a key is found at. */
  method PutBehind<K(==, !new), V(!new)>(t: HashTable<K, V>, k: K, v: V, ghost s: nat)
    requires t.Valid() && CountEmpty(t.data[..]) >= 1 && !ShouldGrow(t.size, t.used + 1)
             && FirstHolding(t.data[..], t.hash, k, s)
    modifies t, t.data
    ensures t.Valid() && t.data == old(t.data) && t.data.Length == old(t.data.Length) && Holds(old(t.data[..]), s, k)
    ensures FirstHolding(t.data[..], t.hash, k, s) && t.data[s].value == old(t.data[s].value)
  {
    hide Placed, Entries, CountEmpty, CountFull, Run;
    ghost var d := t.data[..];
    var _, p, _ := t.Put(k, v, true);
    StillFirst(d, t.hash, k, v, p, k, s);
    assert t.data[..][s].value == d[s].value;
  }

  /** A second put of a key leaves the value of the first in place. */
  method SecondPut(a: int, b: int) returns (r: Lookup<int>)
    ensures r == Value(a)
  {
    hide Placed, Entries, CountEmpty, CountFull, Run, FirstEmpty, FirstHolding;
    var t := new HashTable<nat, int>(32, (n: nat) => n);
    var _, _, _ := t.Put(0, a, true);
    assert (0, a) in t.Contents();
    assert HasKey(t.Contents(), 0);
    var first := t.Seek(0);
    FirstHoldingIs(t.data[..], t.hash, 0, first.slot);
    OnlyPair(t.Contents(), 0, a, t.data[first.slot].value);
    PutBehind(t, 0, b, first.slot);
    PresentKey(t.data[..], t.hash, 0, first.slot);
    r := t.Get(0);
  }

  lemma OnlyPair(c: multiset<(nat, int)>, k: nat, a: int, b: int)
    requires c == multiset{} + multiset{(k, a)} && (k, b) in c
    ensures a == b
  {
  }

  lemma PresentKey<K(!new), V(!new)>(d: seq<Slot<K, V>>, hash: K -> nat, k: K, s: nat)
    requires |d| > 0 && FirstHolding(d, hash, k, s)
    ensures HasKey(Entries(d), k)
  {
    hide Entries, HasKey;
    HasKeyIs(d, k);
  }

  /** Two entries for key 31, the second wrapped round to slot 0, and the keys 1 to i in their homes. */
  ghost function Wrapped(i: nat): seq<Slot<nat, int>>
  {
    seq(32, j => if j == 31 then Full(31, 100) else if j == 0 then Full(31, 200)
                 else if 0 < j <= i then Full(j, j) else Empty)
  }

  lemma AtHome<K, V>(d: seq<Slot<K, V>>, hash: K -> nat, k: K, p: nat)
    requires |d| > 1 && FirstEmpty(d, hash, k, p)
    ensures var h := Home(hash, k, |d|); if d[h].Empty? then p == h
              else d[Probe(h, 1, |d|)].Empty? ==> p == Probe(h, 1, |d|)
  {
    var h := Home(hash, k, |d|);
    assert Dist(h, p, |d|) > 0 ==> d[Probe(h, 0, |d|)] != Empty;
    assert Dist(h, p, |d|) > 1 ==> d[Probe(h, 1, |d|)] != Empty;
  }

  /** The first two puts. */
  lemma WrappedStart(d: seq<Slot<nat, int>>, hash: nat -> nat, p: nat, q: nat)
    requires |d| == 32 && hash(31) == 31 && forall j :: 0 <= j < 32 ==> d[j] == Empty
    requires FirstEmpty(d, hash, 31, p) && p < 32 && FirstEmpty(d[p := Full(31, 100)], hash, 31, q) && q < 32
    ensures d[p := Full(31, 100)][q := Full(31, 200)] == Wrapped(0)
  {
    hide FirstEmpty;
    AtHome(d, hash, 31, p);
    AtHome(d[31 := Full(31, 100)], hash, 31, q);
  }

  lemma WrappedNext(hash: nat -> nat, i: nat, p: nat)
    requires 1 <= i <= 23 && hash(i) == i && FirstEmpty(Wrapped(i - 1), hash, i, p)
    ensures p == i && Wrapped(i - 1)[p := Full(i, i)] == Wrapped(i)
  {
    hide FirstEmpty;
    AtHome(Wrapped(i - 1), hash, i, p);
  }

  /** The table of 32 slots in that state, made by puts alone. */
  method FillWrapped() returns (t: HashTable<nat, int>)
    ensures t.Valid() && t.size == 32 && t.used == 24 && t.hash == ((n: nat) => n) && t.data[..] == Wrapped(22)
    ensures CountEmpty(t.data[..]) == 8 && fresh(t) && fresh(t.data)
  {
    hide Placed, Entries, CountEmpty, CountFull, FirstEmpty, Copied, Wrapped, Home, Once, HasKey;
    t := new HashTable<nat, int>(32, (n: nat) => n);
    ghost var d := t.data[..];
    var _, p, _ := t.Put(31, 100, true);
    FirstEmptyIs(d, t.hash, 31, p);
    var _, q, _ := t.Put(31, 200, true);
    FirstEmptyIs(d[p := Full(31, 100)], t.hash, 31, q);
    WrappedStart(d, t.hash, p, q);
    for i := 1 to 23
      invariant t.Valid() && t.size == 32 && t.used == i + 1 && t.hash == ((n: nat) => n) && fresh(t) && fresh(t.data)
      invariant t.data[..] == Wrapped(i - 1) && CountEmpty(t.data[..]) == 31 - i
    {
      var _, p, _ := t.Put(i, i, true);
      WrappedNext(t.hash, i, p);
    }
  }

  lemma WrappedFirst(hash: nat -> nat)
    requires hash(31) == 31
    ensures FirstHolding(Wrapped(22), hash, 31, 31) && Wrapped(22)[31] == Full(31, 100)
  {
    var d := Wrapped(22);
    assert |d| == 32;
    assert Home(hash, 31, |d|) == 31;
    assert Holds(d, 31, 31);
  }

  lemma GrownFinds(d: seq<Slot<nat, int>>, hash: nat -> nat, p: nat, origin: map<nat, nat>, s: nat)
    requires |d| > 0 && hash(23) == 23 && PutInto(Wrapped(22), d, hash, 23, 23, p, true, origin)
             && FirstHolding(d, hash, 31, s)
    ensures d[s] == Full(31, 200)
  {
    hide FirstEmpty, Copied, FirstHolding;
    WrappedNext(hash, 23, p);
    CopyFinds(Wrapped(23), d, hash, origin, 31, s);
    assert Holds(Wrapped(23), 0, 31);
  }

  lemma MoreKeys<K(!new), V(!new)>(c: multiset<(K, V)>, e: (K, V), k: K)
    requires HasKey(c, k)
    ensures HasKey(c + multiset{e}, k)
  {
    var v :| (k, v) in c;
    assert (k, v) in c + multiset{e};
  }

  /** The next put grows that table, and the value found for key 31 changes with no put or removal of it. */
  method Overtaken() returns (before: Lookup<int>, after: Lookup<int>)
    ensures before == Value(100) && after == Value(200)
  {
    hide Placed, Entries, CountEmpty, CountFull, FirstEmpty, FirstHolding, PutInto, HasKey, Wrapped, Home, Once, Ends;
    var t := FillWrapped();
    WrappedFirst(t.hash);
    PresentKey(t.data[..], t.hash, 31, 31);
    before := t.Get(31);
    ghost var c := t.Contents();
    var _, p, origin := t.Put(23, 23, true);
    MoreKeys(c, (23, 23), 31);
    var found := t.Seek(31);
    GrownFinds(t.data[..], t.hash, p, origin, found.slot);
    FirstHoldingIs(t.data[..], t.hash, 31, found.slot);
    assert t.data[found.slot] == Full(31, 200);
    after := t.Get(31);
  }
}
