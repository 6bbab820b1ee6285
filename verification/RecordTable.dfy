/** The chained hash table that records semi-canonical tables (src/aig/aig/aigCanon.c). Chains are linked
    through the entries; a slot is the address that the next pointer to an entry is stored in. */
module RecordTable {
  import opened Sequences
  import opened TruthTables

  type Hash = Table -> nat

  class Entry {
    var pNext: Entry?
    const id: nat
    const truth: Table
    var nVisits: nat

    constructor (id: nat, truth: Table)
      ensures this.id == id && this.truth == truth && nVisits == 1 && pNext == null
    {
      this.id, this.truth := id, truth;
      nVisits, pNext := 1, null;
    }
  }

  /** The visit counter is a bit field of 27 bits. */
  const VISITS: nat := 0x800_0000

  datatype Slot = BinSlot(bins: array<Entry?>, i: nat) | NextSlot(entry: Entry)

  function Home(hash: Hash, t: Table, nBins: nat): (b: nat)
    requires nBins > 0
    ensures b < nBins
  {
    hash(t) % nBins
  }

  // ----- chains

  /** The entries that can be reached from head are those of c, in this order. */
  ghost predicate Linked(head: Entry?, c: seq<Entry>)
    reads set k | 0 <= k < |c| :: c[k]`pNext
  {
    if c == [] then head == null
    else head == c[0] && c[|c| - 1].pNext == null && forall k | 0 <= k < |c| - 1 :: c[k].pNext == c[k + 1]
  }

  ghost predicate DistinctKeys(c: seq<Entry>) {
    forall j, k | 0 <= j < k < |c| :: c[j].truth != c[k].truth
  }

  ghost predicate AtHome(c: seq<Entry>, hash: Hash, b: nat, nBins: nat)
    requires nBins > 0
  {
    forall k | 0 <= k < |c| :: Home(hash, c[k].truth, nBins) == b
  }

  /** The bins hold the chains, and every entry is in the chain of its hash, once. */
  ghost predicate Chained(bins: array<Entry?>, chains: seq<seq<Entry>>, hash: Hash)
    reads bins, set b, k | 0 <= b < |chains| && 0 <= k < |chains[b]| :: chains[b][k]`pNext
  {
    && |chains| == bins.Length > 0
    && (forall b | 0 <= b < bins.Length :: Linked(bins[b], chains[b]))
    && (forall b | 0 <= b < bins.Length :: AtHome(chains[b], hash, b, bins.Length) && DistinctKeys(chains[b]))
  }

  /** The address of the null pointer at the end of a chain. */
  ghost function TailSlot(bins: array<Entry?>, chains: seq<seq<Entry>>, b: nat): Slot
    requires b < |chains| == bins.Length
  {
    EndSlot(bins, b, chains[b])
  }

  ghost function EndSlot(bins: array<Entry?>, b: nat, c: seq<Entry>): Slot {
    if c == [] then BinSlot(bins, b) else NextSlot(c[|c| - 1])
  }

  function Bins(spot: Slot): set<array<Entry?>> {
    match spot case BinSlot(bins, _) => {bins} case NextSlot(_) => {}
  }

  function Holder(spot: Slot): set<Entry> {
    match spot case BinSlot(_, _) => {} case NextSlot(e) => {e}
  }

  method Write(spot: Slot, e: Entry)
    requires spot.BinSlot? ==> spot.i < spot.bins.Length
    modifies Bins(spot), Holder(spot)`pNext
    ensures spot.BinSlot? ==> spot.bins[spot.i] == e
    ensures spot.BinSlot? ==> forall j | 0 <= j < spot.bins.Length && j != spot.i :: spot.bins[j] == old(spot.bins[j])
    ensures spot.NextSlot? ==> spot.entry.pNext == e
  {
    match spot
    case BinSlot(bins, i) => bins[i] := e;
    case NextSlot(entry) => entry.pNext := e;
  }

  lemma LinkedTail(head: Entry, c: seq<Entry>, k: nat)
    requires k <= |c| && Linked(head, c[k..])
    ensures k < |c| && head == c[k] && Linked(c[k].pNext, c[k + 1..])
  {
    var d := c[k..];
    assert d[1..] == c[k + 1..] && d[0] == c[k];
    if |d| > 1 {
      assert d[1..][|d| - 2] == d[|d| - 1];
    }
  }

  /** The slot of the entry with this key, or the slot at the end of the chain where it would go. */
  method Lookup(bins: array<Entry?>, ghost c: seq<Entry>, hash: Hash, truth: Table)
    returns (spot: Slot, entry: Entry?)
    requires bins.Length > 0 && Linked(bins[Home(hash, truth, bins.Length)], c)
    ensures if entry == null
            then spot == EndSlot(bins, Home(hash, truth, bins.Length), c) && forall e | e in c :: e.truth != truth
            else entry in c && entry.truth == truth
  {
    var b := Home(hash, truth, bins.Length);
    ghost var k := 0;
    assert c[0..] == c;
    spot, entry := BinSlot(bins, b), bins[b];
    while entry != null
      invariant k <= |c| && Linked(entry, c[k..])
      invariant spot == if k == 0 then BinSlot(bins, b) else NextSlot(c[k - 1])
      invariant forall j | 0 <= j < k :: c[j].truth != truth
      decreases |c| - k
    {
      LinkedTail(entry, c, k);
      if entry.truth == truth {
        return;
      }
      spot, entry, k := NextSlot(entry), entry.pNext, k + 1;
    }
  }

  /** A lookup of the key walks along c, where no entry has the key. */
  ghost predicate Hides(bins: array<Entry?>, c: seq<Entry>, hash: Hash, key: Table)
    reads bins, set k | 0 <= k < |c| :: c[k]`pNext
  {
    bins.Length > 0 && Linked(bins[Home(hash, key, bins.Length)], c) && forall e | e in c :: e.truth != key
  }

  /** What a table's chains always satisfy, apart from the links. */
  ghost predicate WellPlaced(chains: seq<seq<Entry>>, hash: Hash) {
    |chains| > 0 && forall b | 0 <= b < |chains| :: AtHome(chains[b], hash, b, |chains|) && DistinctKeys(chains[b])
  }

  /** The last entry of a chain occurs nowhere else. */
  lemma TailsApart(chains: seq<seq<Entry>>, hash: Hash, h: nat)
    requires WellPlaced(chains, hash) && h < |chains|
    ensures chains[h] != [] ==>
              forall b, k | 0 <= b < |chains| && 0 <= k < |chains[b]| && (b != h || k < |chains[h]| - 1) ::
                chains[b][k] != chains[h][|chains[h]| - 1]
  {
    hide Home;
    var c := chains[h];
    forall b, k | c != [] && 0 <= b < |chains| && 0 <= k < |chains[b]| && (b != h || k < |c| - 1)
      ensures chains[b][k] != c[|c| - 1]
    {
      assert AtHome(chains[b], hash, b, |chains|) && AtHome(c, hash, h, |chains|) && DistinctKeys(c);
    }
  }

  /** What storing e at the end of its chain h makes of the chains. */
  lemma Appended(bins: array<Entry?>, chains: seq<seq<Entry>>, hash: Hash, h: nat, e: Entry)
    requires WellPlaced(chains, hash) && |chains| == bins.Length && h == Home(hash, e.truth, bins.Length)
    requires forall x | x in chains[h] :: x.truth != e.truth
    requires Linked(bins[h], chains[h] + [e]) && forall b | 0 <= b < bins.Length && b != h :: Linked(bins[b], chains[b])
    ensures Chained(bins, chains[h := chains[h] + [e]], hash)
  {
    hide Home, Linked;
    var c := chains[h];
    assert AtHome(c, hash, h, bins.Length) && DistinctKeys(c);
    assert AtHome(c + [e], hash, h, bins.Length) && DistinctKeys(c + [e]);
  }

  /** Stores a new entry in the slot at the end of its chain. */
  method Append(bins: array<Entry?>, ghost chains: seq<seq<Entry>>, hash: Hash, spot: Slot, e: Entry)
    requires Chained(bins, chains, hash)
    requires spot == TailSlot(bins, chains, Home(hash, e.truth, bins.Length))
    requires forall b | 0 <= b < |chains| :: e !in chains[b]
    requires forall x | x in chains[Home(hash, e.truth, bins.Length)] :: x.truth != e.truth
    modifies Bins(spot), Holder(spot)`pNext, e`pNext
    ensures var b := Home(hash, e.truth, bins.Length); Chained(bins, chains[b := chains[b] + [e]], hash)
  {
    hide Home, AtHome, DistinctKeys;
    ghost var h := Home(hash, e.truth, bins.Length);
    TailsApart(chains, hash, h);
    Write(spot, e);
    e.pNext := null;
    Appended(bins, chains, hash, h, e);
  }

  lemma EmptyChained(bins: array<Entry?>, chains: seq<seq<Entry>>, hash: Hash)
    requires |chains| == bins.Length > 0
    requires forall b | 0 <= b < bins.Length :: bins[b] == null && chains[b] == []
    ensures Chained(bins, chains, hash)
  {
  }

  lemma ChainedFacts(bins: array<Entry?>, chains: seq<seq<Entry>>, hash: Hash)
    requires Chained(bins, chains, hash)
    ensures |chains| == bins.Length && WellPlaced(chains, hash)
    ensures forall b | 0 <= b < bins.Length :: Linked(bins[b], chains[b])
  {
  }

  // ----- rehashing, as a function of the chains

  /** The entries that belong in bin b of n, in the same order. */
  ghost function Pick(es: seq<Entry>, hash: Hash, b: nat, n: nat): seq<Entry>
    requires n > 0
  {
    if es == [] then []
    else
      var e := es[|es| - 1];
      Pick(es[..|es| - 1], hash, b, n) + if Home(hash, e.truth, n) == b then [e] else []
  }

  ghost function Redistributed(es: seq<Entry>, hash: Hash, n: nat): (cs: seq<seq<Entry>>)
    requires n > 0
    ensures |cs| == n
  {
    seq(n, b requires 0 <= b < n => Pick(es, hash, b, n))
  }

  lemma {:induction false} PickMember(es: seq<Entry>, hash: Hash, b: nat, n: nat, e: Entry)
    requires n > 0
    ensures e in Pick(es, hash, b, n) <==> e in es && Home(hash, e.truth, n) == b
  {
    hide Home;
    if es != [] {
      PickMember(es[..|es| - 1], hash, b, n, e);
    }
  }

  lemma {:induction false} PickNothing(hash: Hash, n: nat)
    requires n > 0
    ensures Redistributed([], hash, n) == seq(n, b => [])
  {
  }

  lemma RedistributedStep(es: seq<Entry>, hash: Hash, n: nat, e: Entry)
    requires n > 0
    ensures var cs, h := Redistributed(es, hash, n), Home(hash, e.truth, n);
            Redistributed(es + [e], hash, n) == cs[h := cs[h] + [e]]
  {
    hide Home;
    assert (es + [e])[..|es|] == es;
    var cs, h := Redistributed(es, hash, n), Home(hash, e.truth, n);
    forall b | 0 <= b < n ensures Redistributed(es + [e], hash, n)[b] == cs[h := cs[h] + [e]][b] {
      assert Pick(es + [e], hash, b, n) == Pick(es, hash, b, n) + if b == h then [e] else [];
    }
  }

  /** The entries before position k of chain i, in the order of rehashing. */
  ghost function Before(chains: seq<seq<Entry>>, i: nat, k: nat): seq<Entry>
    requires i < |chains| && k <= |chains[i]|
  {
    Flatten(chains[..i]) + chains[i][..k]
  }

  /** An entry in two chains is a contradiction: its hash says where it belongs. */
  lemma InOneChain(chains: seq<seq<Entry>>, hash: Hash, b: nat, c: nat, e: Entry, e': Entry)
    requires WellPlaced(chains, hash) && b < |chains| && c < |chains| && e in chains[b] && e' in chains[c]
    requires e.truth == e'.truth
    ensures b == c
  {
    hide Home;
    var j :| 0 <= j < |chains[b]| && chains[b][j] == e;
    var k :| 0 <= k < |chains[c]| && chains[c][k] == e';
    assert AtHome(chains[b], hash, b, |chains|) && AtHome(chains[c], hash, c, |chains|);
  }

  /** The entries met before position k of chain i have other keys than the entries from there on. */
  lemma EarlierKeysDiffer(chains: seq<seq<Entry>>, hash: Hash, i: nat, k: nat, b: nat, j: nat, e: Entry)
    requires WellPlaced(chains, hash) && i < |chains| && k <= |chains[i]|
    requires i <= b < |chains| && j < |chains[b]| && (b == i ==> k <= j)
    requires e in Before(chains, i, k)
    ensures e.truth != chains[b][j].truth
  {
    hide Home, AtHome, Flatten;
    if e in Flatten(chains[..i]) {
      FlattenMembers(chains[..i], e);
      var c :| 0 <= c < i && e in chains[..i][c];
      if e.truth == chains[b][j].truth {
        InOneChain(chains, hash, c, b, e, chains[b][j]);
        assert false;
      }
    } else if b > i {
      if e.truth == chains[b][j].truth {
        InOneChain(chains, hash, i, b, e, chains[b][j]);
        assert false;
      }
    } else {
      assert DistinctKeys(chains[i]);
    }
  }

  lemma {:induction false} FlattenDistinct(chains: seq<seq<Entry>>, hash: Hash, m: nat)
    requires WellPlaced(chains, hash) && m <= |chains|
    ensures DistinctKeys(Flatten(chains[..m]))
  {
    hide Home, AtHome;
    if m > 0 {
      FlattenDistinct(chains, hash, m - 1);
      assert chains[..m][..m - 1] == chains[..m - 1];
      var c := chains[m - 1];
      assert DistinctKeys(c);
      forall j, e | 0 <= j < |c| && e in Flatten(chains[..m - 1]) ensures e.truth != c[j].truth {
        EarlierKeysDiffer(chains, hash, m - 1, 0, m - 1, j, e);
      }
    }
  }

  lemma {:induction false} DistinctCount(es: seq<Entry>)
    requires DistinctKeys(es)
    ensures |set e | e in es| == |es|
  {
    if es != [] {
      var rest := es[..|es| - 1];
      DistinctCount(rest);
      assert (set e | e in es) == (set e | e in rest) + {es[|es| - 1]};
    }
  }

  lemma SameEntriesSameLength(a: seq<Entry>, b: seq<Entry>)
    requires DistinctKeys(a) && DistinctKeys(b)
    requires (forall e | e in a :: e in b) && (forall e | e in b :: e in a)
    ensures |a| == |b|
  {
    DistinctCount(a);
    DistinctCount(b);
    assert (set e | e in a) == (set e | e in b);
  }

  lemma NothingBefore(chains: seq<seq<Entry>>)
    ensures Flatten(chains[..0]) == []
  {
  }

  /** The entry at position k of chain i is new to the entries before it, and not among the later ones. */
  lemma RehashStep(chains: seq<seq<Entry>>, hash: Hash, i: nat, k: nat)
    requires WellPlaced(chains, hash) && i < |chains| && k < |chains[i]|
    ensures Before(chains, i, k + 1) == Before(chains, i, k) + [chains[i][k]]
    ensures forall x | x in Before(chains, i, k) :: x.truth != chains[i][k].truth
    ensures forall j | k < j < |chains[i]| :: chains[i][j] !in Before(chains, i, k + 1)
    ensures forall x | x in Before(chains, i, k + 1) :: x in Before(chains, i, |chains[i]|)
    ensures forall x | x in Before(chains, i, k) :: x in Before(chains, i, |chains[i]|)
  {
    hide Home, Flatten, WellPlaced;
    forall x | x in Before(chains, i, k) ensures x.truth != chains[i][k].truth {
      EarlierKeysDiffer(chains, hash, i, k, i, k, x);
    }
    forall j | k < j < |chains[i]| ensures chains[i][j] !in Before(chains, i, k + 1) {
      if chains[i][j] in Before(chains, i, k + 1) {
        EarlierKeysDiffer(chains, hash, i, k + 1, i, j, chains[i][j]);
      }
    }
  }

  /** After chain i come the entries of later chains. */
  lemma RehashNext(chains: seq<seq<Entry>>, hash: Hash, i: nat)
    requires WellPlaced(chains, hash) && i < |chains|
    ensures Before(chains, i, 0) == Flatten(chains[..i])
    ensures Before(chains, i, |chains[i]|) == Flatten(chains[..i + 1])
    ensures |Flatten(chains[..i + 1])| == |Flatten(chains[..i])| + |chains[i]|
    ensures forall x | x in Before(chains, i, |chains[i]|) :: x in Flatten(chains)
    ensures forall b, k | i < b < |chains| && 0 <= k < |chains[b]| :: chains[b][k] !in Before(chains, i, |chains[i]|)
  {
    assert chains[..i + 1][..i] == chains[..i];
    MovedAreEntries(chains, i);
    forall b, k | i < b < |chains| && 0 <= k < |chains[b]|
      ensures chains[b][k] !in Before(chains, i, |chains[i]|)
    {
      if chains[b][k] in Before(chains, i, |chains[i]|) {
        EarlierKeysDiffer(chains, hash, i, |chains[i]|, b, k, chains[b][k]);
      }
    }
  }

  /** The recording table. The ghost field `entries` lists the entries by Id. */
  class RMan {
    const hash: Hash
    const prime: nat -> nat
    var pBins: array<Entry?>
    var nEntries: nat
    ghost var entries: seq<Entry>
    ghost var chains: seq<seq<Entry>>

    ghost predicate Valid()
      reads this, pBins, set b, k | 0 <= b < |chains| && 0 <= k < |chains[b]| :: chains[b][k]`pNext
    {
      ValidWith(chains)
    }

    /** The bins and links form the chains cs, which hold the recorded entries and no others. */
    ghost predicate ValidWith(cs: seq<seq<Entry>>)
      reads this, pBins, set b, k | 0 <= b < |cs| && 0 <= k < |cs[b]| :: cs[b][k]`pNext
    {
      && Chained(pBins, cs, hash)
      && (forall m :: prime(m) > 0)
      && |entries| == nEntries
      && (forall i | 0 <= i < |entries| :: entries[i].id == i)
      && DistinctKeys(entries)
      && (forall e | e in entries :: e in Flatten(cs))
      && (forall e | e in Flatten(cs) :: e in entries)
    }

    /** What the table records: the key with Id i is Keys()[i]. */
    ghost function Keys(): (k: seq<Table>)
      reads this
      ensures |k| == |entries|
    {
      var es := entries;
      seq(|es|, i requires 0 <= i < |es| => es[i].truth)
    }

    constructor (hash: Hash, prime: nat -> nat)
      requires forall m :: prime(m) > 0
      ensures Valid() && Keys() == []
      ensures this.hash == hash && this.prime == prime && fresh(pBins) && pBins.Length == prime(5000)
    {
      this.hash, this.prime := hash, prime;
      nEntries, entries := 0, [];
      pBins := new Entry?[prime(5000)](_ => null);
      chains := seq(prime(5000), b => []);
      new;
      forall e | e in Flatten(chains) ensures e in entries {
        FlattenMembers(chains, e);
      }
    }

    /** Moves one entry to the end of its chain in the new bins. */
    method Reinsert(entry: Entry, ghost moved: seq<Entry>)
      requires Chained(pBins, chains, hash) && chains == Redistributed(moved, hash, pBins.Length)
      requires forall x | x in moved :: x.truth != entry.truth
      modifies this`chains, pBins, entry`pNext, set x | x in moved :: x`pNext
      ensures Chained(pBins, chains, hash) && chains == Redistributed(moved + [entry], hash, pBins.Length)
    {
      hide Home, Pick;
      ghost var n, h := pBins.Length, Home(hash, entry.truth, pBins.Length);
      var spot, found := Lookup(pBins, chains[h], hash, entry.truth);
      forall b, x | 0 <= b < n && x in chains[b] ensures x in moved {
        PickMember(moved, hash, b, n, x);
      }
      assert forall x | x in Holder(spot) :: x in moved;
      Append(pBins, chains, hash, spot, entry);
      RedistributedStep(moved, hash, n, entry);
      chains := chains[h := chains[h] + [entry]];
    }

    /** Moves the entries of old chain i, starting from its head, and counts them. */
    method RehashChain(head: Entry?, ghost C: seq<seq<Entry>>, ghost i: nat) returns (count: nat)
      requires WellPlaced(C, hash) && i < |C| && Linked(head, C[i]) && pBins.Length > 0
      requires Chained(pBins, chains, hash) && chains == Redistributed(Before(C, i, 0), hash, pBins.Length)
      modifies this`chains, pBins, set x | x in Before(C, i, |C[i]|) :: x`pNext
      ensures Chained(pBins, chains, hash) && chains == Redistributed(Before(C, i, |C[i]|), hash, pBins.Length)
      ensures count == |C[i]|
    {
      hide Home, Pick, Redistributed, Chained, WellPlaced, AtHome, DistinctKeys, Flatten, Before;
      var entry := head;
      count := 0;
      assert C[i][0..] == C[i];
      while entry != null
        invariant count <= |C[i]| && Linked(entry, C[i][count..])
        invariant Chained(pBins, chains, hash) && chains == Redistributed(Before(C, i, count), hash, pBins.Length)
        decreases |C[i]| - count
      {
        var next := entry.pNext;
        ghost var moved := Before(C, i, count);
        LinkedTail(entry, C[i], count);
        RehashStep(C, hash, i, count);
        assert entry in Before(C, i, count + 1);
        assert entry in Before(C, i, |C[i]|);
        assert forall x | x in moved :: x in Before(C, i, |C[i]|);
        ghost var rest := C[i][count + 1..];
        assert Linked(next, rest);
        forall k | 0 <= k < |rest| ensures rest[k] !in moved && rest[k] != entry {
          assert rest[k] == C[i][count + 1 + k];
          assert rest[k] !in Before(C, i, count + 1);
        }
        Reinsert(entry, moved);
        assert Linked(next, rest);
        entry := next;
        count := count + 1;
      }
    }

    /** Moves the entries of all old chains, and counts them. */
    method Rehash(pBinsOld: array<Entry?>, ghost C: seq<seq<Entry>>) returns (counter: nat)
      requires WellPlaced(C, hash) && |C| == pBinsOld.Length && pBins.Length > 0 && pBins != pBinsOld
      requires forall b | 0 <= b < |C| :: Linked(pBinsOld[b], C[b])
      requires Chained(pBins, chains, hash) && chains == Redistributed([], hash, pBins.Length)
      modifies this`chains, pBins, set x | x in Flatten(C) :: x`pNext
      ensures Chained(pBins, chains, hash) && chains == Redistributed(Flatten(C), hash, pBins.Length)
      ensures counter == |Flatten(C)|
    {
      hide Home, Pick, Redistributed, Chained, WellPlaced, AtHome, DistinctKeys, Flatten, Before;
      counter := 0;
      assert Flatten(C[..0]) == [] by { NothingBefore(C); }
      for i := 0 to pBinsOld.Length
        invariant counter == |Flatten(C[..i])|
        invariant chains == Redistributed(Flatten(C[..i]), hash, pBins.Length) && Chained(pBins, chains, hash)
        invariant forall b | i <= b < |C| :: Linked(pBinsOld[b], C[b])
      {
        ghost var moved := Before(C, i, |C[i]|);
        RehashNext(C, hash, i);
        var count := RehashChain(pBinsOld[i], C, i);
        counter := counter + count;
      }
      assert C[..|C|] == C;
    }

    /** Triples the number of bins and moves every entry to the end of its new chain. */
    method TableResize()
      requires Valid()
      modifies this`pBins, this`chains, set e | e in entries :: e`pNext
      ensures Valid() && entries == old(entries) && fresh(pBins)
      ensures pBins.Length == prime(3 * old(pBins.Length))
      ensures chains == Redistributed(Flatten(old(chains)), hash, pBins.Length)
    {
      hide Home, Pick, Redistributed, Chained, WellPlaced, AtHome, DistinctKeys, Linked, Flatten;
      var pBinsOld := pBins;
      ghost var C, n := chains, prime(3 * pBins.Length);
      ChainedFacts(pBins, C, hash);
      pBins := new Entry?[prime(3 * pBinsOld.Length)](_ => null);
      chains := seq(n, b => []);
      PickNothing(hash, n);
      EmptyChained(pBins, chains, hash);
      var counter := Rehash(pBinsOld, C);
      FlattenDistinct(C, hash, |C|);
      assert C[..|C|] == C;
      SameEntriesSameLength(entries, Flatten(C));
      assert counter == nEntries;
      RedistributedMembers(Flatten(C), hash, n);
    }

    /** Growth is harmless for a key if the last entry of the key's chain will also be the last entry of the
        key's chain after the growth. */
    ghost predicate GrowthHarmless(truth: Table)
      requires |chains| == pBins.Length > 0 && forall m :: prime(m) > 0
      reads this, pBins
    {
      var c, n := chains[Home(hash, truth, pBins.Length)], prime(3 * pBins.Length);
      var d := Pick(Flatten(chains), hash, Home(hash, truth, n), n);
      c != [] && d != [] && c[|c| - 1] == d[|d| - 1]
    }

    /** Stores a new entry through a slot that was found before the table grew. Unless the slot is the end of
        the new chain by luck, some recorded key is not found any more. A slot in the old bins hides the new key. */
    method StoreThrough(spot: Slot, entry: Entry)
      requires Valid() && entry !in entries && entry.pNext == null && entry.id == nEntries
      requires forall e | e in entries :: e.truth != entry.truth
      requires spot.BinSlot? ==> spot.bins != pBins && spot.i < spot.bins.Length
      requires spot.NextSlot? ==> spot.entry in entries
      modifies Bins(spot), Holder(spot)`pNext, this`nEntries, this`entries, this`chains
      ensures entries == old(entries) + [entry] && nEntries == old(nEntries) + 1
      ensures old(spot == TailSlot(pBins, chains, Home(hash, entry.truth, pBins.Length))) ==> Valid()
      ensures old(spot != TailSlot(pBins, chains, Home(hash, entry.truth, pBins.Length))) ==>
                exists e, c :: e in entries && Hides(pBins, c, hash, e.truth)
      ensures spot.BinSlot? ==> exists c :: Hides(pBins, c, hash, entry.truth)
    {
      hide Home, Flatten, Linked, LinksExcept, AtHome, DistinctKeys;
      ghost var D, h := chains, Home(hash, entry.truth, pBins.Length);
      ghost var lucky := spot == TailSlot(pBins, chains, h);
      InChainRecorded(chains, entries);
      TailsApart(D, hash, h);
      if spot.NextSlot? {
        forall b | 0 <= b < |D| ensures LinksExcept(pBins[b], D[b], spot.entry) {
          LinkedExcept(pBins[b], D[b], spot.entry);
        }
        FlattenMembers(D, spot.entry);
      }
      Write(spot, entry);
      nEntries := nEntries + 1;
      entries := entries + [entry];
      if lucky {
        LuckyLinks(pBins, D, hash, h, spot.entry, entry);
        Appended(pBins, D, hash, h, entry);
        FlattenAppend(D, h, entry);
        chains := D[h := D[h] + [entry]];
        assert DistinctKeys(entries) by { DistinctAppend(old(entries), entry); }
      } else {
        ghost var e, c := HiddenKey(pBins, D, hash, spot, entry);
      }
    }

    /** Records a key, or counts a visit to it; returns whether it was new. The slot found by the lookup is used
        after the table may have grown, so that a growth keeps the table only if it is harmless for the key. */
    method TableFindOrAdd(truth: Table) returns (isNew: bool)
      requires Valid()
      modifies this`pBins, this`nEntries, this`entries, this`chains, pBins, set e | e in entries :: e
      ensures isNew <==> truth !in old(Keys())
      ensures Keys() == if isNew then old(Keys()) + [truth] else old(Keys())
      ensures !isNew || old(nEntries) != 3 * old(pBins.Length) || old(GrowthHarmless(truth)) ==> Valid()
      ensures isNew && old(nEntries) == 3 * old(pBins.Length) && !old(GrowthHarmless(truth)) ==>
                && (exists e, c :: e in entries && Hides(pBins, c, hash, e.truth))
                && (forall cs: seq<seq<Entry>> :: !ValidWith(cs))
      ensures isNew && old(nEntries) == 3 * old(pBins.Length) && old(chains[Home(hash, truth, pBins.Length)]) == [] ==>
                exists c :: Hides(pBins, c, hash, truth)
      ensures nEntries == |entries| && forall i | 0 <= i < |entries| :: entries[i].id == i
      ensures if isNew then |entries| == old(|entries|) + 1 && entries[..old(|entries|)] == old(entries)
              else entries == old(entries)
      ensures isNew ==> fresh(entries[old(|entries|)]) && entries[old(|entries|)].nVisits == 1
      ensures forall e | e in old(entries) ::
                e.nVisits == if e.truth == truth then (old(e.nVisits) + 1) % VISITS else old(e.nVisits)
      ensures if isNew && old(nEntries) == 3 * old(pBins.Length) then fresh(pBins) else pBins == old(pBins)
    {
      hide Home, Flatten, Chained, AtHome, Linked, Pick, DistinctKeys;
      var spot, found := Find(truth);
      if found != null {
        found.nVisits := (found.nVisits + 1) % VISITS;
        return false;
      }
      isNew := true;
      if nEntries == 3 * pBins.Length {
        AddWithGrowth(spot, truth);
      } else {
        AddInPlace(spot, truth);
      }
    }

    /** The lookup in terms of the recorded keys. */
    method Find(truth: Table) returns (spot: Slot, found: Entry?)
      requires Valid()
      ensures found != null ==> found in entries && found.truth == truth
      ensures found == null ==> spot == TailSlot(pBins, chains, Home(hash, truth, pBins.Length))
      ensures found == null ==> Bins(spot) <= {pBins} && forall e | e in Holder(spot) :: e in entries
      ensures found != null <==> truth in Keys()
      ensures forall e | e in entries && e.truth == truth :: e == found
    {
      hide Home, Flatten, Chained, AtHome, Linked;
      ChainedFacts(pBins, chains, hash);
      KeyFound(chains, hash, entries, truth);
      spot, found := Lookup(pBins, chains[Home(hash, truth, pBins.Length)], hash, truth);
      if found != null {
        ghost var i :| 0 <= i < |entries| && entries[i] == found;
        assert Keys()[i] == truth;
      }
    }

    /** The new entry goes to the end of its chain. */
    method AddInPlace(spot: Slot, truth: Table)
      requires Valid() && spot == TailSlot(pBins, chains, Home(hash, truth, pBins.Length))
      requires forall e | e in entries :: e.truth != truth
      modifies this`nEntries, this`entries, this`chains, Bins(spot), Holder(spot)`pNext
      ensures Valid() && |entries| == old(|entries|) + 1 && entries[..old(|entries|)] == old(entries)
      ensures var e := entries[old(|entries|)]; fresh(e) && e.nVisits == 1 && e.truth == truth
    {
      hide Home, Flatten, Chained, AtHome, Linked;
      ghost var C, E, h := chains, entries, Home(hash, truth, pBins.Length);
      ChainedFacts(pBins, C, hash);
      InChainRecorded(C, E);
      var entry := new Entry(nEntries, truth);
      Append(pBins, chains, hash, spot, entry);
      nEntries := nEntries + 1;
      entries := entries + [entry];
      FlattenAppend(C, h, entry);
      chains := C[h := C[h] + [entry]];
      DistinctAppend(E, entry);
    }

    /** The table grows, and the new entry is stored through the slot found before. */
    method AddWithGrowth(spot: Slot, truth: Table)
      requires Valid() && spot == TailSlot(pBins, chains, Home(hash, truth, pBins.Length))
      requires forall e | e in entries :: e.truth != truth
      modifies this`pBins, this`nEntries, this`entries, this`chains, pBins, set e | e in entries :: e`pNext
      ensures |entries| == old(|entries|) + 1 && entries[..old(|entries|)] == old(entries) && fresh(pBins)
      ensures var e := entries[old(|entries|)]; fresh(e) && e.nVisits == 1 && e.truth == truth
      ensures old(GrowthHarmless(truth)) ==> Valid()
      ensures entries[old(|entries|)].id == old(nEntries) && nEntries == old(nEntries) + 1
      ensures !old(GrowthHarmless(truth)) ==>
                && (exists e, c :: e in entries && Hides(pBins, c, hash, e.truth))
                && (forall cs: seq<seq<Entry>> :: !ValidWith(cs))
      ensures spot.BinSlot? ==> exists c :: Hides(pBins, c, hash, truth)
    {
      hide Home, Flatten, Chained, AtHome, Linked, Pick;
      ghost var C := chains;
      ChainedFacts(pBins, C, hash);
      InChainRecorded(C, entries);
      TableResize();
      var entry := new Entry(nEntries, truth);
      RedistributedAt(Flatten(C), hash, pBins.Length, Home(hash, truth, pBins.Length));
      StoreThrough(spot, entry);
      if !old(GrowthHarmless(truth)) {
        ghost var e, c :| e in entries && Hides(pBins, c, hash, e.truth);
        Broken(c, e);
      }
    }

    /** A table that holds all recorded entries hides none of their keys. */
    lemma ValidHidesNone(cs: seq<seq<Entry>>, c: seq<Entry>, e: Entry)
      requires ValidWith(cs) && e in entries
      ensures !Hides(pBins, c, hash, e.truth)
    {
      hide Home, Flatten, Linked, AtHome;
      ChainedFacts(pBins, cs, hash);
      KeyFound(cs, hash, entries, e.truth);
      if Hides(pBins, c, hash, e.truth) {
        LinkedUnique(pBins[Home(hash, e.truth, pBins.Length)], c, cs[Home(hash, e.truth, pBins.Length)]);
        assert false;
      }
    }

    /** No choice of chains makes a table of the recorded entries when one of them is hidden. */
    lemma Broken(c: seq<Entry>, e: Entry)
      requires e in entries && Hides(pBins, c, hash, e.truth)
      ensures forall cs: seq<seq<Entry>> :: !ValidWith(cs)
    {
      hide Hides, Chained, DistinctKeys, Flatten;
      forall cs: seq<seq<Entry>> ensures !ValidWith(cs) {
        if ValidWith(cs) {
          ValidHidesNone(cs, c, e);
          assert false;
        }
      }
    }
  }

  // ----- a stale slot

  /** Two chains from the same head are the same. */
  lemma {:induction false} LinkedUnique(head: Entry?, c: seq<Entry>, d: seq<Entry>)
    requires Linked(head, c) && Linked(head, d)
    ensures c == d
  {
    if c != [] && d != [] {
      var next := c[0].pNext;
      assert Linked(next, c[1..]) && Linked(next, d[1..]);
      LinkedUnique(next, c[1..], d[1..]);
      assert c == [c[0]] + c[1..] && d == [d[0]] + d[1..];
    }
  }

  ghost predicate InSome(D: seq<seq<Entry>>, e: Entry) {
    exists b :: 0 <= b < |D| && e in D[b]
  }

  function Next(c: seq<Entry>, k: nat): Entry?
    requires k < |c|
  {
    if k + 1 < |c| then c[k + 1] else null
  }

  /** The pointers of the chain c, except perhaps the next pointer of l. */
  ghost predicate LinksExcept(head: Entry?, c: seq<Entry>, l: Entry)
    reads set k | 0 <= k < |c| && c[k] != l :: c[k]`pNext
  {
    && head == (if c == [] then null else c[0])
    && forall k | 0 <= k < |c| && c[k] != l :: c[k].pNext == Next(c, k)
  }

  lemma LinkedExcept(head: Entry?, c: seq<Entry>, l: Entry)
    requires Linked(head, c)
    ensures LinksExcept(head, c, l)
  {
  }

  /** The links of chains that l is in, when l leads to entry, a last entry outside the chains. */
  ghost predicate StaleLinks(bins: array<Entry?>, D: seq<seq<Entry>>, l: Entry, entry: Entry)
    reads bins, entry`pNext, l`pNext, set b, k | 0 <= b < |D| && 0 <= k < |D[b]| :: D[b][k]`pNext
  {
    && |D| == bins.Length && !InSome(D, entry) && entry.pNext == null
    && InSome(D, l) && l.pNext == entry
    && forall b | 0 <= b < |D| :: LinksExcept(bins[b], D[b], l)
  }

  /** Written behind the last entry of its chain, the new entry extends that chain. */
  lemma LuckyLinks(bins: array<Entry?>, D: seq<seq<Entry>>, hash: Hash, h: nat, l: Entry, entry: Entry)
    requires StaleLinks(bins, D, l, entry) && WellPlaced(D, hash)
    requires h < |D| && D[h] != [] && D[h][|D[h]| - 1] == l
    ensures Linked(bins[h], D[h] + [entry])
    ensures forall b | 0 <= b < |D| && b != h :: Linked(bins[b], D[b])
  {
    TailsApart(D, hash, h);
    forall b | 0 <= b < |D| ensures LinksExcept(bins[b], D[b], l) {
    }
  }

  lemma DistinctAppend(es: seq<Entry>, e: Entry)
    requires DistinctKeys(es) && forall x | x in es :: x.truth != e.truth
    ensures DistinctKeys(es + [e])
  {
  }

  lemma EntryAtHome(chains: seq<seq<Entry>>, hash: Hash, b: nat, k: nat)
    requires WellPlaced(chains, hash) && b < |chains| && k < |chains[b]|
    ensures Home(hash, chains[b][k].truth, |chains|) == b
  {
    hide Home;
    assert AtHome(chains[b], hash, b, |chains|);
  }

  /** After a write through an unlucky slot, a lookup misses a key: the new one, if it is not behind an entry of its
      own chain, and otherwise the one that followed this entry. */
  lemma HiddenKey(bins: array<Entry?>, D: seq<seq<Entry>>, hash: Hash, spot: Slot, entry: Entry)
    returns (e: Entry, c: seq<Entry>)
    requires |D| == bins.Length && WellPlaced(D, hash)
    requires forall b, k | 0 <= b < |D| && 0 <= k < |D[b]| :: D[b][k].truth != entry.truth
    requires spot.BinSlot? ==> forall b | 0 <= b < |D| :: Linked(bins[b], D[b])
    requires spot.NextSlot? ==> StaleLinks(bins, D, spot.entry, entry)
    requires spot != TailSlot(bins, D, Home(hash, entry.truth, bins.Length))
    ensures Hides(bins, c, hash, e.truth) && (e == entry || InSome(D, e)) && (spot.BinSlot? ==> e == entry)
  {
    hide Home, AtHome, DistinctKeys, InSome;
    var h := Home(hash, entry.truth, bins.Length);
    e, c := entry, D[h];
    if spot.NextSlot? && spot.entry in D[h] {
      var j :| 0 <= j < |D[h]| && D[h][j] == spot.entry;
      e, c := CutOff(bins, D, hash, spot.entry, entry, h, j);
    } else if spot.NextSlot? {
      hide StaleLinks;
      StaleElsewhere(bins, D, spot.entry, entry, h);
    }
  }

  lemma StaleElsewhere(bins: array<Entry?>, D: seq<seq<Entry>>, l: Entry, entry: Entry, h: nat)
    requires StaleLinks(bins, D, l, entry) && h < |D| && l !in D[h]
    ensures Linked(bins[h], D[h])
  {
    hide InSome;
    assert LinksExcept(bins[h], D[h], l);
  }

  /** The entry that followed l cannot be reached any more. */
  lemma CutOff(bins: array<Entry?>, D: seq<seq<Entry>>, hash: Hash, l: Entry, entry: Entry, h: nat, j: nat)
    returns (e: Entry, c: seq<Entry>)
    requires StaleLinks(bins, D, l, entry) && WellPlaced(D, hash)
    requires h < |D| && j + 1 < |D[h]| && D[h][j] == l && D[h][j + 1].truth != entry.truth
    ensures Hides(bins, c, hash, e.truth) && InSome(D, e)
  {
    hide Home;
    e, c := D[h][j + 1], D[h][..j + 1] + [entry];
    assert e in D[h];
    assert AtHome(D[h], hash, h, |D|) && DistinctKeys(D[h]);
    assert LinksExcept(bins[h], D[h], l);
    forall k | 0 <= k < j ensures c[k].pNext == c[k + 1] {
      assert D[h][k] != l;
      assert D[h][k].pNext == Next(D[h], k);
    }
  }

  /** Every entry in a chain is recorded. */
  lemma InChainRecorded(chains: seq<seq<Entry>>, entries: seq<Entry>)
    requires forall e | e in Flatten(chains) :: e in entries
    ensures forall b, k | 0 <= b < |chains| && 0 <= k < |chains[b]| :: chains[b][k] in entries
  {
    forall b, k | 0 <= b < |chains| && 0 <= k < |chains[b]| ensures chains[b][k] in entries {
      FlattenMembers(chains, chains[b][k]);
    }
  }

  /** A key is recorded exactly when it is in the chain of its hash. */
  lemma KeyFound(chains: seq<seq<Entry>>, hash: Hash, entries: seq<Entry>, truth: Table)
    requires WellPlaced(chains, hash)
    requires (forall e | e in entries :: e in Flatten(chains)) && (forall e | e in Flatten(chains) :: e in entries)
    ensures forall e | e in entries && e.truth == truth :: e in chains[Home(hash, truth, |chains|)]
    ensures forall e | e in chains[Home(hash, truth, |chains|)] :: e in entries
  {
    hide Flatten, Home;
    var h := Home(hash, truth, |chains|);
    forall e | e in chains[h] ensures e in entries {
      FlattenMembers(chains, e);
    }
    forall e | e in entries && e.truth == truth ensures e in chains[h] {
      FlattenMembers(chains, e);
      var b :| 0 <= b < |chains| && e in chains[b];
      var k :| 0 <= k < |chains[b]| && chains[b][k] == e;
      assert AtHome(chains[b], hash, b, |chains|);
    }
  }

  /** Appending to one chain adds one entry. */
  lemma FlattenAppend(chains: seq<seq<Entry>>, h: nat, e: Entry)
    requires h < |chains|
    ensures forall x | x in Flatten(chains) || x == e :: x in Flatten(chains[h := chains[h] + [e]])
    ensures forall x | x in Flatten(chains[h := chains[h] + [e]]) :: x in Flatten(chains) || x == e
  {
    hide Flatten;
    var cs := chains[h := chains[h] + [e]];
    forall x | x in Flatten(chains) || x == e ensures x in Flatten(cs) {
      FlattenMembers(chains, x);
      FlattenMembers(cs, x);
      if x == e {
        assert x in cs[h];
      } else {
        var b :| 0 <= b < |chains| && x in chains[b];
        assert x in cs[b];
      }
    }
    forall x | x in Flatten(cs) ensures x in Flatten(chains) || x == e {
      FlattenMembers(chains, x);
      FlattenMembers(cs, x);
      var b :| 0 <= b < |cs| && x in cs[b];
      assert x != e ==> x in chains[b];
    }
  }

  lemma MovedAreEntries(chains: seq<seq<Entry>>, i: nat)
    requires i < |chains|
    ensures forall x | x in Before(chains, i, |chains[i]|) :: x in Flatten(chains)
  {
    forall x | x in Before(chains, i, |chains[i]|) ensures x in Flatten(chains) {
      FlattenMembers(chains[..i], x);
      if x in Flatten(chains[..i]) {
        var b :| 0 <= b < i && x in chains[..i][b];
        assert x in chains[b];
      }
      FlattenMembers(chains, x);
    }
  }

  lemma RedistributedAt(es: seq<Entry>, hash: Hash, n: nat, b: nat)
    requires b < n
    ensures Redistributed(es, hash, n)[b] == Pick(es, hash, b, n)
  {
  }

  lemma RedistributedMembers(es: seq<Entry>, hash: Hash, n: nat)
    requires n > 0
    ensures forall x | x in es :: x in Flatten(Redistributed(es, hash, n))
    ensures forall x | x in Flatten(Redistributed(es, hash, n)) :: x in es
  {
    hide Home, Pick, Flatten;
    var cs := Redistributed(es, hash, n);
    forall x | x in es ensures x in Flatten(cs) {
      var h := Home(hash, x.truth, n);
      PickMember(es, hash, h, n, x);
      FlattenMembers(cs, x);
      assert x in cs[h];
    }
    forall x | x in Flatten(cs) ensures x in es {
      FlattenMembers(cs, x);
      var b :| 0 <= b < n && x in cs[b];
      PickMember(es, hash, b, n, x);
    }
  }
}
