/** A growth of the recording table that loses an entry (src/aig/aig/aigCanon.c), for any hash and for that of the
    program. */
module RecordTableGrowth {
  import opened RecordTable
  import opened Residues
  import opened Sequences
  import opened TruthTables

  // ----- a growth that loses an entry

  ghost predicate DistinctTables(keys: seq<Table>) {
    forall i, j | 0 <= i < j < |keys| :: keys[i] != keys[j]
  }

  lemma EmptyBin(chains: seq<seq<Entry>>, entries: seq<Entry>, hash: Hash, h: nat)
    requires WellPlaced(chains, hash) && h < |chains| && forall e | e in Flatten(chains) :: e in entries
    requires forall e | e in entries :: Home(hash, e.truth, |chains|) != h
    ensures chains[h] == []
  {
    hide Home, Flatten;
    InChainRecorded(chains, entries);
    if chains[h] != [] {
      EntryAtHome(chains, hash, h, 0);
    }
  }

  /** A table of any size that is full with keys of other bins than that of the key `lost` does not find this key after
      it has been recorded: a lookup reports it as new again. */
  method GrowthLosesAnEntry(hash: Hash, prime: nat -> nat, keys: seq<Table>, lost: Table)
    returns (man: RMan, again: bool)
    requires (forall m :: prime(m) > 0) && |keys| == 3 * prime(5000) && DistinctTables(keys + [lost])
    requires forall k | k in keys :: Home(hash, k, prime(5000)) != Home(hash, lost, prime(5000))
    ensures fresh(man) && man.Keys() == keys + [lost] && again
    ensures forall cs: seq<seq<Entry>> :: !man.ValidWith(cs)
  {
    hide Chained, Flatten, Pick, Home, AtHome, DistinctKeys, Hides;
    assert (keys + [lost])[..|keys|] == keys;
    man := new RMan(hash, prime);
    AddAll(man, keys, lost);
    ghost var n, h := man.pBins.Length, Home(hash, lost, man.pBins.Length);
    forall e | e in man.entries ensures Home(hash, e.truth, n) != h {
      var i :| 0 <= i < |man.entries| && man.entries[i] == e;
      assert man.Keys()[i] == e.truth;
    }
    ChainedFacts(man.pBins, man.chains, hash);
    EmptyBin(man.chains, man.entries, hash, h);
    assert lost !in man.Keys() by { LastIsNew(keys, lost); }
    var isNew := man.TableFindOrAdd(lost);
    ghost var c: seq<Entry> :| Hides(man.pBins, c, hash, lost);
    assert man.pBins.Length > 0 && Linked(man.pBins[Home(hash, lost, man.pBins.Length)], c)
        && (forall e | e in c :: e.truth != lost) by { HidesMeans(man.pBins, c, hash, lost); }
    var spot, entry := Lookup(man.pBins, c, hash, lost);
    again := entry == null;
    ghost var e := man.entries[|keys|];
    assert e.truth == man.Keys()[|keys|];
    man.Broken(c, e);
  }

  lemma HidesMeans(bins: array<Entry?>, c: seq<Entry>, hash: Hash, key: Table)
    requires Hides(bins, c, hash, key)
    ensures bins.Length > 0 && Linked(bins[Home(hash, key, bins.Length)], c) && forall e | e in c :: e.truth != key
  {
  }

  lemma LastIsNew(keys: seq<Table>, lost: Table)
    requires DistinctTables(keys + [lost])
    ensures lost !in keys
  {
    forall i | 0 <= i < |keys| ensures keys[i] != lost {
      assert (keys + [lost])[i] != (keys + [lost])[|keys|];
    }
  }

  method AddAll(man: RMan, keys: seq<Table>, ghost lost: Table)
    requires man.Valid() && man.entries == [] && |keys| <= 3 * man.pBins.Length && DistinctTables(keys + [lost])
    modifies man, man.pBins
    ensures man.Valid() && man.Keys() == keys && man.pBins == old(man.pBins)
    ensures forall e | e in man.entries :: fresh(e)
  {
    hide Chained, Flatten, Pick, Hides, Home;
    for i := 0 to |keys|
      invariant man.Valid() && man.pBins == old(man.pBins)
      invariant man.Keys() == keys[..i]
      invariant forall e | e in man.entries :: fresh(e)
    {
      assert keys[i] !in keys[..i] by { EarlierDiffer(keys, lost, i); }
      ghost var E := man.entries;
      var isNew := man.TableFindOrAdd(keys[i]);
      assert man.entries == E + [man.entries[|E|]];
      assert keys[..i] + [keys[i]] == keys[..i + 1];
    }
    assert keys[..|keys|] == keys;
  }

  lemma EarlierDiffer(keys: seq<Table>, lost: Table, i: nat)
    requires DistinctTables(keys + [lost]) && i < |keys|
    ensures keys[i] !in keys[..i]
  {
    forall j | 0 <= j < i ensures keys[j] != keys[i] {
      assert (keys + [lost])[j] != (keys + [lost])[i];
    }
  }

  // ----- such keys for the hash of the program

  const WORDS: nat := 0x1_0000_0000

  /** The table that is one word. */
  function WordTable(w: nat): (t: Table)
    requires w < WORDS
    ensures |t| == 32
  {
    PowOfWord();
    Bits(w, 32)
  }

  lemma PowOfWord()
    ensures Pow2(32) == WORDS
  {
    assert Pow2(8) == 256;
    assert Pow2(16) == 256 * Pow2(8);
    assert Pow2(24) == 256 * Pow2(16);
    assert Pow2(32) == 256 * Pow2(24);
  }

  /** What the program computes for a table of one word, whose bits are those of the word. */
  ghost predicate HashesWords(hash: Hash) {
    forall t: Table | |t| == 32 :: hash(t) == WordHash(t)
  }

  function WordHash(t: Table): nat {
    1291 * Index(t) % WORDS
  }

  lemma WordHashOf(w: nat)
    requires 1291 * w < WORDS
    ensures WordHash(WordTable(w)) == 1291 * w
  {
    PowOfWord();
    hide Pow2, Index, Bits;
    IndexOfBits(w, 32);
  }

  lemma WordHome(hash: Hash, w: nat, n: nat)
    requires HashesWords(hash) && 1291 * w < WORDS && n > 0
    ensures Home(hash, WordTable(w), n) == 1291 * w % n
  {
    hide WordHash, WordTable;
    WordHashOf(w);
  }

  lemma ZeroHome(hash: Hash, n: nat)
    requires HashesWords(hash) && n > 0
    ensures Home(hash, WordTable(0), n) == 0
  {
    hide HashesWords, WordTable, Home;
    WordHome(hash, 0, n);
  }

  /** The i-th number that is not a multiple of n. */
  function NonMultiple(n: nat, i: nat): (w: nat)
    requires n > 1
    ensures w > 0
  {
    i + 1 + i / (n - 1)
  }

  lemma NonMultipleIs(n: nat, i: nat)
    requires n > 1
    ensures NonMultiple(n, i) % n != 0
  {
    var q, r := i / (n - 1), i % (n - 1);
    assert i == (n - 1) * q + r;
    assert (n - 1) * q == n * q - q;
    RemainderIs(n, q, r + 1);
  }

  lemma NonMultiplesGrow(n: nat, i: nat, j: nat)
    requires n > 3 && i <= j < 3 * n
    ensures NonMultiple(n, i) <= NonMultiple(n, j) <= 3 * n + 3
    ensures i < j ==> NonMultiple(n, i) < NonMultiple(n, j)
  {
    QuotientGrows(i, j, n - 1);
    QuotientGrows(j, 4 * (n - 1) - 1, n - 1);
    RemainderIs(n - 1, 3, n - 2);
  }

  /** Multiplication by 1291 leads only multiples of n to multiples of n, if 1291 has the inverse inv. */
  lemma MultiplesOnly(n: nat, inv: nat, w: nat)
    requires Invertible(n, inv) && w % n != 0
    ensures 1291 * w % n != 0
  {
    var k, j := 1291 * w / n, 1291 * inv / n;
    assert 1291 * w == n * k + 1291 * w % n && 1291 * inv == n * j + 1;
    assert (1291 * inv) * w == n * (j * w) + w;
    assert (1291 * inv) * w == inv * (1291 * w);
    assert 1291 * w % n == 0 ==> w == n * (inv * k - j * w);
    RemainderIs(n, inv * k - j * w, 0);
  }

  function LosingKeys(n: nat): (keys: seq<Table>)
    requires 3 < n <= 1000000
    ensures |keys| == 3 * n
  {
    seq(3 * n, i requires 0 <= i < 3 * n => LosingKey(n, i))
  }

  function LosingKey(n: nat, i: nat): (t: Table)
    requires 3 < n <= 1000000 && i < 3 * n
  {
    NonMultiplesGrow(n, i, i);
    WordTable(NonMultiple(n, i))
  }

  lemma WordTablesDiffer(v: nat, w: nat)
    requires v < w < WORDS
    ensures WordTable(v) != WordTable(w)
  {
    PowOfWord();
    IndexOfBits(v, 32);
    IndexOfBits(w, 32);
  }

  lemma LosingKeysDiffer(n: nat)
    requires 3 < n <= 1000000
    ensures DistinctTables(LosingKeys(n) + [WordTable(0)])
  {
    hide NonMultiple, WordTable;
    var all := LosingKeys(n) + [WordTable(0)];
    forall i, j | 0 <= i < j < |all| ensures all[i] != all[j] {
      NonMultiplesGrow(n, i, i);
      if j < 3 * n {
        NonMultiplesGrow(n, i, j);
        WordTablesDiffer(NonMultiple(n, i), NonMultiple(n, j));
      } else {
        WordTablesDiffer(0, NonMultiple(n, i));
      }
    }
  }

  ghost predicate Invertible(n: nat, inv: nat) {
    n > 1 && 1291 * inv % n == 1
  }

  lemma LosingKeyHome(hash: Hash, n: nat, inv: nat, i: nat)
    requires HashesWords(hash) && 3 < n <= 1000000 && Invertible(n, inv) && i < 3 * n
    ensures Home(hash, LosingKey(n, i), n) != 0
  {
    hide HashesWords, NonMultiple, WordTable, Home;
    NonMultiplesGrow(n, i, i);
    NonMultipleIs(n, i);
    WordHome(hash, NonMultiple(n, i), n);
    MultiplesOnly(n, inv, NonMultiple(n, i));
  }

  /** With the hash of the program there are such keys for every number of bins from four to a million in which 1291
      is invertible: the words that are not multiples of n, and the word 0. */
  lemma SuchKeysExist(hash: Hash, n: nat, inv: nat)
    requires HashesWords(hash) && 3 < n <= 1000000 && Invertible(n, inv)
    ensures DistinctTables(LosingKeys(n) + [WordTable(0)])
    ensures forall k | k in LosingKeys(n) :: Home(hash, k, n) != Home(hash, WordTable(0), n)
  {
    hide WordTable, WordHash, Home, Invertible, LosingKey, DistinctTables, Index, Pow2, Bits;
    LosingKeysDiffer(n);
    ZeroHome(hash, n);
    forall k | k in LosingKeys(n) ensures Home(hash, k, n) != Home(hash, WordTable(0), n) {
      var i :| 0 <= i < 3 * n && LosingKeys(n)[i] == k;
      LosingKeyHome(hash, n, inv, i);
    }
  }

  /** The first prime from 5000 on. */
  const BINS: nat := 5003
  const INV: nat := 3325

  /** The table of the program, with its hash and its number of bins, loses the word 0 when it is recorded after the
      first 15009 words that are not multiples of 5003. */
  method ProgramLosesAnEntry(hash: Hash, prime: nat -> nat) returns (man: RMan, again: bool)
    requires HashesWords(hash) && prime(5000) == BINS && forall m :: prime(m) > 0
    ensures fresh(man) && man.Keys() == LosingKeys(BINS) + [WordTable(0)] && again
    ensures forall cs: seq<seq<Entry>> :: !man.ValidWith(cs)
  {
    hide Home, HashesWords, LosingKeys, WordTable, DistinctTables;
    assert Invertible(BINS, INV);
    SuchKeysExist(hash, BINS, INV);
    man, again := GrowthLosesAnEntry(hash, prime, LosingKeys(BINS), WordTable(0));
  }
}
