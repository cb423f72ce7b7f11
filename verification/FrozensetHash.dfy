/** The hash of the built-in `frozenset`, which `Set._hash` is to match: unsigned machine words, and a loop over the
    whole table that includes unused and deleted entries and takes their effect out again. */
module FrozensetHash {
  import opened Arithmetic
  import opened Bits
  import opened SetHash
  import opened HashMixing

  datatype Entry = Active(hash: int) | Unused | Dummy

  /** The hash field of a table entry */
  function HashField(e: Entry): int {
    match e
    case Active(hash) => hash
    case Unused => 0
    case Dummy => -1
  }

  function ActiveHashes(table: seq<Entry>): seq<int> {
    if table == [] then []
    else
      var last := table[|table| - 1];
      ActiveHashes(table[..|table| - 1]) + (if last.Active? then [last.hash] else [])
  }

  function Unuseds(table: seq<Entry>): (n: nat) {
    if table == [] then 0 else Unuseds(table[..|table| - 1]) + (if table[|table| - 1].Unused? then 1 else 0)
  }

  function Dummies(table: seq<Entry>): (n: nat) {
    if table == [] then 0 else Dummies(table[..|table| - 1]) + (if table[|table| - 1].Dummy? then 1 else 0)
  }

  lemma {:induction false} EntriesCount(table: seq<Entry>)
    ensures |table| == |ActiveHashes(table)| + Unuseds(table) + Dummies(table)
  {
    if table != [] {
      EntriesCount(table[..|table| - 1]);
    }
  }

  // ----- Arithmetic on words -----

  lemma SameWordTimes(x: int, y: int, q: int, k: nat)
    requires Word(x, k) == Word(y, k)
    ensures Word(Times(x, q), k) == Word(Times(y, q), k)
  {
    var p := Pow(2, k);
    SameWord(x, y, k);
    WordOf(x - y, p, k);
    MulAssoc(p, (x - y) / p, q);
    MulDistributes(q, x, -y);
    Multiple(Times(x, q) - Times(y, q), p, (x - y) / p * q);
    SameWord(Times(x, q), Times(y, q), k);
  }

  lemma SameWordShl(x: int, y: int, n: nat, k: nat)
    requires Word(x, k) == Word(y, k)
    ensures Word(Shl(x, n), k) == Word(Shl(y, n), k)
  {
    ShlIsTimes(x, n);
    ShlIsTimes(y, n);
    SameWordTimes(x, y, Pow(2, n), k);
  }

  lemma ShlIsTimes(x: int, n: nat)
    ensures Shl(x, n) == Times(x, Pow(2, n))
  {
    ShlIsMul(x, n);
  }

  /** `((h ^ c) ^ (h << n)) * q` in words of k bits */
  function Shuffled(h: int, n: nat, c: int, q: int, k: nat): int {
    Word(Times(Bitwise(Xor, Bitwise(Xor, h, c), Word(Shl(h, n), k)), q), k)
  }

  /** It does not matter when the words are cut off. */
  lemma ShuffledIsMixed(hx: int, n: nat, c: int, q: int, k: nat)
    ensures Shuffled(Word(hx, k), n, c, q, k) == Word(Times(Bitwise(Xor, Spread(hx, n), c), q), k)
  {
    var h := Word(hx, k);
    WordOfWord(h, k);
    SameWordShl(h, hx, n, k);
    WordOfWord(Word(Shl(hx, n), k), k);
    WordOfXor(Bitwise(Xor, h, c), Word(Shl(h, n), k), k);
    WordOfXor(h, c, k);
    WordOfXor(Spread(hx, n), c, k);
    WordOfXor(hx, Shl(hx, n), k);
    XorLastTwo(h, Word(c, k), Word(Shl(hx, n), k));
    SameWordTimes(Bitwise(Xor, Bitwise(Xor, h, c), Word(Shl(h, n), k)), Bitwise(Xor, Spread(hx, n), c), q, k);
  }

  lemma XorLastTwo(a: int, b: int, c: int)
    ensures Bitwise(Xor, Bitwise(Xor, a, b), c) == Bitwise(Xor, Bitwise(Xor, a, c), b)
  {
    XorAssociates(a, b, c);
    XorAssociates(a, c, b);
    XorCommutes(b, c);
  }

  /** `_shuffle_bits` */
  function ShuffleBits(h: int, k: nat): int {
    Shuffled(h, 16, 89869747, 3644798167, k)
  }

  lemma ShuffleIsTerm(hx: int, m: nat)
    ensures ShuffleBits(Word(hx, m + 1), m + 1) == Masked(Term(hx), m)
  {
    ShuffledIsMixed(hx, 16, 89869747, 3644798167, m + 1);
    MaskedIsWord(Term(hx), m);
  }

  // ----- Taking entries out again -----

  function IfOdd(n: nat, t: int): int {
    if n % 2 == 1 then t else 0
  }

  lemma OneMoreOdd(n: nat, t: int)
    ensures Bitwise(Xor, IfOdd(n, t), t) == IfOdd(n + 1, t)
  {
    Units(t);
  }

  /** What the loop has after the entries of the table: the terms of the active ones, and those of the unused and of
      the deleted ones if there is an odd number of them. */
  function TableXor(table: seq<Entry>, unused: int, dummy: int, m: nat): int {
    Bitwise(Xor, Bitwise(Xor, XorOfTerms(ActiveHashes(table), m), IfOdd(Unuseds(table), unused)),
      IfOdd(Dummies(table), dummy))
  }

  /** What an entry contributes */
  function TermOf(e: Entry, m: nat): int {
    Masked(Term(HashField(e)), m)
  }

  lemma TableMore(table: seq<Entry>, e: Entry)
    ensures ActiveHashes(table + [e]) == if e.Active? then ActiveHashes(table) + [e.hash] else ActiveHashes(table)
    ensures Unuseds(table + [e]) == if e.Unused? then Unuseds(table) + 1 else Unuseds(table)
    ensures Dummies(table + [e]) == if e.Dummy? then Dummies(table) + 1 else Dummies(table)
  {
    assert (table + [e])[..|table|] == table;
    assert ActiveHashes(table) + [] == ActiveHashes(table);
  }

  lemma XorMovesOut(x: int, t: int, u: int, d: int)
    ensures Bitwise(Xor, Bitwise(Xor, Bitwise(Xor, x, t), u), d) == Bitwise(Xor, Bitwise(Xor, Bitwise(Xor, x, u), d), t)
    ensures Bitwise(Xor, Bitwise(Xor, x, Bitwise(Xor, u, t)), d) == Bitwise(Xor, Bitwise(Xor, Bitwise(Xor, x, u), d), t)
    ensures Bitwise(Xor, Bitwise(Xor, x, u), Bitwise(Xor, d, t)) == Bitwise(Xor, Bitwise(Xor, Bitwise(Xor, x, u), d), t)
  {
    XorLastTwo(x, t, u);
    XorLastTwo(Bitwise(Xor, x, u), t, d);
    XorAssociates(x, u, t);
    XorAssociates(Bitwise(Xor, x, u), d, t);
  }

  lemma OneMoreEntry(table: seq<Entry>, e: Entry, t: int, unused: int, dummy: int, m: nat)
    requires e.Active? ==> t == Masked(Term(e.hash), m)
    requires e.Unused? ==> t == unused
    requires e.Dummy? ==> t == dummy
    ensures TableXor(table + [e], unused, dummy, m) == Bitwise(Xor, TableXor(table, unused, dummy, m), t)
  {
    var x, n, k := XorOfTerms(ActiveHashes(table), m), Unuseds(table), Dummies(table);
    TableMore(table, e);
    if e.Active? {
      XorAppend(ActiveHashes(table), e.hash, m);
    }
    PartsMore(e, x, n, k, t, unused, dummy);
  }

  lemma PartsMore(e: Entry, x: int, n: nat, k: nat, t: int, unused: int, dummy: int)
    requires e.Unused? ==> t == unused
    requires e.Dummy? ==> t == dummy
    ensures var x' := if e.Active? then Bitwise(Xor, x, t) else x;
      var u, d := IfOdd(if e.Unused? then n + 1 else n, unused), IfOdd(if e.Dummy? then k + 1 else k, dummy);
      Bitwise(Xor, Bitwise(Xor, x', u), d) ==
        Bitwise(Xor, Bitwise(Xor, Bitwise(Xor, x, IfOdd(n, unused)), IfOdd(k, dummy)), t)
  {
    XorMovesOut(x, t, IfOdd(n, unused), IfOdd(k, dummy));
    OneMoreOdd(n, unused);
    OneMoreOdd(k, dummy);
  }

  lemma TakenOut(x: int, n: nat, t: int)
    ensures Bitwise(Xor, Bitwise(Xor, x, IfOdd(n, t)), IfOdd(n, t)) == x
  {
    XorAssociates(x, IfOdd(n, t), IfOdd(n, t));
    Units(IfOdd(n, t));
    Units(x);
  }

  /** The effect of unused and deleted entries is removed. */
  lemma OnlyActive(table: seq<Entry>, unused: int, dummy: int, m: nat)
    ensures var x := TableXor(table, unused, dummy, m);
      Bitwise(Xor, Bitwise(Xor, x, IfOdd(Unuseds(table), unused)), IfOdd(Dummies(table), dummy))
        == XorOfTerms(ActiveHashes(table), m)
  {
    var x := XorOfTerms(ActiveHashes(table), m);
    var u, d := IfOdd(Unuseds(table), unused), IfOdd(Dummies(table), dummy);
    XorLastTwo(Bitwise(Xor, x, u), d, u);
    TakenOut(x, Unuseds(table), unused);
    TakenOut(x, Dummies(table), dummy);
  }

  lemma TableStart(unused: int, dummy: int, m: nat)
    ensures TableXor([], unused, dummy, m) == 0
  {
    Units(0);
  }

  /** What the entries contribute that are not active */
  ghost predicate Contribute(unused: int, dummy: int, m: nat) {
    forall e: Entry {:trigger TermOf(e, m)} ::
      (e.Unused? ==> TermOf(e, m) == unused) && (e.Dummy? ==> TermOf(e, m) == dummy)
  }

  lemma EntryContributes(e: Entry, unused: int, dummy: int, m: nat)
    requires Contribute(unused, dummy, m)
    ensures e.Active? ==> TermOf(e, m) == Masked(Term(e.hash), m)
    ensures e.Unused? ==> TermOf(e, m) == unused
    ensures e.Dummy? ==> TermOf(e, m) == dummy
  {
  }

  // ----- The hash -----

  /** One entry */
  method AddEntry(hash: int, e: Entry, m: nat) returns (r: int)
    ensures r == Bitwise(Xor, hash, TermOf(e, m))
  {
    ShuffleIsTerm(HashField(e), m);
    r := Bitwise(Xor, hash, ShuffleBits(Word(HashField(e), m + 1), m + 1));
  }

  /** The loop over the table */
  method ShuffleTable(table: seq<Entry>, ghost unused: int, ghost dummy: int, m: nat) returns (hash: int)
    requires Contribute(unused, dummy, m)
    ensures hash == TableXor(table, unused, dummy, m)
  {
    hash := 0;
    TableStart(unused, dummy, m);
    for i := 0 to |table|
      invariant hash == TableXor(table[..i], unused, dummy, m)
    {
      assert table[..i + 1] == table[..i] + [table[i]];
      EntryContributes(table[i], unused, dummy, m);
      OneMoreEntry(table[..i], table[i], TermOf(table[i], m), unused, dummy, m);
      hash := AddEntry(hash, table[i], m);
    }
    assert table[..|table|] == table;
  }

  /** Entries are removed whose number is odd. */
  method RemoveOdd(hash: int, n: nat, e: Entry, ghost unused: int, ghost dummy: int, m: nat) returns (r: int)
    requires Contribute(unused, dummy, m) && !e.Active?
    ensures r == Bitwise(Xor, hash, IfOdd(n, if e.Unused? then unused else dummy))
  {
    r := hash;
    Units(hash);
    if n % 2 == 1 {
      EntryContributes(e, unused, dummy, m);
      r := AddEntry(r, e, m);
    }
  }

  /** The whole table, without the effect of unused and deleted entries */
  method HashTable(table: seq<Entry>, ghost unused: int, ghost dummy: int, m: nat) returns (hash: int)
    requires Contribute(unused, dummy, m)
    ensures hash == XorOfTerms(ActiveHashes(table), m)
  {
    var used := |ActiveHashes(table)|;
    var fill := used + Dummies(table);
    EntriesCount(table);
    OnlyActive(table, unused, dummy, m);
    hash := ShuffleTable(table, unused, dummy, m);
    hash := RemoveOdd(hash, |table| - fill, Unused, unused, dummy, m);
    hash := RemoveOdd(hash, fill - used, Dummy, unused, dummy, m);
  }

  lemma Contributions(m: nat) returns (unused: int, dummy: int)
    ensures Contribute(unused, dummy, m)
  {
    var u, d := Unused, Dummy;
    unused, dummy := TermOf(u, m), TermOf(d, m);
  }

  /** The number of active entries */
  method AddSize(hash: int, used: nat, m: nat) returns (r: int)
    ensures r == Bitwise(Xor, Start(used, m), hash)
  {
    MaskedIsWord(Times(used + 1, 1927868237), m);
    XorCommutes(hash, Start(used, m));
    r := Bitwise(Xor, hash, Word(Times(used + 1, 1927868237), m + 1));
  }

  /** `frozenset_hash_impl` on words of m + 1 bits: for every table it is the hash that `Set._hash` computes from the
      hashes of the elements in the table. */
  method FrozensetHash(table: seq<Entry>, m: nat) returns (r: int)
    requires m >= 30
    ensures r == HashOf(ActiveHashes(table), m)
  {
    ghost var unused, dummy := Contributions(m);
    var hash := HashTable(table, unused, dummy, m);
    hash := AddSize(hash, |ActiveHashes(table)|, m);
    FinishIsLastWord(hash, m);
    hash := LastBits(hash, 11, 25, 69069, 907133923, m);
    r := Replaced(hash, m);
  }

  /** The last steps, on words */
  function LastBits(h: int, i: nat, j: nat, q: int, c: int, m: nat): (w: int)
    ensures 0 <= w < Pow(2, m + 1) && Signed(w, m) == LastSteps(h, i, j, q, c, m)
  {
    Word(Times(Disperse(h, i, j), q) + c, m + 1)
  }

  /** The word of all ones is reserved, and words are read as signed numbers. */
  method Replaced(hash: int, m: nat) returns (r: int)
    requires m >= 30 && 0 <= hash < Pow(2, m + 1)
    ensures r == if Signed(hash, m) == -1 then 590923713 else Signed(hash, m)
  {
    MinusOne(m);
    WordsHoldTheSubstitute(m);
    var h := hash;
    if h == Word(-1, m + 1) {
      h := 590923713;
    }
    r := Signed(h, m);
  }

  lemma MinusOne(m: nat)
    ensures Word(-1, m + 1) == Pow(2, m + 1) - 1
  {
    DivModUnique(-1, Pow(2, m + 1), -1, Pow(2, m + 1) - 1);
  }
}
