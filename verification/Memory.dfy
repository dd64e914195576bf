/** Process memory as a finite map from mapped addresses to bytes; anything else faults. */
module ProcessMemory {
  import opened Words

  type Memory = map<U64, Byte>

  /** All `n` bytes from `a` (wrapping at the top of the address space) are mapped. */
  predicate Mapped(m: Memory, a: U64, n: nat)
    decreases n, a
  {
    n == 0 || (a in m && Mapped(m, Wrap(a + 1), n - 1))
  }

  /** Little-endian load of `n` bytes. */
  function Load(m: Memory, a: U64, n: nat): (v: nat)
    requires Mapped(m, a, n)
    ensures v < Pow256(n)
    decreases n, a
  {
    if n == 0 then 0 else m[a] + 0x100 * Load(m, Wrap(a + 1), n - 1)
  }

  function Load64(m: Memory, a: U64): U64
    requires Mapped(m, a, 8)
  {
    Pow256Values();
    Load(m, a, 8)
  }

  function Load32(m: Memory, a: U64): (v: U64)
    requires Mapped(m, a, 4)
    ensures v < 0x1_0000_0000
  {
    Pow256Values();
    Load(m, a, 4)
  }

  /** Little-endian store of the `n` low bytes of `v`. */
  function Store(m: Memory, a: U64, n: nat, v: nat): (m': Memory)
    requires Mapped(m, a, n)
    ensures m'.Keys == m.Keys
    decreases n, a
  {
    if n == 0 then m
    else
      MappedSameKeys(m, m[a := v % 0x100], Wrap(a + 1), n - 1);
      Store(m[a := v % 0x100], Wrap(a + 1), n - 1, v / 0x100)
  }

  lemma MappedSameKeys(m: Memory, m': Memory, a: U64, n: nat)
    requires m.Keys <= m'.Keys && Mapped(m, a, n)
    ensures Mapped(m', a, n)
    decreases n, a
  {
  }

  /** Stores neither map nor unmap anything. */
  lemma SameMapping(m: Memory, a: U64, n: nat, v: nat, b: U64, k: nat)
    requires Mapped(m, a, n)
    ensures Mapped(Store(m, a, n, v), b, k) == Mapped(m, b, k)
  {
    if Mapped(m, b, k) {
      MappedSameKeys(m, Store(m, a, n, v), b, k);
    }
    if Mapped(Store(m, a, n, v), b, k) {
      MappedSameKeys(Store(m, a, n, v), m, b, k);
    }
  }

  /** `x` is none of the `n` addresses starting at `a`. */
  predicate Outside(x: U64, a: U64, n: nat)
    decreases n, a
  {
    n == 0 || (x != a && Outside(x, Wrap(a + 1), n - 1))
  }

  /** The `n` addresses from `a` and the `k` addresses from `b` have none in common. */
  predicate Apart(a: U64, n: nat, b: U64, k: nat)
    decreases n, a
  {
    n == 0 || (Outside(a, b, k) && Apart(Wrap(a + 1), n - 1, b, k))
  }

  lemma OutsideByDistance(x: U64, a: U64, n: nat)
    requires Wrap(x - a) >= n
    ensures Outside(x, a, n)
    decreases n, a
  {
    if n > 0 {
      OutsideByDistance(x, Wrap(a + 1), n - 1);
    }
  }

  lemma ApartByDistance(a: U64, n: nat, b: U64, k: nat)
    requires n == 0 || (k <= Wrap(a - b) && Wrap(a - b) + n <= 0x1_0000_0000_0000_0000)
    ensures Apart(a, n, b, k)
    decreases n, a
  {
    if n > 0 {
      OutsideByDistance(a, b, k);
      ApartByDistance(Wrap(a + 1), n - 1, b, k);
    }
  }

  /** A store leaves every byte outside its footprint alone. */
  lemma {:induction false} StoreFrame(m: Memory, a: U64, n: nat, v: nat, x: U64)
    requires Mapped(m, a, n) && x in m && Outside(x, a, n)
    ensures Store(m, a, n, v)[x] == m[x]
    decreases n, a
  {
    if n > 0 {
      MappedSameKeys(m, m[a := v % 0x100], Wrap(a + 1), n - 1);
      StoreFrame(m[a := v % 0x100], Wrap(a + 1), n - 1, v / 0x100, x);
    }
  }

  /** A load apart from a store's footprint does not see the store. */
  lemma {:induction false} LoadApart(m: Memory, a: U64, n: nat, v: nat, b: U64, k: nat)
    requires Mapped(m, a, n) && Mapped(m, b, k) && Apart(b, k, a, n)
    ensures Mapped(Store(m, a, n, v), b, k)
    ensures Load(Store(m, a, n, v), b, k) == Load(m, b, k)
    decreases k
  {
    if k > 0 {
      StoreFrame(m, a, n, v, b);
      LoadApart(m, a, n, v, Wrap(b + 1), k - 1);
    }
  }

  /** Loading what was just stored gives the stored value back. */
  lemma {:induction false} LoadStored(m: Memory, a: U64, n: nat, v: nat)
    requires Mapped(m, a, n) && n <= 8 && v < Pow256(n)
    ensures Mapped(Store(m, a, n, v), a, n)
    ensures Load(Store(m, a, n, v), a, n) == v
    decreases n, a
  {
    MappedSameKeys(m, Store(m, a, n, v), a, n);
    if n > 0 {
      var m' := m[a := v % 0x100];
      var next := Wrap(a + 1);
      assert Wrap(a - next) >= n - 1;
      hide Wrap;
      MappedSameKeys(m, m', next, n - 1);
      LoadStored(m', next, n - 1, v / 0x100);
      OutsideByDistance(a, next, n - 1);
      StoreFrame(m', next, n - 1, v / 0x100, a);
    }
  }

  /** Reads and writes of mapped data are unaffected by further memory mapped elsewhere. */
  lemma {:induction false} LoadExtends(d: Memory, c: Memory, a: U64, n: nat)
    requires d.Keys !! c.Keys && Mapped(d, a, n)
    ensures Mapped(d + c, a, n) && Load(d + c, a, n) == Load(d, a, n)
    decreases n, a
  {
    if n > 0 {
      LoadExtends(d, c, Wrap(a + 1), n - 1);
    }
  }

  lemma {:induction false} StoreExtends(d: Memory, c: Memory, a: U64, n: nat, v: nat)
    requires d.Keys !! c.Keys && Mapped(d, a, n)
    ensures Mapped(d + c, a, n)
    ensures Store(d + c, a, n, v) == Store(d, a, n, v) + c
    decreases n, a
  {
    LoadExtends(d, c, a, n);
    if n > 0 {
      var d' := d[a := v % 0x100];
      MappedSameKeys(d, d', Wrap(a + 1), n - 1);
      assert (d + c)[a := v % 0x100] == d' + c;
      StoreExtends(d', c, Wrap(a + 1), n - 1, v / 0x100);
    }
  }
}
