/** Bytes, 64-bit words and the little-endian encodings the patch engine writes. */
module Words {

  type Byte = x: int | 0 <= x < 0x100
  type U64 = x: int | 0 <= x < 0x1_0000_0000_0000_0000

  /** Reduction of an address or a 64-bit result to a machine word. */
  function Wrap(x: int): (r: U64)
    ensures 0 <= x < 0x1_0000_0000_0000_0000 ==> r == x
  {
    x % 0x1_0000_0000_0000_0000
  }

  lemma WrapAdd(x: int, y: int)
    ensures Wrap(Wrap(x) + y) == Wrap(x + y)
  {
  }

  lemma WrapSub(x: int, y: int)
    ensures Wrap(Wrap(x) - Wrap(y)) == Wrap(x - y)
  {
  }

  /** The `n` low bytes of `v`, least significant first. */
  function LittleEndian(v: int, n: nat): (bytes: seq<Byte>)
    ensures |bytes| == n
    decreases n, if v < 0 then -v else v
  {
    if n == 0 then [] else [v % 0x100] + LittleEndian(v / 0x100, n - 1)
  }

  /** The unsigned value of a little-endian byte string. */
  function FromLittleEndian(bytes: seq<Byte>): (v: nat)
  {
    if bytes == [] then 0 else bytes[0] + 0x100 * FromLittleEndian(bytes[1..])
  }

  function Pow256(n: nat): (p: nat)
    ensures p > 0
  {
    if n == 0 then 1 else 0x100 * Pow256(n - 1)
  }

  lemma {:induction false} LittleEndianRoundTrip(v: nat, n: nat)
    requires v < Pow256(n)
    ensures FromLittleEndian(LittleEndian(v, n)) == v
  {
    if n > 0 {
      LittleEndianRoundTrip(v / 0x100, n - 1);
      assert LittleEndian(v, n)[1..] == LittleEndian(v / 0x100, n - 1);
    }
  }

  lemma {:induction false} FromLittleEndianInverts(bytes: seq<Byte>)
    ensures LittleEndian(FromLittleEndian(bytes), |bytes|) == bytes
  {
    if bytes != [] {
      FromLittleEndianInverts(bytes[1..]);
      assert (bytes[0] + 0x100 * FromLittleEndian(bytes[1..])) / 0x100 == FromLittleEndian(bytes[1..]);
      assert bytes == [bytes[0]] + bytes[1..];
    }
  }

  lemma Pow256Values()
    ensures Pow256(1) == 0x100 && Pow256(4) == 0x1_0000_0000 && Pow256(8) == 0x1_0000_0000_0000_0000
  {
    assert Pow256(2) == 0x1_0000;
    assert Pow256(3) == 0x100_0000;
    assert Pow256(4) == 0x1_0000_0000;
    assert Pow256(5) == 0x100_0000_0000;
    assert Pow256(6) == 0x1_0000_0000_0000;
    assert Pow256(7) == 0x100_0000_0000_0000;
  }

  /** Two's-complement reading of an unsigned field whose modulus is `modulus`. */
  function Signed(v: int, modulus: int): int
  {
    if 2 * v < modulus then v else v - modulus
  }

  lemma Associative<T>(a: seq<T>, b: seq<T>, c: seq<T>)
    ensures a + b + c == a + (b + c)
  {
  }

  /** An element found at two places is counted at least twice. */
  lemma CountedTwice<T>(s: seq<T>, i: nat, j: nat)
    requires i < j < |s| && s[i] == s[j]
    ensures multiset(s)[s[i]] >= 2
  {
    assert s == s[..j] + s[j..];
    assert s[..j][i] == s[i] && s[j..][0] == s[i];
    assert s[i] in multiset(s[..j]) && s[i] in multiset(s[j..]);
  }

  /** `s[at:at + |code|] = code`. */
  function Splice<T>(s: seq<T>, at: nat, code: seq<T>): (r: seq<T>)
    requires at + |code| <= |s|
    ensures |r| == |s|
  {
    s[..at] + code + s[at + |code|..]
  }

  lemma SpliceWithin<T>(s: seq<T>, t: seq<T>, at: nat, code: seq<T>)
    requires at + |code| <= |s|
    ensures Splice(s + t, at, code) == Splice(s, at, code) + t
  {
  }

  lemma SpliceTail<T>(s: seq<T>, t: seq<T>, code: seq<T>)
    requires |code| == |t|
    ensures Splice(s + t, |s|, code) == s + code
  {
  }
}
