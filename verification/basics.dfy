/** Shared value types, machine-integer ranges and byte-string helpers. */
module Basics {

  newtype byte = x: int | 0 <= x < 0x100
  type Bytes = seq<byte>
  type u16 = x: nat | x < 0x1_0000
  type u32 = x: nat | x < 0x1_0000_0000
  type u64 = x: nat | x < 0x1_0000_0000_0000_0000

  const U64_MAX: u64 := 0xFFFF_FFFF_FFFF_FFFF

  datatype Option<+T> = None | Some(value: T)

  datatype Result<+T, +E> = Ok(value: T) | Err(error: E)

  /** The elements of a list of lists, in order. */
  function Flatten<T>(xss: seq<seq<T>>): seq<T> {
    if xss == [] then [] else xss[0] + Flatten(xss[1..])
  }

  lemma Associate<T>(a: seq<T>, b: seq<T>, c: seq<T>)
    ensures (a + b) + c == a + (b + c)
  {
  }

  lemma Regroup<T>(a: seq<T>, head: seq<T>, tail: seq<T>, b: seq<T>)
    ensures a + (head + tail) + b == a + head + (tail + b)
  {
  }

  lemma SliceOfSlice<T>(s: seq<T>, lo: nat, hi: nat, i: nat, j: nat)
    requires i <= j && lo + j <= hi <= |s|
    ensures s[lo..hi][i..j] == s[lo + i..lo + j]
  {
    var a, b := s[lo..hi][i..j], s[lo + i..lo + j];
    assert |a| == |b|;
    assert forall k :: 0 <= k < |a| ==> a[k] == s[lo + i + k] == b[k];
  }

  lemma SubsetSize<T>(a: set<T>, b: set<T>)
    requires a <= b
    ensures |a| <= |b|
  {
    assert b == a + (b - a);
  }

  function Zeros(n: nat): (z: Bytes)
    ensures |z| == n && forall i :: 0 <= i < n ==> z[i] == 0
  {
    seq(n, _ => 0)
  }

  /** Big-endian byte strings, as written by `to_be_bytes`. */
  function Be16(v: u16): (b: Bytes)
    ensures |b| == 2
  {
    [(v / 0x100) as byte, (v % 0x100) as byte]
  }

  function FromBe16(b: Bytes): u16
    requires |b| == 2
  {
    b[0] as int * 0x100 + b[1] as int
  }

  function Be32(v: u32): (b: Bytes)
    ensures |b| == 4
  {
    Be16(v / 0x1_0000) + Be16(v % 0x1_0000)
  }

  function FromBe32(b: Bytes): u32
    requires |b| == 4
  {
    FromBe16(b[..2]) * 0x1_0000 + FromBe16(b[2..])
  }

  lemma FromBe32RoundTrip(b: Bytes)
    requires |b| == 4
    ensures Be32(FromBe32(b)) == b
  {
    var hi, lo := FromBe16(b[..2]), FromBe16(b[2..]);
    assert FromBe32(b) / 0x1_0000 == hi && FromBe32(b) % 0x1_0000 == lo;
    FromBe16RoundTrip(b[..2]);
    FromBe16RoundTrip(b[2..]);
  }

  lemma FromBe16RoundTrip(b: Bytes)
    requires |b| == 2
    ensures Be16(FromBe16(b)) == b
  {
  }

  /** The most significant byte comes first. */
  lemma BigEndian(v: u32)
    ensures var b := Be32(v);
            v == b[0] as int * 0x100_0000 + b[1] as int * 0x1_0000 + b[2] as int * 0x100 + b[3] as int
    ensures v < 0x1_0000 ==> v == Be16(v)[0] as int * 0x100 + Be16(v)[1] as int
  {
  }

  lemma Be16RoundTrip(v: u16)
    ensures FromBe16(Be16(v)) == v
  {
  }

  lemma Be32RoundTrip(v: u32)
    ensures FromBe32(Be32(v)) == v
  {
    var hi, lo := v / 0x1_0000, v % 0x1_0000;
    assert Be32(v)[..2] == Be16(hi) && Be32(v)[2..] == Be16(lo);
  }
}
