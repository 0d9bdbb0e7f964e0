/** Big-endian unsigned integers as byte sequences, with the truncation of a narrowing store. */
module BigEndian {

  type byte = x: int | 0 <= x < 256

  function Pow256(n: nat): (p: nat)
    ensures p > 0
  {
    if n == 0 then 1 else 256 * Pow256(n - 1)
  }

  /** The `n` low-order bytes of `v`, most significant first. */
  function Be(v: nat, n: nat): (s: seq<byte>)
    ensures |s| == n
  {
    if n == 0 then [] else Be(v / 256, n - 1) + [v % 256]
  }

  function FromBe(s: seq<byte>): nat {
    if s == [] then 0 else FromBe(s[..|s| - 1]) * 256 + s[|s| - 1]
  }

  /** Storing and loading returns the value whenever it fits the width. */
  lemma {:induction false} FromBeOfBe(v: nat, n: nat)
    requires v < Pow256(n)
    ensures FromBe(Be(v, n)) == v
  {
    if n > 0 {
      FromBeOfBe(v / 256, n - 1);
      assert Be(v, n)[..n - 1] == Be(v / 256, n - 1);
    }
  }

  /** Loading and storing returns the bytes, and the loaded value fits the width. */
  lemma {:induction false} BeOfFromBe(s: seq<byte>)
    ensures FromBe(s) < Pow256(|s|) && Be(FromBe(s), |s|) == s
  {
    if s != [] {
      var front := s[..|s| - 1];
      BeOfFromBe(front);
      assert FromBe(s) / 256 == FromBe(front) && FromBe(s) % 256 == s[|s| - 1];
      assert s == front + [s[|s| - 1]];
    }
  }

  lemma Widths()
    ensures Pow256(1) == 0x100
    ensures Pow256(2) == 0x1_0000
    ensures Pow256(3) == 0x100_0000
    ensures Pow256(4) == 0x1_0000_0000
    ensures Pow256(8) == 0x1_0000_0000_0000_0000
  {
    assert Pow256(4) == 256 * Pow256(3);
    assert Pow256(6) == 256 * Pow256(5) == 256 * (256 * Pow256(4));
    assert Pow256(8) == 256 * Pow256(7) == 256 * (256 * Pow256(6));
  }

  // ------------------------------------------------------------------ byte by byte

  function Read2(s: seq<byte>, at: nat): nat
    requires at + 2 <= |s|
  {
    s[at] as int * 0x100 + s[at + 1] as int
  }

  function Read3(s: seq<byte>, at: nat): nat
    requires at + 3 <= |s|
  {
    s[at] as int * 0x1_0000 + s[at + 1] as int * 0x100 + s[at + 2] as int
  }

  function Read4(s: seq<byte>, at: nat): nat
    requires at + 4 <= |s|
  {
    0x1_0000 * Read2(s, at) + Read2(s, at + 2)
  }

  function Read8(s: seq<byte>, at: nat): nat
    requires at + 8 <= |s|
  {
    0x1_0000_0000 * Read4(s, at) + Read4(s, at + 4)
  }

  /** Numbers are read with the first byte as the most significant one. */
  lemma ReadIsFromBe(s: seq<byte>, at: nat)
    ensures at + 2 <= |s| ==> FromBe(s[at..at + 2]) == Read2(s, at)
    ensures at + 3 <= |s| ==> FromBe(s[at..at + 3]) == Read3(s, at)
    ensures at + 4 <= |s| ==> FromBe(s[at..at + 4]) == Read4(s, at)
    ensures at + 8 <= |s| ==> FromBe(s[at..at + 8]) == Read8(s, at)
  {
    if at + 2 <= |s| { UpTo4(s, at, 2); }
    if at + 3 <= |s| { UpTo4(s, at, 3); }
    if at + 4 <= |s| { UpTo4(s, at, 4); }
    if at + 8 <= |s| { EightBytes(s, at); }
  }

  lemma EightBytes(s: seq<byte>, at: nat)
    requires at + 8 <= |s|
    ensures FromBe(s[at..at + 8]) == Read8(s, at)
  {
    hide FromBe;
    UpTo4(s, at, 4);
    OneByteMore(s, at, 4);
    OneByteMore(s, at, 5);
    OneByteMore(s, at, 6);
    OneByteMore(s, at, 7);
  }

  lemma OneByteMore(s: seq<byte>, at: nat, n: nat)
    requires at + n + 1 <= |s|
    ensures FromBe(s[at..at + n + 1]) == 256 * FromBe(s[at..at + n]) + s[at + n]
  {
    assert s[at..at + n + 1][..n] == s[at..at + n];
  }

  lemma UpTo4(s: seq<byte>, at: nat, n: nat)
    requires 2 <= n <= 4 && at + n <= |s|
    ensures FromBe(s[at..at + n]) == if n == 2 then Read2(s, at) else if n == 3 then Read3(s, at) else Read4(s, at)
  {
    hide FromBe;
    FromNothing();
    assert s[at..at] == [];
    OneByteMore(s, at, 0);
    OneByteMore(s, at, 1);
    if n > 2 { OneByteMore(s, at, 2); }
    if n > 3 { OneByteMore(s, at, 3); }
  }

  lemma FromNothing()
    ensures FromBe([]) == 0
  {
  }

  /** Writing a number that fits and reading it where it was written gives it back. */
  lemma ReadWritten(s: seq<byte>, at: nat, v: nat, n: nat)
    requires at + n <= |s| && s[at..at + n] == Be(v, n) && v < Pow256(n) && n in {2, 3, 4, 8}
    ensures v == if n == 2 then Read2(s, at) else if n == 3 then Read3(s, at)
                 else if n == 4 then Read4(s, at) else Read8(s, at)
  {
    FromBeOfBe(v, n);
    hide Be, FromBe, Pow256, Read2, Read3, Read4, Read8;
    ReadIsFromBe(s, at);
  }

  /** And bytes that read as a number are the ones written for it. */
  lemma WrittenIfRead(s: seq<byte>, at: nat, v: nat, n: nat)
    requires at + n <= |s| && n in {2, 3, 4, 8}
    requires v == if n == 2 then Read2(s, at) else if n == 3 then Read3(s, at)
                  else if n == 4 then Read4(s, at) else Read8(s, at)
    ensures s[at..at + n] == Be(v, n) && v < Pow256(n)
  {
    BeOfFromBe(s[at..at + n]);
    hide Be, FromBe, Pow256, Read2, Read3, Read4, Read8;
    ReadIsFromBe(s, at);
  }

  /** Writes bytes from the last towards the first, shifting the value right by eight each time. */
  method StoreBe(out: array<byte>, at: nat, width: nat, value: nat)
    requires at + width <= out.Length
    modifies out
    ensures out[..] == old(out[..at]) + Be(value, width) + old(out[at + width..])
  {
    var v: nat, i: nat := value, width;
    assert out[..] == out[..at + i] + Be(v, 0) + out[at + i..];
    while i > 0
      invariant i <= width
      invariant out[..at + i] == old(out[..at + i])
      invariant Be(value, width) == Be(v, i) + out[at + i..at + width]
      invariant out[at + width..] == old(out[at + width..])
    {
      i := i - 1;
      out[at + i] := v % 256;
      assert out[at + i..at + width] == [v % 256] + out[at + i + 1..at + width];
      v := v / 256;
    }
    assert out[..] == out[..at] + out[at..at + width] + out[at + width..];
  }

  /** Stores at the end of what has been written so far. */
  method StoreNext(out: array<byte>, at: nat, width: nat, value: nat)
    requires at + width <= out.Length
    modifies out
    ensures out[..at + width] == old(out[..at]) + Be(value, width)
  {
    hide Be;
    StoreBe(out, at, width, value);
    assert out[..at + width] == out[..][..at + width];
  }

  /** Copies to the end of what has been written so far. */
  method CopyNext(out: array<byte>, at: nat, data: seq<byte>)
    requires at + |data| <= out.Length
    modifies out
    ensures out[..at + |data|] == old(out[..at]) + data
  {
    forall k | 0 <= k < |data| { out[at + k] := data[k]; }
    assert out[..at] == old(out[..at]);
    assert out[at..at + |data|] == data;
  }

  /** Shifts the accumulator left by eight and adds the next byte. */
  method LoadBe(bytes: seq<byte>) returns (value: nat)
    ensures value == FromBe(bytes)
  {
    value := 0;
    for i := 0 to |bytes|
      invariant value == FromBe(bytes[..i])
    {
      assert bytes[..i + 1][..i] == bytes[..i];
      value := value * 256 + bytes[i];
    }
    assert bytes[..|bytes|] == bytes;
  }
}
