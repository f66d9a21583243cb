/**
 Machine words as Go computes them: unsigned values that wrap on overflow, and the
 big-endian byte order of `encoding/binary`.
 */
module Words {

  type uint8 = x: int | 0 <= x < 0x100

  type uint16 = x: int | 0 <= x < 0x1_0000

  type uint32 = x: int | 0 <= x < 0x1_0000_0000

  /** `a + b` on uint32 operands. */
  function Add32(a: uint32, b: uint32): uint32 {
    (a + b) % 0x1_0000_0000
  }

  /** `a - b` on uint32 operands; Dafny's `%` is never negative, so this wraps as Go does. */
  function Sub32(a: uint32, b: uint32): uint32 {
    (a - b) % 0x1_0000_0000
  }

  /** The conversion `uint16(n)`, which keeps the low sixteen bits. */
  function ToUint16(n: nat): uint16 {
    n % 0x1_0000
  }

  /** `binary.BigEndian.PutUint32` on a fresh four-byte slice. */
  function PutUint32(n: uint32): (b: seq<uint8>)
    ensures |b| == 4
  {
    [n / 0x100_0000, n / 0x1_0000 % 0x100, n / 0x100 % 0x100, n % 0x100]
  }

  /** `binary.BigEndian.Uint32`, which reads the first four bytes. */
  function Uint32(b: seq<uint8>): uint32
    requires |b| >= 4
  {
    (b[0] as int) * 0x100_0000 + (b[1] as int) * 0x1_0000 + (b[2] as int) * 0x100 + b[3]
  }

  /** `binary.BigEndian.PutUint16` on a fresh two-byte slice. */
  function PutUint16(n: uint16): (b: seq<uint8>)
    ensures |b| == 2
  {
    [n / 0x100, n % 0x100]
  }

  /** `binary.BigEndian.Uint16`, which reads the first two bytes. */
  function Uint16(b: seq<uint8>): uint16
    requires |b| >= 2
  {
    (b[0] as int) * 0x100 + b[1]
  }

  lemma Uint32RoundTrip(n: uint32)
    ensures Uint32(PutUint32(n)) == n
  {
    assert n / 0x1_0000 == n / 0x100_0000 * 0x100 + n / 0x1_0000 % 0x100;
    assert n / 0x100 == n / 0x1_0000 * 0x100 + n / 0x100 % 0x100;
  }

  /** Four bytes and their integer determine each other. */
  lemma PutUint32RoundTrip(b: seq<uint8>)
    requires |b| == 4
    ensures PutUint32(Uint32(b)) == b
  {
    var n := Uint32(b);
    assert n / 0x100 == (b[0] as int) * 0x1_0000 + (b[1] as int) * 0x100 + b[2];
    assert n / 0x1_0000 == (b[0] as int) * 0x100 + b[1];
    assert n / 0x100_0000 == b[0];
  }

  lemma Uint16RoundTrip(n: uint16)
    ensures Uint16(PutUint16(n)) == n
  {
  }

  /** The order of equally long byte strings: the first byte in which they differ decides. */
  predicate Before(a: seq<uint8>, b: seq<uint8>) {
    exists k :: 0 <= k < |a| && k < |b| && a[..k] == b[..k] && a[k] < b[k]
  }

  /** The first byte weighs most: numbers are ordered as their bytes are. */
  lemma Uint32IsBigEndian(a: seq<uint8>, b: seq<uint8>)
    requires |a| == |b| == 4
    ensures Uint32(a) < Uint32(b) <==> Before(a, b)
  {
    var k := FirstDifference(a, b);
    if Before(a, b) {
      var j :| 0 <= j < |a| && j < |b| && a[..j] == b[..j] && a[j] < b[j];
      assert forall i | 0 <= i < j :: a[i] == a[..j][i] == b[..j][i] == b[i];
    }
  }

  lemma Uint16IsBigEndian(a: seq<uint8>, b: seq<uint8>)
    requires |a| == |b| == 2
    ensures Uint16(a) < Uint16(b) <==> Before(a, b)
  {
    var k := FirstDifference(a, b);
    if Before(a, b) {
      var j :| 0 <= j < |a| && j < |b| && a[..j] == b[..j] && a[j] < b[j];
      assert forall i | 0 <= i < j :: a[i] == a[..j][i] == b[..j][i] == b[i];
    }
  }

  lemma FirstDifference(a: seq<uint8>, b: seq<uint8>) returns (k: nat)
    requires |a| == |b|
    ensures k <= |a| && a[..k] == b[..k] && (k < |a| ==> a[k] != b[k])
    ensures k < |a| && a[k] < b[k] ==> Before(a, b)
    ensures k == |a| ==> a == b
  {
    k := 0;
    while k < |a| && a[k] == b[k]
      invariant k <= |a| && a[..k] == b[..k]
    {
      k := k + 1;
    }
    if k == |a| {
      assert a == a[..k] == b[..k] == b;
    }
  }
}
