/**
 * Bytes of memory and flash, and the value of a run of them read as one
 * little-endian (host-order on ARM) machine word.
 */
module Bytes {

  /** An octet. */
  type byte = x: int | 0 <= x < 256

  /** The value of bytes read as a little-endian word. */
  function LittleEndian(bytes: seq<byte>): nat
  {
    if bytes == [] then 0 else bytes[0] + 256 * LittleEndian(bytes[1..])
  }

  lemma UnfoldStep(b: seq<byte>, i: nat)
    requires i < |b|
    ensures LittleEndian(b[i..]) == b[i] + 256 * LittleEndian(b[i + 1..])
  {
    assert b[i..][1..] == b[i + 1..];
  }

  function Pow256(n: nat): (r: nat)
    ensures r > 0
  {
    if n == 0 then 1 else 256 * Pow256(n - 1)
  }

  /** n bytes hold a value below 256^n. */
  lemma {:induction false} LittleEndianBound(b: seq<byte>)
    ensures LittleEndian(b) < Pow256(|b|)
  {
    if b != [] {
      LittleEndianBound(b[1..]);
    }
  }

  /** A word is zero exactly when every byte of it is. */
  lemma {:induction false} ZeroWord(b: seq<byte>)
    ensures LittleEndian(b) == 0 <==> forall k :: 0 <= k < |b| ==> b[k] == 0
  {
    if b != [] {
      var rest := b[1..];
      ZeroWord(rest);
      if LittleEndian(b) == 0 {
        forall k | 0 < k < |b| ensures b[k] == 0 {
          assert b[k] == rest[k - 1];
        }
      }
      if forall k :: 0 <= k < |b| ==> b[k] == 0 {
        assert forall k :: 0 <= k < |rest| ==> rest[k] == b[k + 1];
      }
    }
  }

  /** A word has all its bits set exactly when every byte of it is 0xff. */
  lemma {:induction false} AllOnesWord(b: seq<byte>)
    ensures LittleEndian(b) == Pow256(|b|) - 1 <==> forall k :: 0 <= k < |b| ==> b[k] == 0xff
  {
    if b != [] {
      var rest := b[1..];
      AllOnesWord(rest);
      LittleEndianBound(rest);
      var n := Pow256(|rest|);
      var v := LittleEndian(rest);
      assert Pow256(|b|) - 1 == 255 + 256 * (n - 1);
      if LittleEndian(b) == Pow256(|b|) - 1 {
        // b[0] + 256 * v == 255 + 256 * (n - 1), with b[0] <= 255 and v <= n - 1
        assert 256 * v >= 256 * (n - 1);
        assert v == n - 1 && b[0] == 0xff;
        forall k | 0 < k < |b| ensures b[k] == 0xff {
          assert b[k] == rest[k - 1];
        }
      }
      if forall k :: 0 <= k < |b| ==> b[k] == 0xff {
        assert forall k :: 0 <= k < |rest| ==> rest[k] == b[k + 1];
      }
    }
  }
}
