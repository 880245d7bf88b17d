/** The unit of transfer: a file is cut into pieces of 1024 bytes, numbered from 0.
    Piece numbers and byte offsets are 32-bit in the program, so every product the program
    forms is wrapped here by Wrap32. */
module Pieces {
  type Byte = bv8

  /** uint32_t arithmetic. */
  function Wrap32(x: nat): nat { x % 0x1_0000_0000 }

  /** The byte offset of piece k. */
  function Offset(k: nat): nat { 1024 * k }

  /** The number of non-empty pieces of f. */
  function PieceCount(f: seq<Byte>): nat { (|f| + 1023) / 1024 }

  /** The bytes of piece k; empty from PieceCount(f) on. */
  function Piece(f: seq<Byte>, k: nat): seq<Byte> {
    if Offset(k) >= |f| then []
    else if Offset(k + 1) <= |f| then f[Offset(k)..Offset(k + 1)]
    else f[Offset(k)..]
  }

  /** The files a receiver accepts: non-empty (the server refuses empty ones) and within the size
      check, whose bound UINT32_MAX * 1024 is computed in 32 bits. */
  predicate Accepted(f: seq<Byte>) { 0 < |f| <= Wrap32(0xFFFF_FFFF * 1024) }

  function Zeros(n: nat): (z: seq<Byte>)
    ensures |z| == n && forall i :: 0 <= i < n ==> z[i] == 0
  {
    seq(n, i => 0)
  }

  /** The numbers from a up to, but not including, b. */
  function Span(a: nat, b: nat): (s: set<nat>)
    ensures forall i :: i in s <==> a <= i < b
  {
    if a >= b then {} else Span(a, b - 1) + {b - 1}
  }

  lemma PieceSize(f: seq<Byte>, k: nat)
    ensures |Piece(f, k)| <= 1024
    ensures k < PieceCount(f) <==> Piece(f, k) != []
    ensures k + 1 < PieceCount(f) ==> |Piece(f, k)| == 1024
    ensures k < PieceCount(f) ==> Offset(k) + |Piece(f, k)| == if k + 1 < PieceCount(f) then Offset(k + 1) else |f|
  {
  }

  /** The wrapped size check accepts a file exactly when it is shorter than 2^32 - 1023 bytes, and then
      every offset of a piece up to and including the empty one after the last fits 32 bits. */
  lemma AcceptedOffsetsFit(f: seq<Byte>)
    ensures Accepted(f) <==> 0 < |f| <= 0x1_0000_0000 - 1024
    ensures Accepted(f) <==> 0 < |f| && PieceCount(f) < 0x40_0000
    ensures Accepted(f) ==> forall k: nat :: k <= PieceCount(f) ==> Wrap32(Offset(k)) == Offset(k)
  {
  }

  /** Wrapping an offset wraps the piece number at 2^22. */
  lemma WrappedOffset(k: nat)
    ensures Wrap32(Offset(k)) == Offset(k % 0x40_0000)
  {
    var q, r := k / 0x40_0000, k % 0x40_0000;
    assert Offset(k) == q * 0x1_0000_0000 + Offset(r);
  }
}
