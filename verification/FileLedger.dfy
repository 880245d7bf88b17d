/** What the receiver's file and counters say about the shared file f, whatever the order in which genuine pieces
    arrive. */
module FileLedger {
  import opened Pieces
  import opened GetFile

  /** b holds d at offset off. */
  predicate Holds(b: seq<Byte>, off: nat, d: seq<Byte>) {
    off + |d| <= |b| && b[off..off + |d|] == d
  }

  /** What slot k of the receiver's file should hold. */
  function Slot(f: seq<Byte>, loss: set<nat>, k: nat): seq<Byte> {
    if k in loss then Zeros(1024) else Piece(f, k)
  }

  /** The bytes of the received pieces below n. */
  function Received(f: seq<Byte>, loss: set<nat>, n: nat): nat {
    if n == 0 then 0 else Received(f, loss, n - 1) + if n - 1 in loss then 0 else |Piece(f, n - 1)|
  }

  /** The first n slots of b are right. */
  ghost predicate SlotsHold(f: seq<Byte>, b: seq<Byte>, loss: set<nat>, n: nat) {
    forall k: nat :: k < n && k < PieceCount(f) ==> Holds(b, Offset(k), Slot(f, loss, k))
  }

  /** The length of the file on disk. It can only differ from the obvious one once the empty piece N has arrived:
      if the gap before that piece took in a short last piece, the file is padded to a multiple of 1024. */
  predicate LengthFits(f: seq<Byte>, length: nat, pos: nat, cur: nat) {
    var n := PieceCount(f);
    && (cur < n ==> length == pos == Offset(cur))
    && (cur == n ==> length == |f|)
    && (cur > n ==> length == |f| || length == Offset(n))
  }

  /** Nothing but zeros is ever written past the end of f. */
  ghost predicate ZeroTail(f: seq<Byte>, b: seq<Byte>) {
    forall i :: |f| <= i < |b| ==> b[i] == 0
  }

  /** All pieces of f are on disk. */
  predicate Complete(f: seq<Byte>, w: Writer) { w.cur >= PieceCount(f) && w.loss == {} }

  ghost predicate Counted(f: seq<Byte>, w: Writer) {
    && w.size == |f|
    && w.cur <= PieceCount(f) + 1
    && (forall p :: p in w.loss ==> p < w.cur && p < PieceCount(f))
    && w.written == Received(f, w.loss, w.cur)
    && SlotsHold(f, w.out.bytes, w.loss, w.cur) && LengthFits(f, |w.out.bytes|, w.out.pos, w.cur)
    && ZeroTail(f, w.out.bytes)
  }

  /** The receiver's invariant; the stream is open until every piece is on disk. */
  ghost predicate Ledger(f: seq<Byte>, w: Writer) { Counted(f, w) && (w.open <==> !Complete(f, w)) }

  lemma {:induction false} ReceivedIgnores(f: seq<Byte>, a: set<nat>, b: set<nat>, n: nat)
    requires forall p :: p < n ==> (p in a <==> p in b)
    ensures Received(f, a, n) == Received(f, b, n)
  {
    if n == 0 {
    } else {
      ReceivedIgnores(f, a, b, n - 1);
    }
  }

  /** A gap adds nothing to the count. */
  lemma {:induction false} ReceivedOverGap(f: seq<Byte>, loss: set<nat>, a: nat, b: nat)
    requires a <= b && forall p :: a <= p < b ==> p in loss
    ensures Received(f, loss, b) == Received(f, loss, a)
  {
    if a == b {
    } else {
      ReceivedOverGap(f, loss, a, b - 1);
    }
  }

  /** Receiving a missing piece adds its size. */
  lemma {:induction false} ReceivedRestored(f: seq<Byte>, loss: set<nat>, p: nat, n: nat)
    requires p in loss && p < n
    ensures Received(f, loss - {p}, n) == Received(f, loss, n) + |Piece(f, p)|
  {
    if p == n - 1 {
      ReceivedIgnores(f, loss - {p}, loss, n - 1);
    } else {
      ReceivedRestored(f, loss, p, n - 1);
    }
  }

  function Size(f: seq<Byte>, n: nat): nat { if Offset(n) < |f| then Offset(n) else |f| }

  /** The count falls short of the bytes below n exactly when a non-empty piece below n is missing. */
  lemma {:induction false} ReceivedAll(f: seq<Byte>, loss: set<nat>, n: nat)
    ensures Received(f, loss, n) <= Size(f, n)
    ensures Received(f, loss, n) == Size(f, n) <==> forall p: nat :: p < n && p < PieceCount(f) ==> p !in loss
  {
    if n == 0 {
    } else {
      ReceivedAll(f, loss, n - 1);
      PieceSize(f, n - 1);
      assert Size(f, n) == Size(f, n - 1) + |Piece(f, n - 1)|;
      if n - 1 in loss {
        assert Received(f, loss, n) == Size(f, n) ==> Piece(f, n - 1) == [];
      }
    }
  }

  /** If every piece of f is in its slot, the file on disk starts with f. */
  lemma PiecesGiveFile(f: seq<Byte>, b: seq<Byte>)
    requires f != [] && forall k: nat :: k < PieceCount(f) ==> Holds(b, Offset(k), Piece(f, k))
    ensures |f| <= |b| && b[..|f|] == f
  {
    PieceSize(f, PieceCount(f) - 1);
    assert Holds(b, Offset(PieceCount(f) - 1), Piece(f, PieceCount(f) - 1));
    forall i | 0 <= i < |f| ensures b[i] == f[i] {
      PieceGivesByte(f, b, i / 1024, i);
    }
  }

  lemma PieceGivesByte(f: seq<Byte>, b: seq<Byte>, k: nat, i: nat)
    requires Offset(k) <= i < Offset(k + 1) && i < |f| && i < |b|
    requires Holds(b, Offset(k), Piece(f, k))
    ensures b[i] == f[i]
  {
    PieceSize(f, k);
    var d, j := Piece(f, k), i - Offset(k);
    assert d[j] == f[i] && b[Offset(k)..Offset(k) + |d|][j] == b[i];
  }

  /** Filling at the end of the file appends zeros. */
  lemma {:induction false} FillAppends(o: OutFile, n: nat)
    requires o.pos == |o.bytes|
    ensures o.Fill(n) == OutFile(o.bytes + Zeros(Offset(n)), |o.bytes| + Offset(n))
  {
    if n > 0 {
      FillAppends(o, n - 1);
      assert Zeros(Offset(n)) == Zeros(Offset(n - 1)) + Zeros(1024);
    } else {
      assert o.bytes + Zeros(0) == o.bytes;
    }
  }

  function Extended(b: seq<Byte>, gap: nat, d: seq<Byte>): (b': seq<Byte>)
    ensures |b'| == |b| + gap + |d|
  {
    b + Zeros(gap) + d
  }

  function Overwritten(b: seq<Byte>, off: nat, d: seq<Byte>): (b': seq<Byte>)
    requires off + |d| <= |b|
    ensures |b'| == |b|
  {
    b[..off] + d + b[off + |d|..]
  }

  lemma FillAndWrite(o: OutFile, n: nat, d: seq<Byte>)
    requires o.pos == |o.bytes| || (n == 0 && d == [])
    ensures o.Fill(n).Write(d).bytes == Extended(o.bytes, Offset(n), d)
    ensures o.pos == |o.bytes| ==> o.Fill(n).Write(d).pos == |o.bytes| + Offset(n) + |d|
  {
    if o.pos == |o.bytes| {
      FillAppends(o, n);
    }
  }

  lemma HoldsAppended(b: seq<Byte>, gap: nat, tail: seq<Byte>, off: nat, d: seq<Byte>)
    requires Holds(b, off, d)
    ensures Holds(Extended(b, gap, tail), off, d)
  {
    assert Extended(b, gap, tail)[off..off + |d|] == b[off..off + |d|];
  }

  lemma HoldsGap(b: seq<Byte>, gap: nat, tail: seq<Byte>, off: nat)
    requires |b| <= off && off + 1024 <= |b| + gap
    ensures Holds(Extended(b, gap, tail), off, Zeros(1024))
  {
    assert Extended(b, gap, tail)[off..off + 1024] == Zeros(1024);
  }

  lemma HoldsLast(b: seq<Byte>, gap: nat, tail: seq<Byte>)
    ensures Holds(Extended(b, gap, tail), |b| + gap, tail)
  {
    assert Extended(b, gap, tail)[|b| + gap..] == tail;
  }

  lemma SlotsAhead(f: seq<Byte>, b: seq<Byte>, loss: set<nat>, cur: nat, k: nat)
    requires cur <= k <= PieceCount(f) && (cur < k ==> |b| == Offset(cur)) && (k < PieceCount(f) ==> |b| == Offset(cur))
    requires SlotsHold(f, b, loss, cur) && forall p :: p in loss ==> p < cur
    ensures SlotsHold(f, Extended(b, Offset(k - cur), Piece(f, k)), loss + Span(cur, k), k + 1)
  {
    var d := Piece(f, k);
    var b' := Extended(b, Offset(k - cur), d);
    forall i: nat | i < k + 1 && i < PieceCount(f) ensures Holds(b', Offset(i), Slot(f, loss + Span(cur, k), i)) {
      if i < cur {
        HoldsAppended(b, Offset(k - cur), d, Offset(i), Slot(f, loss, i));
      } else if i < k {
        HoldsGap(b, Offset(k - cur), d, Offset(i));
      } else {
        HoldsLast(b, Offset(k - cur), d);
      }
      hide Holds, Extended, Zeros, Piece;
    }
  }

  lemma ReceivedAhead(f: seq<Byte>, loss: set<nat>, cur: nat, k: nat)
    requires cur <= k && forall p :: p in loss ==> p < cur
    ensures Received(f, loss + Span(cur, k), k + 1) == Received(f, loss, cur) + |Piece(f, k)|
  {
    ReceivedIgnores(f, loss, loss + Span(cur, k), cur);
    ReceivedOverGap(f, loss + Span(cur, k), cur, k);
  }

  lemma PlaceFills(w: Writer, d: seq<Byte>, k: nat)
    requires w.cur <= k
    ensures Place(w, d, k) == w.(out := w.out.Fill(k - w.cur).Write(d), loss := w.loss + Span(w.cur, k), cur := k + 1,
                                 written := w.written + |d|)
  {
    hide OutFile.Write;
    assert w.loss + Span(k, k) == w.loss;
  }

  /** What placing a piece at or beyond the next one does to the stream. */
  lemma PlacedAhead(f: seq<Byte>, w: Writer, k: nat)
    requires LengthFits(f, |w.out.bytes|, w.out.pos, w.cur) && w.cur <= k <= PieceCount(f)
    ensures var w' := Place(w, Piece(f, k), k);
      && w'.out.bytes == Extended(w.out.bytes, Offset(k - w.cur), Piece(f, k))
      && w'.loss == w.loss + Span(w.cur, k) && LengthFits(f, |w'.out.bytes|, w'.out.pos, w'.cur)
  {
    hide OutFile.Write, OutFile.Fill, Extended, Piece, Zeros, Place;
    PieceSize(f, k);
    PlaceFills(w, Piece(f, k), k);
    FillAndWrite(w.out, k - w.cur, Piece(f, k));
    LengthAhead(f, |w.out.bytes|, w.out.pos, w.cur, k, Place(w, Piece(f, k), k).out.pos);
    hide LengthFits;
  }

  lemma LengthAhead(f: seq<Byte>, length: nat, pos: nat, cur: nat, k: nat, pos': nat)
    requires LengthFits(f, length, pos, cur) && cur <= k <= PieceCount(f)
    requires pos == length ==> pos' == length + Offset(k - cur) + |Piece(f, k)|
    ensures LengthFits(f, length + Offset(k - cur) + |Piece(f, k)|, pos', k + 1)
  {
    PieceSize(f, k);
  }

  lemma TailAhead(f: seq<Byte>, b: seq<Byte>, z: nat, k: nat)
    requires ZeroTail(f, b) && (k < PieceCount(f) ==> |b| + z == Offset(k))
    ensures ZeroTail(f, Extended(b, z, Piece(f, k)))
  {
    PieceSize(f, k);
  }

  lemma TailRestored(f: seq<Byte>, b: seq<Byte>, k: nat)
    requires ZeroTail(f, b) && k < PieceCount(f) && Offset(k) + |Piece(f, k)| <= |b|
    ensures ZeroTail(f, Overwritten(b, Offset(k), Piece(f, k)))
  {
    PieceSize(f, k);
    assert Offset(k) + |Piece(f, k)| <= |f|;
  }

  lemma CountedAhead(f: seq<Byte>, w: Writer, k: nat, w': Writer)
    requires Counted(f, w) && w.cur <= k <= PieceCount(f)
    requires w'.out.bytes == Extended(w.out.bytes, Offset(k - w.cur), Piece(f, k))
    requires LengthFits(f, |w'.out.bytes|, w'.out.pos, w'.cur)
    requires w'.size == w.size && w'.cur == k + 1 && w'.loss == w.loss + Span(w.cur, k)
    requires w'.written == w.written + |Piece(f, k)|
    ensures Counted(f, w')
  {
    hide SlotsHold, Received, ZeroTail, Extended, Piece;
    PieceSize(f, k);
    TailAhead(f, w.out.bytes, Offset(k - w.cur), k);
    SlotsAhead(f, w.out.bytes, w.loss, w.cur, k);
    ReceivedAhead(f, w.loss, w.cur, k);
    hide LengthFits;
  }

  /** Overwriting one slot leaves the others alone. */
  lemma SlotsRestored(f: seq<Byte>, b: seq<Byte>, loss: set<nat>, cur: nat, k: nat)
    requires SlotsHold(f, b, loss, cur) && k in loss && k < cur && k < PieceCount(f)
    ensures Offset(k) + |Piece(f, k)| <= |b|
    ensures SlotsHold(f, Overwritten(b, Offset(k), Piece(f, k)), loss - {k}, cur)
  {
    assert Holds(b, Offset(k), Slot(f, loss, k));
    PieceSize(f, k);
    var d := Piece(f, k);
    OverwrittenHolds(b, Offset(k), d);
    forall i: nat | i < cur && i < PieceCount(f)
      ensures Holds(Overwritten(b, Offset(k), d), Offset(i), Slot(f, loss - {k}, i))
    {
      if i != k {
        SlotFits(f, loss, i);
        hide Overwritten, Holds, Piece, Zeros;
        SlotUntouched(b, d, Offset(k), Slot(f, loss, i), Offset(i));
      }
    }
  }

  lemma SlotFits(f: seq<Byte>, loss: set<nat>, i: nat)
    ensures |Slot(f, loss, i)| <= 1024
  {
    PieceSize(f, i);
  }

  lemma OverwrittenHolds(b: seq<Byte>, off: nat, d: seq<Byte>)
    requires off + |d| <= |b|
    ensures Holds(Overwritten(b, off, d), off, d)
  {
    assert Overwritten(b, off, d)[off..off + |d|] == d;
  }

  lemma SlotUntouched(b: seq<Byte>, d: seq<Byte>, off: nat, s: seq<Byte>, at: nat)
    requires off + |d| <= |b| && Holds(b, at, s) && (at + |s| <= off || off + |d| <= at)
    ensures Holds(Overwritten(b, off, d), at, s)
  {
    assert Overwritten(b, off, d)[at..at + |s|] == b[at..at + |s|];
  }

  /** What placing a missing piece does to the stream. The seek back to curPiece wraps only if curPiece is 2^22,
      after which nothing is ever written in sequence. */
  lemma PlacedMissing(f: seq<Byte>, w: Writer, k: nat)
    requires Accepted(f) && k in w.loss && k < w.cur <= PieceCount(f) + 1 && k < PieceCount(f)
    requires Offset(k) + |Piece(f, k)| <= |w.out.bytes|
    ensures var w' := Place(w, Piece(f, k), k);
      && w'.out.bytes == Overwritten(w.out.bytes, Offset(k), Piece(f, k))
      && (w.cur <= PieceCount(f) ==> w'.out.pos == Offset(w.cur))
  {
    AcceptedOffsetsFit(f);
    PieceSize(f, k);
    assert Wrap32(k * 1024) == Offset(k);
    assert w.cur <= PieceCount(f) ==> Wrap32(w.cur * 1024) == Offset(w.cur);
  }

  lemma CountedMissing(f: seq<Byte>, w: Writer, k: nat, w': Writer)
    requires Counted(f, w) && k in w.loss && Offset(k) + |Piece(f, k)| <= |w.out.bytes|
    requires w'.out.bytes == Overwritten(w.out.bytes, Offset(k), Piece(f, k))
    requires w.cur <= PieceCount(f) ==> w'.out.pos == Offset(w.cur)
    requires w'.size == w.size && w'.cur == w.cur && w'.loss == w.loss - {k}
    requires w'.written == w.written + |Piece(f, k)|
    ensures Counted(f, w')
  {
    SlotsRestored(f, w.out.bytes, w.loss, w.cur, k);
    TailRestored(f, w.out.bytes, k);
    ReceivedRestored(f, w.loss, k, w.cur);
  }

  /** The pieces missing after piece k has been placed. */
  function MissingAfter(w: Writer, k: nat): set<nat> { w.loss + Span(w.cur, k) - {k} }

  lemma PlaceKeepsCounted(f: seq<Byte>, w: Writer, k: nat)
    requires Accepted(f) && Counted(f, w) && k <= PieceCount(f)
    ensures Counted(f, Place(w, Piece(f, k), k))
  {
    var w' := Place(w, Piece(f, k), k);
    if k >= w.cur {
      PlacedAhead(f, w, k);
      hide Counted, LengthFits, Piece, Zeros;
      CountedAhead(f, w, k, w');
    } else if k in w.loss {
      SlotsRestored(f, w.out.bytes, w.loss, w.cur, k);
      PlacedMissing(f, w, k);
      hide Counted, Piece;
      CountedMissing(f, w, k, w');
    }
  }

  lemma PlaceGenuine(f: seq<Byte>, w: Writer, k: nat)
    requires Accepted(f) && Counted(f, w) && k <= PieceCount(f)
    ensures var w' := Place(w, Piece(f, k), k);
      && Counted(f, w') && w'.open == w.open
      && w'.cur == (if k < w.cur then w.cur else k + 1) && w'.loss == MissingAfter(w, k)
      && w'.written <= |f| && (w'.written == |f| <==> Complete(f, w'))
  {
    var w' := Place(w, Piece(f, k), k);
    PlaceKeepsCounted(f, w, k);
    CountIsExact(f, w');
    PlaceMissing(w, Piece(f, k), k);
    hide Counted, Complete, Place, MissingAfter;
  }

  lemma PlaceMissing(w: Writer, d: seq<Byte>, k: nat)
    requires forall p :: p in w.loss ==> p < w.cur
    ensures var w' := Place(w, d, k);
      w'.open == w.open && w'.cur == (if k < w.cur then w.cur else k + 1) && w'.loss == MissingAfter(w, k)
  {
    hide OutFile.Write, OutFile.Fill, OutFile.Seek;
  }

  lemma CountIsExact(f: seq<Byte>, w: Writer)
    requires f != [] && Counted(f, w)
    ensures w.written <= |f| && (w.written == |f| <==> Complete(f, w))
  {
    ReceivedAll(f, w.loss, w.cur);
    assert Size(f, w.cur) == |f| <==> w.cur >= PieceCount(f);
    if w.loss != {} {
      var p :| p in w.loss;
      assert p < w.cur && p < PieceCount(f);
    }
  }

  /** The file on disk is f, or f padded with zeros to a whole number of pieces once piece N has been taken in; when it
      is padded, PaddedIffOvertaken tells. */
  predicate Delivered(f: seq<Byte>, w: Writer) {
    && |f| <= |w.out.bytes| && w.out.bytes == f + Zeros(|w.out.bytes| - |f|)
    && (|w.out.bytes| != |f| ==> w.cur == PieceCount(f) + 1 && |w.out.bytes| == Offset(PieceCount(f)))
  }

  lemma CompleteDelivers(f: seq<Byte>, w: Writer)
    requires f != [] && Counted(f, w) && Complete(f, w)
    ensures Delivered(f, w)
  {
    forall k: nat | k < PieceCount(f) ensures Holds(w.out.bytes, Offset(k), Piece(f, k)) {
      assert Slot(f, w.loss, k) == Piece(f, k);
    }
    PiecesGiveFile(f, w.out.bytes);
    var rest := w.out.bytes[|f|..];
    assert w.out.bytes == f + rest;
    assert rest == Zeros(|rest|);
  }

  /** The file on disk has grown past the end of f. */
  predicate Padded(f: seq<Byte>, w: Writer) { |w.out.bytes| > |f| }

  /** The empty piece N arrives before a short last piece, whose slot is then filled with 1024 zeros. */
  predicate Overtakes(f: seq<Byte>, w: Writer, k: nat) {
    k == PieceCount(f) && |f| % 1024 != 0 && w.cur < PieceCount(f)
  }

  lemma PlacePads(f: seq<Byte>, w: Writer, k: nat)
    requires Accepted(f) && Counted(f, w) && k <= PieceCount(f)
    ensures Padded(f, Place(w, Piece(f, k), k)) <==> Padded(f, w) || Overtakes(f, w, k)
  {
    PieceSize(f, k);
    if k >= w.cur {
      PlacedAhead(f, w, k);
      hide Place, Piece, Counted;
    } else if k in w.loss {
      SlotsRestored(f, w.out.bytes, w.loss, w.cur, k);
      PlacedMissing(f, w, k);
      hide Place, Piece, Counted;
    }
  }

  /** One call of writeToFile with a genuine piece. A piece more than 1024 ahead is refused. Any other piece
      keeps the ledger, and the call returns WRITE_FINISH exactly when all pieces are then on disk, in which case
      nothing is listed as missing and the file on disk is f, padded or not; it never returns RECV_ERROR. The file is
      padded from the call on in which the empty piece N overtakes a short last piece, and from no other. */
  lemma WriteGenuine(f: seq<Byte>, w: Writer, k: nat)
    requires Accepted(f) && Ledger(f, w) && w.open && k <= PieceCount(f)
    ensures var (w', r) := Write(w, Piece(f, k), k);
      if k > w.cur + 1024 then r == LOSS_HEAVY && w' == w
      else
        && Ledger(f, w')
        && w'.cur == (if k < w.cur then w.cur else k + 1) && w'.loss == MissingAfter(w, k)
        && (r == WRITE_FINISH <==> Complete(f, w'))
        && (r == LOSS <==> k > w.cur && !Complete(f, w'))
        && (r == NONE <==> k <= w.cur && !Complete(f, w'))
        && (r == WRITE_FINISH ==> Delivered(f, w'))
        && (Padded(f, w') <==> Padded(f, w) || Overtakes(f, w, k))
  {
    if k <= w.cur + 1024 {
      PlaceGenuine(f, w, k);
      PlacePads(f, w, k);
      var w' := Place(w, Piece(f, k), k);
      if Complete(f, w') {
        CompleteDelivers(f, w');
        CompleteDelivers(f, w'.(open := false));
      }
    }
  }

  lemma NewWriterLedger(f: seq<Byte>)
    requires Accepted(f)
    ensures Ledger(f, NewWriter(|f|)) && NewWriter(|f|).open
  {
  }

  /** An empty piece N that overtakes the last piece fills the slot before it with zeros. */
  lemma EmptyPieceFills(f: seq<Byte>, w: Writer)
    requires Accepted(f) && Ledger(f, w) && w.cur + 1 == PieceCount(f) && w.loss == {}
    ensures var (w', r) := Write(w, [], PieceCount(f));
      r == LOSS && Ledger(f, w') && w'.open && w'.loss == {w.cur} && w'.cur == w.cur + 2
      && |w'.out.bytes| == Offset(PieceCount(f))
  {
    var n := PieceCount(f);
    assert Piece(f, n) == [];
    WriteGenuine(f, w, n);
    PlacedAhead(f, w, n);
  }

  lemma LastPieceKeepsLength(f: seq<Byte>, w: Writer)
    requires Accepted(f) && Ledger(f, w) && w.open && PieceCount(f) > 0
    requires w.loss == {PieceCount(f) - 1} && w.cur == PieceCount(f) + 1 && |w.out.bytes| == Offset(PieceCount(f))
    ensures var n := PieceCount(f);
      var (w', r) := Write(w, Piece(f, n - 1), n - 1);
      r == WRITE_FINISH && |w'.out.bytes| == Offset(n)
  {
    var n := PieceCount(f);
    PieceSize(f, n - 1);
    WriteGenuine(f, w, n - 1);
    PlacedMissing(f, w, n - 1);
  }

  /** Padding does happen: when a short last piece is the only one outstanding and the empty piece N overtakes it,
      the file ends longer than f although nothing was lost. */
  lemma EmptyPiecePads(f: seq<Byte>, w: Writer)
    requires Accepted(f) && Ledger(f, w) && w.cur + 1 == PieceCount(f) && w.loss == {} && |f| % 1024 != 0
    ensures var n := PieceCount(f);
      var (w1, r1) := Write(w, Piece(f, n), n);
      var (w2, r2) := Write(w1, Piece(f, n - 1), n - 1);
      r1 == LOSS && r2 == WRITE_FINISH && |w2.out.bytes| == Offset(n) > |f|
  {
    var n := PieceCount(f);
    assert Piece(f, n) == [] && Offset(n) > |f|;
    EmptyPieceFills(f, w);
    LastPieceKeepsLength(f, Write(w, Piece(f, n), n).0);
  }

  // Every sequence of arrivals.

  function WriteAll(f: seq<Byte>, w: Writer, pieces: seq<nat>): Writer
    decreases |pieces|
  {
    if pieces == [] then w else WriteAll(f, Write(w, Piece(f, pieces[0]), pieces[0]).0, pieces[1..])
  }

  /** Some piece N that was taken in met a short last piece not yet arrived. */
  predicate Overtaken(f: seq<Byte>, w: Writer, pieces: seq<nat>)
    decreases |pieces|
  {
    pieces != [] &&
    ((w.open && pieces[0] <= w.cur + 1024 && Overtakes(f, w, pieces[0]))
     || Overtaken(f, Write(w, Piece(f, pieces[0]), pieces[0]).0, pieces[1..]))
  }

  /** Whatever pieces arrive, in whatever order and however often, the file on disk is padded if and only if f is not a
      whole number of pieces and the empty piece N was taken in before the last piece had been reached. */
  lemma {:induction false} PaddedIffOvertaken(f: seq<Byte>, w: Writer, pieces: seq<nat>)
    requires Accepted(f) && Ledger(f, w) && forall i :: 0 <= i < |pieces| ==> pieces[i] <= PieceCount(f)
    ensures var end := WriteAll(f, w, pieces);
      Ledger(f, end) && (Padded(f, end) <==> Padded(f, w) || Overtaken(f, w, pieces))
    decreases |pieces|
  {
    if pieces == [] {
    } else {
      if w.open {
        WriteGenuine(f, w, pieces[0]);
      }
      hide Ledger, Padded, Overtakes, Piece;
      PaddedIffOvertaken(f, Write(w, Piece(f, pieces[0]), pieces[0]).0, pieces[1..]);
    }
  }
}
