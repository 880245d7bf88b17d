/** client/GetFileManager: writes pieces that arrive in any order, filling the gaps with zeros until the
    missing pieces are retransmitted. */
module GetFile {
  import opened Pieces

  datatype WriteState = NONE | LOSS | LOSS_HEAVY | WRITE_FINISH | NOT_OPEN | RECV_ERROR

  /** A binary std::fstream being written: its bytes on disk and the write position. A write past the end leaves a
      gap of zeros; an empty write changes nothing. */
  datatype OutFile = OutFile(bytes: seq<Byte>, pos: nat) {
    function Write(data: seq<Byte>): OutFile {
      if data == [] then this
      else
        var padded := if pos > |bytes| then bytes + Zeros(pos - |bytes|) else bytes;
        var end := pos + |data|;
        OutFile(padded[..pos] + data + (if end < |padded| then padded[end..] else []), end)
    }

    function Seek(p: nat): OutFile { this.(pos := p) }

    /** n writes of 1024 zeros. */
    function Fill(n: nat): OutFile { if n == 0 then this else Fill(n - 1).Write(Zeros(1024)) }
  }

  /** The value of a GetFileManager: the stream and whether it is open, the missing pieces below curPiece,
      the bytes counted so far and the announced size. */
  datatype Writer = Writer(out: OutFile, open: bool, loss: set<nat>, cur: nat, written: nat, size: nat)

  /** Store one piece, not more than 1024 pieces ahead. */
  function Place(w: Writer, data: seq<Byte>, piece: nat): Writer {
    if piece > w.cur then
      w.(out := w.out.Fill(piece - w.cur).Write(data), loss := w.loss + Span(w.cur, piece),
         cur := piece + 1, written := w.written + |data|)
    else if piece == w.cur then
      w.(out := w.out.Write(data), cur := piece + 1, written := w.written + |data|)
    else if piece in w.loss then
      w.(out := w.out.Seek(Wrap32(piece * 1024)).Write(data).Seek(Wrap32(w.cur * 1024)),
         loss := w.loss - {piece}, written := w.written + |data|)
    else w
  }

  function Write(w: Writer, data: seq<Byte>, piece: nat): (Writer, WriteState) {
    if !w.open then (w, NOT_OPEN)
    else if piece > w.cur + 1024 then (w, LOSS_HEAVY)
    else
      var w' := Place(w, data, piece);
      if w'.written == w.size then (w'.(open := false), WRITE_FINISH)
      else if w'.written > w.size then (w', RECV_ERROR)
      else (w', if piece > w.cur then LOSS else NONE)
  }

  /** The missing pieces below n, in ascending order, as std::set lists them. */
  function Listed(loss: set<nat>, n: nat): seq<nat> {
    if n == 0 then [] else Listed(loss, n - 1) + (if n - 1 in loss then [n - 1] else [])
  }

  function NewWriter(size: nat): Writer {
    Writer(OutFile([], 0), size <= Wrap32(0xFFFF_FFFF * 1024), {}, 0, 0, size)
  }

  class GetFileManager {
    const fileBytes: nat
    var fileStream: OutFile
    var isOpen: bool
    var lossPieces: set<nat>
    var curPiece: nat
    var writtenBytes: nat

    ghost predicate Valid()
      reads this
    {
      forall p :: p in lossPieces ==> p < curPiece
    }

    function State(): (w: Writer)
      reads this
      ensures w.size == fileBytes && w.open == isOpen
    {
      Writer(fileStream, isOpen, lossPieces, curPiece, writtenBytes, fileBytes)
    }

    constructor (size: nat)
      ensures Valid() && State() == NewWriter(size) && (isOpen <==> size <= 0x1_0000_0000 - 1024)
    {
      fileBytes := size;
      lossPieces, curPiece, writtenBytes := {}, 0, 0;
      fileStream := OutFile([], 0);
      isOpen := !(size > Wrap32(0xFFFF_FFFF * 1024));
    }

    method WriteToFile(data: seq<Byte>, piece: nat) returns (ret: WriteState)
      requires Valid()
      modifies this
      ensures Valid() && (State(), ret) == Write(old(State()), data, piece)
    {
      hide OutFile.Write, OutFile.Seek, Wrap32, Zeros;
      ret := NONE;
      if !isOpen {
        return NOT_OPEN;
      }
      if piece > curPiece {
        if piece > curPiece + 1024 {
          return LOSS_HEAVY;
        }
        for i := curPiece to piece
          invariant fileStream == old(fileStream).Fill(i - old(curPiece))
          invariant lossPieces == old(lossPieces) + Span(old(curPiece), i)
          invariant unchanged(`curPiece) && unchanged(`writtenBytes) && unchanged(`isOpen)
        {
          fileStream := fileStream.Write(Zeros(1024));
          lossPieces := lossPieces + {i};
        }
        fileStream := fileStream.Write(data);
        writtenBytes := writtenBytes + |data|;
        curPiece := piece + 1;
        ret := LOSS;
      } else if piece < curPiece {
        if piece in lossPieces {
          fileStream := fileStream.Seek(Wrap32(piece * 1024));
          fileStream := fileStream.Write(data);
          writtenBytes := writtenBytes + |data|;
          fileStream := fileStream.Seek(Wrap32(curPiece * 1024));
          lossPieces := lossPieces - {piece};
        }
      } else {
        fileStream := fileStream.Write(data);
        writtenBytes := writtenBytes + |data|;
        curPiece := curPiece + 1;
      }
      if writtenBytes == fileBytes {
        isOpen := false;
        ret := WRITE_FINISH;
      } else if writtenBytes > fileBytes {
        ret := RECV_ERROR;
      }
    }

    method GetLossPieces() returns (buf: seq<nat>)
      requires Valid()
      ensures buf == Listed(lossPieces, curPiece)
    {
      buf := [];
      for i := 0 to curPiece
        invariant buf == Listed(lossPieces, i)
      {
        if i in lossPieces {
          buf := buf + [i];
        }
      }
    }
  }

  ghost predicate Ascending(l: seq<nat>) { forall i, j :: 0 <= i < j < |l| ==> l[i] < l[j] }

  lemma {:induction false} ListedMembers(loss: set<nat>, n: nat)
    ensures Ascending(Listed(loss, n)) && forall p :: p in Listed(loss, n) <==> p in loss && p < n
  {
    if n == 0 {
    } else {
      ListedMembers(loss, n - 1);
      var l := Listed(loss, n - 1);
      assert forall i :: 0 <= i < |l| ==> l[i] in l;
    }
  }

  lemma {:induction false} CountAscending(l: seq<nat>, s: set<nat>)
    requires Ascending(l) && forall p :: p in l <==> p in s
    ensures |l| == |s|
  {
    if l == [] {
      assert s == {};
    } else {
      var last := |l| - 1;
      var front := l[..last];
      assert l == front + [l[last]];
      assert l[last] !in front;
      CountAscending(front, s - {l[last]});
    }
  }

  /** The missing pieces are listed exactly, each once, in ascending order. */
  lemma ListedIsAscending(loss: set<nat>, n: nat)
    requires forall p :: p in loss ==> p < n
    ensures var l := Listed(loss, n);
      |l| == |loss| && (forall p :: p in l <==> p in loss) && Ascending(l)
  {
    ListedMembers(loss, n);
    CountAscending(Listed(loss, n), loss);
  }

  // Pieces of any number and any content.

  /** The piece is stored: the file is open, the piece within reach, and it is missing. */
  predicate Stores(w: Writer, piece: nat) { w.open && piece <= w.cur + 1024 && (piece >= w.cur || piece in w.loss) }

  /** Whatever arrives, the byte count grows by what is stored. A file is closed by the exact size and by nothing else,
      a count beyond it is reported as an error, and what is not stored changes nothing. */
  lemma WriteAnswers(w: Writer, data: seq<Byte>, piece: nat)
    ensures var (w', ret) := Write(w, data, piece);
      && w'.size == w.size && w'.written == w.written + (if Stores(w, piece) then |data| else 0)
      && (w'.open <==> w.open && ret != WRITE_FINISH) && (ret == NOT_OPEN <==> !w.open)
      && (ret == LOSS_HEAVY <==> w.open && piece > w.cur + 1024)
      && (ret == WRITE_FINISH <==> w.open && piece <= w.cur + 1024 && w'.written == w.size)
      && (ret == RECV_ERROR <==> w.open && piece <= w.cur + 1024 && w'.written > w.size)
      && (ret == LOSS ==> piece > w.cur) && (ret == NONE ==> piece <= w.cur)
      && (ret == NOT_OPEN || ret == LOSS_HEAVY ==> w' == w)
      && (w.open && piece <= w.cur + 1024 && !Stores(w, piece) ==> w' == w.(open := w'.open))
  {
    hide OutFile.Write, OutFile.Fill;
  }

  datatype Arrival = Arrival(piece: nat, data: seq<Byte>)

  function WriteAll(w: Writer, arrivals: seq<Arrival>): Writer
    decreases |arrivals|
  {
    if arrivals == [] then w else WriteAll(Write(w, arrivals[0].data, arrivals[0].piece).0, arrivals[1..])
  }

  /** Whatever arrives in whatever order, the count never falls, and a file that is closed was closed at exactly the
      announced size and is not written any more. */
  lemma {:induction false} ClosedAtSize(w: Writer, arrivals: seq<Arrival>)
    requires !w.open ==> w.written == w.size
    ensures var w' := WriteAll(w, arrivals);
      && w'.size == w.size && w'.written >= w.written
      && (!w'.open ==> w'.written == w'.size) && (!w.open ==> w' == w)
    decreases |arrivals|
  {
    if arrivals == [] {
    } else {
      WriteAnswers(w, arrivals[0].data, arrivals[0].piece);
      hide Write;
      ClosedAtSize(Write(w, arrivals[0].data, arrivals[0].piece).0, arrivals[1..]);
    }
  }
}
