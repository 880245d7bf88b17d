/** client/SendFileManager: reads pieces of the shared file, in order or by number. */
module SendFile {
  import opened Pieces

  /** A binary std::ifstream: a read position and a flag. A read that falls short clears the flag; while it is
      clear, reads return nothing and seeks do nothing. Seeking past the end is allowed. */
  datatype InFile = InFile(content: seq<Byte>, pos: nat, good: bool) {
    function Read(n: nat): (InFile, seq<Byte>) {
      if !good then (this, [])
      else
        var left := if pos <= |content| then |content| - pos else 0;
        var got := if left < n then left else n;
        (InFile(content, pos + got, got == n), if got == 0 then [] else content[pos..pos + got])
    }

    function Seek(p: nat): InFile { if good then this.(pos := p) else this }

    function Clear(): InFile { this.(good := true) }
  }

  /** What a reader of f will do next, with positions counted in pieces: it numbers the next piece `cur`, and,
      unless the stream has failed, it reads that piece at piece position `at`. */
  datatype Reader = Live(cur: nat, at: nat) | Failed(cur: nat)

  function NextPiece(f: seq<Byte>, r: Reader): (Reader, seq<Byte>) {
    match r
    case Failed(_) => (r, [])
    case Live(cur, at) =>
      var data := Piece(f, at);
      var next := if data == [] then cur else cur + 1;
      (if |data| == 1024 then Live(next, at + 1) else Failed(next), data)
  }

  /** Reading a piece by number revives a failed stream, and fails the stream if the piece is short. */
  function PieceOf(f: seq<Byte>, r: Reader, num: nat): (Reader, seq<Byte>) {
    var data := Piece(f, num % 0x40_0000);
    (if |data| == 1024 then Live(r.cur, r.cur % 0x40_0000) else Failed(r.cur), data)
  }

  class SendFileManager {
    const content: seq<Byte>
    var stream: InFile
    var curPiece: nat

    ghost predicate Valid()
      reads this
    {
      stream.content == content && (stream.good ==> stream.pos % 1024 == 0)
    }

    ghost function State(): Reader
      reads this
    {
      if stream.good then Live(curPiece, stream.pos / 1024) else Failed(curPiece)
    }

    constructor (file: seq<Byte>)
      ensures Valid() && content == file && State() == Live(0, 0)
    {
      content := file;
      stream := InFile(file, 0, true);
      curPiece := 0;
    }

    method InitStatu()
      requires Valid()
      modifies this
      ensures Valid() && State() == Live(0, 0)
    {
      if !stream.good {
        stream := stream.Clear();
      }
      stream := stream.Seek(0);
      curPiece := 0;
    }

    method GetNextPiece() returns (res: seq<Byte>)
      requires Valid()
      modifies this
      ensures Valid() && (State(), res) == NextPiece(content, old(State()))
    {
      if !stream.good {
        return [];
      }
      ghost var at := stream.pos / 1024;
      assert stream.pos == Offset(at);
      var (s, data) := stream.Read(1024);
      assert data == Piece(content, at);
      assert s.good ==> s.pos == Offset(at + 1);
      stream := s;
      if |data| == 0 {
        return [];
      }
      curPiece := curPiece + 1;
      return data;
    }

    method GetPieceOf(num: nat) returns (res: seq<Byte>)
      requires Valid()
      modifies this
      ensures Valid() && (State(), res) == PieceOf(content, old(State()), num)
    {
      var saved := curPiece;
      if !stream.good {
        stream := stream.Clear();
      }
      WrappedOffset(num);
      stream := stream.Seek(Wrap32(num * 1024));
      res := GetNextPiece();
      curPiece := saved;
      WrappedOffset(curPiece);
      stream := stream.Seek(Wrap32(curPiece * 1024));
    }
  }

  /** The reader is in step with f: what it reads next is the piece it will number. */
  predicate InStep(f: seq<Byte>, r: Reader) {
    r.cur <= PieceCount(f) && (r.Live? ==> r.at == r.cur)
  }

  /** In step, the stream emits exactly the pieces of f in order, then at most one empty piece, and stays in step.
      It fails only by reading a short or empty piece, that is, with every non-empty piece behind it. */
  lemma NextPieceInStep(f: seq<Byte>, r: Reader)
    requires InStep(f, r) && r.Live?
    ensures var (r', data) := NextPiece(f, r);
      && InStep(f, r') && data == Piece(f, r.cur)
      && r'.cur == (if r.cur < PieceCount(f) then r.cur + 1 else r.cur)
      && (r'.Failed? ==> r'.cur == PieceCount(f))
      && (r.cur == PieceCount(f) ==> r'.Failed?)
  {
    PieceSize(f, r.cur);
  }

  /** For an accepted file, a read by number yields that piece, whatever state the stream was in, and leaves the
      sequential reader in step; it revives a failed stream exactly when the piece is full. */
  lemma PieceOfInStep(f: seq<Byte>, r: Reader, num: nat)
    requires Accepted(f) && InStep(f, r) && num <= PieceCount(f)
    ensures var (r', data) := PieceOf(f, r, num);
      && InStep(f, r') && data == Piece(f, num) && r'.cur == r.cur
      && (r'.Live? <==> num + 1 < PieceCount(f) || (num + 1 == PieceCount(f) && |f| % 1024 == 0))
  {
    AcceptedOffsetsFit(f);
    PieceSize(f, num);
  }

  /** The size bound is exact: with 2^22 pieces or more, a reader in step at piece 2^22 is out of step after
      any full piece is read by number, and numbers the bytes of piece 0 as piece 2^22. */
  lemma OversizedFileFallsOutOfStep(f: seq<Byte>, num: nat)
    requires PieceCount(f) >= 0x40_0000 && num + 1 < 0x40_0000
    ensures InStep(f, Live(0x40_0000, 0x40_0000))
    ensures var r' := PieceOf(f, Live(0x40_0000, 0x40_0000), num).0;
      && r' == Live(0x40_0000, 0) && !InStep(f, r')
      && NextPiece(f, r').1 == Piece(f, 0)
  {
    PieceSize(f, num);
  }
}
