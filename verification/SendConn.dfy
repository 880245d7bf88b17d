/** client/SendConnManager: the sharer's end of a transfer. Pieces are streamed by closures that requeue
    themselves on the event loop until the window of 30 pieces is full or the stream fails. */
module SendConn {
  import opened Pieces
  import opened Messages
  import opened SendFile

  datatype SendState = WaitCode | WaitRecver | ConnRecver | SendingFile

  /** A functor queued on the event loop: sendFileStream(), or sendLossPieces(pieces). */
  datatype Closure = StreamNext | LossNext(pieces: seq<nat>)

  /** The value of a SendConnManager, with the closures it has waiting on the loop. */
  datatype Sender = Sender(state: SendState, reader: Reader, window: nat, full: bool, queue: seq<Closure>,
                           server: Addr, peer: Addr, serverHello: int, peerHello: int, closed: bool)

  function SendFileStream(f: seq<Byte>, s: Sender): (Sender, seq<Msg>) {
    if s.reader.Failed? || s.window >= 30 then (s.(full := true), [])
    else
      var (r, data) := NextPiece(f, s.reader);
      (s.(reader := r, window := s.window + 1, queue := s.queue + [StreamNext]), [DataStream(s.reader.cur, data)])
  }

  /** Pieces are sent from the back of the vector. */
  function SendLossPieces(f: seq<Byte>, s: Sender, pieces: seq<nat>): (Sender, seq<Msg>) {
    if pieces == [] || s.window >= 30 then (s.(full := true), [])
    else
      var last, rest := pieces[|pieces| - 1], pieces[..|pieces| - 1];
      var (r, data) := PieceOf(f, s.reader, last);
      (s.(reader := r, window := s.window + 1, queue := s.queue + [LossNext(rest)]), [DataStream(last, data)])
  }

  /** The vector a RETRAN message decodes to: resized to the number of pieces, then pushed onto, so that as many
      zeros come first. */
  function Decoded(pieces: seq<nat>): seq<nat> { seq(|pieces|, i => 0) + pieces }

  function Reset(s: Sender): Sender { s.(state := WaitRecver, window := 0, full := false, reader := Live(0, 0)) }

  function Handle(f: seq<Byte>, s: Sender, sign: Sign, from: Addr, time: int, m: Msg): (Sender, seq<Msg>) {
    match m
    case Hello => (s, [HelloReply])
    case HelloReply =>
      var s1 := if s.state == ConnRecver && sign == ClientSign && from == s.peer then s.(state := SendingFile) else s;
      (if from == s.server then s1.(serverHello := time) else if from == s.peer then s1.(peerHello := time) else s1, [])
    case ShareCode(_) => (if s.state == WaitCode then s.(state := WaitRecver) else s, [])
    case FileReq(recver) =>
      if s.state == WaitRecver then (s.(peer := recver, state := ConnRecver), [Hello]) else (s, [])
    case DownloadStart =>
      if s.state == SendingFile || s.state == ConnRecver then SendFileStream(f, s.(state := SendingFile)) else (s, [])
    case PackAck(nums) =>
      if s.state != SendingFile then (s, [])
      else
        var s1 := s.(window := if nums <= s.window then s.window - nums else 0);
        if s.full then SendFileStream(f, s1.(full := false)) else (s1, [])
    case Retran(pieces) => if s.state == SendingFile then SendLossPieces(f, s, Decoded(pieces)) else (s, [])
    case Finish => (if s.state == SendingFile then Reset(s).(peerHello := 0) else s, [])
    case ErrorFormat => (s.(closed := true), [])
    case ErrorLimit => (s.(closed := true), [])
    case _ => (s, [])
  }

  function CheckPeerAlive(s: Sender, now: int): Sender {
    var s1 := if s.state == SendingFile && Silent(s.peerHello, now) then Reset(s) else s;
    if Silent(s.serverHello, now) then s1.(closed := true) else s1
  }

  /** The loop runs the oldest closure. */
  function RunClosure(f: seq<Byte>, s: Sender): (Sender, seq<Msg>)
    requires s.queue != []
  {
    var s1 := s.(queue := s.queue[1..]);
    match s.queue[0]
    case StreamNext => SendFileStream(f, s1)
    case LossNext(pieces) => SendLossPieces(f, s1, pieces)
  }

  class SendConnManager {
    const sendManager: SendFileManager
    const serverAddr: Addr
    var state: SendState
    var recverAddr: Addr
    var sendWindow: nat
    var isWindowFull: bool
    var lastServerHelloTime: int
    var lastPeerHelloTime: int
    var closed: bool
    /** The closures queued on the loop, and the messages handed to the socket. */
    var pending: seq<Closure>
    var outbox: seq<Msg>

    ghost predicate Valid()
      reads this, sendManager
    {
      sendManager.Valid()
    }

    ghost function State(): Sender
      reads this, sendManager
    {
      Sender(state, sendManager.State(), sendWindow, isWindowFull, pending,
             serverAddr, recverAddr, lastServerHelloTime, lastPeerHelloTime, closed)
    }

    ghost function File(): seq<Byte> { sendManager.content }

    /** After shareFile(): the file is open and the server has been asked for a code. */
    constructor (file: seq<Byte>, server: Addr)
      ensures Valid() && File() == file && outbox == []
      ensures State() == Sender(WaitCode, Live(0, 0), 0, false, [], server, 0, 0, 0, false)
    {
      sendManager := new SendFileManager(file);
      serverAddr := server;
      state, recverAddr, sendWindow, isWindowFull := WaitCode, 0, 0, false;
      lastServerHelloTime, lastPeerHelloTime, closed := 0, 0, false;
      pending, outbox := [], [];
    }

    method SendStream()
      requires Valid()
      modifies this, sendManager
      ensures Valid()
      ensures var (s, out) := SendFileStream(File(), old(State())); State() == s && outbox == old(outbox) + out
    {
      if !sendManager.stream.good || sendWindow >= 30 {
        isWindowFull := true;
        return;
      }
      var pieceNum := sendManager.curPiece;
      var buf := sendManager.GetNextPiece();
      outbox := outbox + [DataStream(pieceNum, buf)];
      sendWindow := sendWindow + 1;
      pending := pending + [StreamNext];
    }

    method SendLoss(pieces: seq<nat>)
      requires Valid()
      modifies this, sendManager
      ensures Valid()
      ensures var (s, out) := SendLossPieces(File(), old(State()), pieces); State() == s && outbox == old(outbox) + out
    {
      if |pieces| == 0 || sendWindow >= 30 {
        isWindowFull := true;
        return;
      }
      var pieceNum := pieces[|pieces| - 1];
      var rest := pieces[..|pieces| - 1];
      var buf := sendManager.GetPieceOf(pieceNum);
      outbox := outbox + [DataStream(pieceNum, buf)];
      sendWindow := sendWindow + 1;
      pending := pending + [LossNext(rest)];
    }

    /** A RETRAN message is decoded: the vector is resized first and then pushed onto. */
    method Resend(requested: seq<nat>)
      requires Valid()
      modifies this, sendManager
      ensures Valid()
      ensures var (s, out) := SendLossPieces(File(), old(State()), Decoded(requested));
        State() == s && outbox == old(outbox) + out
    {
      var pieces: seq<nat> := seq(|requested|, i => 0);
      for i := 0 to |requested|
        invariant pieces == seq(|requested|, i => 0) + requested[..i]
        invariant unchanged(this) && unchanged(sendManager)
      {
        pieces := pieces + [requested[i]];
      }
      assert pieces == Decoded(requested);
      SendLoss(pieces);
    }

    method ShareFileMsgHandle(sign: Sign, from: Addr, time: int, m: Msg)
      requires Valid()
      modifies this, sendManager
      ensures Valid()
      ensures var (s, out) := Handle(File(), old(State()), sign, from, time, m);
        State() == s && outbox == old(outbox) + out
      ensures m.FileReq? && old(state) != WaitRecver ==> State() == old(State()) && outbox == old(outbox)
    {
      hide SendFileStream, SendLossPieces, Decoded;
      match m
      case Hello =>
        outbox := outbox + [HelloReply];
      case HelloReply =>
        if state == ConnRecver && sign == ClientSign {
          if from == recverAddr {
            state := SendingFile;
          }
        }
        if from == serverAddr {
          lastServerHelloTime := time;
        } else if from == recverAddr {
          lastPeerHelloTime := time;
        }
      case ShareCode(code) =>
        if state == WaitCode {
          state := WaitRecver;
        }
      case FileReq(recver) =>
        if state == WaitRecver {
          recverAddr := recver;
          outbox := outbox + [Hello];
          state := ConnRecver;
        }
      case DownloadStart =>
        if state == SendingFile || state == ConnRecver {
          state := SendingFile;
          SendStream();
        }
      case PackAck(nums) =>
        if state == SendingFile {
          if nums <= sendWindow {
            sendWindow := sendWindow - nums;
          } else {
            sendWindow := 0;
          }
          if isWindowFull {
            isWindowFull := false;
            SendStream();
          }
        }
      case Retran(requested) =>
        if state == SendingFile {
          Resend(requested);
        }
      case Finish =>
        if state == SendingFile {
          state := WaitRecver;
          sendWindow := 0;
          isWindowFull := false;
          lastPeerHelloTime := 0;
          sendManager.InitStatu();
        }
      case ErrorFormat =>
        closed := true;
      case ErrorLimit =>
        closed := true;
      case _ =>
    }

    method CheckAlive(now: int)
      requires Valid()
      modifies this, sendManager
      ensures Valid() && State() == CheckPeerAlive(old(State()), now) && outbox == old(outbox)
    {
      if state == SendingFile && lastPeerHelloTime > 0 && lastPeerHelloTime + 60 * 1_000_000 < now {
        state := WaitRecver;
        sendWindow := 0;
        isWindowFull := false;
        sendManager.InitStatu();
      }
      if lastServerHelloTime > 0 && lastServerHelloTime + 60 * 1_000_000 < now {
        closed := true;
      }
    }

    method RunPending()
      requires Valid() && pending != []
      modifies this, sendManager
      ensures Valid()
      ensures var (s, out) := RunClosure(File(), old(State())); State() == s && outbox == old(outbox) + out
    {
      var functor := pending[0];
      pending := pending[1..];
      match functor
      case StreamNext => SendStream();
      case LossNext(pieces) => SendLoss(pieces);
    }
  }
}
