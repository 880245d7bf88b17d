/** client/GetConnManager: the downloader's end of a transfer. Every ten pieces it returns ten credits; a timer asks
    for the missing pieces again. */
module GetConn {
  import opened Pieces
  import opened Messages
  import opened GetFile

  datatype Option<+T> = None | Some(value: T)

  datatype GetState = Idle | WaitSender | ConnSender | RecvFile

  /** The value of a GetConnManager. */
  datatype Receiver = Receiver(state: GetState, writer: Option<Writer>, window: nat, fileBytes: nat,
                               server: Addr, peer: Addr, serverHello: int, peerHello: int, lastData: int, closed: bool)

  function HandleHelloReply(r: Receiver, sign: Sign, from: Addr): (Receiver, seq<Msg>) {
    if r.state == ConnSender && sign == ClientSign && from == r.peer then
      var w := NewWriter(r.fileBytes);
      if w.open then (r.(writer := Some(w), state := RecvFile), [DownloadStart])
      else (r.(writer := Some(w), closed := true), [])
    else (r, [])
  }

  /** One more piece is counted; the tenth sends the credits. */
  function CountOne(window: nat): (nat, seq<Msg>) {
    if window + 1 >= 10 then (0, [PackAck(window + 1)]) else (window + 1, [])
  }

  function HandleDataStream(r: Receiver, time: int, piece: nat, data: seq<Byte>): (Receiver, seq<Msg>) {
    if r.state != RecvFile || r.writer == None then (r, [])
    else
      var (window, acks) := CountOne(r.window);
      var (w, ret) := Write(r.writer.value, data, piece);
      var r1 := r.(lastData := time, window := window, writer := Some(w));
      if ret == WRITE_FINISH then (r1.(state := Idle, closed := true), acks + [Finish]) else (r1, acks)
  }

  function Handle(r: Receiver, sign: Sign, from: Addr, time: int, m: Msg): (Receiver, seq<Msg>) {
    match m
    case Hello => (r, [HelloReply])
    case HelloReply =>
      var (r1, out) := HandleHelloReply(r, sign, from);
      var r2 := if from == r.server then r1.(serverHello := time)
        else if from == r.peer then r1.(peerHello := time) else r1;
      (r2, out)
    case FileData(fileBytes, sharer) =>
      if r.state != WaitSender then (r, [])
      else (r.(peer := sharer, fileBytes := fileBytes, state := ConnSender), [Hello])
    case DataStream(piece, data) => HandleDataStream(r, time, piece, data)
    case ErrorFormat => (r.(closed := true), [])
    case Error404 => (r.(closed := true), [])
    case _ => (r, [])
  }

  /** 100 ms without data. */
  predicate TimedOut(r: Receiver, now: int) { r.lastData + 100 * 1000 < now }

  /** The one-second timer: after a silence, return a whole window of credits; then list what is missing. */
  function RetranReq(r: Receiver, now: int): seq<Msg> {
    if r.state != RecvFile || r.writer == None then []
    else
      var pieces := Listed(r.writer.value.loss, r.writer.value.cur);
      (if TimedOut(r, now) then [PackAck(30)] else []) + (if pieces == [] then [] else [Retran(pieces)])
  }

  function CheckPeerAlive(r: Receiver, now: int): Receiver {
    if Silent(r.peerHello, now) then r.(closed := true) else r
  }

  /** Writing closes the file exactly when it finishes it. */
  lemma ClosedByFinish(w: Writer, data: seq<Byte>, piece: nat)
    ensures w.open ==> (Write(w, data, piece).0.open <==> Write(w, data, piece).1 != WRITE_FINISH)
  {
  }

  class GetConnManager {
    const serverAddr: Addr
    var state: GetState
    var getManager: GetFileManager?
    var recvWindow: nat
    var fileBytes: nat
    var recverAddr: Addr
    var lastServerHelloTime: int
    var lastPeerHelloTime: int
    var lastDataStreamTime: int
    var closed: bool
    /** The messages handed to the socket. */
    var outbox: seq<Msg>

    ghost function Repr(): set<object>
      reads this
    {
      if getManager == null then {this} else {this, getManager}
    }

    /** While data is being received there is an open file to write it to. */
    ghost predicate Valid()
      reads this, Repr()
    {
      && (getManager != null ==> getManager.Valid())
      && (state == RecvFile ==> getManager != null && getManager.isOpen)
    }

    ghost function State(): Receiver
      reads this, Repr()
    {
      Receiver(state, if getManager == null then None else Some(getManager.State()), recvWindow, fileBytes,
               serverAddr, recverAddr, lastServerHelloTime, lastPeerHelloTime, lastDataStreamTime, closed)
    }

    /** After getFile(): the server has been asked who shares the code. */
    constructor (server: Addr)
      ensures Valid() && fresh(Repr()) && outbox == []
      ensures State() == Receiver(WaitSender, None, 0, 0, server, 0, 0, 0, 0, false)
    {
      serverAddr := server;
      state, getManager, recvWindow, fileBytes, recverAddr := WaitSender, null, 0, 0, 0;
      lastServerHelloTime, lastPeerHelloTime, lastDataStreamTime, closed := 0, 0, 0, false;
      outbox := [];
    }

    method OnHelloReply(sign: Sign, from: Addr)
      requires Valid()
      modifies this
      ensures Valid() && fresh(Repr() - old(Repr()))
      ensures var (r, out) := HandleHelloReply(old(State()), sign, from); State() == r && outbox == old(outbox) + out
    {
      if state == ConnSender && sign == ClientSign {
        if from == recverAddr {
          getManager := new GetFileManager(fileBytes);
          if getManager.isOpen {
            outbox := outbox + [DownloadStart];
            state := RecvFile;
          } else {
            closed := true;
          }
        }
      }
    }

    method OnDataStream(time: int, piece: nat, data: seq<Byte>)
      requires Valid()
      modifies Repr()
      ensures Valid() && getManager == old(getManager)
      ensures State() == HandleDataStream(old(State()), time, piece, data).0
      ensures outbox == old(outbox) + HandleDataStream(old(State()), time, piece, data).1
    {
      if state != RecvFile {
        return;
      }
      lastDataStreamTime := time;
      assert getManager != null && getManager.isOpen;
      CountPiece();
      StorePiece(piece, data);
      hide Write, CountOne;
    }

    /** The piece is written; if that finishes the file, the sharer is told. */
    method StorePiece(piece: nat, data: seq<Byte>)
      requires Valid() && state == RecvFile
      modifies `state, `outbox, `closed, getManager
      ensures Valid() && getManager == old(getManager) && getManager != null
      ensures getManager.State() == Write(old(getManager.State()), data, piece).0
      ensures if Write(old(getManager.State()), data, piece).1 == WRITE_FINISH
        then state == Idle && closed && outbox == old(outbox) + [Finish]
        else state == RecvFile && closed == old(closed) && outbox == old(outbox)
    {
      ClosedByFinish(getManager.State(), data, piece);
      hide Write;
      var ret := getManager.WriteToFile(data, piece);
      if ret == WRITE_FINISH {
        state := Idle;
        outbox := outbox + [Finish];
        closed := true;
      }
    }

    method CountPiece()
      modifies `recvWindow, `outbox
      ensures recvWindow == CountOne(old(recvWindow)).0 && outbox == old(outbox) + CountOne(old(recvWindow)).1
    {
      recvWindow := recvWindow + 1;
      if recvWindow >= 10 {
        SendPackAck(recvWindow);
        recvWindow := 0;
      }
    }

    method SendPackAck(nums: nat)
      modifies `outbox
      ensures outbox == old(outbox) + [PackAck(nums)]
    {
      outbox := outbox + [PackAck(nums)];
    }

    method GetFileMsgHandle(sign: Sign, from: Addr, time: int, m: Msg)
      requires Valid()
      modifies Repr()
      ensures Valid() && fresh(Repr() - old(Repr()))
      ensures var (r, out) := Handle(old(State()), sign, from, time, m);
        State() == r && outbox == old(outbox) + out
    {
      match m
      case Hello =>
        outbox := outbox + [HelloReply];
      case HelloReply =>
        OnHelloReply(sign, from);
        if from == serverAddr {
          lastServerHelloTime := time;
        } else if from == recverAddr {
          lastPeerHelloTime := time;
        }
      case FileData(size, sharer) =>
        if state == WaitSender {
          recverAddr := sharer;
          fileBytes := size;
          outbox := outbox + [Hello];
          state := ConnSender;
        }
      case DataStream(piece, data) =>
        OnDataStream(time, piece, data);
      case ErrorFormat =>
        closed := true;
      case Error404 =>
        closed := true;
      case _ =>
    }

    method SendRetranReq(now: int)
      requires Valid()
      modifies this
      ensures Valid() && State() == old(State()) && Repr() == old(Repr())
      ensures outbox == old(outbox) + RetranReq(old(State()), now)
    {
      if state != RecvFile || getManager == null {
        return;
      }
      if lastDataStreamTime + 100 * 1000 < now {
        SendPackAck(3 * 10);
      }
      var pieces := getManager.GetLossPieces();
      if |pieces| == 0 {
        return;
      }
      outbox := outbox + [Retran(pieces)];
    }

    method CheckAlive(now: int)
      requires Valid()
      modifies this
      ensures Valid() && State() == CheckPeerAlive(old(State()), now) && Repr() == old(Repr()) && outbox == old(outbox)
    {
      if lastPeerHelloTime > 0 && lastPeerHelloTime + 60 * 1_000_000 < now {
        closed := true;
      }
    }
  }
}
