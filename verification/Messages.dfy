/** The messages of utils/Header.h and the constants of client/ConnManager.h. */
module Messages {
  import opened Pieces

  type Addr = nat

  datatype Sign = ServerSign | ClientSign

  datatype Msg =
    | Hello | HelloReply
    | ShareCode(code: nat) | FileData(fileBytes: nat, sharer: Addr) | FileReq(recver: Addr)
    | DownloadStart | DataStream(pieceNum: nat, data: seq<Byte>)
    | PackAck(nums: nat) | Retran(pieces: seq<nat>) | Finish
    | Chat | ErrorFormat | ErrorLimit | Error404

  /** 60 seconds without a HELLO_REPLY, in microseconds, from a time that has been set at all. */
  predicate Silent(last: int, now: int) { last > 0 && last + 60 * 1_000_000 < now }
}
