/** The protocol messages and their builders. */
module Messages {
  import opened Numerals

  datatype MsgType =
    | MsgInvalid | MsgHead | MsgFile | MsgEnd | MsgNotify | MsgClose
    | MsgRecvHead | MsgRecvFile | MsgFileSt | MsgVersion

  const FILETYPE_FILLER: nat := 2

  const STATUS_OK: byte := 0
  const STATUS_ERR: byte := 1

  const VERSION := "v0.5.4 230213.1138 dev"

  const SEND_BUFFER: nat := 8192
  const READ_BUFFER: nat := 12000
  const TAG_BUFFER: nat := 2012

  datatype Message = Message(
    Pubkey: seq<byte>, SignMsg: seq<byte>, Sign: seq<byte>, Bytes: seq<byte>,
    FileName: string, FileHash: string, FileSize: nat, MsgType: MsgType, LastMark: bool, FileType: nat)

  function NotifyMsg(fileName: string, status: byte, ver: string): Message {
    Message([], [], [], [status], if fileName != "" then fileName else ver, "", 0, MsgNotify, false, 0)
  }

  function HeadMsg(fileName: string, fid: string, fileType: nat, lastMark: bool,
                   pkey: seq<byte>, signMsg: seq<byte>, sign: seq<byte>): Message {
    Message(pkey, signMsg, sign, [], fileName, fid, 0, MsgHead, lastMark, fileType)
  }

  /** `buffer` is the whole pooled buffer, of which the first n bytes are the chunk. */
  function FileMsg(fileName: string, fileType: nat, n: nat, buffer: seq<byte>): Message {
    Message([], [], [], buffer, fileName, "", n, MsgFile, false, fileType)
  }

  function EndMsg(fileType: nat, fileName: string, fileHash: string, size: nat, lastMark: bool): Message {
    Message([], [], [], [], fileName, fileHash, size, MsgEnd, lastMark, fileType)
  }

  function CloseMsg(status: byte): Message {
    Message([], [], [], [status], "", "", 0, MsgClose, false, 0)
  }

  function FileStMsg(fid: string, val: seq<byte>): Message {
    Message([], [], [], val, "", fid, |val|, MsgFileSt, false, 0)
  }

  function VersionMsg(ver: string): Message {
    Message([], [], [], [STATUS_OK], ver, "", 0, MsgVersion, false, 0)
  }
}
