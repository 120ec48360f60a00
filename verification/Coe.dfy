/** Mailbox framing (src/ethercat/mailbox.rs) and expedited SDO messages
    (src/ethercat/fsm_coe.rs:203-262), with the slave's reading of a request. */
module Coe {
  import opened Bytes
  import opened Ecrt

  const MAILBOX_HEADER: nat := 6
  const TYPE_COE: byte := 0x03
  const SDO_REQUEST: word := 0x02

  datatype Header = Header(dataLen: word, mboxType: byte, counter: byte)

  function WriteHeader(dataLen: word, mboxType: byte, counter: byte): (s: seq<byte>)
    ensures |s| == MAILBOX_HEADER
  {
    Le16(dataLen) + Le16(0) + [0, mboxType % 16 + 16 * (counter % 8)]
  }

  function ParseHeader(buf: seq<byte>): Option<Header> {
    if |buf| < MAILBOX_HEADER then None
    else Some(Header(FromLe16(buf[0], buf[1]), buf[5] % 16, (buf[5] / 16) % 8))
  }

  lemma HeaderRoundTrip(dataLen: word, mboxType: byte, counter: byte, rest: seq<byte>)
    requires mboxType < 16 && counter < 8
    ensures ParseHeader(WriteHeader(dataLen, mboxType, counter) + rest) == Some(Header(dataLen, mboxType, counter))
  {
    var b, f := WriteHeader(dataLen, mboxType, counter) + rest, mboxType + 16 * counter;
    assert b[0] == dataLen % 0x100 && b[1] == dataLen / 0x100 && b[5] == f;
    hide WriteHeader;
    assert f % 16 == mboxType && f / 16 == counter;
  }

  datatype SdoKind = Download | Upload

  /** An expedited request; `data` has already been cut to four bytes. */
  datatype SdoRequest = SdoRequest(kind: SdoKind, index: word, subindex: byte, data: seq<byte>) {
    predicate Valid() { |data| <= 4 }
  }

  function Cut4(data: seq<byte>): (d: seq<byte>)
    ensures |d| <= 4
  {
    if |data| <= 4 then data else data[..4]
  }

  function DownloadOf(index: word, subindex: byte, data: seq<byte>): (r: SdoRequest)
    ensures r.Valid()
  {
    SdoRequest(Download, index, subindex, Cut4(data))
  }

  /** The command byte: expedited download with its size, or upload request. */
  function Command(r: SdoRequest): byte
    requires r.Valid()
  {
    match r.kind
    case Download => 0x23 + 4 * (4 - |r.data|)
    case Upload => 0x40
  }

  function RequestBytes(r: SdoRequest): (s: seq<byte>)
    requires r.Valid()
    ensures |s| == 16
  {
    WriteHeader(10, TYPE_COE, 0) + Le16(SDO_REQUEST * 0x1000) + [Command(r)] + Le16(r.index) + [r.subindex]
    + if r.kind == Download then r.data + Zeros(4 - |r.data|) else Zeros(4)
  }

  function Clamp(v: nat, lo: nat, hi: nat): nat { if v < lo then lo else if v > hi then hi else v }

  /** The request padded to the configured mailbox size, so that its last byte is written. */
  function MailboxWrite(mbox: Mailbox, r: SdoRequest): (s: seq<byte>)
    requires r.Valid()
    ensures 16 <= |s| <= 256
  {
    RequestBytes(r) + Zeros(Clamp(mbox.rxSize, 16, 256) - 16)
  }

  function MailboxReadLen(mbox: Mailbox): nat { Clamp(mbox.txSize, 16, 256) }

  /** The response is read over the whole window, so that its last byte frees the mailbox. */
  lemma WholeWindow(mbox: Mailbox)
    ensures 16 <= mbox.txSize <= 256 ==> MailboxReadLen(mbox) == mbox.txSize
  {
  }

  function ParseSdoResponse(kind: SdoKind, data: seq<byte>): Outcome<seq<byte>> {
    match ParseHeader(data)
    case None => Err(MailboxProtocol)
    case Some(h) =>
      if h.mboxType != TYPE_COE || |data| < 16 then Err(MailboxProtocol)
      else
        var cmd := data[8];
        if cmd / 32 == 4 then Err(SdoAbort(FromLe32(data[12..16])))
        else if kind == Download then Ok([])
        else if (cmd / 2) % 2 == 0 then Err(MailboxProtocol)
        else Ok(data[12..12 + (4 - (cmd / 4) % 4)])
  }

  // ---- Whose answer it is ----

  /** The object a response names. */
  function Named(data: seq<byte>): (word, byte)
    requires |data| >= 12
  {
    (FromLe16(data[9], data[10]), data[11])
  }

  /** The source does not look at the object: no other one named in its place changes what a
      response is taken for. */
  lemma ObjectNotRead(kind: SdoKind, data: seq<byte>, name: seq<byte>)
    requires |data| >= 12 && |name| == 3
    ensures ParseSdoResponse(kind, data[..9] + name + data[12..]) == ParseSdoResponse(kind, data)
  {
    var other := data[..9] + name + data[12..];
    assert other[5] == data[5] && other[8] == data[8] && other[0] == data[0] && other[1] == data[1];
    if |data| >= 16 {
      var n := 4 - (data[8] / 4) % 4;
      assert forall i :: 12 <= i < |data| ==> other[i] == data[i];
      assert other[12..12 + n] == data[12..12 + n] && other[12..16] == data[12..16];
    }
  }

  /** A server's expedited answer for an object that holds `value`. */
  function AnswerFor(index: word, subindex: byte, value: seq<byte>): (s: seq<byte>)
    requires 1 <= |value| <= 4
    ensures |s| == 16
  {
    WriteHeader(10, TYPE_COE, 0) + Le16(0x3000) + [0x43 + 4 * (4 - |value|)] + Le16(index) + [subindex]
    + value + Zeros(4 - |value|)
  }

  lemma AnswerTaken(index: word, subindex: byte, value: seq<byte>)
    requires 1 <= |value| <= 4
    ensures ParseSdoResponse(Upload, AnswerFor(index, subindex, value)) == Ok(value)
    ensures Named(AnswerFor(index, subindex, value)) == (index, subindex)
  {
    var s := AnswerFor(index, subindex, value);
    AnswerLayout(index, subindex, value);
    hide AnswerFor;
    assert s[12..12 + |value|] == s[12..16][..|value|];
  }

  lemma AnswerLayout(index: word, subindex: byte, value: seq<byte>)
    requires 1 <= |value| <= 4
    ensures var s := AnswerFor(index, subindex, value);
      && s[5] == TYPE_COE && s[8] == 0x43 + 4 * (4 - |value|)
      && FromLe16(s[9], s[10]) == index && s[11] == subindex && s[12..16] == value + Zeros(4 - |value|)
  {
  }

  type Dictionary = d: map<(word, byte), seq<byte>> | forall k <- d :: 1 <= |d[k]| <= 4

  /** Whatever the slave's dictionary holds, an answer naming `named` returns the value of
      `asked`. */
  ghost predicate Right(asked: (word, byte), named: (word, byte)) {
    forall d: Dictionary :: asked in d && named in d ==>
      ParseSdoResponse(Upload, AnswerFor(named.0, named.1, d[named])) == Ok(d[asked])
  }

  /** So an upload is sure to return the requested object's value exactly if the answer taken
      names that object; an answer left over from another request is taken just the same. */
  lemma UploadRightIff(asked: (word, byte), named: (word, byte))
    ensures Right(asked, named) <==> asked == named
  {
    hide AnswerFor, ParseSdoResponse;
    forall d: Dictionary | named in d
      ensures ParseSdoResponse(Upload, AnswerFor(named.0, named.1, d[named])) == Ok(d[named])
    {
      AnswerTaken(named.0, named.1, d[named]);
    }
    if asked != named {
      var d: Dictionary := map[asked := [1], named := [2]];
      assert asked in d && named in d && d[asked] == [1] && d[named] == [2];
    }
  }

  /** A server's refusal of a request for that object. */
  function AbortFor(index: word, subindex: byte, code: dword): (s: seq<byte>)
    ensures |s| == 16
  {
    Le16(10) + [0, 0, 0, 0x03] + Le16(0x3000) + [0x80] + Le16(index) + [subindex] + Le32(code)
  }

  /** It is reported as an abort, with the server's own code. */
  lemma AbortTaken(kind: SdoKind, index: word, subindex: byte, code: dword)
    ensures ParseSdoResponse(kind, AbortFor(index, subindex, code)) == Err(SdoAbort(code))
  {
    var s := AbortFor(index, subindex, code);
    assert s[5] == 3 && s[8] == 0x80 && s[12..16] == Le32(code);
    Le32RoundTrip(code);
  }

  // ---- The slave's side ----

  datatype SdoWrite = SdoWrite(index: word, subindex: byte, data: seq<byte>)

  /** How a CoE server reads a mailbox of ten bytes of service data: an expedited download (command specifier 1,
    transfer
      type and size indicated), its size in bits 2 and 3, complete access in bit 4. */
  function DecodeDownload(m: seq<byte>): Option<SdoWrite> {
    if |m| < 16 then None
    else
      var cmd := m[8];
      if FromLe16(m[0], m[1]) != 10 || m[5] % 16 != 3 || FromLe16(m[6], m[7]) / 0x1000 != 2 then None
      else if cmd / 32 != 1 || cmd % 4 != 3 || (cmd / 16) % 2 == 1 then None
      else Some(SdoWrite(FromLe16(m[9], m[10]), m[11], m[12..12 + (4 - (cmd / 4) % 4)]))
  }

  /** The server understands the write exactly when there is something to write: an empty
      init value turns into a complete-access request, and more than four bytes are cut. */
  lemma DownloadUnderstoodIff(mbox: Mailbox, index: word, subindex: byte, data: seq<byte>)
    ensures DecodeDownload(MailboxWrite(mbox, DownloadOf(index, subindex, data)))
      == Some(SdoWrite(index, subindex, data))
      <==> 1 <= |data| <= 4
  {
    var r := DownloadOf(index, subindex, data);
    var m := MailboxWrite(mbox, r);
    MailboxLayout(mbox, r);
    hide MailboxWrite;
    if |data| > 4 {
      assert |m[12..16]| == 4;
    } else if |data| > 0 {
      assert m[12..12 + |data|] == m[12..16][..|data|] == data;
    }
  }

  /** How a CoE server reads an upload request: the object whose value is wanted. */
  function DecodeUpload(m: seq<byte>): Option<(word, byte)> {
    if |m| < 16 then None
    else if FromLe16(m[0], m[1]) != 10 || m[5] % 16 != 3 || m[7] / 16 != 2 || m[8] / 32 != 2 then None
    else Some((FromLe16(m[9], m[10]), m[11]))
  }

  /** The server is asked for exactly the object the request names, over the whole mailbox of
      up to 256 bytes, so that the window is filled to its last byte. */
  lemma UploadUnderstood(mbox: Mailbox, index: word, subindex: byte)
    ensures var m := MailboxWrite(mbox, SdoRequest(Upload, index, subindex, []));
      DecodeUpload(m) == Some((index, subindex)) && (16 <= mbox.rxSize <= 256 ==> |m| == mbox.rxSize)
  {
    var r := SdoRequest(Upload, index, subindex, []);
    var b := RequestBytes(r);
    assert b[0] == 10 && b[1] == 0 && b[5] == 3 && b[7] == 0x20 && b[8] == 0x40 && b[11] == subindex;
    assert b[9] == index % 0x100 && b[10] == index / 0x100;
    hide RequestBytes;
    assert forall k :: 0 <= k < 16 ==> MailboxWrite(mbox, r)[k] == b[k];
  }

  lemma MailboxLayout(mbox: Mailbox, r: SdoRequest)
    requires r.Valid() && r.kind == Download
    ensures var m := MailboxWrite(mbox, r);
      && m[0] == 10 && m[1] == 0 && m[5] == 3 && FromLe16(m[6], m[7]) == 0x2000 && m[8] == Command(r)
      && FromLe16(m[9], m[10]) == r.index && m[11] == r.subindex && m[12..16] == r.data + Zeros(4 - |r.data|)
  {
    RequestLayout(r);
    hide RequestBytes;
  }

  lemma RequestLayout(r: SdoRequest)
    requires r.Valid() && r.kind == Download
    ensures var m := RequestBytes(r);
      && m[0] == 10 && m[1] == 0 && m[5] == 3 && FromLe16(m[6], m[7]) == 0x2000 && m[8] == Command(r)
      && FromLe16(m[9], m[10]) == r.index && m[11] == r.subindex && m[12..16] == r.data + Zeros(4 - |r.data|)
  {
  }
}
