/** Errors and results of the master (src/ethercat/ecrt.rs), and the registers it uses
    (src/ethercat/globals.rs). */
module Ecrt {
  import opened Bytes

  datatype Error =
    | Transport | Timeout | FrameTooShort | WorkingCounter | SiiError | SiiTimeout | TooManySlaves
    | NoSuchSlave | CoeUnsupported | MailboxTimeout | MailboxProtocol
    | StateChange(code: word) | SdoAbort(abort: dword)

  datatype Outcome<+T> = Ok(value: T) | Err(error: Error)

  const AL_CONTROL: word := 0x0120
  const AL_STATUS: word := 0x0130
  const AL_STATUS_CODE: word := 0x0134
  const WD_DIVIDER: word := 0x0400
  const WD_PDATA: word := 0x0420
  const FMMU_BASE: word := 0x0600
  const SM0: word := 0x0800
  const SM1: word := 0x0808
  const SM1_STATUS: word := 0x080D
  const DC_RECV_TIME: word := 0x0900
  const DC_SYS_TIME: word := 0x0910
  const DC_SYS_TIME_OFFSET: word := 0x0920
  const DC_SYS_TIME_DELAY: word := 0x0928
  const DC_SYS_TIME_DIFF: word := 0x092C
  const DC_ACTIVATION: word := 0x0980
  const DC_CYCLE_START: word := 0x0990
  const DC_SYNC0_CYCLE: word := 0x09A0

  const PREOP: byte := 0x02
  const SAFEOP: byte := 0x04
  const OP: byte := 0x08
  /** Error bit of AL status and acknowledge bit of AL control. */
  const ACK_ERROR: byte := 0x10

  /** A slave's mailbox windows, as found by the scan (src/ethercat/slave.rs). */
  datatype Mailbox = Mailbox(station: word, rxOffset: word, rxSize: word, txOffset: word, txSize: word)

  predicate AlError(s: byte) { (s / 16) % 2 == 1 }
  function AlState(s: byte): byte { s % 16 }
  function FirstByte(data: seq<byte>): byte { if data == [] then 0 else data[0] }

  /** Largest clock value plus one. */
  const WRAP64: nat := 0x1_0000_0000_0000_0000
  type qword = x: int | 0 <= x < 0x1_0000_0000_0000_0000
}
