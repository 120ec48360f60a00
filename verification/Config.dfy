/** The configuration data model (src/ethercat/config/model.rs) and the limits of
    src/ethercat/globals.rs. The generated tables are values of these types; every
    result here is about arbitrary values that meet the predicates stated beside it. */
module Config {
  import opened Bytes

  const MAX_SLAVES: nat := 32
  const MAX_IMAGE: nat := 512

  datatype Direction = Output | Input
  datatype HalType = Bit | U32 | S32

  datatype PinCfg = PinCfg(name: string, byteOffset: nat, bitPos: nat, bitLen: nat, halType: HalType, dir: Direction)

  datatype PdoEntry = PdoEntry(index: word, subindex: byte, bitLen: byte)
  datatype PdoCfg = PdoCfg(index: word, entries: seq<PdoEntry>)
  datatype SmCfg = SmCfg(index: byte, physStart: word, control: byte, dir: Direction, size: word, pdos: seq<PdoCfg>)
  datatype FmmuCfg = FmmuCfg(logicalStart: dword, size: word, physStart: word, dir: Direction)
  datatype DcCfg = DcCfg(assignActivate: word, sync0Cycle: dword, sync0Shift: dword, sync1Cycle: dword)
  datatype SdoInit = SdoInit(index: word, subindex: byte, data: seq<byte>)
  datatype SlaveCfg = SlaveCfg(position: word, sms: seq<SmCfg>, fmmus: seq<FmmuCfg>, dc: Option<DcCfg>,
    sdoInit: seq<SdoInit>)

  /** One streamed motion field: `len` bytes of a host sample, copied into the image. */
  datatype StreamField = StreamField(sampleOff: nat, imageOff: nat, len: nat)
}
