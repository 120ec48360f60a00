/** The register pages of an EtherCAT slave controller: FMMU pages
    (src/ethercat/fmmu_config.rs) and sync-manager pages (src/ethercat/sync.rs), with the
    decoding the slave applies to them. */
module EscPages {
  import opened Bytes
  import opened Config

  const FMMU_PAGE: nat := 16
  const SM_PAGE: nat := 8
  const DIR_INPUT: byte := 0x01
  const DIR_OUTPUT: byte := 0x02
  const SM_ENABLE: byte := 0x01
  const CONTROL_MBOX_WRITE: byte := 0x26
  const CONTROL_MBOX_READ: byte := 0x22

  // ---- FMMU ----

  /** What `write_page` leaves in a page. */
  function FmmuPage(c: FmmuCfg): (p: seq<byte>)
    ensures |p| == FMMU_PAGE
  {
    Le32(c.logicalStart) + Le16(c.size) + [0x00, 0x07] + Le16(c.physStart)
    + [0x00, match c.dir case Input => DIR_INPUT case Output => DIR_OUTPUT] + Le16(0x0001) + Le16(0x0000)
  }

  method WriteFmmuPage(page: array<byte>, c: FmmuCfg)
    requires page.Length == FMMU_PAGE
    modifies page
    ensures page[..] == FmmuPage(c)
  {
    hide Le16, Le32, Splice;
    ghost var was, acc := page[..], [];
    Untouched(was);
    acc := Lay(page, was, acc, 0, Le32(c.logicalStart));
    acc := Lay(page, was, acc, 4, Le16(c.size));
    acc := Lay(page, was, acc, 6, [0x00, 0x07]);
    acc := Lay(page, was, acc, 8, Le16(c.physStart));
    acc := Lay(page, was, acc, 10, [0x00, match c.dir case Input => DIR_INPUT case Output => DIR_OUTPUT]);
    acc := Lay(page, was, acc, 12, Le16(0x0001));
    acc := Lay(page, was, acc, 14, Le16(0x0000));
    Covered(was, acc);
  }

  /** The next field of a page that already starts with `acc`. */
  method Lay(page: array<byte>, ghost was: seq<byte>, ghost acc: seq<byte>, at: nat, d: seq<byte>)
    returns (ghost acc': seq<byte>)
    requires at == |acc| && at + |d| <= page.Length == |was| && page[..] == Splice(was, 0, acc)
    modifies page
    ensures acc' == acc + d && page[..] == Splice(was, 0, acc')
  {
    hide Splice;
    CopyInto(page, at, d);
    SpliceAdjacent(was, 0, acc, d);
    acc' := acc + d;
  }

  lemma Untouched(s: seq<byte>)
    ensures Splice(s, 0, []) == s
  {
  }

  lemma Covered(s: seq<byte>, d: seq<byte>)
    requires |d| == |s|
    ensures Splice(s, 0, d) == d
  {
  }

  /** How a slave controller reads a page: an enabled, byte-aligned mapping, or nothing. */
  function DecodeFmmu(p: seq<byte>): Option<FmmuCfg>
    requires |p| == FMMU_PAGE
  {
    if p[12] % 2 != 1 || p[6] != 0 || p[7] != 7 || p[10] != 0 || (p[11] != DIR_INPUT && p[11] != DIR_OUTPUT) then None
    else
      Some(FmmuCfg(FromLe32(p[0..4]), FromLe16(p[4], p[5]), FromLe16(p[8], p[9]), if p[11] == DIR_INPUT then Input
        else Output))
  }

  /** The slave sees exactly the mapping that was configured. */
  lemma FmmuRoundTrip(c: FmmuCfg)
    ensures DecodeFmmu(FmmuPage(c)) == Some(c)
  {
    var p := FmmuPage(c);
    assert p[0..4] == Le32(c.logicalStart);
    Le32RoundTrip(c.logicalStart);
    assert p[4] == c.size % 0x100 && p[5] == c.size / 0x100;
    assert p[8] == c.physStart % 0x100 && p[9] == c.physStart / 0x100;
  }

  // ---- Sync managers ----

  function SmPage(physStart: word, length: word, control: byte, enable: byte): (p: seq<byte>)
    ensures |p| == SM_PAGE
  {
    Le16(physStart) + Le16(length) + [control, 0, enable, 0]
  }

  method WriteSmPage(page: array<byte>, physStart: word, length: word, control: byte, enable: byte)
    requires page.Length == SM_PAGE
    modifies page
    ensures page[..] == SmPage(physStart, length, control, enable)
  {
    hide Le16, Splice;
    ghost var was, acc := page[..], [];
    Untouched(was);
    acc := Lay(page, was, acc, 0, Le16(physStart));
    acc := Lay(page, was, acc, 2, Le16(length));
    acc := Lay(page, was, acc, 4, [control, 0, enable, 0]);
    Covered(was, acc);
  }

  /** What a slave controller takes from a sync-manager page. */
  datatype Window = Window(start: word, length: word, control: byte, enabled: bool)

  function DecodeSm(p: seq<byte>): Window
    requires |p| == 8
  {
    Window(FromLe16(p[0], p[1]), FromLe16(p[2], p[3]), p[4], p[6] % 2 == 1)
  }

  /** The slave sees exactly the window that was configured. */
  lemma SmRoundTrip(physStart: word, length: word, control: byte, enable: byte)
    ensures DecodeSm(SmPage(physStart, length, control, enable))
      == Window(physStart, length, control, enable % 2 == 1)
  {
    var p := SmPage(physStart, length, control, enable);
    assert p[0] == physStart % 0x100 && p[1] == physStart / 0x100 && p[2] == length % 0x100 && p[3] == length / 0x100;
  }

  /** A mailbox to the slave, a mailbox from it, and process data. */
  lemma PagesSeen(physStart: word, size: word, control: byte)
    ensures DecodeSm(MailboxOutPage(physStart, size)) == Window(physStart, size, 0x26, true)
    ensures DecodeSm(MailboxInPage(physStart, size)) == Window(physStart, size, 0x22, true)
    ensures DecodeSm(ProcessPage(physStart, size, control)) == Window(physStart, size, control, size > 0)
  {
    SmRoundTrip(physStart, size, CONTROL_MBOX_WRITE, SM_ENABLE);
    SmRoundTrip(physStart, size, CONTROL_MBOX_READ, SM_ENABLE);
    SmRoundTrip(physStart, size, control, if size > 0 then SM_ENABLE else 0);
  }

  /** The four wrappers: mailbox pages are always enabled, process-data pages when they
      carry anything. */
  function MailboxOutPage(physStart: word, size: word): (p: seq<byte>)
    ensures |p| == SM_PAGE
  {
    SmPage(physStart, size, CONTROL_MBOX_WRITE, SM_ENABLE)
  }

  function MailboxInPage(physStart: word, size: word): (p: seq<byte>)
    ensures |p| == SM_PAGE
  {
    SmPage(physStart, size, CONTROL_MBOX_READ, SM_ENABLE)
  }

  function ProcessPage(physStart: word, size: word, control: byte): (p: seq<byte>)
    ensures |p| == SM_PAGE
  {
    SmPage(physStart, size, control, if size > 0 then SM_ENABLE else 0)
  }
}
