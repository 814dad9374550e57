/** Commands, levels and the two timing tables, of DDR4 and of DDR4_AB (DDR4.cpp, DDR4_AB.cpp). */
module DramSpec {

  datatype Command = ACT | PRE | PREA | RD | WR | RDA | WRA | REF | PDE | PDX | SRE | SRX

  const CHANNEL: nat := 0
  const RANK: nat := 1
  const BANK_GROUP: nat := 2
  const BANK: nat := 3
  const ROW: nat := 4
  const COLUMN: nat := 5
  const LEVELS: nat := 6

  function Max(a: int, b: int): int { if a < b then b else a }

  /** The level at which a command takes effect. */
  function Scope(cmd: Command): nat
  {
    match cmd
    case ACT => ROW
    case PRE => BANK
    case RD | WR | RDA | WRA => COLUMN
    case _ => RANK
  }

  /** After the dist-th most recent issue of the command that owns the entry, cmd must wait val cycles; a sibling entry
      constrains the nodes beside the target instead of the target. */
  datatype Entry = Entry(cmd: Command, dist: nat, val: int, sibling: bool)

  /** The entries of a command at a level. */
  type Table = (nat, Command) -> seq<Entry>

  /** dist counts from one, and a sibling remembers no history (the assertion in update_timing). */
  ghost predicate IsTable(table: Table)
  {
    forall level: nat, cmd, k: nat :: k < |table(level, cmd)| ==>
      table(level, cmd)[k].dist >= 1 && (table(level, cmd)[k].sibling ==> table(level, cmd)[k].dist == 1)
  }

  /** The timing parameters of a speed grade that the tables mention. */
  datatype Speed = Speed(nBL: nat, nCCDS: nat, nCCDL: nat, nRTRS: nat, nCL: nat, nRCD: nat, nRP: nat, nCWL: nat,
                         nRAS: nat, nRC: nat, nRTP: nat, nWTRS: nat, nWTRL: nat, nWR: nat, nRRDS: nat, nRRDL: nat,
                         nFAW: nat, nRFC: nat, nPD: nat, nXP: nat, nCKESR: nat, nXS: nat)

  function Own(cmd: Command, val: int): Entry { Entry(cmd, 1, val, false) }
  function Beyond(cmd: Command, val: int): Entry { Entry(cmd, 1, val, true) }

  function ReadToWrite(s: Speed): int { s.nCL + s.nBL + 2 - s.nCWL }

  function SiblingRead(s: Speed): seq<Entry>
  {
    [Beyond(RD, s.nBL + s.nRTRS), Beyond(RDA, s.nBL + s.nRTRS), Beyond(WR, s.nBL + s.nRTRS),
     Beyond(WRA, s.nBL + s.nRTRS),
     Beyond(WR, s.nCL + s.nBL + s.nRTRS - s.nCWL), Beyond(WRA, s.nCL + s.nBL + s.nRTRS - s.nCWL)]
  }

  function SiblingWrite(s: Speed): seq<Entry>
  {
    [Beyond(RD, s.nCWL + s.nBL + s.nRTRS - s.nCL), Beyond(RDA, s.nCWL + s.nBL + s.nRTRS - s.nCL)]
  }

  function BothReads(val: int): seq<Entry> { [Own(RD, val), Own(RDA, val)] }
  function BothWrites(val: int): seq<Entry> { [Own(WR, val), Own(WRA, val)] }

  /** Channel entries, and the rank entries of the power and refresh commands; the two specifications agree on them. */
  function SharedTable(s: Speed, level: nat, cmd: Command): seq<Entry>
  {
    if level == CHANNEL then
      match cmd
      case RD | RDA => BothReads(s.nBL)
      case WR | WRA => BothWrites(s.nBL)
      case _ => []
    else if level == RANK then
      match cmd
      case REF => [Own(ACT, s.nRFC), Own(REF, s.nRFC), Own(PDE, 1)]
      case PREA => [Own(ACT, s.nRP), Own(REF, s.nRP), Own(SRE, s.nRP)]
      case PDE => [Own(PDX, s.nPD)]
      case PDX => BothReads(s.nXP) + BothWrites(s.nXP)
                  + [Own(ACT, s.nXP), Own(PRE, s.nXP), Own(PREA, s.nXP), Own(REF, s.nXP), Own(PDE, s.nXP),
                     Own(SRE, s.nXP)]
      case SRE => [Own(SRX, s.nCKESR)]
      case SRX => [Own(ACT, s.nXS), Own(REF, s.nXS), Own(PDE, s.nXS), Own(SRE, s.nXS)]
      case _ => []
    else []
  }

  /** DDR4.cpp, init_timing. */
  function Ddr4Table(s: Speed, level: nat, cmd: Command): seq<Entry>
  {
    if level == RANK then
      match cmd
      case RD => BothReads(s.nCCDS) + BothWrites(ReadToWrite(s)) + SiblingRead(s)
                 + [Own(PREA, s.nRTP), Own(PDE, s.nCL + s.nBL + 1)]
      case RDA => BothReads(s.nCCDS) + BothWrites(ReadToWrite(s)) + SiblingRead(s)
                  + [Own(PDE, s.nCL + s.nBL + 1), Own(REF, s.nRTP + s.nRP)]
      case WR => BothWrites(s.nCCDS) + BothReads(s.nCWL + s.nBL + s.nWTRS) + SiblingWrite(s)
                 + [Own(PREA, s.nCWL + s.nBL + s.nWR), Own(PDE, s.nCWL + s.nBL + s.nWR)]
      case WRA => BothWrites(s.nCCDS) + BothReads(s.nCWL + s.nBL + s.nWTRS) + SiblingWrite(s)
                  + [Own(PDE, s.nCWL + s.nBL + s.nWR + 1), Own(REF, s.nCWL + s.nBL + s.nWR + s.nRP)]
      case ACT => [Own(ACT, s.nRRDS), Entry(ACT, 4, s.nFAW, false), Own(PREA, s.nRAS), Own(REF, s.nRC), Own(PDE, 1)]
      case PRE => [Own(REF, s.nRP), Own(SRE, s.nRP)]
      case _ => SharedTable(s, level, cmd)
    else if level == BANK_GROUP then
      match cmd
      case RD | RDA => BothReads(s.nCCDL)
      case WR | WRA => BothWrites(s.nCCDL) + BothReads(s.nCWL + s.nBL + s.nWTRL)
      case ACT => [Own(ACT, s.nRRDL)]
      case _ => []
    else if level == BANK then
      match cmd
      case ACT => BothReads(s.nRCD) + BothWrites(s.nRCD) + [Own(ACT, s.nRC), Own(PRE, s.nRAS)]
      case RD => [Own(PRE, s.nRTP)]
      case WR => [Own(PRE, s.nCWL + s.nBL + s.nWR)]
      case RDA => [Own(ACT, s.nRTP + s.nRP)]
      case WRA => [Own(ACT, s.nCWL + s.nBL + s.nWR + s.nRP)]
      case PRE => [Own(ACT, s.nRP)]
      case _ => []
    else SharedTable(s, level, cmd)
  }

  /** DDR4_AB.cpp, init_timing: the bank-group and bank entries have moved up to the rank. */
  function AllBankTable(s: Speed, level: nat, cmd: Command): seq<Entry>
  {
    if level == RANK then
      match cmd
      case RD => BothReads(s.nCCDL) + BothWrites(ReadToWrite(s)) + SiblingRead(s)
                 + [Own(PREA, s.nRTP), Own(PRE, s.nRTP), Own(PDE, s.nCL + s.nBL + 1)]
      case RDA => BothReads(s.nCCDL) + BothWrites(ReadToWrite(s)) + SiblingRead(s)
                  + [Own(ACT, s.nRTP + s.nRP), Own(PDE, s.nCL + s.nBL + 1), Own(REF, s.nRTP + s.nRP)]
      case WR => BothWrites(s.nCCDL) + BothReads(s.nCWL + s.nBL + s.nWTRL) + SiblingWrite(s)
                 + [Own(PREA, s.nCWL + s.nBL + s.nWR), Own(PRE, s.nCWL + s.nBL + s.nWR),
                    Own(PDE, s.nCWL + s.nBL + s.nWR)]
      case WRA => BothWrites(s.nCCDL) + BothReads(s.nCWL + s.nBL + s.nWTRL) + SiblingWrite(s)
                  + [Own(ACT, s.nCWL + s.nBL + s.nWR + s.nRP), Own(PDE, s.nCWL + s.nBL + s.nWR + 1),
                     Own(REF, s.nCWL + s.nBL + s.nWR + s.nRP)]
      case ACT => BothReads(s.nRCD) + BothWrites(s.nRCD)
                  + [Own(ACT, s.nRRDL), Entry(ACT, 4, s.nFAW, false), Own(ACT, s.nRC), Own(PREA, s.nRAS),
                     Own(PRE, s.nRAS), Own(REF, s.nRC), Own(PDE, 1)]
      case PRE => [Own(ACT, s.nRP), Own(REF, s.nRP), Own(SRE, s.nRP)]
      case _ => SharedTable(s, level, cmd)
    else SharedTable(s, level, cmd)
  }
}
