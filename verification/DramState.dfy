/** States and prerequisites under the two standards (init_lambda and init_prereq of DDR4.cpp, DDR4_AB.cpp). */
module DramState {
  import opened DramSpec
  import opened DramHistory

  datatype State = Opened | Closed | PowerUp | ActPowerDown | PrePowerDown | SelfRefresh | Undefined

  /** Under AllBanks the banks of a rank open and close together. */
  datatype Standard = PerBank | AllBanks

  /** The state of a node, and of the rows it stands for. */
  datatype Cell = Cell(state: State, rows: map<int, State>)

  const CLOSED: Cell := Cell(Closed, map[])

  predicate Closes(cmd: Command) { cmd == PRE || cmd == RDA || cmd == WRA }

  /** The nodes a bank-level effect of e reaches: the bank itself, or every bank of its rank. */
  predicate Struck(kind: Standard, e: Issue, bank: Path)
  {
    |bank| == BANK + 1 && if kind == PerBank then Targets(e, bank) else Targets(e, bank[..RANK + 1])
  }

  /** init_lambda, seen from a bank. */
  function BankAfter(kind: Standard, e: Issue, bank: Path, c: Cell): Cell
    requires |bank| == BANK + 1 && |e.addr| == LEVELS
  {
    if e.cmd == ACT && Struck(kind, e, bank) then Cell(Opened, c.rows[e.addr[ROW] := Opened])
    else if Closes(e.cmd) && Struck(kind, e, bank) then CLOSED
    else if e.cmd == PREA && Targets(e, bank[..RANK + 1]) then CLOSED
    else c
  }

  /** init_lambda, seen from a rank. */
  function RankAfter(e: Issue, rank: Path, state: State, anyOpen: bool): State
  {
    if !Targets(e, rank) then state
    else match e.cmd
      case PDE => if anyOpen then ActPowerDown else PrePowerDown
      case PDX | SRX => PowerUp
      case SRE => SelfRefresh
      case _ => state
  }

  /** Every bank is closed with no rows, or open with exactly one. */
  predicate OneRow(c: Cell)
  {
    c == CLOSED || exists row :: row in c.rows && c == Cell(Opened, map[row := Opened])
  }

  /** Commands as decode and the row policy produce them: no activation of an open bank. */
  predicate ActsOnClosed(kind: Standard, e: Issue, bank: Path, c: Cell)
  {
    e.cmd == ACT && Struck(kind, e, bank) ==> c == CLOSED
  }

  lemma HasOneRow(row: int)
    ensures OneRow(Cell(Opened, map[row := Opened]))
  {
    assert row in Cell(Opened, map[row := Opened]).rows;
  }

  /** One step keeps a bank well formed. */
  lemma OneRowKept(kind: Standard, e: Issue, bank: Path, c: Cell)
    requires |bank| == BANK + 1 && |e.addr| == LEVELS && OneRow(c) && ActsOnClosed(kind, e, bank, c)
    ensures OneRow(BankAfter(kind, e, bank, c))
  {
    if e.cmd == ACT && Struck(kind, e, bank) {
      assert CLOSED.rows[e.addr[ROW] := Opened] == map[e.addr[ROW] := Opened];
      HasOneRow(e.addr[ROW]);
    }
  }

  /** Under AllBanks two banks of a rank that agree go on agreeing. */
  lemma LockstepKept(e: Issue, b1: Path, b2: Path, c: Cell)
    requires |b1| == |b2| == BANK + 1 && |e.addr| == LEVELS && b1[..RANK + 1] == b2[..RANK + 1]
    ensures BankAfter(AllBanks, e, b1, c) == BankAfter(AllBanks, e, b2, c)
  {
  }

  /** What a read or write request sees on its way down. */
  datatype View = View(rank: State, bank: Cell)

  predicate IsRankState(s: State) { s in {PowerUp, ActPowerDown, PrePowerDown, SelfRefresh} }

  predicate IsView(v: View) { OneRow(v.bank) && IsRankState(v.rank) }

  predicate IsAccess(cmd: Command) { cmd == RD || cmd == WR }

  /** init_prereq for the accesses at a bank. */
  function BankPrerequisite(c: Cell, cmd: Command, row: int): Command
  {
    if c.state == Closed then ACT else if row in c.rows then cmd else PRE
  }

  /** init_prereq for the accesses, as decode applies it: the rank first, then the bank. */
  function Prerequisite(v: View, cmd: Command, row: int): Command
  {
    match v.rank
    case ActPowerDown | PrePowerDown => PDX
    case SelfRefresh => SRX
    case _ => BankPrerequisite(v.bank, cmd, row)
  }

  /** init_prereq for the requests that concern a whole rank. */
  function RankPrerequisite(state: State, anyOpen: bool, cmd: Command): Command
  {
    match cmd
    case REF => if anyOpen then PREA else REF
    case PDE => if state == SelfRefresh then SRX else PDE
    case SRE => if state == ActPowerDown || state == PrePowerDown then PDX else SRE
    case _ => cmd
  }

  /** The view after the prerequisite has been issued to the same address. */
  function ViewAfter(kind: Standard, e: Issue, v: View): View
    requires |e.addr| == LEVELS
  {
    View(RankAfter(e, e.addr[..RANK + 1], v.rank, v.bank.state != Closed),
         BankAfter(kind, e, e.addr[..BANK + 1], v.bank))
  }

  /** How many prerequisites are left. */
  function Remaining(v: View, row: int): nat
  {
    (if v.rank == PowerUp then 0 else 1) + (if v.bank.state == Closed then 1 else if row in v.bank.rows then 0 else 2)
  }

  /** Issuing the prerequisite that decode returns leaves exactly one less, of at most three, and none is left exactly
      when decode returns the access itself. DramRun repeats it on the tree. */
  lemma PrerequisitesRunOut(kind: Standard, v: View, cmd: Command, addr: seq<int>, clk: int)
    requires IsView(v) && IsAccess(cmd) && |addr| == LEVELS
    ensures Remaining(v, addr[ROW]) <= 3
    ensures Prerequisite(v, cmd, addr[ROW]) == cmd <==> Remaining(v, addr[ROW]) == 0
    ensures var e := Issue(Prerequisite(v, cmd, addr[ROW]), addr, clk);
            && ActsOnClosed(kind, e, addr[..BANK + 1], v.bank)
            && IsView(ViewAfter(kind, e, v))
            && (e.cmd != cmd ==> Remaining(ViewAfter(kind, e, v), addr[ROW]) == Remaining(v, addr[ROW]) - 1)
  {
    var e := Issue(Prerequisite(v, cmd, addr[ROW]), addr, clk);
    var rank, bank := addr[..RANK + 1], addr[..BANK + 1];
    assert bank[..RANK + 1] == rank;
    OneRowKept(kind, e, bank, v.bank);
    if e.cmd == ACT { assert ViewAfter(kind, e, v).bank.rows == map[addr[ROW] := Opened]; }
  }

  /** init_rowhit: the addressed row is open. */
  predicate RowHit(c: Cell, row: int) { c.state == Opened && row in c.rows }

  /** decode returns an access itself only when it is a row hit. */
  lemma HitsWhenReady(v: View, cmd: Command, row: int)
    requires IsView(v) && IsAccess(cmd) && Prerequisite(v, cmd, row) == cmd
    ensures RowHit(v.bank, row)
  {
  }
}
