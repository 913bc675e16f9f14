/** The yield ledger: deposits, withdrawals and sweeps as database transactions over a ledger
    with unique transaction hashes and one balance row per user. */
module YieldLedger {
  import opened Common

  // BIGINT
  predicate InRange(x: int) {
    -0x8000_0000_0000_0000 <= x <= 0x7FFF_FFFF_FFFF_FFFF
  }

  datatype Kind = Deposit | Withdraw | Sweep
  datatype Row = Row(user: nat, hash: string, kind: Kind, amount: int)
  datatype Balance = Balance(user: nat, available: int, earning: int)

  // `users` are the ids the foreign keys may refer to.
  datatype Db = Db(users: set<nat>, balances: seq<Balance>, ledger: seq<Row>)

  datatype Error = DuplicateHash | HashTooLong | UnknownUser | OutOfRange | CheckViolation | RowNotFound

  // ---------- Statements ----------

  function Hashes(ledger: seq<Row>): set<string> {
    set r | r in ledger :: r.hash
  }

  function IndexOf(balances: seq<Balance>, user: nat): (i: Option<nat>)
    ensures i.Some? ==> i.value < |balances| && balances[i.value].user == user
    ensures i.None? <==> forall k :: 0 <= k < |balances| ==> balances[k].user != user
  {
    if balances == [] then None
    else
      var n := |balances| - 1;
      if balances[n].user == user then Some(n) else IndexOf(balances[..n], user)
  }

  // INSERT INTO yield_transactions: tx_hash is VARCHAR(64) UNIQUE, user_id a foreign key.
  function InsertRow(db: Db, row: Row): Result<Db, Error> {
    if |row.hash| > 64 then Err(HashTooLong)
    else if row.hash in Hashes(db.ledger) then Err(DuplicateHash)
    else if row.user !in db.users then Err(UnknownUser)
    else Ok(db.(ledger := db.ledger + [row]))
  }

  // The range of BIGINT and the two CHECK constraints of a balance row.
  function CheckBalance(b: Balance): Result<Balance, Error> {
    if !InRange(b.available) || !InRange(b.earning) then Err(OutOfRange)
    else if b.available < 0 || b.earning < 0 then Err(CheckViolation)
    else Ok(b)
  }

  function UpdateBalance(db: Db, i: nat, available: int, earning: int): Result<Db, Error>
    requires i < |db.balances|
  {
    match CheckBalance(Balance(db.balances[i].user, available, earning))
    case Err(e) => Err(e)
    case Ok(b) => Ok(db.(balances := db.balances[i := b]))
  }

  // INSERT ... ON CONFLICT DO UPDATE: the proposed row is checked before any conflict.
  function UpsertEarning(db: Db, user: nat, amount: int): Result<Db, Error> {
    match CheckBalance(Balance(user, 0, amount))
    case Err(e) => Err(e)
    case Ok(b) =>
      match IndexOf(db.balances, user)
      case None => if user in db.users then Ok(db.(balances := db.balances + [b])) else Err(UnknownUser)
      case Some(i) => UpdateBalance(db, i, db.balances[i].available, db.balances[i].earning + amount)
  }

  // UPDATE ... WHERE user_id: no row, no change, and no error.
  function MoveToAvailable(db: Db, user: nat, amount: int): Result<Db, Error> {
    match IndexOf(db.balances, user)
    case None => Ok(db)
    case Some(i) => UpdateBalance(db, i, db.balances[i].available + amount, db.balances[i].earning - amount)
  }

  // UPDATE ... WHERE user_id AND available_balance >= amount, with the source's rows-affected test.
  function SweepToEarning(db: Db, user: nat, amount: int): Result<Db, Error> {
    match IndexOf(db.balances, user)
    case None => Err(RowNotFound)
    case Some(i) =>
      if db.balances[i].available < amount then Err(RowNotFound)
      else UpdateBalance(db, i, db.balances[i].available - amount, db.balances[i].earning + amount)
  }

  // ---------- Transactions ----------

  datatype Op =
    | DepositOp(user: nat, amount: int, hash: string)
    | WithdrawOp(user: nat, amount: int, hash: string)
    | SweepOp(user: nat, amount: int, hash: string)
    | CreateOp(user: nat)

  function Transact(db: Db, op: Op): Result<Db, Error> {
    match op
    case DepositOp(u, a, h) =>
      (match InsertRow(db, Row(u, h, Deposit, a)) case Err(e) => Err(e) case Ok(tx) => UpsertEarning(tx, u, a))
    case WithdrawOp(u, a, h) =>
      (match InsertRow(db, Row(u, h, Withdraw, a)) case Err(e) => Err(e) case Ok(tx) => MoveToAvailable(tx, u, a))
    case SweepOp(u, a, h) =>
      (match InsertRow(db, Row(u, h, Sweep, a)) case Err(e) => Err(e) case Ok(tx) => SweepToEarning(tx, u, a))
    case CreateOp(u) => UpsertEarning(db, u, 0)
  }

  // An error rolls the transaction back.
  function Step(db: Db, op: Op): Db {
    match Transact(db, op)
    case Ok(tx) => tx
    case Err(_) => db
  }

  function ErrorOf(db: Db, op: Op): Option<Error> {
    match Transact(db, op)
    case Ok(_) => None
    case Err(e) => Some(e)
  }

  function Run(db: Db, ops: seq<Op>): Db {
    if ops == [] then db else Step(Run(db, ops[..|ops| - 1]), ops[|ops| - 1])
  }

  class YieldStore {
    var users: set<nat>
    var balances: seq<Balance>
    var ledger: seq<Row>

    function State(): Db
      reads this
    {
      Db(users, balances, ledger)
    }

    method Commit(tx: Db)
      modifies this
      ensures State() == tx
    {
      users, balances, ledger := tx.users, tx.balances, tx.ledger;
    }

    method ProcessYieldDeposit(user: nat, amount: int, hash: string) returns (error: Option<Error>)
      modifies this
      ensures State() == Step(old(State()), DepositOp(user, amount, hash))
      ensures error == ErrorOf(old(State()), DepositOp(user, amount, hash))
    {
      var inserted := InsertRow(State(), Row(user, hash, Deposit, amount));
      if inserted.Err? {
        return Some(inserted.error);
      }
      var updated := UpsertEarning(inserted.value, user, amount);
      if updated.Err? {
        return Some(updated.error);
      }
      Commit(updated.value);
      return None;
    }

    method ProcessYieldWithdrawal(user: nat, amount: int, hash: string) returns (error: Option<Error>)
      modifies this
      ensures State() == Step(old(State()), WithdrawOp(user, amount, hash))
      ensures error == ErrorOf(old(State()), WithdrawOp(user, amount, hash))
    {
      var inserted := InsertRow(State(), Row(user, hash, Withdraw, amount));
      if inserted.Err? {
        return Some(inserted.error);
      }
      var updated := MoveToAvailable(inserted.value, user, amount);
      if updated.Err? {
        return Some(updated.error);
      }
      Commit(updated.value);
      return None;
    }

    method ProcessInternalSweepDeposit(user: nat, amount: int, hash: string) returns (error: Option<Error>)
      modifies this
      ensures State() == Step(old(State()), SweepOp(user, amount, hash))
      ensures error == ErrorOf(old(State()), SweepOp(user, amount, hash))
    {
      var inserted := InsertRow(State(), Row(user, hash, Sweep, amount));
      if inserted.Err? {
        return Some(inserted.error);
      }
      var updated := SweepToEarning(inserted.value, user, amount);
      if updated.Err? {
        return Some(updated.error);
      }
      Commit(updated.value);
      return None;
    }

    method GetOrCreateYieldBalance(user: nat) returns (error: Option<Error>)
      modifies this
      ensures State() == Step(old(State()), CreateOp(user))
      ensures error == ErrorOf(old(State()), CreateOp(user))
    {
      var created := UpsertEarning(State(), user, 0);
      if created.Err? {
        return Some(created.error);
      }
      Commit(created.value);
      return None;
    }
  }

  // ---------- Totals ----------

  // SUM(CASE WHEN type = kind THEN amount ELSE 0 END), for one user.
  function UserTotal(ledger: seq<Row>, user: nat, kind: Kind): int {
    if ledger == [] then 0
    else
      var n := |ledger| - 1;
      UserTotal(ledger[..n], user, kind)
      + (if ledger[n].user == user && ledger[n].kind == kind then ledger[n].amount else 0)
  }

  function LedgerTotal(ledger: seq<Row>, kind: Kind): int {
    if ledger == [] then 0
    else
      var n := |ledger| - 1;
      LedgerTotal(ledger[..n], kind) + (if ledger[n].kind == kind then ledger[n].amount else 0)
  }

  function Tvl(balances: seq<Balance>): int {
    if balances == [] then 0 else Tvl(balances[..|balances| - 1]) + balances[|balances| - 1].earning
  }

  function TotalAvailable(balances: seq<Balance>): int {
    if balances == [] then 0 else TotalAvailable(balances[..|balances| - 1]) + balances[|balances| - 1].available
  }

  // A user's balances, zero without a row.
  function BalanceOf(bs: seq<Balance>, user: nat): Balance {
    match IndexOf(bs, user) case Some(i) => bs[i] case None => Balance(user, 0, 0)
  }

  function Available(db: Db, user: nat): int {
    BalanceOf(db.balances, user).available
  }

  function Earning(db: Db, user: nat): int {
    BalanceOf(db.balances, user).earning
  }

  // ---------- When a transaction commits ----------

  // What a balance column can hold.
  predicate Holdable(x: int) {
    0 <= x <= 0x7FFF_FFFF_FFFF_FFFF
  }

  predicate HasRow(db: Db, user: nat) {
    exists i :: 0 <= i < |db.balances| && db.balances[i].user == user
  }

  predicate Used(db: Db, hash: string) {
    exists i :: 0 <= i < |db.ledger| && db.ledger[i].hash == hash
  }

  // The ledger takes the row: a hash of at most 64 characters that no row has, and a known user.
  predicate Loggable(db: Db, user: nat, hash: string) {
    |hash| <= 64 && !Used(db, hash) && user in db.users
  }

  // In terms of the ledger and the user's two balances before the operation.
  predicate Commits(db: Db, op: Op) {
    match op
    case DepositOp(u, a, h) =>
      && Loggable(db, u, h)
      && Holdable(a)
      && Holdable(Available(db, u)) && Holdable(Earning(db, u) + a)
    case WithdrawOp(u, a, h) =>
      && Loggable(db, u, h)
      && (HasRow(db, u) ==> Holdable(Available(db, u) + a) && Holdable(Earning(db, u) - a))
    case SweepOp(u, a, h) =>
      && Loggable(db, u, h)
      && HasRow(db, u) && a <= Available(db, u)
      && Holdable(Available(db, u) - a) && Holdable(Earning(db, u) + a)
    case CreateOp(u) =>
      && (HasRow(db, u) || u in db.users)
      && Holdable(Available(db, u)) && Holdable(Earning(db, u))
  }

  // The error of a pair of balances that the table refuses.
  function BadBalances(available: int, earning: int): Option<Error> {
    if Holdable(available) && Holdable(earning) then None
    else if InRange(available) && InRange(earning) then Some(CheckViolation)
    else Some(OutOfRange)
  }

  // The error of the statement on the balance row.
  function BalanceRefusal(db: Db, op: Op): Option<Error> {
    match op
    case DepositOp(u, a, _) =>
      if BadBalances(0, a).Some? then BadBalances(0, a) else BadBalances(Available(db, u), Earning(db, u) + a)
    case WithdrawOp(u, a, _) =>
      if HasRow(db, u) then BadBalances(Available(db, u) + a, Earning(db, u) - a) else None
    case SweepOp(u, a, _) =>
      if !HasRow(db, u) || Available(db, u) < a then Some(RowNotFound)
      else BadBalances(Available(db, u) - a, Earning(db, u) + a)
    case CreateOp(u) =>
      if !HasRow(db, u) && u !in db.users then Some(UnknownUser)
      else BadBalances(Available(db, u), Earning(db, u))
  }

  // The error that comes back, if any: the ledger's objections in their order, then the balance row's.
  function Refusal(db: Db, op: Op): Option<Error> {
    if !op.CreateOp? && |op.hash| > 64 then Some(HashTooLong)
    else if !op.CreateOp? && Used(db, op.hash) then Some(DuplicateHash)
    else if !op.CreateOp? && op.user !in db.users then Some(UnknownUser)
    else BalanceRefusal(db, op)
  }

  lemma {:induction false} RowExists(db: Db, user: nat)
    ensures HasRow(db, user) <==> IndexOf(db.balances, user).Some?
    ensures !HasRow(db, user) ==> Available(db, user) == Earning(db, user) == 0
  {
    if IndexOf(db.balances, user).Some? {
      assert db.balances[IndexOf(db.balances, user).value].user == user;
    }
  }

  lemma {:induction false} HashUsed(db: Db, hash: string)
    ensures hash in Hashes(db.ledger) <==> Used(db, hash)
  {
    if hash in Hashes(db.ledger) {
      var r :| r in db.ledger && r.hash == hash;
      var i :| 0 <= i < |db.ledger| && db.ledger[i] == r;
    }
    if Used(db, hash) {
      var i :| 0 <= i < |db.ledger| && db.ledger[i].hash == hash;
      assert db.ledger[i] in db.ledger;
    }
  }

  lemma {:induction false} CheckIsBad(user: nat, available: int, earning: int)
    ensures match CheckBalance(Balance(user, available, earning))
            case Ok(b) => BadBalances(available, earning) == None
            case Err(e) => BadBalances(available, earning) == Some(e)
  {
  }

  lemma {:induction false} BalanceStatement(db: Db, tx: Db, op: Op)
    requires op.CreateOp? || op.user in db.users
    requires tx.users == db.users && tx.balances == db.balances
    ensures var done := match op
                        case DepositOp(u, a, _) => UpsertEarning(tx, u, a)
                        case WithdrawOp(u, a, _) => MoveToAvailable(tx, u, a)
                        case SweepOp(u, a, _) => SweepToEarning(tx, u, a)
                        case CreateOp(u) => UpsertEarning(tx, u, 0);
            BalanceRefusal(db, op) == match done case Ok(_) => None case Err(e) => Some(e)
  {
    var u := op.user;
    RowExists(db, u);
    match op
    case DepositOp(_, a, _) =>
      CheckIsBad(u, 0, a);
      CheckIsBad(u, Available(db, u), Earning(db, u) + a);
    case WithdrawOp(_, a, _) => CheckIsBad(u, Available(db, u) + a, Earning(db, u) - a);
    case SweepOp(_, a, _) => CheckIsBad(u, Available(db, u) - a, Earning(db, u) + a);
    case CreateOp(_) =>
      CheckIsBad(u, 0, 0);
      CheckIsBad(u, Available(db, u), Earning(db, u));
  }

  /** For every operation on every database, which error comes back, if any. */
  lemma {:induction false} RefusedWith(db: Db, op: Op)
    ensures ErrorOf(db, op) == Refusal(db, op)
  {
    if op.CreateOp? {
      BalanceStatement(db, db, op);
    } else {
      LoggedOperation(db, op);
    }
  }

  lemma {:induction false} LoggedOperation(db: Db, op: Op)
    requires !op.CreateOp?
    ensures ErrorOf(db, op) == Refusal(db, op)
  {
    HashUsed(db, op.hash);
    if Loggable(db, op.user, op.hash) {
      BalanceStatement(db, db.(ledger := db.ledger + [RowOf(op)]), op);
    }
  }

  /** An operation commits if and only if its hash is new and fits, the user is known, a sweep is covered
      by the available balance of an existing row, and the resulting balances fit their columns;
      a withdrawal without a balance row commits. */
  lemma {:induction false} CommitsIff(db: Db, op: Op)
    ensures Transact(db, op).Ok? <==> Commits(db, op)
  {
    RefusedWith(db, op);
    RowExists(db, op.user);
  }

  // ---------- Conservation ----------

  predicate BalanceOk(b: Balance) {
    0 <= b.available && 0 <= b.earning && InRange(b.available) && InRange(b.earning)
  }

  ghost predicate Sound(db: Db) {
    && (forall i, j :: 0 <= i < j < |db.balances| ==> db.balances[i].user != db.balances[j].user)
    && (forall i :: 0 <= i < |db.balances| ==>
          BalanceOk(db.balances[i]))
    && (forall i, j :: 0 <= i < j < |db.ledger| ==> db.ledger[i].hash != db.ledger[j].hash)
  }

  lemma {:induction false} BalanceAppend(bs: seq<Balance>, b: Balance, user: nat)
    ensures Tvl(bs + [b]) == Tvl(bs) + b.earning
    ensures TotalAvailable(bs + [b]) == TotalAvailable(bs) + b.available
    ensures IndexOf(bs + [b], user) == if b.user == user then Some(|bs|) else IndexOf(bs, user)
  {
    assert (bs + [b])[..|bs|] == bs;
  }

  lemma {:induction false} BalanceUpdate(bs: seq<Balance>, i: nat, b: Balance, user: nat)
    requires i < |bs| && bs[i].user == b.user
    ensures Tvl(bs[i := b]) == Tvl(bs) - bs[i].earning + b.earning
    ensures TotalAvailable(bs[i := b]) == TotalAvailable(bs) - bs[i].available + b.available
    ensures IndexOf(bs[i := b], user) == IndexOf(bs, user)
  {
    var n := |bs| - 1;
    if i < n {
      assert bs[i := b][..n] == bs[..n][i := b];
      BalanceUpdate(bs[..n], i, b, user);
    } else {
      assert bs[i := b][..n] == bs[..n];
    }
  }

  lemma {:induction false} LedgerAppend(ledger: seq<Row>, row: Row, user: nat, kind: Kind)
    ensures UserTotal(ledger + [row], user, kind)
            == UserTotal(ledger, user, kind) + (if row.user == user && row.kind == kind then row.amount else 0)
    ensures LedgerTotal(ledger + [row], kind)
            == LedgerTotal(ledger, kind) + (if row.kind == kind then row.amount else 0)
  {
    assert (ledger + [row])[..|ledger|] == ledger;
  }

  // The amount by which a committed operation changes the ledger total of a kind.
  function Recorded(op: Op, kind: Kind): int {
    match op
    case DepositOp(_, a, _) => if kind == Deposit then a else 0
    case WithdrawOp(_, a, _) => if kind == Withdraw then a else 0
    case SweepOp(_, a, _) => if kind == Sweep then a else 0
    case CreateOp(_) => 0
  }

  function RowOf(op: Op): Row
    requires !op.CreateOp?
  {
    match op
    case DepositOp(u, a, h) => Row(u, h, Deposit, a)
    case WithdrawOp(u, a, h) => Row(u, h, Withdraw, a)
    case SweepOp(u, a, h) => Row(u, h, Sweep, a)
  }

  lemma {:induction false} StepLedger(db: Db, op: Op)
    requires Transact(db, op).Ok?
    ensures Step(db, op).ledger == if op.CreateOp? then db.ledger else db.ledger + [RowOf(op)]
    ensures !op.CreateOp? ==> op.hash !in Hashes(db.ledger)
  {
  }

  // The ledger rows of the operations that commit, each against the database as it is by then.
  function CommittedRows(db: Db, ops: seq<Op>): seq<Row> {
    if ops == [] then []
    else
      var n := |ops| - 1;
      CommittedRows(db, ops[..n])
      + (if !ops[n].CreateOp? && Commits(Run(db, ops[..n]), ops[n]) then [RowOf(ops[n])] else [])
  }

  /** Over every run the ledger grows by exactly the rows of the operations that commit, in order: none is
      refused that could commit, none is logged twice, and none is logged otherwise. */
  lemma {:induction false} LedgerIsCommitted(db: Db, ops: seq<Op>)
    ensures Run(db, ops).ledger == db.ledger + CommittedRows(db, ops)
  {
    if ops == [] {
      assert db.ledger + [] == db.ledger;
    } else {
      var before, op := Run(db, ops[..|ops| - 1]), ops[|ops| - 1];
      LedgerIsCommitted(db, ops[..|ops| - 1]);
      CommitsIff(before, op);
      if Transact(before, op).Ok? {
        StepLedger(before, op);
      }
    }
  }

  lemma {:induction false} StepTotals(db: Db, op: Op, user: nat, kind: Kind)
    requires Transact(db, op).Ok?
    ensures var t := Step(db, op);
            && UserTotal(t.ledger, user, kind)
               == UserTotal(db.ledger, user, kind) + (if op.user == user then Recorded(op, kind) else 0)
            && LedgerTotal(t.ledger, kind) == LedgerTotal(db.ledger, kind) + Recorded(op, kind)
  {
    StepLedger(db, op);
    if !op.CreateOp? {
      LedgerAppend(db.ledger, RowOf(op), user, kind);
    }
  }

  // A committed operation's effect on an existing balance row.
  function Adjusted(b: Balance, op: Op): Balance {
    match op
    case DepositOp(_, a, _) => b.(earning := b.earning + a)
    case WithdrawOp(_, a, _) => b.(available := b.available + a, earning := b.earning - a)
    case SweepOp(_, a, _) => b.(available := b.available - a, earning := b.earning + a)
    case CreateOp(_) => b
  }

  // The balance rows after a committed operation.
  function BalancesAfter(before: seq<Balance>, op: Op): seq<Balance> {
    match IndexOf(before, op.user)
    case Some(i) => before[i := Adjusted(before[i], op)]
    case None => if op.WithdrawOp? then before else before + [Balance(op.user, 0, Recorded(op, Deposit))]
  }

  lemma {:induction false} StepShape(db: Db, op: Op)
    requires Transact(db, op).Ok?
    ensures Step(db, op).balances == BalancesAfter(db.balances, op)
  {
  }

  lemma {:induction false} StepPlatform(db: Db, op: Op)
    requires Transact(db, op).Ok?
    ensures var t := Step(db, op);
            Tvl(t.balances) + TotalAvailable(t.balances)
            == Tvl(db.balances) + TotalAvailable(db.balances) + Recorded(op, Deposit)
  {
    StepShape(db, op);
    match IndexOf(db.balances, op.user)
    case None =>
      if !op.WithdrawOp? {
        BalanceAppend(db.balances, Balance(op.user, 0, Recorded(op, Deposit)), op.user);
      }
    case Some(i) => BalanceUpdate(db.balances, i, Adjusted(db.balances[i], op), op.user);
  }

  lemma {:induction false} AppendedBalance(bs: seq<Balance>, b: Balance, user: nat)
    requires IndexOf(bs, b.user).None?
    ensures BalanceOf(bs + [b], user) == if b.user == user then b else BalanceOf(bs, user)
  {
    BalanceAppend(bs, b, user);
  }

  lemma {:induction false} UpdatedBalance(bs: seq<Balance>, i: nat, b: Balance, user: nat)
    requires IndexOf(bs, b.user) == Some(i)
    ensures BalanceOf(bs[i := b], user) == if b.user == user then b else BalanceOf(bs, user)
  {
    BalanceUpdate(bs, i, b, user);
  }

  // A user's balances after a committed operation: only its own user's row is adjusted or added.
  lemma {:induction false} BalanceAfter(before: seq<Balance>, op: Op, user: nat)
    ensures BalanceOf(BalancesAfter(before, op), user)
            == if op.user != user then BalanceOf(before, user)
               else if IndexOf(before, user).Some? then Adjusted(BalanceOf(before, user), op)
               else Balance(user, 0, Recorded(op, Deposit))
  {
    match IndexOf(before, op.user)
    case None =>
      if !op.WithdrawOp? {
        AppendedBalance(before, Balance(op.user, 0, Recorded(op, Deposit)), user);
      }
    case Some(i) => UpdatedBalance(before, i, Adjusted(before[i], op), user);
  }

  lemma {:induction false} StepUser(db: Db, op: Op, user: nat)
    requires Transact(db, op).Ok?
    ensures var t := Step(db, op);
            && Available(t, user) + Earning(t, user)
               == Available(db, user) + Earning(db, user)
                  + (if op.user == user then Recorded(op, Deposit) else 0)
            && Available(t, user) - Available(db, user)
               == if op.user == user && IndexOf(db.balances, user).Some?
                  then Recorded(op, Withdraw) - Recorded(op, Sweep) else 0
  {
    StepShape(db, op);
    BalanceAfter(db.balances, op, user);
  }

  lemma {:induction false} StepRows(db: Db, op: Op, i: nat)
    requires Transact(db, op).Ok? && i < |Step(db, op).balances|
    ensures var bs := Step(db, op).balances;
            if IndexOf(db.balances, op.user) == Some(i) || i == |db.balances|
            then bs[i].user == op.user && (bs == db.balances || BalanceOk(bs[i]))
            else i < |db.balances| && bs[i] == db.balances[i]
    ensures i == |db.balances| ==> IndexOf(db.balances, op.user).None?
  {
  }

  lemma {:induction false} StepSound(db: Db, op: Op)
    requires Sound(db)
    ensures Sound(Step(db, op))
  {
    if Transact(db, op).Ok? {
      var bs := Step(db, op).balances;
      StepLedger(db, op);
      forall i | 0 <= i < |db.ledger| ensures db.ledger[i].hash in Hashes(db.ledger) {}
      forall j | 0 <= j < |bs| ensures BalanceOk(bs[j]) {
        StepRows(db, op, j);
      }
      forall i, j | 0 <= i < j < |bs| ensures bs[i].user != bs[j].user {
        StepRows(db, op, i);
        StepRows(db, op, j);
      }
    }
  }

  lemma {:induction false} RunSound(db: Db, ops: seq<Op>)
    requires Sound(db)
    ensures Sound(Run(db, ops))
  {
    if ops != [] {
      RunSound(db, ops[..|ops| - 1]);
      StepSound(Run(db, ops[..|ops| - 1]), ops[|ops| - 1]);
    }
  }

  predicate Empty(db: Db) {
    db.balances == [] && db.ledger == []
  }

  /** Over every run of deposits, withdrawals, sweeps and replays, each user's two balances add up
      to that user's deposits, and the platform's totals to all deposits. */
  lemma {:induction false} Conservation(db: Db, ops: seq<Op>, user: nat)
    requires Empty(db)
    ensures var t := Run(db, ops);
            && Available(t, user) + Earning(t, user) == UserTotal(t.ledger, user, Deposit)
            && Tvl(t.balances) + TotalAvailable(t.balances) == LedgerTotal(t.ledger, Deposit)
  {
    if ops != [] {
      var before, op := Run(db, ops[..|ops| - 1]), ops[|ops| - 1];
      Conservation(db, ops[..|ops| - 1], user);
      if Transact(before, op).Ok? {
        StepTotals(before, op, user, Deposit);
        StepPlatform(before, op);
        StepUser(before, op, user);
      }
    }
  }

  // Withdrawals committed for a user who had no balance row: logged, without moving a balance.
  function Orphaned(db: Db, ops: seq<Op>, user: nat): int {
    if ops == [] then 0
    else
      var n := |ops| - 1;
      var before := Run(db, ops[..n]);
      Orphaned(db, ops[..n], user)
      + (if && ops[n].WithdrawOp? && ops[n].user == user
            && Transact(before, ops[n]).Ok? && IndexOf(before.balances, user).None?
         then ops[n].amount else 0)
  }

  /** The available balance is the withdrawals minus the sweeps minus what was withdrawn while the
      user had no balance row; so it is withdrawals minus sweeps exactly when that is zero. */
  lemma {:induction false} AvailableIsNetWithdrawals(db: Db, ops: seq<Op>, user: nat)
    requires Empty(db)
    ensures var t := Run(db, ops);
            Available(t, user)
            == UserTotal(t.ledger, user, Withdraw) - UserTotal(t.ledger, user, Sweep) - Orphaned(db, ops, user)
  {
    if ops != [] {
      var before, op := Run(db, ops[..|ops| - 1]), ops[|ops| - 1];
      AvailableIsNetWithdrawals(db, ops[..|ops| - 1], user);
      if Transact(before, op).Ok? {
        StepTotals(before, op, user, Withdraw);
        StepTotals(before, op, user, Sweep);
        StepUser(before, op, user);
      }
    }
  }

  // ---------- At most once ----------

  predicate Uses(op: Op, hash: string) {
    !op.CreateOp? && op.hash == hash
  }

  lemma {:induction false} LedgerGrows(db: Db, ops: seq<Op>)
    ensures db.ledger <= Run(db, ops).ledger
  {
    if ops != [] {
      var n := |ops| - 1;
      LedgerGrows(db, ops[..n]);
      if Transact(Run(db, ops[..n]), ops[n]).Ok? {
        StepLedger(Run(db, ops[..n]), ops[n]);
      }
    }
  }

  /** A transaction hash is applied at most once: after it has committed, any later operation with
      that hash, whatever its kind, user or amount, changes nothing. */
  lemma {:induction false} AppliedAtMostOnce(db: Db, first: Op, between: seq<Op>, again: Op, hash: string)
    requires Uses(first, hash) && Uses(again, hash) && Transact(db, first).Ok?
    ensures var t := Run(Step(db, first), between);
            Transact(t, again).Err? && Step(t, again) == t
  {
    var s := Step(db, first);
    StepLedger(db, first);
    LedgerGrows(s, between);
    var t := Run(s, between);
    assert t.ledger[|db.ledger|].hash == hash && hash in Hashes(t.ledger);
  }
}
