/** The in-memory stores behind the views: the decrypted transaction list of
    the selected month, the task list, the custom categories and the family
    profiles with the signed-in user. Each store keeps its fields and replaces
    them step by step; every write to the database and every audit entry goes
    through the shared Database and LoggerService objects. */
module Store {
  import opened Wrappers
  import opened Types
  import opened Lists
  import opened Numbers
  import opened Cipher
  import opened Crypto
  import opened Db
  import opened Logger

  // ---------------------------------------------------------------------------
  // Audit contexts.

  /** What every masked audit field shows instead of the value. */
  const Mask: string := "***"

  /** `{ error }`: the caught exception. */
  const ErrorContext: Context := [Field("error", Exception)]

  /** The ERROR entry a failed store operation writes. */
  function FailureEntry(message: string, origin: string, tenantId: TenantId, now: int): AppLog {
    Entry(Error, message, origin, tenantId, Some(ErrorContext), now)
  }

  /** The context of 'Transaction Added': the amount masked, no description. */
  function AddedContext(txType: TransactionType, categoryId: string, currency: Currency): Context {
    [Field("amount", Text(Mask)), Field("type", Text(txType.Name())),
     Field("categoryId", Text(categoryId)), Field("currency", Text(currency.Code()))]
  }

  /** `currentUser?.name || 'System'`. */
  function DeletedBy(currentUser: Option<UserProfile>): string {
    if currentUser.Some? && currentUser.value.name != "" then currentUser.value.name else "System"
  }

  /** The context of 'Transaction Deleted': amount and description masked. */
  function DeletedContext(id: string, tx: Transaction, currentUser: Option<UserProfile>): Context {
    [Field("id", Text(id)), Field("amount", Text(Mask)), Field("description", Text(Mask)),
     Field("category", Text(tx.meta.categoryId)), Field("deletedBy", Text(DeletedBy(currentUser))),
     Field("currency", Text(tx.meta.currency.Code()))]
  }

  /** A context reveals neither secret: no field is named after the
      description unless it is masked, and the amount is always masked. */
  predicate MasksSecrets(ctx: Context) {
    forall i :: 0 <= i < |ctx| && (ctx[i].key == "amount" || ctx[i].key == "description") ==>
      ctx[i].value == Text(Mask)
  }

  /** The two audit contexts of the ledger mask the amount and the description. */
  lemma AuditContextsMask(txType: TransactionType, categoryId: string, currency: Currency,
                          id: string, tx: Transaction, currentUser: Option<UserProfile>)
    ensures MasksSecrets(AddedContext(txType, categoryId, currency))
    ensures forall i :: 0 <= i < 4 ==> AddedContext(txType, categoryId, currency)[i].key != "description"
    ensures MasksSecrets(DeletedContext(id, tx, currentUser))
  {
  }

  // ---------------------------------------------------------------------------
  // The month's ledger.

  function TxDate(t: Transaction): int { t.meta.date }
  function TxId(t: Transaction): string { t.meta.id }
  function RowDate(r: StoredTransaction): int { r.Meta().date }

  /** `where('tenantId').equals(tenantId).filter(date within the month)`. */
  function InMonth(tenantId: TenantId, start: int, end: int): StoredTransaction -> bool {
    (r: StoredTransaction) => r.Meta().tenantId == tenantId && start <= r.Meta().date <= end
  }

  /** The rows loadTransactions reads: the tenant's rows dated within
      [start, end], newest first (`reverse().sortBy('date')`). */
  function LedgerRows(rows: seq<StoredTransaction>, tenantId: TenantId, start: int, end: int)
    : (r: seq<StoredTransaction>)
    ensures multiset(r) == multiset(Filter(rows, InMonth(tenantId, start, end)))
    ensures forall i, j :: 0 <= i < j < |r| ==> r[i].Meta().date >= r[j].Meta().date
  {
    var r := SortDesc(Filter(rows, InMonth(tenantId, start, end)), RowDate);
    assert SortedDesc(r, RowDate);
    r
  }

  /** The month's rows are exactly the tenant's rows dated within the bounds. */
  lemma LedgerRowsExactly(rows: seq<StoredTransaction>, tenantId: TenantId, start: int, end: int)
    ensures var r := LedgerRows(rows, tenantId, start, end);
      forall i :: 0 <= i < |r| ==>
        r[i] in rows && r[i].Meta().tenantId == tenantId && start <= r[i].Meta().date <= end
    ensures var r := LedgerRows(rows, tenantId, start, end);
      forall i :: 0 <= i < |rows| ==>
        (rows[i].Meta().tenantId == tenantId && start <= rows[i].Meta().date <= end ==> rows[i] in r)
  {
    var p := InMonth(tenantId, start, end);
    var kept := Filter(rows, p);
    var r := LedgerRows(rows, tenantId, start, end);
    forall i | 0 <= i < |r|
      ensures r[i] in rows && r[i].Meta().tenantId == tenantId && start <= r[i].Meta().date <= end
    {
      assert r[i] in multiset(r);
      assert r[i] in kept;
      assert p(r[i]);
    }
    forall i | 0 <= i < |rows| && rows[i].Meta().tenantId == tenantId && start <= rows[i].Meta().date <= end
      ensures rows[i] in r
    {
      assert p(rows[i]);
      assert rows[i] in multiset(kept);
    }
  }

  /** Some row of the list is encrypted, so decrypting it needs the key. */
  predicate NeedsKey(rows: seq<StoredTransaction>) {
    exists i :: 0 <= i < |rows| && rows[i].Encrypted?
  }

  /** `Promise.all(rows.map(decryptTransaction))` once the key is settled. */
  function DecryptAll(k: Option<Key>, rows: seq<StoredTransaction>): (txs: seq<Transaction>)
    requires NeedsKey(rows) ==> k.Some?
    ensures |txs| == |rows|
    ensures forall i :: 0 <= i < |rows| ==>
      txs[i].meta == rows[i].Meta() && (rows[i].Legacy? ==> txs[i] == rows[i].tx)
  {
    seq(|rows|, i requires 0 <= i < |rows| => DecryptRecord(k, rows[i]))
  }

  lemma NeedsKeyStep(rows: seq<StoredTransaction>, i: nat)
    requires i < |rows|
    ensures NeedsKey(rows[..i + 1]) <==> NeedsKey(rows[..i]) || rows[i].Encrypted?
    ensures NeedsKey(rows[..i]) ==> NeedsKey(rows) && NeedsKey(rows[..i + 1])
  {
    if NeedsKey(rows[..i + 1]) {
      var j :| 0 <= j < i + 1 && rows[..i + 1][j].Encrypted?;
      if j < i {
        assert rows[..i][j].Encrypted?;
      }
    }
    if NeedsKey(rows[..i]) {
      var j :| 0 <= j < i && rows[..i][j].Encrypted?;
      assert rows[j].Encrypted?;
      assert rows[..i + 1][j].Encrypted?;
    }
    if rows[i].Encrypted? {
      assert rows[..i + 1][i].Encrypted?;
    }
  }

  /** The key does not matter for a list of legacy rows. */
  lemma DecryptAllWithoutKey(k1: Option<Key>, k2: Option<Key>, rows: seq<StoredTransaction>)
    requires !NeedsKey(rows)
    ensures DecryptAll(k1, rows) == DecryptAll(k2, rows)
  {
  }

  lemma DecryptAllSnoc(k: Option<Key>, rows: seq<StoredTransaction>, x: StoredTransaction)
    requires NeedsKey(rows + [x]) ==> k.Some?
    ensures NeedsKey(rows) ==> k.Some?
    ensures x.Encrypted? ==> k.Some?
    ensures DecryptAll(k, rows + [x]) == DecryptAll(k, rows) + [DecryptRecord(k, x)]
  {
    if NeedsKey(rows) {
      var j :| 0 <= j < |rows| && rows[j].Encrypted?;
      assert (rows + [x])[j].Encrypted?;
    }
    if x.Encrypted? {
      assert (rows + [x])[|rows|].Encrypted?;
    }
    var a := DecryptAll(k, rows + [x]);
    var b := DecryptAll(k, rows) + [DecryptRecord(k, x)];
    forall i | 0 <= i < |a| ensures a[i] == b[i] {
      if i < |rows| {
        assert (rows + [x])[i] == rows[i];
        assert a[i] == DecryptRecord(k, rows[i]);
      } else {
        assert (rows + [x])[i] == x;
      }
    }
  }

  /** The loaded list: exactly the tenant's rows of the month, decrypted one
      to one, dates never increasing. */
  lemma LoadedLedger(rows: seq<StoredTransaction>, tenantId: TenantId, start: int, end: int, k: Option<Key>)
    requires NeedsKey(LedgerRows(rows, tenantId, start, end)) ==> k.Some?
    ensures var txs := DecryptAll(k, LedgerRows(rows, tenantId, start, end));
      |txs| == Count(rows, InMonth(tenantId, start, end))
      && (forall i :: 0 <= i < |txs| ==>
            txs[i].meta.tenantId == tenantId && start <= txs[i].meta.date <= end)
      && (forall i, j :: 0 <= i < j < |txs| ==> txs[i].meta.date >= txs[j].meta.date)
  {
    var r := LedgerRows(rows, tenantId, start, end);
    LedgerRowsExactly(rows, tenantId, start, end);
    assert |multiset(r)| == |multiset(Filter(rows, InMonth(tenantId, start, end)))|;
  }

  /** `userId || currentUser?.id`. */
  function ResolveUserId(userId: Option<string>, currentUser: Option<UserProfile>): Option<string> {
    if userId.Some? && userId.value != "" then userId
    else if currentUser.Some? then Some(currentUser.value.id)
    else None
  }

  /** The record addTransaction creates. */
  function NewTransaction(id: string, tenantId: TenantId, amount: int, categoryId: string,
                          txType: TransactionType, description: string, now: int,
                          currency: Currency, userId: Option<string>,
                          currentUser: Option<UserProfile>): (tx: Transaction)
    ensures tx.meta.date == now && tx.meta.createdAt == now && !tx.meta.synced
    ensures tx.meta.id == id && tx.meta.tenantId == tenantId && tx.meta.categoryId == categoryId
    ensures tx.meta.txType == txType && tx.meta.currency == currency && tx.meta.categoryName.None?
    ensures tx.amount == amount && tx.description == description
    ensures userId.Some? && userId.value != "" ==> tx.meta.userId == userId
    ensures (userId.None? || userId.value == "") && currentUser.Some? ==> tx.meta.userId == Some(currentUser.value.id)
    ensures (userId.None? || userId.value == "") && currentUser.None? ==> tx.meta.userId.None?
  {
    Transaction(TxMeta(id, tenantId, categoryId, None, txType, now, now, false, currency,
                       ResolveUserId(userId, currentUser)), amount, description)
  }

  /** The in-memory list after an add in the filtered month: re-sorted, one
      longer, still newest first, and holding the new record. */
  lemma OptimisticInsert(txs: seq<Transaction>, tx: Transaction)
    ensures var r := SortDesc([tx] + txs, TxDate);
      |r| == |txs| + 1 && tx in r && multiset(r) == multiset(txs) + multiset{tx}
      && forall i, j :: 0 <= i < j < |r| ==> r[i].meta.date >= r[j].meta.date
  {
    var r := SortDesc([tx] + txs, TxDate);
    assert multiset([tx] + txs) == multiset([tx]) + multiset(txs);
    assert tx in multiset(r);
  }

  function IncomePart(t: Transaction): int { if t.meta.txType == Income then t.amount else 0 }
  function ExpensePart(t: Transaction): int { if t.meta.txType == Income then 0 else t.amount }

  datatype Balance = Balance(income: int, expense: int, total: int)

  /** Adding a record in the filtered month raises income or expense by its
      amount, whatever its place after the re-sort. */
  lemma BalanceAfterInsert(txs: seq<Transaction>, tx: Transaction)
    ensures Sum(SortDesc([tx] + txs, TxDate), IncomePart) == IncomePart(tx) + Sum(txs, IncomePart)
    ensures Sum(SortDesc([tx] + txs, TxDate), ExpensePart) == ExpensePart(tx) + Sum(txs, ExpensePart)
  {
    SumSortDesc([tx] + txs, TxDate, IncomePart);
    SumSortDesc([tx] + txs, TxDate, ExpensePart);
    SumAppend([tx], txs, IncomePart);
    SumAppend([tx], txs, ExpensePart);
    assert [tx][..0] == [];
  }

  /** The rows the store keeps after a delete: every entry with another id, in
      order; the number taken out is the number that carried the id. */
  lemma DeleteTakesExactlyTheId(txs: seq<Transaction>, id: string)
    ensures forall i :: 0 <= i < |Filter(txs, NotKey(TxId, id))| ==> Filter(txs, NotKey(TxId, id))[i].meta.id != id
    ensures forall i :: 0 <= i < |txs| && txs[i].meta.id != id ==> txs[i] in Filter(txs, NotKey(TxId, id))
    ensures |Filter(txs, NotKey(TxId, id))| + Count(txs, IsKey(TxId, id)) == |txs|
  {
    DeleteRemovesKey(txs, TxId, id);
    forall i | 0 <= i < |txs| && txs[i].meta.id != id ensures txs[i] in Filter(txs, NotKey(TxId, id)) {
      assert NotKey(TxId, id)(txs[i]);
    }
  }

  class TransactionStore {
    /** Always decrypted. */
    var transactions: seq<Transaction>
    var loading: bool
    var currentDateFilter: DateFilter
    const db: Database
    const crypto: CryptoService
    const logger: LoggerService

    predicate Valid()
      reads this, db
    {
      logger.db == db && db.Valid()
    }

    /** The store starts empty, on the month of the current date. */
    constructor (db: Database, crypto: CryptoService, logger: LoggerService, today: DateFilter)
      requires logger.db == db
      ensures transactions == [] && !loading && currentDateFilter == today
      ensures this.db == db && this.crypto == crypto && this.logger == logger
    {
      transactions := [];
      loading := false;
      currentDateFilter := today;
      this.db := db;
      this.crypto := crypto;
      this.logger := logger;
    }

    /** What one loadTransactions leaves behind. */
    twostate predicate Loaded(tenantId: TenantId, start: int, end: int, readOk: bool,
                              env: KeyEnv, now: int, logOk: bool)
      reads this, db, crypto
    {
      var raw := LedgerRows(old(db.transactions), tenantId, start, end);
      var ok := readOk && (NeedsKey(raw) ==> crypto.key.Some?);
      !loading
      && db.transactions == old(db.transactions) && db.categories == old(db.categories)
      && db.profiles == old(db.profiles) && db.tasks == old(db.tasks)
      && crypto.State() == (if readOk && NeedsKey(raw) then EnsureStep(old(crypto.State()), env)
                            else old(crypto.State()))
      && (if ok then transactions == DecryptAll(crypto.key, raw) && db.logs == old(db.logs)
          else transactions == old(transactions)
               && db.logs == old(db.logs)
                  + if logOk then [FailureEntry("Failed to load transactions", "Store", tenantId, now)] else [])
    }

    /** Decrypts the rows in order; `None` when a row needs the key and
        there is none. */
    method DecryptRows(raw: seq<StoredTransaction>, env: KeyEnv) returns (out: Option<seq<Transaction>>)
      modifies crypto
      ensures crypto.State() == if NeedsKey(raw) then EnsureStep(old(crypto.State()), env) else old(crypto.State())
      ensures out.Some? <==> (NeedsKey(raw) ==> crypto.key.Some?)
      ensures out.Some? ==> out.value == DecryptAll(crypto.key, raw)
    {
      ghost var s0 := crypto.State();
      var done: seq<Transaction> := [];
      var failed := false;
      var i := 0;
      while i < |raw| && !failed
        invariant 0 <= i <= |raw|
        invariant crypto.State() == if NeedsKey(raw[..i]) then EnsureStep(s0, env) else s0
        invariant !failed ==> (NeedsKey(raw[..i]) ==> crypto.key.Some?) && done == DecryptAll(crypto.key, raw[..i])
        invariant failed ==> NeedsKey(raw[..i]) && crypto.key.None?
        decreases |raw| - i
      {
        NeedsKeyStep(raw, i);
        assert raw[..i + 1] == raw[..i] + [raw[i]];
        ghost var before := crypto.key;
        var r := crypto.DecryptTransaction(raw[i], env);
        if r.Err? {
          failed := true;
        } else {
          if raw[i].Encrypted? && !NeedsKey(raw[..i]) {
            DecryptAllWithoutKey(before, crypto.key, raw[..i]);
          }
          DecryptAllSnoc(crypto.key, raw[..i], raw[i]);
          done := done + [r.value];
        }
        i := i + 1;
      }
      if failed {
        NeedsKeyStep(raw, i - 1);
        return None;
      }
      assert raw[..i] == raw;
      return Some(done);
    }

    /** loadTransactions for the month whose local-time bounds are
        [start, end]; a failed read or a missing key keeps the list, logs an
        ERROR and only resets `loading`. */
    method LoadTransactions(tenantId: TenantId, start: int, end: int, readOk: bool,
                            env: KeyEnv, now: int, logOk: bool)
      requires Valid()
      modifies this, db, crypto
      ensures Valid()
      ensures currentDateFilter == old(currentDateFilter)
      ensures Loaded(tenantId, start, end, readOk, env, now, logOk)
    {
      loading := true;
      var decrypted: Option<seq<Transaction>> := None;
      if readOk {
        var raw := LedgerRows(db.transactions, tenantId, start, end);
        decrypted := DecryptRows(raw, env);
      }
      if decrypted.Some? {
        transactions := decrypted.value;
      } else {
        logger.Log(Error, "Failed to load transactions", "Store", tenantId, Some(ErrorContext), now, logOk);
      }
      loading := false;
    }

    /** setMonthFilter: selects the month, then reloads it. */
    method SetMonthFilter(month: int, year: int, tenantId: TenantId, start: int, end: int,
                          readOk: bool, env: KeyEnv, now: int, logOk: bool)
      requires Valid()
      modifies this, db, crypto
      ensures Valid()
      ensures currentDateFilter == DateFilter(month, year)
      ensures Loaded(tenantId, start, end, readOk, env, now, logOk)
    {
      currentDateFilter := DateFilter(month, year);
      LoadTransactions(tenantId, start, end, readOk, env, now, logOk);
    }

    /** addTransaction. `nowMonth` is the local month and year of `now`.
        Returns the error it rethrows, if any. */
    method AddTransaction(amount: int, categoryId: string, txType: TransactionType,
                          description: string, tenantId: TenantId, userId: Option<string>,
                          currency: Currency, currentUser: Option<UserProfile>, id: string,
                          now: int, nowMonth: DateFilter, ivAmount: Iv, ivDescription: Iv,
                          env: KeyEnv, writeOk: bool, logOk: bool)
      returns (error: Option<Fault>)
      requires Valid()
      modifies this, db, crypto
      ensures Valid()
      ensures loading == old(loading) && currentDateFilter == old(currentDateFilter)
      ensures db.categories == old(db.categories) && db.profiles == old(db.profiles) && db.tasks == old(db.tasks)
      ensures crypto.State() == EnsureStep(old(crypto.State()), env)
      ensures var tx := NewTransaction(id, tenantId, amount, categoryId, txType, description, now,
                                       currency, userId, currentUser);
        if crypto.key.None? then
          error == Some(KeyUnavailable)
        else if !writeOk || HasKey(old(db.transactions), TxKey, id) then
          error == Some(PersistenceFailed)
        else
          error == None
          && db.transactions == old(db.transactions)
             + [Encrypted(EncryptRecord(crypto.key.value, ivAmount, ivDescription, tx))]
          && transactions == (if nowMonth == currentDateFilter then SortDesc([tx] + old(transactions), TxDate)
                              else old(transactions))
          && db.logs == old(db.logs)
             + if logOk then [Entry(Action, "Transaction Added", "QuickAdd", tenantId,
                                    Some(AddedContext(txType, categoryId, currency)), now)] else []
      ensures error.Some? ==>
        db.transactions == old(db.transactions) && transactions == old(transactions)
        && db.logs == old(db.logs)
           + if logOk then [FailureEntry("Failed to save transaction", "Store", tenantId, now)] else []
    {
      var tx := NewTransaction(id, tenantId, amount, categoryId, txType, description, now,
                               currency, userId, currentUser);
      var encrypted := crypto.EncryptTransaction(tx, ivAmount, ivDescription, env);
      if encrypted.Err? {
        logger.Log(Error, "Failed to save transaction", "Store", tenantId, Some(ErrorContext), now, logOk);
        return Some(encrypted.error);
      }
      var saved := db.AddTransaction(Encrypted(encrypted.value), writeOk);
      if !saved {
        logger.Log(Error, "Failed to save transaction", "Store", tenantId, Some(ErrorContext), now, logOk);
        return Some(PersistenceFailed);
      }
      if nowMonth == currentDateFilter {
        transactions := SortDesc([tx] + transactions, TxDate);
      }
      logger.Log(Action, "Transaction Added", "QuickAdd", tenantId,
                 Some(AddedContext(txType, categoryId, currency)), now, logOk);
      return None;
    }

    /** deleteTransaction: errors are logged and swallowed. */
    method DeleteTransaction(id: string, tenantId: TenantId, currentUser: Option<UserProfile>,
                             deleteOk: bool, now: int, logOk: bool)
      requires Valid()
      modifies this, db
      ensures Valid()
      ensures loading == old(loading) && currentDateFilter == old(currentDateFilter)
      ensures db.categories == old(db.categories) && db.profiles == old(db.profiles) && db.tasks == old(db.tasks)
      ensures db.transactions == if deleteOk then Filter(old(db.transactions), NotKey(TxKey, id))
                                 else old(db.transactions)
      ensures transactions == if deleteOk then Filter(old(transactions), NotKey(TxId, id)) else old(transactions)
      ensures var found := Find(old(transactions), IsKey(TxId, id));
        db.logs == old(db.logs)
          + if !logOk then []
            else if !deleteOk then [FailureEntry("Failed to delete transaction", "Store", tenantId, now)]
            else if found.Some? then [Entry(Action, "Transaction Deleted", "TransactionStore", tenantId,
                                            Some(DeletedContext(id, found.value, currentUser)), now)]
            else []
    {
      var found := Find(transactions, IsKey(TxId, id));
      var deleted := db.DeleteTransaction(id, deleteOk);
      if !deleted {
        logger.Log(Error, "Failed to delete transaction", "Store", tenantId, Some(ErrorContext), now, logOk);
        return;
      }
      transactions := Filter(transactions, NotKey(TxId, id));
      if found.Some? {
        logger.Log(Action, "Transaction Deleted", "TransactionStore", tenantId,
                   Some(DeletedContext(id, found.value, currentUser)), now, logOk);
      }
    }

    /** getBalance: income sums the INCOME amounts, expense every other
        amount; nothing changes. */
    method GetBalance() returns (b: Balance)
      ensures b.income == Sum(transactions, IncomePart)
      ensures b.expense == Sum(transactions, ExpensePart)
      ensures b.total == b.income - b.expense
    {
      var income := 0;
      var expense := 0;
      for i := 0 to |transactions|
        invariant income == Sum(transactions[..i], IncomePart)
        invariant expense == Sum(transactions[..i], ExpensePart)
      {
        assert transactions[..i + 1][..i] == transactions[..i];
        var tx := transactions[i];
        if tx.meta.txType == Income {
          income := income + tx.amount;
        } else {
          expense := expense + tx.amount;
        }
      }
      assert transactions[..|transactions|] == transactions;
      return Balance(income, expense, income - expense);
    }
  }

  // ---------------------------------------------------------------------------
  // Tasks.

  function TaskOfTenant(tenantId: TenantId): Task -> bool {
    (t: Task) => t.tenantId == tenantId
  }

  /** `a.date - b.date` as a descending key. */
  function NegTaskDate(t: Task): int { -t.date }

  /** `currentUser?.id || 'unknown'`. */
  function CreatedBy(currentUser: Option<UserProfile>): string {
    if currentUser.Some? && currentUser.value.id != "" then currentUser.value.id else "unknown"
  }

  /** toggleTaskCompletion on the list: the status of the first task with the
      id is flipped on every task with that id; an absent id changes nothing. */
  function Toggled(tasks: seq<Task>, id: string): (r: seq<Task>)
    ensures |r| == |tasks|
    ensures !HasKey(tasks, TaskKey, id) ==> r == tasks
  {
    match Find(tasks, IsKey(TaskKey, id))
    case None => tasks
    case Some(t) => SetCompletion(tasks, id, !t.isCompleted)
  }

  /** With unique ids, a toggle flips the matching task only. */
  lemma ToggleFlipsOnlyTheTask(tasks: seq<Task>, id: string)
    requires UniqueKeys(tasks, TaskKey)
    ensures forall i :: 0 <= i < |tasks| ==>
      Toggled(tasks, id)[i] == if tasks[i].id == id then tasks[i].(isCompleted := !tasks[i].isCompleted)
                               else tasks[i]
  {
    match FindIndex(tasks, IsKey(TaskKey, id))
    case None =>
    case Some(k) =>
      assert Find(tasks, IsKey(TaskKey, id)) == Some(tasks[k]);
  }

  /** With unique ids, toggling twice restores the list. */
  lemma ToggleTwiceRestores(tasks: seq<Task>, id: string)
    requires UniqueKeys(tasks, TaskKey)
    ensures Toggled(Toggled(tasks, id), id) == tasks
  {
    ToggleFlipsOnlyTheTask(tasks, id);
    var once := Toggled(tasks, id);
    assert forall i :: 0 <= i < |once| ==> once[i].id == tasks[i].id;
    assert UniqueKeys(once, TaskKey);
    ToggleFlipsOnlyTheTask(once, id);
  }

  class TaskStore {
    var tasks: seq<Task>
    var loading: bool
    const db: Database

    constructor (db: Database)
      ensures tasks == [] && !loading && this.db == db
    {
      tasks := [];
      loading := false;
      this.db := db;
    }

    /** loadTasks: the tenant's tasks, earliest date first; a failed read
        keeps the list. */
    method LoadTasks(tenantId: TenantId, readOk: bool)
      modifies this
      ensures !loading
      ensures tasks == if readOk then SortDesc(Filter(db.tasks, TaskOfTenant(tenantId)), NegTaskDate)
                       else old(tasks)
    {
      loading := true;
      if readOk {
        tasks := SortDesc(Filter(db.tasks, TaskOfTenant(tenantId)), NegTaskDate);
      }
      loading := false;
    }

    /** addTask: the task is appended once the write succeeds; a failed
        write is rethrown and changes nothing. */
    method AddTask(title: string, date: int, taskType: TaskType, assignedTo: string,
                   tenantId: TenantId, currentUser: Option<UserProfile>, id: string, now: int,
                   writeOk: bool)
      returns (error: Option<Fault>)
      requires db.Valid()
      modifies this, db
      ensures db.Valid()
      ensures loading == old(loading)
      ensures db.transactions == old(db.transactions) && db.categories == old(db.categories)
      ensures db.logs == old(db.logs) && db.profiles == old(db.profiles)
      ensures var t := Task(id, tenantId, title, None, date, false, assignedTo, CreatedBy(currentUser),
                            taskType, now);
        if writeOk && !HasKey(old(db.tasks), TaskKey, id) then
          error.None? && db.tasks == old(db.tasks) + [t] && tasks == old(tasks) + [t]
        else
          error == Some(PersistenceFailed) && db.tasks == old(db.tasks) && tasks == old(tasks)
    {
      var t := Task(id, tenantId, title, None, date, false, assignedTo, CreatedBy(currentUser),
                    taskType, now);
      var saved := db.AddTask(t, writeOk);
      if !saved {
        return Some(PersistenceFailed);
      }
      tasks := tasks + [t];
      return None;
    }

    /** toggleTaskCompletion: an absent id does nothing; otherwise the new
        status is written, then the list is updated; a failed write is
        rethrown and the list kept. */
    method ToggleTaskCompletion(taskId: string, tenantId: TenantId, writeOk: bool)
      returns (error: Option<Fault>)
      requires db.Valid()
      modifies this, db
      ensures db.Valid()
      ensures loading == old(loading)
      ensures db.transactions == old(db.transactions) && db.categories == old(db.categories)
      ensures db.logs == old(db.logs) && db.profiles == old(db.profiles)
      ensures var found := Find(old(tasks), IsKey(TaskKey, taskId));
        if found.None? then
          error.None? && tasks == old(tasks) && db.tasks == old(db.tasks)
        else if writeOk then
          error.None? && tasks == Toggled(old(tasks), taskId)
          && db.tasks == SetCompletion(old(db.tasks), taskId, !found.value.isCompleted)
        else
          error == Some(PersistenceFailed) && tasks == old(tasks) && db.tasks == old(db.tasks)
    {
      var found := Find(tasks, IsKey(TaskKey, taskId));
      if found.None? {
        return None;
      }
      var status := !found.value.isCompleted;
      var saved := db.UpdateTaskCompletion(taskId, status, writeOk);
      if !saved {
        return Some(PersistenceFailed);
      }
      tasks := SetCompletion(tasks, taskId, status);
      return None;
    }

    /** deleteTask: a failed delete is rethrown and changes nothing. */
    method DeleteTask(taskId: string, tenantId: TenantId, writeOk: bool) returns (error: Option<Fault>)
      requires db.Valid()
      modifies this, db
      ensures db.Valid()
      ensures loading == old(loading)
      ensures db.transactions == old(db.transactions) && db.categories == old(db.categories)
      ensures db.logs == old(db.logs) && db.profiles == old(db.profiles)
      ensures error.None? <==> writeOk
      ensures tasks == if writeOk then Filter(old(tasks), NotKey(TaskKey, taskId)) else old(tasks)
      ensures db.tasks == if writeOk then Filter(old(db.tasks), NotKey(TaskKey, taskId)) else old(db.tasks)
    {
      var deleted := db.DeleteTask(taskId, writeOk);
      if !deleted {
        return Some(PersistenceFailed);
      }
      tasks := Filter(tasks, NotKey(TaskKey, taskId));
      return None;
    }
  }

  /** loadTasks orders the tasks by date, earliest first. */
  lemma LoadedTasksAscending(rows: seq<Task>, tenantId: TenantId)
    ensures var r := SortDesc(Filter(rows, TaskOfTenant(tenantId)), NegTaskDate);
      (forall i :: 0 <= i < |r| ==> r[i].tenantId == tenantId)
      && forall i, j :: 0 <= i < j < |r| ==> r[i].date <= r[j].date
  {
    var kept := Filter(rows, TaskOfTenant(tenantId));
    var r := SortDesc(kept, NegTaskDate);
    forall i | 0 <= i < |r| ensures r[i].tenantId == tenantId {
      assert r[i] in multiset(kept);
      assert r[i] in kept;
      assert TaskOfTenant(tenantId)(r[i]);
    }
    assert SortedDesc(r, NegTaskDate);
    forall i, j | 0 <= i < j < |r| ensures r[i].date <= r[j].date {
      assert NegTaskDate(r[i]) >= NegTaskDate(r[j]);
    }
  }

  // ---------------------------------------------------------------------------
  // Categories.

  function CategoryOfTenant(tenantId: TenantId): Category -> bool {
    (c: Category) => c.tenantId == tenantId
  }

  class CategoryStore {
    var categories: seq<Category>
    const db: Database
    const logger: LoggerService

    predicate Valid()
      reads this, db
    {
      logger.db == db && db.Valid()
    }

    constructor (db: Database, logger: LoggerService)
      requires logger.db == db
      ensures categories == [] && this.db == db && this.logger == logger
    {
      categories := [];
      this.db := db;
      this.logger := logger;
    }

    /** loadCategories: the tenant's custom categories; a failed read is
        logged and keeps the list. The table returns the rows in primary-key
        order, which the model does not fix: the contract promises the rows,
        each as often as stored, and not their order. */
    method LoadCategories(tenantId: TenantId, readOk: bool, now: int, logOk: bool)
      requires Valid()
      modifies this, db
      ensures Valid()
      ensures db.transactions == old(db.transactions) && db.categories == old(db.categories)
      ensures db.profiles == old(db.profiles) && db.tasks == old(db.tasks)
      ensures readOk ==> multiset(categories) == multiset(Filter(db.categories, CategoryOfTenant(tenantId)))
      ensures !readOk ==> categories == old(categories)
      ensures db.logs == old(db.logs)
        + if !readOk && logOk then [FailureEntry("Failed to load categories", "Store", tenantId, now)] else []
    {
      if readOk {
        categories := Filter(db.categories, CategoryOfTenant(tenantId));
      } else {
        logger.Log(Error, "Failed to load categories", "Store", tenantId, Some(ErrorContext), now, logOk);
      }
    }

    /** addCategory: a custom category, appended once stored; a failed write
        is logged and changes nothing else. */
    method AddCategory(name: string, txType: TransactionType, tenantId: TenantId, id: string,
                       writeOk: bool, now: int, logOk: bool)
      requires Valid()
      modifies this, db
      ensures Valid()
      ensures db.transactions == old(db.transactions) && db.profiles == old(db.profiles) && db.tasks == old(db.tasks)
      ensures var c := Category(id, tenantId, name, txType, true);
        if writeOk && !HasKey(old(db.categories), CategoryKey, id) then
          db.categories == old(db.categories) + [c] && categories == old(categories) + [c]
          && db.logs == old(db.logs)
        else
          db.categories == old(db.categories) && categories == old(categories)
          && db.logs == old(db.logs)
             + if logOk then [FailureEntry("Failed to add category", "Store", tenantId, now)] else []
    {
      var c := Category(id, tenantId, name, txType, true);
      var saved := db.AddCategory(c, writeOk);
      if saved {
        categories := categories + [c];
      } else {
        logger.Log(Error, "Failed to add category", "Store", tenantId, Some(ErrorContext), now, logOk);
      }
    }

    /** deleteCategory: a failed delete is logged and changes nothing else. */
    method DeleteCategory(id: string, tenantId: TenantId, deleteOk: bool, now: int, logOk: bool)
      requires Valid()
      modifies this, db
      ensures Valid()
      ensures db.transactions == old(db.transactions) && db.profiles == old(db.profiles) && db.tasks == old(db.tasks)
      ensures db.categories == if deleteOk then Filter(old(db.categories), NotKey(CategoryKey, id)) else old(db.categories)
      ensures categories == if deleteOk then Filter(old(categories), NotKey(CategoryKey, id)) else old(categories)
      ensures db.logs == old(db.logs)
        + if !deleteOk && logOk then [FailureEntry("Failed to delete category", "Store", tenantId, now)] else []
    {
      var deleted := db.DeleteCategory(id, deleteOk);
      if deleted {
        categories := Filter(categories, NotKey(CategoryKey, id));
      } else {
        logger.Log(Error, "Failed to delete category", "Store", tenantId, Some(ErrorContext), now, logOk);
      }
    }
  }

  // ---------------------------------------------------------------------------
  // Profiles and sign-in.

  function ProfileOfTenant(tenantId: TenantId): UserProfile -> bool {
    (p: UserProfile) => p.tenantId == tenantId
  }

  /** The profile `login` signs in: the first with the id, if its PIN matches. */
  function LoginMatch(profiles: seq<UserProfile>, profileId: string, pin: string): Option<UserProfile> {
    match Find(profiles, IsKey(ProfileKey, profileId))
    case Some(p) => if p.pin == pin then Some(p) else None
    case None => None
  }

  /** With unique ids, login succeeds exactly when some profile has both the
      id and the PIN. */
  lemma LoginIffCredentials(profiles: seq<UserProfile>, profileId: string, pin: string)
    requires UniqueKeys(profiles, ProfileKey)
    ensures LoginMatch(profiles, profileId, pin).Some? <==>
      exists i :: 0 <= i < |profiles| && profiles[i].id == profileId && profiles[i].pin == pin
    ensures LoginMatch(profiles, profileId, pin).Some? ==>
      LoginMatch(profiles, profileId, pin).value in profiles
      && LoginMatch(profiles, profileId, pin).value.id == profileId
  {
    match FindIndex(profiles, IsKey(ProfileKey, profileId))
    case None =>
      forall i | 0 <= i < |profiles| ensures profiles[i].id != profileId {
        assert !IsKey(ProfileKey, profileId)(profiles[i]);
        assert ProfileKey(profiles[i]) == profiles[i].id;
      }
    case Some(k) =>
      assert Find(profiles, IsKey(ProfileKey, profileId)) == Some(profiles[k]);
      assert IsKey(ProfileKey, profileId)(profiles[k]);
      assert ProfileKey(profiles[k]) == profiles[k].id;
      if exists i :: 0 <= i < |profiles| && profiles[i].id == profileId && profiles[i].pin == pin {
        var i :| 0 <= i < |profiles| && profiles[i].id == profileId && profiles[i].pin == pin;
        assert ProfileKey(profiles[i]) == profiles[i].id;
        assert i == k;
      }
  }

  class AuthStore {
    var currentUser: Option<UserProfile>
    var profiles: seq<UserProfile>
    var loading: bool
    var isAuthenticated: bool
    const db: Database
    const logger: LoggerService

    predicate Valid()
      reads this, db
    {
      logger.db == db && db.Valid()
    }

    constructor (db: Database, logger: LoggerService)
      requires logger.db == db
      ensures currentUser.None? && profiles == [] && !loading && !isAuthenticated
      ensures this.db == db && this.logger == logger
    {
      currentUser := None;
      profiles := [];
      loading := false;
      isAuthenticated := false;
      this.db := db;
      this.logger := logger;
    }

    /** loadProfiles: the tenant's profiles; a failed read is logged. As with
        the categories, the contract promises the rows and not their order. */
    method LoadProfiles(tenantId: TenantId, readOk: bool, now: int, logOk: bool)
      requires Valid()
      modifies this, db
      ensures Valid()
      ensures !loading && currentUser == old(currentUser) && isAuthenticated == old(isAuthenticated)
      ensures db.transactions == old(db.transactions) && db.categories == old(db.categories)
      ensures db.profiles == old(db.profiles) && db.tasks == old(db.tasks)
      ensures readOk ==> multiset(profiles) == multiset(Filter(db.profiles, ProfileOfTenant(tenantId)))
      ensures !readOk ==> profiles == old(profiles)
      ensures db.logs == old(db.logs)
        + if !readOk && logOk then [FailureEntry("Failed to load profiles", "AuthStore", tenantId, now)] else []
    {
      loading := true;
      if readOk {
        profiles := Filter(db.profiles, ProfileOfTenant(tenantId));
      } else {
        logger.Log(Error, "Failed to load profiles", "AuthStore", tenantId, Some(ErrorContext), now, logOk);
      }
      loading := false;
    }

    /** createProfile: stored, appended, then audited; a failed write is
        rethrown before anything changes. */
    method CreateProfile(name: string, role: UserRole, pin: string, avatar: string,
                         tenantId: TenantId, id: string, now: int, writeOk: bool, logOk: bool)
      returns (error: Option<Fault>)
      requires Valid()
      modifies this, db
      ensures Valid()
      ensures loading == old(loading) && currentUser == old(currentUser) && isAuthenticated == old(isAuthenticated)
      ensures db.transactions == old(db.transactions) && db.categories == old(db.categories) && db.tasks == old(db.tasks)
      ensures var p := UserProfile(id, tenantId, name, role, pin, avatar, now);
        if writeOk && !HasKey(old(db.profiles), ProfileKey, id) then
          error.None? && db.profiles == old(db.profiles) + [p] && profiles == old(profiles) + [p]
          && db.logs == old(db.logs)
             + if logOk then [Entry(Action, "Profile Created", "AuthStore", tenantId,
                                    Some([Field("name", Text(name)), Field("role", Text(role.Name()))]), now)]
               else []
        else
          error == Some(PersistenceFailed) && db.profiles == old(db.profiles) && profiles == old(profiles)
          && db.logs == old(db.logs)
    {
      var p := UserProfile(id, tenantId, name, role, pin, avatar, now);
      var saved := db.AddProfile(p, writeOk);
      if !saved {
        return Some(PersistenceFailed);
      }
      profiles := profiles + [p];
      logger.Log(Action, "Profile Created", "AuthStore", tenantId,
                 Some([Field("name", Text(name)), Field("role", Text(role.Name()))]), now, logOk);
      return None;
    }

    /** login: signs in the matching profile and audits it; a wrong id or
        PIN changes nothing. */
    method Login(profileId: string, pin: string, now: int, logOk: bool) returns (success: bool)
      requires Valid()
      modifies this, db
      ensures Valid()
      ensures profiles == old(profiles) && loading == old(loading)
      ensures db.transactions == old(db.transactions) && db.categories == old(db.categories)
      ensures db.profiles == old(db.profiles) && db.tasks == old(db.tasks)
      ensures var m := LoginMatch(old(profiles), profileId, pin);
        success == m.Some?
        && (if success then
              currentUser == m && isAuthenticated
              && db.logs == old(db.logs)
                 + if logOk then [Entry(Action, "User Login", "AuthStore", m.value.tenantId,
                                        Some([Field("user", Text(m.value.name))]), now)] else []
            else
              currentUser == old(currentUser) && isAuthenticated == old(isAuthenticated)
              && db.logs == old(db.logs))
    {
      var profile := Find(profiles, IsKey(ProfileKey, profileId));
      if profile.Some? && profile.value.pin == pin {
        currentUser := profile;
        isAuthenticated := true;
        logger.Log(Action, "User Login", "AuthStore", profile.value.tenantId,
                   Some([Field("user", Text(profile.value.name))]), now, logOk);
        return true;
      }
      return false;
    }

    /** logout: nobody is signed in. */
    method Logout()
      modifies this
      ensures currentUser.None? && !isAuthenticated
      ensures profiles == old(profiles) && loading == old(loading)
    {
      currentUser := None;
      isAuthenticated := false;
    }
  }
}
