/** The record shapes and enumerations shared by the ledger, the stores and the views. */
module Types {
  import opened Wrappers

  type TenantId = string

  /** A byte, as the elements of a Uint8Array. */
  type byte = x: int | 0 <= x < 256

  datatype LogLevel = Info | Warn | Error | Action

  /** A value inside an audit context: a text, or a caught exception object. */
  datatype ContextValue = Text(text: string) | Exception

  /** One key/value pair of the object a caller hands to the logger. */
  datatype ContextField = Field(key: string, value: ContextValue)

  type Context = seq<ContextField>

  /** One audit entry, as stored in the logs table. */
  datatype AppLog = AppLog(
    tenantId: TenantId,
    timestamp: int,
    level: LogLevel,
    message: string,
    context: Option<Context>,
    origin: string)

  datatype TransactionType = Expense | Income {
    /** The enumeration's string value. */
    function Name(): string {
      match this
      case Expense => "EXPENSE"
      case Income => "INCOME"
    }
  }

  /** The built-in categories, in declaration order. */
  const DefaultCategories: seq<string> :=
    ["FOOD", "TRANSPORT", "HOUSING", "ENTERTAINMENT", "HEALTH",
     "SHOPPING", "SALARY", "INVESTMENT", "FREELANCE", "OTHER"]

  datatype Currency = BRL | USD | EUR | GBP {
    function Code(): string {
      match this
      case BRL => "BRL"
      case USD => "USD"
      case EUR => "EUR"
      case GBP => "GBP"
    }
  }

  datatype Category = Category(
    id: string,
    tenantId: TenantId,
    name: string,
    txType: TransactionType,
    isCustom: bool)

  /** Every field of a transaction except the two sensitive ones; the stored
      form shares these verbatim (an "Omit<Transaction, 'amount' | 'description'>"). */
  datatype TxMeta = TxMeta(
    id: string,
    tenantId: TenantId,
    categoryId: string,
    categoryName: Option<string>,
    txType: TransactionType,
    date: int,
    createdAt: int,
    synced: bool,
    currency: Currency,
    userId: Option<string>)

  /** The plaintext domain record kept in memory. Amounts are whole numbers. */
  datatype Transaction = Transaction(meta: TxMeta, amount: int, description: string)

  /** The at-rest record: amount and description are ciphertext envelopes. */
  datatype EncryptedTransaction = EncryptedTransaction(meta: TxMeta, amount: string, description: string)

  /** A row of the transactions table: a legacy plaintext row (no isEncrypted flag)
      or an encrypted one (isEncrypted: true). */
  datatype StoredTransaction = Legacy(tx: Transaction) | Encrypted(enc: EncryptedTransaction) {
    function Meta(): TxMeta {
      match this
      case Legacy(tx) => tx.meta
      case Encrypted(e) => e.meta
    }
  }

  /** A calendar month (0..11) and year. */
  datatype DateFilter = DateFilter(month: int, year: int)

  datatype UserRole = Admin | Member {
    /** The enumeration's string value. */
    function Name(): string {
      match this
      case Admin => "ADMIN"
      case Member => "MEMBER"
    }
  }

  datatype UserProfile = UserProfile(
    id: string,
    tenantId: TenantId,
    name: string,
    role: UserRole,
    pin: string,
    avatar: string,
    createdAt: int)

  datatype TaskType = Event | Todo | Daily

  datatype Task = Task(
    id: string,
    tenantId: TenantId,
    title: string,
    description: Option<string>,
    date: int,
    isCompleted: bool,
    assignedTo: string,
    createdBy: string,
    taskType: TaskType,
    createdAt: int)
}
