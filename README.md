# FlashFinance core, modelled in Dafny

FlashFinance is a family finance app that runs in the browser. It keeps
transactions, custom categories, profiles, tasks and an audit log in a local
IndexedDB database, and it stores each transaction's amount and description
encrypted. This project models the app's core in Dafny and proves what that
core promises.

- **Crypto** (`services/crypto.ts`). The encryption service holds one key. It
  imports the key from local storage or generates and stores a new one. It
  seals a text as `base64(iv):base64(ciphertext)` and opens such envelopes,
  returning `''` for a malformed envelope and `'***'` when decryption fails.
  It also encrypts and decrypts whole transaction records, and it keeps the
  plain legacy rows readable. Base64 (`btoa`/`atob`), the byte-string loops,
  the text encoder and a stand-in authenticated cipher are modelled alongside.
- **Db** (`services/db.ts`). The database is a class with one list per table.
  Its writes can fail, and a failed write changes nothing. The `generateUUID`
  fallback is modelled on its template.
- **Logger** (`services/logger.ts`). `log` appends one entry and swallows a
  failed write. `getLogs` returns a tenant's newest entries first, at most
  `limit` of them. The logger is a singleton.
- **Store** (`store.ts`). There is one class per zustand store, with fields
  that its methods update:
  - TransactionStore: load the month, add, delete and the balance;
  - TaskStore;
  - CategoryStore;
  - AuthStore: profiles, login and logout.

  Each store method states its whole new state: the in-memory lists, the
  database tables and the audit entries.
- **Hooks** (`hooks.ts`). The hooks cover:
  - stepping the month filter back and forth;
  - grouping the history by UTC day, newest day first;
  - the merged category options and `getLabel`;
  - the quick-add form's submit guard and its default category for each type.
- **Charts** (`components/Charts.tsx`). These cover the balance chart's empty
  check, the expense pie's per-category totals, the positive-only ordering by
  size, the placeholder, and the colour cycle.

The core's shared helpers live in small modules: Wrappers (Option/Result),
Types (the records of `types.ts`), Lists (filter, stable insertion sort,
find, sum), Numbers (`toString` and `parseFloat` on whole numbers), Base64
and Cipher. Foreign inputs are parameters of the operations. These are the
outcome of each database write or read, the clock (`now`), the random nonces
and UUID digits, the key the browser generates, whether storing it succeeds,
and the month bounds in local time.

## Model

| member | source | states |
|---|---|---|
| Base64.Char | services/crypto.ts:121 | the character `btoa` emits for a 6-bit value is one that `atob` reads back as that value |
| Base64.SextetChar | services/crypto.ts:121-125 | the alphabet lookup and the character table undo each other in both directions |
| Base64.Encode | services/crypto.ts:121 | `btoa` output has 4 characters per started group of 3 bytes, all from the alphabet or `=` |
| Base64.DecodeEncode | services/crypto.ts:114-132 | `atob(btoa(b))` returns exactly the bytes `b` |
| Base64.EncodeInjective | services/crypto.ts:114-122 | two byte strings with the same base64 text are equal |
| Crypto.Binary | services/crypto.ts:115-120 | the binary string has one character per byte |
| Crypto.ArrayBufferToBase64 | services/crypto.ts:114-122 | the character loop followed by `btoa` yields the base64 text of the bytes |
| Crypto.Base64ToArrayBuffer | services/crypto.ts:124-132 | `atob` followed by the char-code loop yields the decoded bytes, or the error `atob` raises |
| Crypto.AtobOfBtoa | services/crypto.ts:114-132 | `btoa` accepts every binary string, and `atob` restores it |
| Crypto.Split | services/crypto.ts:93 | `split(':')` always returns at least one piece |
| Crypto.SplitWithoutSeparator | services/crypto.ts:93-94 | a text without `:` splits into itself alone |
| Crypto.SplitJoin | services/crypto.ts:86-93 | joining two `:`-free texts with `:` and splitting again gives the two texts |
| Crypto.EncryptText | services/crypto.ts:71-87 | an envelope always contains the separator `:` |
| Crypto.NoSeparatorInBase64 | services/crypto.ts:84-86 | base64 text never contains `:` |
| Crypto.EnvelopeParts | services/crypto.ts:86-93 | splitting an envelope gives exactly the nonce part and the ciphertext part |
| Crypto.DecryptEncryptText | services/crypto.ts:71-111 | decrypting an envelope under the key that made it returns the original text |
| Crypto.FreshNonceFreshEnvelope | services/crypto.ts:75-86 | envelopes made with different nonces differ, whatever text is encrypted |
| Crypto.DecryptMalformed | services/crypto.ts:93-94 | a text without `:`, or with an empty part, decrypts to `''` |
| Crypto.EncryptRecord | services/crypto.ts:136-147 | the encrypted record keeps every other field, and its two envelopes open to the amount text and the description |
| Crypto.DecryptEncrypted | services/crypto.ts:155-163 | decrypting keeps every field except the amount and the description |
| Crypto.DecryptRecord | services/crypto.ts:149-164 | a legacy row is returned unchanged; any row keeps its metadata |
| Crypto.RecordRoundTrip | services/crypto.ts:136-164 | under the same key, decrypting an encrypted transaction gives the transaction back |
| Crypto.DegradedAmountIsZero | services/crypto.ts:161 | an amount envelope that reads as `''` or `'***'` becomes the amount 0 |
| Crypto.InitImportsStoredKey | services/crypto.ts:26-30 | a stored exported key is imported and the store is left as it is |
| Crypto.InitGeneratesWhenNothingStored | services/crypto.ts:31-35 | with no stored key, init keeps the generated key and stores its export if the write succeeds |
| Crypto.EnsureFailsClosed | services/crypto.ts:65-68 | ensureInitialized ends without a key exactly when there was none and init could not obtain one |
| Crypto.EnsureKeepsKey | services/crypto.ts:65-66 | a key that is already held is never replaced, and nothing is written |
| Crypto.StoredKeySurvivesRestart | services/crypto.ts:26-35 | the key stored by a first run is the key a later run imports |
| Crypto.CryptoService.constructor | services/crypto.ts:14-16 | the new service has run init once on the stored slot |
| Crypto.CryptoService.Init | services/crypto.ts:26-39 | the service's key and slot become the result of one init step |
| Crypto.CryptoService.EnsureInitialized | services/crypto.ts:65-68 | it returns the key, or the "key not available" error when no key is held afterwards |
| Crypto.CryptoService.Encrypt | services/crypto.ts:71-87 | it returns the envelope of the text under the key held after ensureInitialized, or the key error |
| Crypto.CryptoService.Decrypt | services/crypto.ts:90-111 | it returns the decryption of the text under the key held after ensureInitialized, or the key error |
| Crypto.CryptoService.EncryptTransaction | services/crypto.ts:136-147 | it returns the encrypted record, or the key error |
| Crypto.CryptoService.DecryptTransaction | services/crypto.ts:149-164 | a legacy row is returned without touching the key; an encrypted row is decrypted, or the key error is returned |
| Crypto.CryptoServiceSingleton.GetInstance | services/crypto.ts:18-23 | the first call creates the service and every later call returns that same object |
| Cipher.OpenSeal | services/crypto.ts:77-103 | opening what was sealed under the same key and nonce gives the plaintext |
| Cipher.DecodeEncodeText | services/crypto.ts:73-106 | the text decoder undoes the text encoder |
| Cipher.ImportExportKey | services/crypto.ts:49-63 | importing an exported key gives the same key |
| Cipher.ExportKeyNonEmpty | services/crypto.ts:29-34 | an exported key is never empty, so once stored it is found on the next run |
| Numbers.NatToString | services/crypto.ts:137 | the decimal text of a number is all digits, with no leading zero |
| Numbers.ParseFloat | hooks.ts:240 | the whole part of `parseFloat`: NaN exactly when no digit follows the leading white space and the sign (the text `Infinity` included) |
| Numbers.ParseFloatOfNumberToString | services/crypto.ts:137-161 | `parseFloat(n.toString())` is `n`, with and without the fallback to 0 |
| Numbers.ParseFloatOfMarkers | services/crypto.ts:161 | the markers `''` and `'***'` parse as NaN, and the fallback turns them into 0 |
| Db.Database.constructor | services/db.ts:14-46 | a new database has five empty tables |
| Db.Database.AddTransaction | store.ts:257 | the row is appended unless the write fails or the id is taken; the other tables stay as they were |
| Db.Database.DeleteTransaction | store.ts:280 | every row with the id is removed unless the write fails; the other tables stay as they were |
| Db.Database.AddCategory | store.ts:341 | the category is appended unless the write fails or the id is taken; the other tables stay as they were |
| Db.Database.DeleteCategory | store.ts:349 | every category with the id is removed unless the write fails |
| Db.Database.AddProfile | store.ts:107 | the profile is appended unless the write fails or the id is taken |
| Db.Database.AddTask | store.ts:163 | the task is appended unless the write fails or the id is taken |
| Db.Database.UpdateTaskCompletion | store.ts:178 | the task with the id gets the new status unless the write fails |
| Db.Database.DeleteTask | store.ts:186 | every task with the id is removed unless the write fails |
| Db.Database.AddLog | services/logger.ts:33 | the entry is appended unless the write fails; the other tables stay as they were |
| Db.FilterKeepsUniqueKeys | services/db.ts:36-40 | removing rows keeps the primary keys unique |
| Db.AppendKeepsUniqueKeys | services/db.ts:36-40 | adding a row whose key is absent keeps the keys unique |
| Db.DeleteRemovesKey | store.ts:280 | after a delete by key no row has that key, and exactly the rows with that key are gone |
| Db.SetCompletion | store.ts:178 | the tasks with the id get the status and nothing else of them changes; every other task and the length are unchanged; the ids stay, so unique ids stay unique |
| Db.Hex | services/db.ts:57 | `v.toString(16)` is a lowercase hex digit |
| Db.VariantNibble | services/db.ts:56 | the variant digit `(r AND 3) OR 8` lies between 8 and 11 |
| Db.Fill | services/db.ts:55-58 | the filled template has the template's length |
| Db.FillAt | services/db.ts:55-58 | each `x` becomes a hex digit, each `y` a variant digit, and every other character stays |
| Db.GenerateUuid | services/db.ts:51-59 | the native UUID is returned unchanged when there is one; otherwise the result is a 36-character string (its layout is FallbackUuidShape's) |
| Db.TemplateLayout | services/db.ts:55 | the template has 36 characters, dashes at 8, 13, 18 and 23, `4` at 14 and `y` at 19 |
| Db.FallbackUuidShape | services/db.ts:51-59 | the fallback is a version-4 UUID: dashes in place, `4` at 14, one of `8`-`b` at 19, hex digits elsewhere |
| Logger.Entry | services/logger.ts:23-30 | the entry carries the caller's tenant, level, message, origin and context, stamped with the current time |
| Logger.TenantEntries | services/logger.ts:44-46 | the tenant's entries are exactly the log entries of that tenant |
| Logger.TenantLogs | services/logger.ts:43-50 | at most `limit` entries of the tenant, the most recently appended first |
| Logger.NewestEntryFirst | services/logger.ts:33-50 | an entry just appended is the first one its tenant reads back |
| Logger.OtherTenantUnaffected | services/logger.ts:44-46 | an entry of one tenant never changes another tenant's logs |
| Logger.LoggerService.Log | services/logger.ts:16-41 | the table grows by exactly this entry when the write succeeds; a failed write is swallowed |
| Logger.LoggerService.GetLogs | services/logger.ts:43-50 | it returns the tenant's newest entries and changes nothing |
| Logger.LoggerSingleton.GetInstance | services/logger.ts:9-14 | the first call creates the logger and every later call returns that same object |
| Store.AuditContextsMask | store.ts:267-300 | the "added" and "deleted" audit contexts mask the amount and the description and never carry them |
| Store.LedgerRows | store.ts:214-219 | the month's rows, as a permutation of the matching rows, newest date first |
| Store.LedgerRowsExactly | store.ts:214-219 | the month's rows are the tenant's rows within the bounds, and every such row is included |
| Store.DecryptAll | store.ts:222-224 | the list is decrypted row by row, in order |
| Store.DecryptAllWithoutKey | services/crypto.ts:151-153 | a list of legacy rows needs no key |
| Store.LoadedLedger | store.ts:205-226 | the loaded list is the decryption of exactly the tenant's rows in the month, newest first |
| Store.NewTransaction | store.ts:238-250 | the new record has the given fields, the current time as date and creation time, is not synced, and takes the given user id, else the signed-in user's id |
| Store.OptimisticInsert | store.ts:262-265 | after the insert the list holds the new record and the old ones, newest first |
| Store.BalanceAfterInsert | store.ts:264-319 | inserting a record raises income or expense by exactly its amount |
| Store.DeleteTakesExactlyTheId | store.ts:281-283 | the list after a delete holds every entry with another id and none with the id |
| Store.TransactionStore.constructor | store.ts:191-197 | the store starts empty and not loading, on today's month |
| Store.TransactionStore.DecryptRows | store.ts:222-224 | the rows are decrypted in order; it fails when some row needs the key and none is available |
| Store.TransactionStore.LoadTransactions | store.ts:205-231 | the month's rows are decrypted into the list; a failed read or decryption is logged once and keeps the list |
| Store.TransactionStore.SetMonthFilter | store.ts:199-203 | the filter becomes the given month, which is then loaded |
| Store.TransactionStore.AddTransaction | store.ts:233-272 | the record is encrypted and stored, inserted into the list only when it falls in the filtered month, and audited; a failure is logged and rethrown with nothing stored |
| Store.TransactionStore.DeleteTransaction | store.ts:274-306 | the database and the list lose the id; a found entry is audited with masked fields; a failure is logged and nothing changes |
| Store.TransactionStore.GetBalance | store.ts:308-319 | income sums the INCOME amounts, expense all the others, and total is their difference |
| Store.Toggled | store.ts:175-180 | the list keeps its length, and an absent id changes nothing |
| Store.ToggleFlipsOnlyTheTask | store.ts:173-183 | with unique ids, the matching task's status flips and every other task stays |
| Store.ToggleTwiceRestores | store.ts:173-183 | with unique ids, toggling twice restores the list |
| Store.TaskStore.constructor | store.ts:135-137 | the store starts empty and not loading |
| Store.TaskStore.LoadTasks | store.ts:139-148 | the tenant's tasks are sorted by date, earliest first; a failed read keeps the list |
| Store.TaskStore.AddTask | store.ts:150-171 | the new task is stored and appended; a failed write is rethrown and changes nothing |
| Store.TaskStore.ToggleTaskCompletion | store.ts:173-183 | an absent id does nothing; otherwise the task's status flips in the database and in the list |
| Store.TaskStore.DeleteTask | store.ts:185-188 | the id is removed from the database and the list; a failed delete is rethrown and changes nothing |
| Store.LoadedTasksAscending | store.ts:143-144 | the loaded tasks belong to the tenant and are in date order, earliest first |
| Store.CategoryStore.constructor | store.ts:322-323 | the store starts with no categories |
| Store.CategoryStore.LoadCategories | store.ts:324-331 | the list becomes the tenant's categories, each as often as stored, in an order left open; a failed read is logged and keeps the list |
| Store.CategoryStore.AddCategory | store.ts:332-346 | the new custom category is stored and appended; a failed write is logged and changes nothing else |
| Store.CategoryStore.DeleteCategory | store.ts:347-354 | the id is removed from the database and the list; a failed delete is logged and changes nothing else |
| Store.LoginIffCredentials | store.ts:112-121 | with unique ids, login succeeds exactly when some profile has both the id and the PIN, and it signs in that profile |
| Store.AuthStore.constructor | store.ts:81-84 | nobody is signed in and no profiles are loaded |
| Store.AuthStore.LoadProfiles | store.ts:86-95 | the list becomes the tenant's profiles, each as often as stored, in an order left open; a failed read is logged and keeps the list |
| Store.AuthStore.CreateProfile | store.ts:97-110 | the new profile is stored, appended and audited; a failed write is rethrown and changes nothing |
| Store.AuthStore.Login | store.ts:112-121 | a correct id and PIN sign in that profile and audit it; anything else changes nothing and returns false |
| Store.AuthStore.Logout | store.ts:123-125 | nobody is signed in afterwards, and the profiles are kept |
| Hooks.PrevMonth | hooks.ts:313-321 | it steps to the month before, wrapping from January to December of the previous year |
| Hooks.NextMonth | hooks.ts:323-331 | it steps to the month after, wrapping from December to January of the next year |
| Hooks.MonthIndexInjective | hooks.ts:313-331 | distinct valid months have distinct month numbers |
| Hooks.NextUndoesPrev | hooks.ts:313-331 | stepping back and then forward returns to the same month, in both orders |
| Hooks.DayKey | hooks.ts:30-32 | the day key is the UTC day that contains the timestamp |
| Hooks.DayKeyMonotone | hooks.ts:30-38 | a later timestamp never falls on an earlier day |
| Hooks.GroupsStep | hooks.ts:29-35 | one `forEach` step keeps the record of the days seen so far and their transactions |
| Hooks.Sections | hooks.ts:40-59 | the sections follow the given day order, and each section holds the record's list for its day |
| Hooks.SortedKeysStrict | hooks.ts:38 | the distinct day keys, sorted, are strictly newest first |
| Hooks.SectionsAreGrouping | hooks.ts:38-59 | the finished record with its keys sorted is the day grouping |
| Hooks.GroupByDay | hooks.ts:26-60 | the days are listed newest first and once each; each holds exactly its transactions in input order; no day is empty and none is missing |
| Hooks.OneGroupPerTransaction | hooks.ts:26-60 | every transaction is in exactly one group, the group of its own day |
| Hooks.DefaultLabel | hooks.ts:191 | the label is the translation whenever it is non-empty, and the key itself otherwise |
| Hooks.Customs | hooks.ts:197-201 | the custom categories are all of them, or exactly those of the requested type |
| Hooks.MergedOptions | hooks.ts:187-210 | the ten built-in options come first, in declaration order under their translated labels, and are the only ones not marked custom; the options after them come from categories of the requested type, and every such category is offered |
| Hooks.GetLabel | hooks.ts:212-215 | the label of the first option whose value is the id, or the id itself when there is none |
| Hooks.LabelOfDefault | hooks.ts:189-215 | a built-in key always shows its translated label, whatever custom category reuses it |
| Hooks.LabelOfCustom | hooks.ts:203-215 | a custom category shows its own name when its id is neither a built-in key nor shared |
| Hooks.Submit | hooks.ts:238-244 | an empty text or a parsed value of at most 0 is ignored; otherwise `addTransaction` is called with the positive run of digits at the start of the text (before any decimal point or exponent), or with NaN when there is no such digit |
| Hooks.SubmitTypedAmount | hooks.ts:240-244 | a typed whole amount is submitted exactly when it is positive, and then as itself |
| Hooks.CategoryForType | hooks.ts:233-236 | INCOME selects SALARY and EXPENSE selects FOOD, both built-in keys |
| Hooks.DefaultSelectionOffered | hooks.ts:224-236 | the category selected by default is always one of the offered options |
| Charts.ColorAt | components/Charts.tsx:80 | the slice colour is always one of the nine palette colours |
| Charts.ColorsCycle | components/Charts.tsx:80 | the colours repeat every nine slices, starting from the palette's first colour |
| Charts.BalanceChart | components/Charts.tsx:13-21 | the chart is hidden exactly when income and expense are both 0; otherwise it shows both values |
| Charts.ActiveMonthShowsBars | components/Charts.tsx:21 | with no negative amounts, one positive transaction is enough to show the bars |
| Charts.TotalOfSnoc | components/Charts.tsx:48-51 | one more transaction adds its amount to its own category's total only |
| Charts.AccumulateStep | components/Charts.tsx:48-51 | one `reduce` step keeps the record exact: the keys are distinct, in first-seen order, and map to their categories' totals |
| Charts.AccumulateOrder | components/Charts.tsx:48-51 | a key added by a step goes after every key already present, so the keys stay in the order their categories first occur |
| Charts.Totals | components/Charts.tsx:48-51 | the record holds one key per category that occurs, in first-occurrence order, mapped to the category's total |
| Charts.Slices | components/Charts.tsx:53-55 | one slice per record key, in key order; every slice carries its key's total and `getLabel`'s label |
| Charts.ExpenseTally | components/Charts.tsx:46-51 | the record totals the expenses only |
| Charts.Chartable | components/Charts.tsx:56 | exactly the entries with a positive value are kept, largest first |
| Lists.FilterTiesRanked | components/Charts.tsx:56 | `filter` keeps elements with equal keys in the order they had |
| Lists.SortDescTiesRanked | components/Charts.tsx:56 | the sort is stable: elements with equal keys keep the order they had |
| Charts.ChartableTies | components/Charts.tsx:56 | slices with equal values keep their relative order through the filter and the sort |
| Charts.SliceOfEntry | components/Charts.tsx:53-55 | each entry carries its category's expense total and `getLabel`'s label, and its key is unique |
| Charts.AllSlicesDistinct | components/Charts.tsx:53-55 | no entry occurs twice |
| Charts.PieTiesInFirstSeenOrder | components/Charts.tsx:46-56 | slices with equal totals are drawn in the order their categories first occur among the expenses |
| Charts.PieDataCorrect | components/Charts.tsx:46-56 | the pie data is largest first; each slice is a category with a positive expense total, under its label; every such category has exactly one slice |
| Charts.ExpensePie | components/Charts.tsx:58-64 | the pie is drawn only with a non-empty list of slices |
| Charts.PlaceholderIffNoSpending | components/Charts.tsx:58-64 | the placeholder shows exactly when no category has a positive expense total |
| Charts.IncomeIgnored | components/Charts.tsx:46 | an INCOME transaction never changes the pie |

## Left out

- Amounts are whole numbers. `parseFloat` and `toString` are modelled on whole
  numbers only, and floating-point rounding and fractions are not modelled.
- Numbers.ParseFloat: reads only the digits before a decimal point or an
  exponent, and does not read `Infinity`. So "12.50" gives 12, ".5" gives NaN,
  "1e3" gives 1 and "Infinity" gives NaN, where `parseFloat` gives 12.5, 0.5,
  1000 and Infinity.
- Hooks.Submit: because the amount text is read only up to a decimal point or
  an exponent, "0.5" is ignored, ".5" is submitted as NaN and "1e3" is
  submitted as 1, where the form submits 0.5, 0.5 and 1000. The number input
  accepts all three. An amount with a fraction is submitted as its whole
  part, and "Infinity" is submitted as NaN rather than as Infinity.
- AES-GCM, `TextEncoder`/`TextDecoder` and the JWK key export are replaced by
  stand-ins with the same interface. The stand-ins are a keyed mask with a
  tag that must match on open, a fixed three-byte encoding per character, and
  a printable key export. This model does not prove any cryptographic strength.
  The model's texts are well-formed Unicode (a Dafny `char` is a scalar
  value). A JavaScript string can hold a lone surrogate, which `TextEncoder`
  writes as U+FFFD, so for such a text the source's decryption does not
  return the original. The text round trips are not claimed there.
- `atob` is modelled on canonical padded base64. The browser also accepts
  white space and missing padding, and the model rejects those inputs.
- The decrypted transaction keeps the `isEncrypted: true` flag that its
  spread copies, because the source's `Transaction` type does not have it.
  The model returns a plain Transaction.
- The source's async calls, `Promise.all`, and init racing with the first
  `encrypt` are modelled as one sequential run, in program order.
- `Date` is replaced by a parameter `now`. The local-time month bounds
  `start`/`end` and the local month `nowMonth` of the new record are also
  passed in.
- Hooks.DayKey: the grouping key is the UTC day number `date / 86400000`. It
  stands in for the ISO date text, and the days are compared as numbers. This
  matches the text order for four-digit years only.
- The Today/Yesterday titles, `toLocaleDateString`, `Intl` currency formatting
  and the month name are locale rendering, and they are not modelled.
- Console output is not modelled. The audit context is kept as a list of
  fields rather than its `JSON.stringify` text.
- Store.CategoryStore.LoadCategories, Store.AuthStore.LoadProfiles: the
  table returns the tenant's rows in primary-key (UUID) order. The model does
  not fix that order, and the contracts promise the rows and not their order.
- Dexie's order among rows with equal dates is not modelled. Dexie returns
  such rows in primary-key order. The model's stable sort fixes insertion
  order among them. Store.TaskStore.LoadTasks pins that one sequence. The
  ledger rows are stated as a permutation in date order.
- `useAppStore` and zustand's `persist` (theme, language, debug mode, the
  persisted sign-in) are not modelled. The currency, tenant id and current
  user are passed in.
- Notifications and the `Swal` toasts are not modelled.
- Db.GenerateUuid: `crypto.randomUUID` is an input. The fallback's
  `Math.random()` draws are passed in as one nibble per template position.
- Hooks.Submit: the NaN outcome is modelled as SubmittedNaN. The
  transaction that `addTransaction` would build with a NaN amount is not
  modelled. The form's number input keeps such text from arising.
- Deletes ignore the tenant and remove by primary key only, as the code does.
- `Object.keys` lists integer-like keys first in numeric order. The model
  keeps every key in insertion order.
- Charts.PieSlice has a `key` field that holds the category id. The source's
  slices carry only the label and the value.
- The quick-add form's `isOpen` and `isSubmitting` state, and its reset
  after a submission, are UI state and are not modelled.
- `App.tsx` and the React components apart from the chart logic are not
  part of this model.
