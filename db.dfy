/** The browser database: the five tables, held in memory in insertion order,
    and the fallback UUID generator. A write can be rejected by the storage
    layer; the `ok` parameter of each write says whether it was accepted. */
module Db {
  import opened Wrappers
  import opened Types
  import opened Lists

  // ---------------------------------------------------------------------------
  // Primary keys.

  /** No two rows share a primary key. */
  predicate UniqueKeys<T>(s: seq<T>, id: T -> string) {
    forall i, j :: 0 <= i < j < |s| ==> id(s[i]) != id(s[j])
  }

  predicate HasKey<T>(s: seq<T>, id: T -> string, k: string) {
    exists i :: 0 <= i < |s| && id(s[i]) == k
  }

  /** The rows a delete by key `k` keeps. */
  function NotKey<T>(id: T -> string, k: string): T -> bool {
    x => id(x) != k
  }

  /** The rows a delete by key `k` takes away. */
  function IsKey<T>(id: T -> string, k: string): T -> bool {
    x => id(x) == k
  }

  /** Deleting by key keeps the other keys unique. */
  lemma {:induction false} FilterKeepsUniqueKeys<T(!new)>(s: seq<T>, id: T -> string, p: T -> bool)
    requires UniqueKeys(s, id)
    ensures UniqueKeys(Filter(s, p), id)
    decreases |s|
  {
    if s != [] {
      FilterKeepsUniqueKeys(s[1..], id, p);
      var rest := Filter(s[1..], p);
      if p(s[0]) {
        forall k | 0 <= k < |rest| ensures id(rest[k]) != id(s[0]) {
          assert rest[k] in rest;
          assert rest[k] in s[1..];
          var j :| 0 <= j < |s[1..]| && s[1..][j] == rest[k];
          assert s[j + 1] == rest[k];
        }
      }
    }
  }

  /** Appending a row whose key is absent keeps the keys unique. */
  lemma AppendKeepsUniqueKeys<T>(s: seq<T>, id: T -> string, x: T)
    requires UniqueKeys(s, id) && !HasKey(s, id, id(x))
    ensures UniqueKeys(s + [x], id)
  {
  }

  function TxKey(r: StoredTransaction): string { r.Meta().id }
  function CategoryKey(c: Category): string { c.id }
  function ProfileKey(p: UserProfile): string { p.id }
  function TaskKey(t: Task): string { t.id }

  /** Every task with key `id` gets `status` and nothing else of it changes;
      every other task is kept as it is, so the keys stay as they were
      (the `update(id, {isCompleted})` of a table, and the `map` of the store). */
  function SetCompletion(tasks: seq<Task>, id: string, status: bool): (r: seq<Task>)
    ensures |r| == |tasks|
    ensures forall i :: 0 <= i < |r| ==> r[i].(isCompleted := tasks[i].isCompleted) == tasks[i]
    ensures forall i :: 0 <= i < |r| && tasks[i].id == id ==> r[i].isCompleted == status
    ensures forall i :: 0 <= i < |r| && tasks[i].id != id ==> r[i] == tasks[i]
    ensures forall i :: 0 <= i < |r| ==> r[i].id == tasks[i].id
    ensures UniqueKeys(tasks, TaskKey) ==> UniqueKeys(r, TaskKey)
  {
    seq(|tasks|, i requires 0 <= i < |tasks| =>
      if tasks[i].id == id then tasks[i].(isCompleted := status) else tasks[i])
  }

  // ---------------------------------------------------------------------------
  // The database.

  class Database {
    /** The `expenses` table: legacy plaintext rows and encrypted rows. */
    var transactions: seq<StoredTransaction>
    var categories: seq<Category>
    /** The logs table; its auto-incremented key is the position plus one. */
    var logs: seq<AppLog>
    var profiles: seq<UserProfile>
    var tasks: seq<Task>

    /** The primary-key constraint of the keyed tables. */
    predicate Valid()
      reads this
    {
      UniqueKeys(transactions, TxKey) && UniqueKeys(categories, CategoryKey)
      && UniqueKeys(profiles, ProfileKey) && UniqueKeys(tasks, TaskKey)
    }

    constructor ()
      ensures Valid()
      ensures transactions == [] && categories == [] && logs == [] && profiles == [] && tasks == []
    {
      transactions, categories, logs, profiles, tasks := [], [], [], [], [];
    }

    /** `add`: rejected when the storage layer fails or the key is taken
        (a ConstraintError). */
    method AddTransaction(r: StoredTransaction, ok: bool) returns (success: bool)
      requires Valid()
      modifies this
      ensures Valid()
      ensures success <==> ok && !HasKey(old(transactions), TxKey, TxKey(r))
      ensures transactions == if success then old(transactions) + [r] else old(transactions)
      ensures categories == old(categories) && logs == old(logs)
      ensures profiles == old(profiles) && tasks == old(tasks)
    {
      success := ok && !HasKey(transactions, TxKey, TxKey(r));
      if success {
        AppendKeepsUniqueKeys(transactions, TxKey, r);
        transactions := transactions + [r];
      }
    }

    /** `delete(key)`: removes the row with that primary key, whoever owns it. */
    method DeleteTransaction(id: string, ok: bool) returns (success: bool)
      requires Valid()
      modifies this
      ensures Valid()
      ensures success == ok
      ensures transactions == if ok then Filter(old(transactions), NotKey(TxKey, id)) else old(transactions)
      ensures categories == old(categories) && logs == old(logs)
      ensures profiles == old(profiles) && tasks == old(tasks)
    {
      success := ok;
      if ok {
        FilterKeepsUniqueKeys(transactions, TxKey, NotKey(TxKey, id));
        transactions := Filter(transactions, NotKey(TxKey, id));
      }
    }

    method AddCategory(c: Category, ok: bool) returns (success: bool)
      requires Valid()
      modifies this
      ensures Valid()
      ensures success <==> ok && !HasKey(old(categories), CategoryKey, c.id)
      ensures categories == if success then old(categories) + [c] else old(categories)
      ensures transactions == old(transactions) && logs == old(logs)
      ensures profiles == old(profiles) && tasks == old(tasks)
    {
      success := ok && !HasKey(categories, CategoryKey, c.id);
      if success {
        AppendKeepsUniqueKeys(categories, CategoryKey, c);
        categories := categories + [c];
      }
    }

    method DeleteCategory(id: string, ok: bool) returns (success: bool)
      requires Valid()
      modifies this
      ensures Valid()
      ensures success == ok
      ensures categories == if ok then Filter(old(categories), NotKey(CategoryKey, id)) else old(categories)
      ensures transactions == old(transactions) && logs == old(logs)
      ensures profiles == old(profiles) && tasks == old(tasks)
    {
      success := ok;
      if ok {
        FilterKeepsUniqueKeys(categories, CategoryKey, NotKey(CategoryKey, id));
        categories := Filter(categories, NotKey(CategoryKey, id));
      }
    }

    method AddProfile(p: UserProfile, ok: bool) returns (success: bool)
      requires Valid()
      modifies this
      ensures Valid()
      ensures success <==> ok && !HasKey(old(profiles), ProfileKey, p.id)
      ensures profiles == if success then old(profiles) + [p] else old(profiles)
      ensures transactions == old(transactions) && categories == old(categories)
      ensures logs == old(logs) && tasks == old(tasks)
    {
      success := ok && !HasKey(profiles, ProfileKey, p.id);
      if success {
        AppendKeepsUniqueKeys(profiles, ProfileKey, p);
        profiles := profiles + [p];
      }
    }

    method AddTask(t: Task, ok: bool) returns (success: bool)
      requires Valid()
      modifies this
      ensures Valid()
      ensures success <==> ok && !HasKey(old(tasks), TaskKey, t.id)
      ensures tasks == if success then old(tasks) + [t] else old(tasks)
      ensures transactions == old(transactions) && categories == old(categories)
      ensures logs == old(logs) && profiles == old(profiles)
    {
      success := ok && !HasKey(tasks, TaskKey, t.id);
      if success {
        AppendKeepsUniqueKeys(tasks, TaskKey, t);
        tasks := tasks + [t];
      }
    }

    /** `update(id, {isCompleted})`: a missing key updates nothing and is no
        error. */
    method UpdateTaskCompletion(id: string, status: bool, ok: bool) returns (success: bool)
      requires Valid()
      modifies this
      ensures Valid()
      ensures success == ok
      ensures tasks == if ok then SetCompletion(old(tasks), id, status) else old(tasks)
      ensures transactions == old(transactions) && categories == old(categories)
      ensures logs == old(logs) && profiles == old(profiles)
    {
      success := ok;
      if ok {
        tasks := SetCompletion(tasks, id, status);
        assert forall i :: 0 <= i < |tasks| ==> tasks[i].id == old(tasks)[i].id;
      }
    }

    method DeleteTask(id: string, ok: bool) returns (success: bool)
      requires Valid()
      modifies this
      ensures Valid()
      ensures success == ok
      ensures tasks == if ok then Filter(old(tasks), NotKey(TaskKey, id)) else old(tasks)
      ensures transactions == old(transactions) && categories == old(categories)
      ensures logs == old(logs) && profiles == old(profiles)
    {
      success := ok;
      if ok {
        FilterKeepsUniqueKeys(tasks, TaskKey, NotKey(TaskKey, id));
        tasks := Filter(tasks, NotKey(TaskKey, id));
      }
    }

    /** `logs.add`: the auto-incremented key never clashes. */
    method AddLog(entry: AppLog, ok: bool) returns (success: bool)
      modifies this
      ensures success == ok
      ensures logs == if ok then old(logs) + [entry] else old(logs)
      ensures transactions == old(transactions) && categories == old(categories)
      ensures profiles == old(profiles) && tasks == old(tasks)
    {
      success := ok;
      if ok {
        logs := logs + [entry];
      }
    }
  }

  /** A row found again by its key after a delete is not there. */
  lemma DeleteRemovesKey<T(!new)>(s: seq<T>, id: T -> string, k: string)
    ensures !HasKey(Filter(s, NotKey(id, k)), id, k)
    ensures |Filter(s, NotKey(id, k))| + Count(s, IsKey(id, k)) == |s|
  {
    FilterComplement(s, NotKey(id, k), IsKey(id, k));
  }

  /** Keeping the elements that satisfy `p` and those that satisfy its
      negation partitions a list. */
  lemma {:induction false} FilterComplement<T(!new)>(s: seq<T>, p: T -> bool, q: T -> bool)
    requires forall x :: q(x) == !p(x)
    ensures |Filter(s, p)| + |Filter(s, q)| == |s|
    decreases |s|
  {
    if s != [] {
      FilterComplement(s[1..], p, q);
    }
  }

  // ---------------------------------------------------------------------------
  // generateUUID's fallback: every 'x' and 'y' of the template is replaced by
  // a hexadecimal digit drawn from a random nibble.

  type nibble = x: int | 0 <= x < 16

  const UuidTemplate: string := "xxxxxxxx-xxxx-4xxx-yxxx-xxxxxxxxxxxx"

  const HexDigits: string := "0123456789abcdef"

  /** `v.toString(16)` for a nibble. */
  function Hex(v: nibble): (c: char)
    ensures c in HexDigits
  {
    HexDigits[v]
  }

  /** The variant nibble `r & 0x3 | 0x8`. */
  function VariantNibble(r: nibble): (v: nibble)
    ensures 8 <= v < 12
  {
    var b := (r as bv8 & 0x3) | 0x8;
    assert b & 0xC == 0x8;
    assert 8 <= b as int < 12 by {
      assert b == (r as bv8 & 0x3) + 0x8;
    }
    b as int
  }

  /** `template.replace(/[xy]/g, f)`. Each call of `f` draws a fresh random
      nibble; here the nibble for template position i is `nibbles[i]`, and
      only the placeholder positions use theirs. */
  function Fill(t: string, nibbles: seq<nibble>): (u: string)
    requires |nibbles| == |t|
    ensures |u| == |t|
  {
    if t == [] then []
    else
      var c := if t[0] == 'x' then Hex(nibbles[0])
               else if t[0] == 'y' then Hex(VariantNibble(nibbles[0]))
               else t[0];
      [c] + Fill(t[1..], nibbles[1..])
  }

  /** Character i of the filled template: a literal character is kept, an 'x'
      becomes the digit of its nibble and a 'y' the digit of its variant
      nibble. */
  lemma {:induction false} FillAt(t: string, nibbles: seq<nibble>, i: nat)
    requires |nibbles| == |t| && i < |t|
    ensures Fill(t, nibbles)[i] ==
      if t[i] == 'x' then Hex(nibbles[i])
      else if t[i] == 'y' then Hex(VariantNibble(nibbles[i]))
      else t[i]
  {
    if i > 0 {
      FillAt(t[1..], nibbles[1..], i - 1);
    }
  }

  /** A lowercase hexadecimal digit. */
  predicate IsHex(c: char) {
    c in HexDigits
  }

  /** generateUUID: the platform's randomUUID when it exists, else the
      filled template. */
  function GenerateUuid(native: Option<string>, nibbles: seq<nibble>): (u: string)
    requires |nibbles| == |UuidTemplate|
    ensures native.Some? ==> u == native.value
    ensures native.None? ==> |u| == 36
  {
    match native
    case Some(v) => v
    case None => Fill(UuidTemplate, nibbles)
  }

  /** The template: dashes at 8, 13, 18 and 23, the version digit at 14, the
      variant placeholder at 19, and 'x' everywhere else. */
  lemma TemplateLayout()
    ensures |UuidTemplate| == 36
    ensures UuidTemplate[8] == '-' && UuidTemplate[13] == '-' && UuidTemplate[18] == '-'
      && UuidTemplate[23] == '-' && UuidTemplate[14] == '4' && UuidTemplate[19] == 'y'
    ensures forall i :: 0 <= i < 36 && i !in {8, 13, 14, 18, 19, 23} ==> UuidTemplate[i] == 'x'
  {
  }

  /** The version-4 layout of the fallback: dashes at 8, 13, 18 and 23, the
      version digit '4' at 14, a variant digit in 8..b at 19, and a lowercase
      hexadecimal digit everywhere else. */
  lemma FallbackUuidShape(nibbles: seq<nibble>)
    requires |nibbles| == |UuidTemplate|
    ensures var u := GenerateUuid(None, nibbles);
      |u| == 36 && u[8] == '-' && u[13] == '-' && u[18] == '-' && u[23] == '-'
      && u[14] == '4' && u[19] in "89ab"
      && forall i :: 0 <= i < 36 && i !in {8, 13, 14, 18, 23} ==> IsHex(u[i])
  {
    TemplateLayout();
    var u := GenerateUuid(None, nibbles);
    FillAt(UuidTemplate, nibbles, 8);
    FillAt(UuidTemplate, nibbles, 13);
    FillAt(UuidTemplate, nibbles, 14);
    FillAt(UuidTemplate, nibbles, 18);
    FillAt(UuidTemplate, nibbles, 19);
    FillAt(UuidTemplate, nibbles, 23);
    forall i | 0 <= i < 36 && i !in {8, 13, 14, 18, 23} ensures IsHex(u[i]) {
      FillAt(UuidTemplate, nibbles, i);
    }
    var v := VariantNibble(nibbles[19]);
    assert u[19] == HexDigits[v];
    assert HexDigits[8] == '8' && HexDigits[9] == '9' && HexDigits[10] == 'a' && HexDigits[11] == 'b';
  }
}
