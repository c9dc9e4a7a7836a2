/** The audit logger: builds an entry, appends it to the logs table, and reads
    a tenant's entries back newest first. */
module Logger {
  import opened Wrappers
  import opened Types
  import opened Lists
  import opened Db

  /** getLogs' default `limit`. */
  const DefaultLimit: nat := 100

  /** The entry `log` writes: the caller's fields, the current time, and
      the context (kept only when one is given). */
  function Entry(level: LogLevel, message: string, origin: string, tenantId: TenantId,
                 context: Option<Context>, now: int): (e: AppLog)
    ensures e.tenantId == tenantId && e.level == level && e.message == message
    ensures e.origin == origin && e.timestamp == now && e.context == context
  {
    AppLog(tenantId, now, level, message, context, origin)
  }

  /** `where('tenantId').equals(tenantId)` on the logs table. */
  function OfTenant(tenantId: TenantId): AppLog -> bool {
    (e: AppLog) => e.tenantId == tenantId
  }

  /** The last `n` elements of `s`, the last one first. */
  function Newest<T>(s: seq<T>, n: nat): (r: seq<T>)
    requires n <= |s|
    ensures |r| == n
    ensures forall i :: 0 <= i < n ==> r[i] == s[|s| - 1 - i]
  {
    seq(n, i requires 0 <= i < n => s[|s| - 1 - i])
  }

  /** The tenant's entries in the order they were appended. */
  function TenantEntries(logs: seq<AppLog>, tenantId: TenantId): (r: seq<AppLog>)
    ensures forall i :: 0 <= i < |r| ==> r[i].tenantId == tenantId && r[i] in logs
    ensures forall e :: e in logs && e.tenantId == tenantId ==> e in r
  {
    var own := Filter(logs, OfTenant(tenantId));
    assert forall j :: 0 <= j < |own| ==> own[j] in own;
    own
  }

  /** A tenant's entries, the most recently appended first, at most `limit`. */
  function TenantLogs(logs: seq<AppLog>, tenantId: TenantId, limit: nat): (r: seq<AppLog>)
    ensures |r| == if limit < |TenantEntries(logs, tenantId)| then limit else |TenantEntries(logs, tenantId)|
    ensures forall i :: 0 <= i < |r| ==> r[i] == TenantEntries(logs, tenantId)[|TenantEntries(logs, tenantId)| - 1 - i]
  {
    var own := TenantEntries(logs, tenantId);
    Newest(own, if limit < |own| then limit else |own|)
  }

  /** An entry just appended for a tenant is the first one that tenant reads back. */
  lemma NewestEntryFirst(logs: seq<AppLog>, e: AppLog, limit: nat)
    requires limit > 0
    ensures var r := TenantLogs(logs + [e], e.tenantId, limit); |r| > 0 && r[0] == e
  {
    FilterSnoc(logs, e, OfTenant(e.tenantId));
  }

  /** An entry of one tenant never shows in another tenant's logs. */
  lemma OtherTenantUnaffected(logs: seq<AppLog>, e: AppLog, tenantId: TenantId, limit: nat)
    requires e.tenantId != tenantId
    ensures TenantLogs(logs + [e], tenantId, limit) == TenantLogs(logs, tenantId, limit)
  {
    FilterSnoc(logs, e, OfTenant(tenantId));
    assert TenantEntries(logs + [e], tenantId) == TenantEntries(logs, tenantId);
  }

  class LoggerService {
    const db: Database

    constructor (db: Database)
      ensures this.db == db
    {
      this.db := db;
    }

    /** `log`: appends exactly one entry when the write is accepted; a
        rejected write is swallowed and the table is left as it was. */
    method Log(level: LogLevel, message: string, origin: string, tenantId: TenantId,
               context: Option<Context>, now: int, ok: bool)
      modifies db
      ensures db.logs == old(db.logs) + if ok then [Entry(level, message, origin, tenantId, context, now)] else []
      ensures db.transactions == old(db.transactions) && db.categories == old(db.categories)
      ensures db.profiles == old(db.profiles) && db.tasks == old(db.tasks)
    {
      var entry := Entry(level, message, origin, tenantId, context, now);
      var _ := db.AddLog(entry, ok);
    }

    /** `getLogs`: the tenant's newest entries; it changes nothing. */
    method GetLogs(tenantId: TenantId, limit: nat) returns (r: seq<AppLog>)
      ensures r == TenantLogs(db.logs, tenantId, limit)
    {
      r := TenantLogs(db.logs, tenantId, limit);
    }
  }

  /** The static `instance` slot behind LoggerService.getInstance. */
  class LoggerSingleton {
    var instance: LoggerService?

    constructor ()
      ensures instance == null
    {
      instance := null;
    }

    /** Creates the logger on the first call and returns that same object on
        every later call. */
    method GetInstance(db: Database) returns (l: LoggerService)
      modifies this
      ensures old(instance) != null ==> l == old(instance)
      ensures old(instance) == null ==> fresh(l) && l.db == db
      ensures instance == l
    {
      if instance == null {
        instance := new LoggerService(db);
      }
      l := instance;
    }
  }
}
