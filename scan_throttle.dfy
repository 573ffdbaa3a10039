/** The dashboard's throttle on the low-stock scan: an add-if-absent cache
    lock with a time to live decides whether a page load queues a scan. The
    cache is a table from key to expiry time and the clock is an integer
    number of seconds passed in by the caller. */
module ScanThrottle {
  import opened Entities
  import opened Database

  const LockKey: string := "low-stock-scan-lock"

  /** The time to live of the lock, in seconds. The comment beside the call
      speaks of 60 seconds; the code passes 20. */
  const LockTtl: int := 20

  /** A cache entry is live until its expiry second, exclusive. */
  predicate Present(locks: map<string, int>, key: string, now: int) {
    key in locks && now < locks[key]
  }

  /** `Cache::add(key, true, ttl)`: stores the entry only when the key is absent
      or expired, and answers whether it stored. */
  function Add(locks: map<string, int>, key: string, ttl: int, now: int): (r: (map<string, int>, bool))
    ensures r.1 <==> !Present(locks, key, now)
    ensures r.1 ==> r.0 == locks[key := now + ttl]
    ensures !r.1 ==> r.0 == locks
  {
    if Present(locks, key, now) then (locks, false) else (locks[key := now + ttl], true)
  }

  /** What the dashboard page receives: every table, as loaded. */
  datatype DashboardData = DashboardData(
    sales: seq<Sale>,
    products: seq<Product>,
    customers: seq<Customer>,
    branches: seq<Branch>,
    suppliers: seq<Supplier>,
    users: seq<User>,
    stockNotifications: seq<StockNotification>)

  /** The cache and the two observable effects of a load: scans queued and
      exceptions reported. */
  class Throttle {
    var locks: map<string, int>
    var queuedScans: nat
    var reportedErrors: nat

    constructor ()
      ensures locks == map[] && queuedScans == 0 && reportedErrors == 0
    {
      locks, queuedScans, reportedErrors := map[], 0, 0;
    }

    /** `DashboardController::index` at second `now`. When the lock is taken a
        scan is queued, or, if queueing throws (`queueFails`), the exception is
        reported and swallowed. The data returned is the same either way. */
    method Index(db: Store, now: int, queueFails: bool) returns (acquired: bool, data: DashboardData)
      modifies this
      ensures acquired <==> !Present(old(locks), LockKey, now)
      ensures locks == if acquired then old(locks)[LockKey := now + LockTtl] else old(locks)
      ensures queuedScans == old(queuedScans) + (if acquired && !queueFails then 1 else 0)
      ensures reportedErrors == old(reportedErrors) + (if acquired && queueFails then 1 else 0)
      ensures data == DashboardData(db.sales, db.products, db.customers, db.branches,
                                    db.suppliers, db.users, db.notifications)
    {
      var added := Add(locks, LockKey, LockTtl, now);
      locks := added.0;
      acquired := added.1;
      if acquired {
        if queueFails {
          reportedErrors := reportedErrors + 1;   // report($e)
        } else {
          queuedScans := queuedScans + 1;         // Artisan::queue('stock:check-low')
        }
      }
      data := DashboardData(db.sales, db.products, db.customers, db.branches,
                            db.suppliers, db.users, db.notifications);
    }
  }

  // ---- the throttle over a run of page loads ----

  /** The cache after page loads at the given seconds, and how many of them took the lock. */
  function Loads(locks: map<string, int>, times: seq<int>): (r: (map<string, int>, nat))
    ensures r.1 <= |times|
    decreases |times|
  {
    if times == [] then (locks, 0)
    else
      var first := Add(locks, LockKey, LockTtl, times[0]);
      var rest := Loads(first.0, times[1..]);
      (rest.0, rest.1 + if first.1 then 1 else 0)
  }

  predicate Ascending(times: seq<int>) {
    forall i, j :: 0 <= i < j < |times| ==> times[i] <= times[j]
  }

  /** Within the time to live of a taken lock, no load takes it again. */
  lemma WithinTtlNoReacquire(locks: map<string, int>, t0: int, now: int)
    requires Add(locks, LockKey, LockTtl, t0).1
    requires t0 <= now < t0 + LockTtl
    ensures !Add(Add(locks, LockKey, LockTtl, t0).0, LockKey, LockTtl, now).1
  {
  }

  /** Once the time to live has elapsed, the next load takes the lock again. */
  lemma AfterTtlReacquires(locks: map<string, int>, t0: int, now: int)
    requires Add(locks, LockKey, LockTtl, t0).1
    requires now >= t0 + LockTtl
    ensures Add(Add(locks, LockKey, LockTtl, t0).0, LockKey, LockTtl, now).1
  {
  }

  /** While the lock is live for every load of the run, no load takes it. */
  lemma {:induction false} LiveLockBlocksAll(locks: map<string, int>, times: seq<int>)
    requires forall i :: 0 <= i < |times| ==> Present(locks, LockKey, times[i])
    ensures Loads(locks, times).1 == 0
  {
    if times != [] {
      LiveLockBlocksAll(locks, times[1..]);
    }
  }

  /** Page loads in ascending order that all fall within one window of the
      time to live queue at most one scan between them. */
  lemma {:induction false} AtMostOnePerWindow(locks: map<string, int>, times: seq<int>)
    requires Ascending(times)
    requires |times| > 0 ==> times[|times| - 1] < times[0] + LockTtl
    ensures Loads(locks, times).1 <= 1
  {
    if times != [] {
      var first := Add(locks, LockKey, LockTtl, times[0]);
      if first.1 {
        LiveLockBlocksAll(first.0, times[1..]);
      } else {
        AtMostOnePerWindow(first.0, times[1..]);
      }
    }
  }

  /** The lock does not hold for the 60 seconds its comment announces: loads
      twenty seconds apart both queue a scan. */
  lemma SixtySecondCommentNotHeld(locks: map<string, int>, t0: int)
    requires !Present(locks, LockKey, t0)
    ensures Loads(locks, [t0, t0 + 20]).1 == 2
  {
    var first := Add(locks, LockKey, LockTtl, t0);
    assert [t0, t0 + 20][1..] == [t0 + 20];
    assert [t0 + 20][1..] == [];
  }
}
