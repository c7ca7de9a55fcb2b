/** The deduplicator of dedup.py as an object over the table of database.py.  One process
    keeps `Valid`: every memory entry still in force has a table row at least as recent. */
module AlertDeduplicator {
  import opened AlertDedup

  /** Nothing of the fingerprint was seen for more than so many seconds, and more than one. */
  predicate IdleFor(rows: Table, fp: string, now: real, seconds: real)
    requires fp in rows
  {
    now - rows[fp].lastSeen > seconds && now - rows[fp].lastSeen > 1.0
  }

  class AlertTable {
    var rows: Table

    constructor (rows: Table)
      ensures this.rows == rows
    {
      this.rows := rows;
    }

    method ClaimFingerprint(fp: string, firstSeen: real, window: real) returns (claimed: bool)
      modifies this
      ensures rows == Claim(old(rows), fp, firstSeen, window)
      ensures claimed <==> fp !in old(rows) || IdleFor(old(rows), fp, firstSeen, window)
      ensures rows == old(rows)[fp := if claimed then Row(firstSeen, firstSeen, 1)
                                      else Row(old(rows)[fp].firstSeen, firstSeen, old(rows)[fp].hits + 1)]
    {
      if fp !in rows {
        rows := rows[fp := Row(firstSeen, firstSeen, 1)];
        return true;
      }
      var row := rows[fp];
      if firstSeen - row.lastSeen > AtLeastOne(window) {
        rows := rows[fp := Row(firstSeen, firstSeen, 1)];
        return true;
      }
      rows := rows[fp := row.(lastSeen := firstSeen, hits := row.hits + 1)];
      return false;
    }

    method ReleaseFingerprint(fp: string)
      modifies this
      ensures rows == old(rows) - {fp}
    {
      rows := rows - {fp};
    }

    method StealStale(fp: string, now: real, minAge: real) returns (stolen: bool)
      modifies this
      ensures rows == Steal(old(rows), fp, now, minAge)
      ensures stolen <==> fp in old(rows) && IdleFor(old(rows), fp, now, minAge)
      ensures rows == if stolen then old(rows) - {fp} else old(rows)
    {
      var cutoff := now - AtLeastOne(minAge);
      stolen := fp in rows && rows[fp].lastSeen < cutoff;
      if stolen {
        rows := rows - {fp};
      }
    }

    method CleanupFingerprints(now: real, maxAge: real) returns (deleted: nat)
      modifies this
      ensures rows == Cleanup(old(rows), now, maxAge)
      ensures deleted == |old(rows)| - |rows|
      ensures forall fp :: fp in rows <==> fp in old(rows) && !IdleFor(old(rows), fp, now, maxAge)
      ensures forall fp :: fp in rows ==> rows[fp] == old(rows)[fp]
    {
      var expired := set fp | fp in rows && IsOlder(rows, fp, now, maxAge);
      var kept := Cleanup(rows, now, maxAge);
      assert kept.Keys == rows.Keys - expired;
      assert |kept.Keys| == |kept| && |rows.Keys| == |rows|;
      deleted := |expired|;
      rows := kept;
    }
  }

  class Deduplicator {
    const config: Config
    /** Without a database the memory is all there is. */
    const db: AlertTable?
    var order: seq<string>
    var at: map<string, real>
    var claimed: nat
    var blocked: nat
    var released: nat
    var dbErrors: nat
    var expired: nat
    var dbCleaned: nat
    var stolen: nat
    var stealDenied: nat
    ghost var clock: real           // the latest time any call has read

    ghost function Memory(): Mem
      reads this
    {
      Mem(order, at)
    }

    /** The table's rows, if there is a table. */
    ghost function Rows(): Table
      reads this, db
    {
      if db == null then map[] else db.rows
    }

    /** True of every object, whatever went wrong with the database. */
    ghost predicate Sound()
      reads this
    {
      && (config.window == 0.0 || 1.0 <= config.window)
      && |order| <= config.memMax
      && MemOk(Memory())
    }

    /** And until a database error during a claim the layers agree. */
    ghost predicate Valid()
      reads this, db
    {
      Sound() && (db != null ==> Agrees(config, Memory(), db.rows, clock))
    }

    /** A process starts with an empty memory over whatever the table holds. */
    constructor (config: Config, db: AlertTable?, now: real)
      requires config.window == 0.0 || 1.0 <= config.window
      ensures Valid() && this.config == config && this.db == db && clock == now
      ensures Memory() == NOTHING
      ensures claimed == blocked == released == dbErrors == expired == dbCleaned == stolen == stealDenied == 0
    {
      this.config, this.db := config, db;
      order, at := [], map[];
      claimed, blocked, released, dbErrors := 0, 0, 0, 0;
      expired, dbCleaned, stolen, stealDenied := 0, 0, 0, 0;
      clock := now;
    }

    /** Memory hit within the window; an entry past it is dropped on the way. */
    method MemHas(fp: string, now: real) returns (hit: bool)
      requires MemOk(Memory())
      modifies this`order, this`at, this`expired
      ensures hit <==> fp in old(at) && now - old(at)[fp] <= config.window
      ensures Memory() == if hit || fp !in old(at) then old(Memory()) else Forget(old(Memory()), fp)
      ensures expired == old(expired) + if !hit && fp in old(at) then 1 else 0
    {
      if fp !in at {
        return false;
      }
      if now - at[fp] > config.window {
        order := Without(order, fp);
        at := at - {fp};
        expired := expired + 1;
        return false;
      }
      return true;
    }

    method MemClaim(fp: string, now: real)
      requires MemOk(Memory())
      modifies this`order, this`at
      ensures Memory() == Shrink(Remember(old(Memory()), fp, now), config.memMax)
    {
      at := at[fp := now];
      order := Without(order, fp) + [fp];
      while |order| > config.memMax
        invariant Shrink(Memory(), config.memMax) == Shrink(Remember(old(Memory()), fp, now), config.memMax)
      {
        at := at - {order[0]};
        order := order[1..];
      }
    }

    /** First within the window?  `dbFails` says that the table raised an error and was left
        alone: then, as without a database, the memory claim stands by itself. */
    method CheckAndClaim(fp: string, now: real, dbFails: bool) returns (first: bool)
      requires Sound() && clock <= now
      modifies this, db
      ensures Sound() && clock == now
      ensures Memory() == Check(config, old(Memory()), old(Rows()), fp, now).mem
      ensures var asks := Guarding(config) && !Unexpired(old(Memory()), fp, now, config.window);
        var served := asks && db != null && !dbFails;
        && Rows() == (if served then Claim(old(Rows()), fp, now, config.window) else old(Rows()))
        && first == (!Guarding(config) || (asks && (served ==> Takes(old(Rows()), fp, now, config.window))))
        && dbErrors == old(dbErrors) + (if asks && db != null && dbFails then 1 else 0)
      ensures var on := config.enabled && config.window > 0.0;
        var known := fp in old(at) && now - old(at)[fp] <= config.window;
        var free := db == null || dbFails || fp !in old(Rows()) || IdleFor(old(Rows()), fp, now, config.window);
        first <==> !on || (!known && free)
      ensures config.enabled && config.window > 0.0 && config.memMax > 0 ==>
        fp in at && at[fp] == (if fp in old(at) && now - old(at)[fp] <= config.window then old(at)[fp] else now)
      ensures Guarding(config) ==> claimed == old(claimed) + (if first then 1 else 0)
      ensures Guarding(config) ==> blocked == old(blocked) + (if first then 0 else 1)
      ensures old(Valid()) && !dbFails ==> Valid()
      ensures old(Valid()) && !dbFails && db != null ==>
        first == (!Guarding(config) || Takes(old(Rows()), fp, now, config.window))
    {
      ghost var before := Memory();
      CheckFacts(fp, now);
      clock := now;
      if !config.enabled || config.window <= 0.0 {
        return true;
      }
      var hit := MemHas(fp, now);
      if hit {
        blocked := blocked + 1;
        return false;
      }
      ForgetAbsent(before, fp);
      ForgetKeepsMem(before, fp);
      MemClaim(fp, now);
      first := ClaimRow(fp, now, dbFails);
      if first {
        claimed := claimed + 1;
      } else {
        blocked := blocked + 1;
      }
    }

    /** The table's part of a claim: without a table, or when it fails, nothing stands against it. */
    method ClaimRow(fp: string, now: real, dbFails: bool) returns (won: bool)
      modifies this`dbErrors, db
      ensures Rows() == if db != null && !dbFails then Claim(old(Rows()), fp, now, config.window) else old(Rows())
      ensures won <==> db == null || dbFails || Takes(old(Rows()), fp, now, config.window)
      ensures dbErrors == old(dbErrors) + if db != null && dbFails then 1 else 0
    {
      won := true;
      if db != null {
        if dbFails {
          dbErrors := dbErrors + 1;
        } else {
          won := db.ClaimFingerprint(fp, now, config.window);
        }
      }
    }

    /** What the check will lead to. */
    lemma CheckFacts(fp: string, now: real)
      requires Sound() && clock <= now
      ensures var m := Check(config, Memory(), Rows(), fp, now).mem;
        && MemOk(m) && |m.order| <= config.memMax
        && (Valid() && db != null ==> Agrees(config, m, Check(config, Memory(), Rows(), fp, now).table, now))
        && (Guarding(config) && config.memMax > 0 && !Unexpired(Memory(), fp, now, config.window) ==>
              fp in m.at && m.at[fp] == now)
      ensures Valid() && db != null && Guarding(config) ==>
        Check(config, Memory(), Rows(), fp, now).won == Takes(Rows(), fp, now, config.window)
    {
      CheckKeepsSize(fp, now);
      if Guarding(config) && config.memMax > 0 {
        CheckEffect(config, Memory(), Rows(), fp, now);
      }
      if Valid() && db != null {
        CheckKeepsAgreement(config, Memory(), db.rows, fp, clock, now);
        if Guarding(config) {
          CheckIsTheTablesVerdict(config, Memory(), db.rows, fp, clock, now);
        }
      }
    }

    static lemma ForgetAbsent(m: Mem, fp: string)
      requires MemOk(m)
      ensures fp !in m.at ==> Forget(m, fp) == m
    {
      WithoutSpec(m.order, fp);
    }

    lemma CheckKeepsSize(fp: string, now: real)
      requires Sound()
      ensures var m := Check(config, Memory(), Rows(), fp, now).mem; MemOk(m) && |m.order| <= config.memMax
    {
      ForgetKeepsMem(Memory(), fp);
      RememberKeepsMem(Forget(Memory(), fp), fp, now);
      ShrinkKeepsNewest(Remember(Forget(Memory(), fp), fp, now), config.memMax);
    }

    /** Both layers forget; on a database error only the memory does. */
    method Release(fp: string, dbFails: bool)
      requires Sound()
      modifies this`order, this`at, this`released, db
      ensures Sound() && (old(Valid()) ==> Valid())
      ensures Memory() == Forget(old(Memory()), fp) && released == old(released) + 1
      ensures Rows() == if dbFails then old(Rows()) else old(Rows()) - {fp}
    {
      if Valid() && db != null {
        ReleaseKeepsAgreement(config, Memory(), db.rows, fp, clock);
      }
      WithoutSpec(order, fp);
      order := Without(order, fp);
      at := at - {fp};
      released := released + 1;
      if db != null && !dbFails {
        db.ReleaseFingerprint(fp);
      }
    }

    /** The memory is released only after the table confirms the steal; an error denies it, and
        without a database it is granted. */
    method StealIfStale(fp: string, now: real, minAge: real, dbFails: bool) returns (ok: bool)
      requires Sound() && clock <= now
      modifies this, db
      ensures Sound() && clock == now && (old(Valid()) ==> Valid())
      ensures ok <==> db == null || (!dbFails && fp in old(Rows()) && IdleFor(old(Rows()), fp, now, minAge))
      ensures Rows() == if dbFails then old(Rows()) else Steal(old(Rows()), fp, now, minAge)
      ensures Memory() == if ok then Forget(old(Memory()), fp) else old(Memory())
      ensures stolen == old(stolen) + (if ok then 1 else 0) && stealDenied == old(stealDenied) + (if ok then 0 else 1)
    {
      if Valid() && db != null {
        StealKeepsAgreement(config, Memory(), db.rows, fp, clock, now, minAge);
      }
      WithoutSpec(order, fp);
      clock := now;
      ok := db == null;
      if db != null && !dbFails {
        ok := db.StealStale(fp, now, minAge);
      }
      if ok {
        order := Without(order, fp);
        at := at - {fp};
        stolen := stolen + 1;
      } else {
        stealDenied := stealDenied + 1;
      }
    }

    method CleanupExpired(now: real, dbFails: bool) returns (deleted: nat)
      requires Sound() && clock <= now
      modifies this`clock, this`dbCleaned, db
      ensures Sound() && clock == now && (old(Valid()) ==> Valid())
      ensures Rows() == if config.window <= 0.0 || dbFails then old(Rows())
        else Cleanup(old(Rows()), now, config.window)
      ensures deleted == |old(Rows())| - |Rows()| && dbCleaned == old(dbCleaned) + deleted
      ensures db != null && !dbFails ==>
        forall mems :: Step(config, Sys(old(Rows()), mems), CleanupAt(now)) == Sys(Rows(), mems)
    {
      if Valid() && db != null {
        CleanupKeepsAgreement(config, Memory(), db.rows, clock, now);
      }
      clock := now;
      deleted := 0;
      if config.window > 0.0 && db != null && !dbFails {
        deleted := db.CleanupFingerprints(now, config.window);
      }
      dbCleaned := dbCleaned + deleted;
    }
  }
}
