/** A connection pool over the committed database, and transactions with a private working copy. */
module Store {
  import opened Schema

  class Pool {
    /** What every statement outside a transaction sees. */
    var committed: Db

    constructor (initial: Db)
      ensures committed == initial
    {
      committed := initial;
    }
  }

  class Transaction {
    const pool: Pool
    /** What the transaction's own statements see; dropped unless a commit succeeds. */
    var work: Db

    constructor Begin(pool: Pool)
      ensures this.pool == pool && work == pool.committed == old(pool.committed)
    {
      this.pool := pool;
      work := pool.committed;
    }

    /** A commit that fails leaves the committed state alone, like a transaction that never gets here. */
    method Commit(fails: bool) returns (ok: bool)
      modifies pool
      ensures ok == !fails
      ensures pool.committed == if fails then old(pool.committed) else work
    {
      if fails {
        return false;
      }
      pool.committed := work;
      return true;
    }
  }
}
