/** Optional values, used for command arguments that may be missing. */
module Options {
  datatype Option<+T> = None | Some(value: T)
}

/**
  * The ledger: the bot's persistent tables (member balances, per-server
  * configuration and treasury, cooldowns, loans) held as maps, and the
  * primitive operations every game and command goes through.
  */
module Ledger {

  type GuildId = int
  type UserId = int

  /** The member named in a command: their id, and whether they are a bot account. */
  datatype Member = Member(id: UserId, isBot: bool)

  /** A balance is kept per server and per member. */
  datatype Account = Account(guild: GuildId, user: UserId)

  const DefaultCurrency: string := "Bloop Coins"

  /** A row of the servers table; a fresh row has the default currency, no debt and an empty treasury. */
  datatype Server = Server(currency: string, debt: int, treasury: int)

  const NewServer := Server(DefaultCurrency, 0, 0)

  datatype LoanStatus = Pending | Accepted | Rejected

  /** A row of the loans table. */
  datatype Loan = Loan(guild: GuildId, lender: UserId, borrower: UserId, amount: int,
                       status: LoanStatus, createdAt: int)

  /** Cooldowns are kept per server, member and cooldown name. */
  datatype CooldownKey = CooldownKey(guild: GuildId, user: UserId, name: string)

  /** The answer of a cooldown check: may the member act now, and if not, in how many seconds. */
  datatype CooldownStatus = CooldownStatus(eligible: bool, remaining: int)

  /**
    * The status of a cooldown whose table is `table` at time `now` (seconds):
    * eligible when there is no record or the stored next time has come.
    */
  function CooldownAt(table: map<CooldownKey, int>, key: CooldownKey, now: int): (r: CooldownStatus)
    ensures r.eligible <==> key !in table || now >= table[key]
    ensures r.eligible ==> r.remaining == 0
    ensures !r.eligible ==> 0 < r.remaining && now + r.remaining == table[key]
  {
    if key !in table then CooldownStatus(true, 0)
    else if now >= table[key] then CooldownStatus(true, 0)
    else CooldownStatus(false, table[key] - now)
  }

  /**
    * After a cooldown of `seconds` is set at time `setAt`, the member is
    * eligible exactly from `setAt + seconds` on, and no other cooldown moved.
    */
  lemma CooldownAfterSet(table: map<CooldownKey, int>, key: CooldownKey, setAt: int, seconds: int, now: int)
    ensures CooldownAt(table[key := setAt + seconds], key, now).eligible <==> now >= setAt + seconds
    ensures forall k :: k != key ==> CooldownAt(table[key := setAt + seconds], k, now) == CooldownAt(table, k, now)
  {
  }

  class Store {
    var balances: map<Account, int>
    var servers: map<GuildId, Server>
    var cooldowns: map<CooldownKey, int>
    var loans: map<nat, Loan>
    var nextLoanId: nat

    /** An empty database; loan ids start at 1. */
    constructor ()
      ensures Sound()
      ensures balances == map[] && servers == map[] && cooldowns == map[]
      ensures loans == map[] && nextLoanId == 1
    {
      balances, servers, cooldowns := map[], map[], map[];
      loans, nextLoanId := map[], 1;
    }

    /** The balance of an account; an account without a row reads as 0. */
    function Bal(a: Account): int
      reads this
    {
      if a in balances then balances[a] else 0
    }

    /** The treasury of a server; a server without a row reads as 0. */
    function Treasury(g: GuildId): int
      reads this
    {
      if g in servers then servers[g].treasury else 0
    }

    /** No balance and no treasury is negative. */
    ghost predicate NonNegative()
      reads this
    {
      && (forall a :: a in balances ==> balances[a] >= 0)
      && (forall g :: g in servers ==> servers[g].treasury >= 0)
    }

    /**
      * The store's invariant: nothing is negative, and every recorded loan
      * has a positive amount and an id below the next one to be issued.
      */
    ghost predicate Sound()
      reads this
    {
      && NonNegative()
      && (forall id :: id in loans ==> loans[id].amount > 0 && id < nextLoanId)
    }

    /** Creates the account row with balance 0 if it is missing. */
    method EnsureUserRow(a: Account)
      modifies this`balances
      ensures balances == if a in old(balances) then old(balances) else old(balances)[a := 0]
      ensures forall x :: Bal(x) == old(Bal(x))
      ensures old(Sound()) ==> Sound()
    {
      if a !in balances {
        balances := balances[a := 0];
      }
    }

    /**
      * Adds `delta` to an account, creating the row first. There is no
      * overdraft check: a caller that debits must have compared the balance
      * with the amount itself.
      */
    method AddBalance(a: Account, delta: int)
      modifies this`balances
      ensures balances == old(balances)[a := old(Bal(a)) + delta]
      ensures forall x :: Bal(x) == old(Bal(x)) + (if x == a then delta else 0)
      ensures old(Sound()) && old(Bal(a)) + delta >= 0 ==> Sound()
    {
      EnsureUserRow(a);
      balances := balances[a := balances[a] + delta];
    }

    /** Reads a balance, creating the row with balance 0 if it is missing. */
    method GetBalance(a: Account) returns (b: int)
      modifies this`balances
      ensures b == old(Bal(a))
      ensures balances == if a in old(balances) then old(balances) else old(balances)[a := 0]
      ensures forall x :: Bal(x) == old(Bal(x))
      ensures old(Sound()) ==> Sound()
    {
      EnsureUserRow(a);
      b := balances[a];
    }

    /** Creates the server row with its defaults if it is missing. */
    method EnsureServerRow(g: GuildId)
      modifies this`servers
      ensures servers == if g in old(servers) then old(servers) else old(servers)[g := NewServer]
      ensures forall h :: Treasury(h) == old(Treasury(h))
      ensures old(Sound()) ==> Sound()
    {
      if g !in servers {
        servers := servers[g := NewServer];
      }
    }

    /** Adds `delta` to the treasury of an existing server row. */
    method AddTreasury(g: GuildId, delta: int)
      requires g in servers
      modifies this`servers
      ensures servers == old(servers)[g := old(servers)[g].(treasury := old(servers)[g].treasury + delta)]
      ensures forall h :: Treasury(h) == old(Treasury(h)) + (if h == g then delta else 0)
      ensures old(Sound()) && old(Treasury(g)) + delta >= 0 ==> Sound()
    {
      servers := servers[g := servers[g].(treasury := servers[g].treasury + delta)];
    }

    /** Upserts the cooldown so that the member is next eligible `seconds` after `now`. */
    method SetCooldown(key: CooldownKey, seconds: int, now: int)
      modifies this`cooldowns
      ensures cooldowns == old(cooldowns)[key := now + seconds]
    {
      cooldowns := cooldowns[key := now + seconds];
    }

    /** Reads a cooldown: eligible when there is no record or `now` has reached the stored time. */
    function CheckCooldown(key: CooldownKey, now: int): (r: CooldownStatus)
      reads this
      ensures r.eligible <==> key !in cooldowns || now >= cooldowns[key]
      ensures !r.eligible ==> r.remaining > 0
    {
      CooldownAt(cooldowns, key, now)
    }
  }
}
