/**
  * Transfers between members and between servers: the gift command, the
  * server-to-server treasury trade, and loan requests with the lender's
  * accept and reject buttons. Each one validates, then debits one side and
  * credits the other.
  */
module Economy {
  import opened Options
  import opened Ledger

  datatype Refusal =
    | Usage              // an argument is missing or the amount is not positive
    | GiftToBot
    | NotEnoughBalance
    | NotPrivileged
    | NotEnoughTreasury
    | NotLender
    | AlreadyResolved    // only in the corrected loan buttons

  datatype Outcome = Done | Refused(why: Refusal)

  /** Every account's balance moved by `amount` from `src` to `dst` (nothing, when they are the same account). */
  ghost predicate Moved(db: Store, before: map<Account, int>, src: Account, dst: Account, amount: int)
    reads db
  {
    forall a :: db.Bal(a) == (if a in before then before[a] else 0)
                             - (if a == src then amount else 0) + (if a == dst then amount else 0)
  }

  /**
    * The gift command: `author` gives `amount` to `member` in `guild`.
    * Refused without touching any balance when an argument is missing, the
    * amount is not positive, the member is a bot, or the author's balance is
    * below the amount.
    */
  method Gift(db: Store, guild: GuildId, author: UserId, member: Option<Member>, amount: Option<int>)
    returns (r: Outcome)
    modifies db`balances
    ensures r == Refused(Usage) <==> member.None? || amount.None? || amount.value <= 0
    ensures r == Refused(GiftToBot) <==> member.Some? && amount.Some? && amount.value > 0 && member.value.isBot
    ensures r == Refused(NotEnoughBalance) <==>
      && member.Some? && amount.Some? && amount.value > 0 && !member.value.isBot
      && old(db.Bal(Account(guild, author))) < amount.value
    ensures r == Done <==>
      && member.Some? && amount.Some? && amount.value > 0 && !member.value.isBot
      && old(db.Bal(Account(guild, author))) >= amount.value
    ensures r.Done? ==> Moved(db, old(db.balances), Account(guild, author), Account(guild, member.value.id), amount.value)
    ensures !r.Done? ==> forall a :: db.Bal(a) == old(db.Bal(a))
    ensures r.Done? ==> db.Bal(Account(guild, author)) + db.Bal(Account(guild, member.value.id))
                        == old(db.Bal(Account(guild, author)) + db.Bal(Account(guild, member.value.id)))
    ensures old(db.Sound()) ==> db.Sound()
  {
    if member.None? || amount.None? || amount.value <= 0 {
      return Refused(Usage);
    }
    if member.value.isBot {
      return Refused(GiftToBot);
    }
    var src, dst := Account(guild, author), Account(guild, member.value.id);
    var senderBal := db.GetBalance(src);
    if senderBal < amount.value {
      return Refused(NotEnoughBalance);
    }
    db.AddBalance(src, -amount.value);
    db.AddBalance(dst, amount.value);
    r := Done;
  }

  /**
    * The trade command: moves `amount` from the invoking server's treasury to
    * the target server's treasury. Only a privileged member may trade (the
    * permission lookup is the boolean `privileged`). A missing or zero target
    * id or a missing or non-positive amount is a usage error. Both server rows
    * are created before the treasury is compared with the amount.
    */
  method Trade(db: Store, privileged: bool, source: GuildId, target: Option<GuildId>, amount: Option<int>)
    returns (r: Outcome)
    modifies db`servers
    ensures r == Refused(NotPrivileged) <==> !privileged
    ensures r == Refused(Usage) <==> privileged && (target.None? || target.value == 0 || amount.None? || amount.value <= 0)
    ensures r == Refused(NotEnoughTreasury) <==>
      && privileged && target.Some? && target.value != 0 && amount.Some? && amount.value > 0
      && old(db.Treasury(source)) < amount.value
    ensures r == Done <==>
      && privileged && target.Some? && target.value != 0 && amount.Some? && amount.value > 0
      && old(db.Treasury(source)) >= amount.value
    ensures r.Done? ==> forall g :: db.Treasury(g) == old(db.Treasury(g))
                                     - (if g == source then amount.value else 0)
                                     + (if g == target.value then amount.value else 0)
    ensures !r.Done? ==> forall g :: db.Treasury(g) == old(db.Treasury(g))
    ensures r.Done? ==> db.Treasury(source) + db.Treasury(target.value)
                        == old(db.Treasury(source) + db.Treasury(target.value))
    ensures forall g :: g in db.servers && g in old(db.servers) ==>
      db.servers[g].currency == old(db.servers)[g].currency && db.servers[g].debt == old(db.servers)[g].debt
    ensures old(db.Sound()) ==> db.Sound()
  {
    if !privileged {
      return Refused(NotPrivileged);
    }
    if target.None? || target.value == 0 || amount.None? || amount.value <= 0 {
      return Refused(Usage);
    }
    var dst, n := target.value, amount.value;
    db.EnsureServerRow(source);
    db.EnsureServerRow(dst);
    var srcTreasury := db.servers[source].treasury;
    if srcTreasury < n {
      return Refused(NotEnoughTreasury);
    }
    db.AddTreasury(source, -n);
    db.AddTreasury(dst, n);
    r := Done;
  }

  /**
    * The borrow command: `author` asks `member` for a loan of `amount`. A
    * pending loan row is recorded under the next id; no money moves.
    */
  method Borrow(db: Store, guild: GuildId, author: UserId, member: Option<Member>, amount: Option<int>, now: int)
    returns (id: Option<nat>)
    modifies db`loans, db`nextLoanId
    ensures id.None? <==> member.None? || amount.None? || amount.value <= 0
    ensures id.None? ==> db.loans == old(db.loans) && db.nextLoanId == old(db.nextLoanId)
    ensures old(db.Sound()) ==> db.Sound()
    ensures id.Some? ==>
      && id.value == old(db.nextLoanId) && db.nextLoanId == id.value + 1
      && db.loans == old(db.loans)[id.value := Loan(guild, member.value.id, author, amount.value, Pending, now)]
  {
    if member.None? || amount.None? || amount.value <= 0 {
      return None;
    }
    id := Some(db.nextLoanId);
    db.loans := db.loans[db.nextLoanId := Loan(guild, member.value.id, author, amount.value, Pending, now)];
    db.nextLoanId := db.nextLoanId + 1;
  }

  /**
    * The lender's accept button. Only the lender may accept, and only when
    * their balance covers the amount; then the amount moves from lender to
    * borrower and the loan is marked accepted. The loan's status is not
    * consulted, so a loan can be accepted again (or after a rejection).
    */
  method AcceptLoan(db: Store, id: nat, actor: UserId) returns (r: Outcome)
    requires id in db.loans
    modifies db`balances, db`loans
    ensures id in db.loans
    ensures r == Refused(NotLender) <==> actor != old(db.loans)[id].lender
    ensures r == Refused(NotEnoughBalance) <==>
      var l := old(db.loans)[id]; actor == l.lender && old(db.Bal(Account(l.guild, l.lender))) < l.amount
    ensures r == Done <==>
      var l := old(db.loans)[id]; actor == l.lender && old(db.Bal(Account(l.guild, l.lender))) >= l.amount
    ensures r.Done? ==>
      var l := old(db.loans)[id];
      && Moved(db, old(db.balances), Account(l.guild, l.lender), Account(l.guild, l.borrower), l.amount)
      && db.loans == old(db.loans)[id := l.(status := Accepted)]
    ensures !r.Done? ==> (forall a :: db.Bal(a) == old(db.Bal(a))) && db.loans == old(db.loans)
    ensures old(db.Sound()) ==> db.Sound()
  {
    var l := db.loans[id];
    if actor != l.lender {
      return Refused(NotLender);
    }
    var lenderBal := db.GetBalance(Account(l.guild, l.lender));
    if lenderBal < l.amount {
      return Refused(NotEnoughBalance);
    }
    db.AddBalance(Account(l.guild, l.lender), -l.amount);
    db.AddBalance(Account(l.guild, l.borrower), l.amount);
    db.loans := db.loans[id := l.(status := Accepted)];
    r := Done;
  }

  /**
    * The lender's reject button: only the lender may reject; the loan is
    * marked rejected whatever its status was, and no money moves.
    */
  method RejectLoan(db: Store, id: nat, actor: UserId) returns (r: Outcome)
    requires id in db.loans
    modifies db`loans
    ensures r == Done <==> actor == old(db.loans)[id].lender
    ensures r == Refused(NotLender) <==> actor != old(db.loans)[id].lender
    ensures db.loans == if r.Done? then old(db.loans)[id := old(db.loans)[id].(status := Rejected)] else old(db.loans)
    ensures old(db.Sound()) ==> db.Sound()
  {
    var l := db.loans[id];
    if actor != l.lender {
      return Refused(NotLender);
    }
    db.loans := db.loans[id := l.(status := Rejected)];
    r := Done;
  }

  /**
    * As written, the accept button can be pressed twice with effect: a lender
    * whose balance covers twice the amount pays the loan twice.
    */
  method AcceptLoanTwice(db: Store, id: nat) returns (first: Outcome, second: Outcome)
    requires id in db.loans
    requires db.loans[id].lender != db.loans[id].borrower && db.loans[id].amount > 0
    requires db.Bal(Account(db.loans[id].guild, db.loans[id].lender)) >= 2 * db.loans[id].amount
    modifies db`balances, db`loans
    ensures first == Done && second == Done
    ensures var l := old(db.loans)[id];
      && db.Bal(Account(l.guild, l.lender)) == old(db.Bal(Account(l.guild, l.lender))) - 2 * l.amount
      && db.Bal(Account(l.guild, l.borrower)) == old(db.Bal(Account(l.guild, l.borrower))) + 2 * l.amount
  {
    var l := db.loans[id];
    var lender, borrower := Account(l.guild, l.lender), Account(l.guild, l.borrower);
    first := AcceptLoan(db, id, l.lender);
    assert db.Bal(lender) == old(db.Bal(lender)) - l.amount;
    assert db.Bal(borrower) == old(db.Bal(borrower)) + l.amount;
    assert db.loans[id].lender == l.lender && db.loans[id].amount == l.amount;
    second := AcceptLoan(db, id, l.lender);
  }

  /**
    * The accept button as intended: as AcceptLoan, but a loan that is no
    * longer pending is refused, with nothing changed.
    */
  method AcceptPendingLoan(db: Store, id: nat, actor: UserId) returns (r: Outcome)
    requires id in db.loans
    modifies db`balances, db`loans
    ensures id in db.loans
    ensures r == Refused(NotLender) <==> actor != old(db.loans)[id].lender
    ensures r == Refused(AlreadyResolved) <==> actor == old(db.loans)[id].lender && old(db.loans)[id].status != Pending
    ensures r == Done <==>
      var l := old(db.loans)[id];
      actor == l.lender && l.status == Pending && old(db.Bal(Account(l.guild, l.lender))) >= l.amount
    ensures r.Done? ==>
      var l := old(db.loans)[id];
      && Moved(db, old(db.balances), Account(l.guild, l.lender), Account(l.guild, l.borrower), l.amount)
      && db.loans == old(db.loans)[id := l.(status := Accepted)]
    ensures !r.Done? ==> (forall a :: db.Bal(a) == old(db.Bal(a))) && db.loans == old(db.loans)
    ensures old(db.Sound()) ==> db.Sound()
  {
    var l := db.loans[id];
    if actor != l.lender {
      return Refused(NotLender);
    }
    if l.status != Pending {
      return Refused(AlreadyResolved);
    }
    r := AcceptLoan(db, id, actor);
  }

  /**
    * The reject button as intended: only the lender may reject, and only a
    * pending loan.
    */
  method RejectPendingLoan(db: Store, id: nat, actor: UserId) returns (r: Outcome)
    requires id in db.loans
    modifies db`loans
    ensures r == Done <==> actor == old(db.loans)[id].lender && old(db.loans)[id].status == Pending
    ensures r == Refused(NotLender) <==> actor != old(db.loans)[id].lender
    ensures r == Refused(AlreadyResolved) <==> actor == old(db.loans)[id].lender && old(db.loans)[id].status != Pending
    ensures db.loans == if r.Done? then old(db.loans)[id := old(db.loans)[id].(status := Rejected)] else old(db.loans)
    ensures old(db.Sound()) ==> db.Sound()
  {
    var l := db.loans[id];
    if actor != l.lender {
      return Refused(NotLender);
    }
    if l.status != Pending {
      return Refused(AlreadyResolved);
    }
    r := RejectLoan(db, id, actor);
  }

  /**
    * With the intended buttons a loan's money moves at most once: after an
    * accept, a second accept is refused and leaves every balance alone.
    */
  method AcceptPendingLoanTwice(db: Store, id: nat) returns (first: Outcome, second: Outcome)
    requires id in db.loans
    modifies db`balances, db`loans
    ensures second != Done
    ensures first == Done ==> second == Refused(AlreadyResolved)
    ensures var l := old(db.loans)[id];
      first == Done ==> Moved(db, old(db.balances), Account(l.guild, l.lender), Account(l.guild, l.borrower), l.amount)
  {
    var l := db.loans[id];
    first := AcceptPendingLoan(db, id, l.lender);
    second := AcceptPendingLoan(db, id, l.lender);
  }
}
