/**
 The other half: where the EUR system account has the smaller id, a registration and an exchange can each
 hold the system account the other waits for. Exchange locks the two system rows by id
 (internal/services/transaction_service.go:377), Register updates USD and then EUR (internal/handlers/auth.go:61-66).
 Where a request names a system account, a transfer and an exchange can do so whatever the ids.
 */
module Reversed {
  import opened Wrappers
  import opened Rates
  import opened Tables
  import opened Engine
  import opened Order
  import opened Books
  import opened Programs
  import opened Bodies
  import opened Interleaved
  import opened Runs
  import opened Deadlock
  import opened Schedules
  import opened FirstUser

  // --------------------------------------------------------------- part of a body, step by step

  function AllKeys(statements: seq<Statement>): set<Key>
    decreases |statements|
  {
    if statements == [] then {} else Keys(statements[0]) + AllKeys(statements[1..])
  }

  /** The first statements of an `Issue`, when none of them fails. */
  lemma {:induction false} IssuePart(
    db: Database, start: Proc, n: nat, first: seq<Statement>, rest: seq<Statement>, next: Proc)
    requires Solo(db, start, n).proc == Issue(first + rest, next)
    requires RunStatements(ApplyAll(db, Solo(db, start, n).writes), first).Ok?
    ensures var tx := Solo(db, start, n + |first|);
            && tx.proc == Issue(rest, next) && tx.held == Solo(db, start, n).held + AllKeys(first)
            && ApplyAll(db, tx.writes) == RunStatements(ApplyAll(db, Solo(db, start, n).writes), first).value
    decreases |first|
  {
    hide Advance, Outcome, Keys;
    var tx := Solo(db, start, n);
    if first == [] {
      assert first + rest == rest;
    } else {
      assert (first + rest)[0] == first[0] && (first + rest)[1..] == first[1..] + rest;
      IssueStep(db, tx);
      AdvanceHolds(db, tx);
      IssuePart(db, start, n + 1, first[1..], rest, next);
    }
  }

  /** A step that needs nothing. */
  lemma FreeStep(db: Database, start: Proc, n: nat)
    requires Solo(db, start, n).proc.Opening?
             || (Solo(db, start, n).proc.Issue? && Solo(db, start, n).proc.statements == [])
    ensures Solo(db, start, n + 1).held == Solo(db, start, n).held
            && Solo(db, start, n + 1).writes == Solo(db, start, n).writes
    ensures Solo(db, start, n + 1).proc == Next(db, db, Solo(db, start, n).proc).0
  {
    FreeAdvance(db, Solo(db, start, n));
    hide Advance, Next;
    assert Solo(db, start, n + 1) == Advance(db, Solo(db, start, n));
  }

  lemma FreeAdvance(db: Database, tx: Tx)
    requires tx.proc.Opening? || (tx.proc.Issue? && tx.proc.statements == [])
    ensures Advance(db, tx) == Tx(Next(db, db, tx.proc).0, tx.writes, tx.held)
  {
  }

  /** An exchange that can succeed looks for its system accounts after two steps, holding the two rows it names. */
  lemma ExchangeLooks(db: Database, req: ExchangeRequest, terms: Terms, at: Attempt)
    requires RunExchange(db, req, terms, at).Ok?
    ensures var tx := Solo(db, ExchangeLeft(req, terms, at), 2);
            && tx.proc.FindSystemFrom? && tx.writes == [] && tx.held == {AccountRow(req.fromId), AccountRow(req.toId)}
            && tx.proc.plan.source == db.accounts[req.fromId].currency
            && tx.proc.plan.target == db.accounts[req.toId].currency
            && tx.proc.plan.source != tx.proc.plan.target
            && SystemAccount(db.accounts, tx.proc.plan.source).Some?
            && SystemAccount(db.accounts, tx.proc.plan.target).Some?
  {
    hide Advance, SettleExchange, Leq, ApplyAll, ConvertMinor, DirectionalRate;
    var start := ExchangeLeft(req, terms, at);
    ExchangeLocks(db, req, terms, at);
    EmptyView(db);
    assert Solo(db, start, 1) == Advance(db, Solo(db, start, 0))
        && Solo(db, start, 2) == Advance(db, Solo(db, start, 1));
    AdvanceHolds(db, Solo(db, start, 0));
    AdvanceHolds(db, Solo(db, start, 1));
    OrderedIDsAgree(req.fromId, req.toId);
    QuietStep(db, Solo(db, start, 0));
  }

  /** After five it stands before the second system row, holding the first. */
  lemma ExchangeHalfway(db: Database, req: ExchangeRequest, terms: Terms, at: Attempt)
    requires RunExchange(db, req, terms, at).Ok?
    ensures var before, tx := Solo(db, ExchangeLeft(req, terms, at), 4), Solo(db, ExchangeLeft(req, terms, at), 5);
            && tx.proc.SystemRight?
            && var (left, right) := OrderedIDs(tx.proc.systemFromId, tx.proc.systemToId);
            && before.held == {AccountRow(req.fromId), AccountRow(req.toId)} && Needs(before.proc) == {AccountRow(left)}
            && tx.held == {AccountRow(req.fromId), AccountRow(req.toId), AccountRow(left)}
            && Needs(tx.proc) == {AccountRow(right)}
            && IsSystemAccount(db.accounts, tx.proc.systemFromId, db.accounts[req.fromId].currency)
            && IsSystemAccount(db.accounts, tx.proc.systemToId, db.accounts[req.toId].currency)
            && db.accounts[req.fromId].currency != db.accounts[req.toId].currency
  {
    hide Advance, RunExchange, Leq;
    var start := ExchangeLeft(req, terms, at);
    ExchangeLooks(db, req, terms, at);
    var tx2, tx3, tx4 := Solo(db, start, 2), Solo(db, start, 3), Solo(db, start, 4);
    assert tx3 == Advance(db, tx2) && tx4 == Advance(db, tx3) && Solo(db, start, 5) == Advance(db, tx4);
    AdvanceHolds(db, tx2);
    AdvanceHolds(db, tx3);
    AdvanceHolds(db, tx4);
    QuietStep(db, tx2);
    QuietStep(db, tx3);
    QuietStep(db, tx4);
  }

  /** The row and the entries of an opening balance, before the system account is touched. */
  function OpeningRecord(
    reg: Registration, txId: string, systemId: string, accountId: string, currency: Currency, amount: int)
    : seq<Statement>
  {
    [InsertTransaction(OpeningRow(reg, txId, systemId, accountId, currency, amount))]
    + Inserts(OpeningEntries(txId, systemId, accountId, currency, amount))
  }

  lemma OpeningRecordRuns(
    view: Database, reg: Registration, txId: string, systemId: string, accountId: string, currency: Currency,
    amount: int)
    requires systemId in view.accounts && amount > 0
    requires RunOpening(view, reg, txId, systemId, accountId, currency, amount).Ok?
    ensures RunStatements(view, OpeningRecord(reg, txId, systemId, accountId, currency, amount)).Ok?
    ensures OpeningStatements(reg, txId, systemId, accountId, currency, amount) ==
            OpeningRecord(reg, txId, systemId, accountId, currency, amount) + [AdjustBalance(systemId, -amount)]
    ensures AllKeys(OpeningRecord(reg, txId, systemId, accountId, currency, amount)) == {TransactionId(txId)}
    ensures AllKeys(OpeningStatements(reg, txId, systemId, accountId, currency, amount)) == {TransactionId(txId),
        AccountRow(systemId)}
    ensures |OpeningRecord(reg, txId, systemId, accountId, currency, amount)| == 3
  {
    hide Outcome;
    var record, adjust :=
        OpeningRecord(reg, txId, systemId, accountId, currency, amount), [AdjustBalance(systemId, -amount)];
    assert OpeningStatements(reg, txId, systemId, accountId, currency, amount) == record + adjust;
    RunOpeningStatements(view, reg, txId, systemId, accountId, currency, amount);
    RunConcat(view, record, adjust);
    var row, inserts := [InsertTransaction(OpeningRow(reg, txId, systemId, accountId, currency, amount))],
        Inserts(OpeningEntries(txId, systemId, accountId, currency, amount));
    AllKeysConcat(row, inserts);
    OneKey(row[0]);
    QuietKeys(inserts);
    AllKeysConcat(record, adjust);
    OneKey(adjust[0]);
  }

  lemma {:induction false} QuietKeys(statements: seq<Statement>)
    requires forall s | s in statements :: Keys(s) == {}
    ensures AllKeys(statements) == {}
    decreases |statements|
  {
    if statements != [] {
      QuietKeys(statements[1..]);
    }
  }

  /** What a registration then holds. */
  function RegisterHolds(reg: Registration, at: Attempt, systemUsd: string): set<Key> {
    NewKeys(reg, at) + {TransactionId(at.txId), AccountRow(systemUsd), TransactionId(at.txId2)}
  }

  lemma {:induction false} AllKeysConcat(a: seq<Statement>, b: seq<Statement>)
    ensures AllKeys(a + b) == AllKeys(a) + AllKeys(b)
    decreases |a|
  {
    if a == [] {
      assert a + b == b;
    } else {
      assert (a + b)[0] == a[0] && (a + b)[1..] == a[1..] + b;
      AllKeysConcat(a[1..], b);
    }
  }

  lemma RegisterKeys(reg: Registration, at: Attempt)
    ensures AllKeys(RegisterStatements(reg, at)) == NewKeys(reg, at)
  {
    var user, usd, eur := InsertUser(RegisteredUser(reg)), InsertAccount(at.usdId, reg.userId, USD, OPENING_USD),
        InsertAccount(at.eurId, reg.userId, EUR, OPENING_EUR);
    assert RegisterStatements(reg, at) == [user] + ([usd] + [eur]);
    AllKeysConcat([user], [usd] + [eur]);
    AllKeysConcat([usd], [eur]);
    OneKey(user);
    OneKey(usd);
    OneKey(eur);
  }

  lemma OneKey(s: Statement)
    ensures AllKeys([s]) == Keys(s)
  {
  }

  function NewKeys(reg: Registration, at: Attempt): set<Key> {
    {UserId(reg.userId), Username(reg.username), Email(reg.email), AccountRow(at.usdId), AccountRow(at.eurId)}
  }

  lemma RegisterNames(db: Database, reg: Registration, at: Attempt)
    requires RunRegister(db, reg, at).Ok?
    ensures var tx := Solo(db, Start(RegisterOp(reg), at), 4);
            tx.proc == Opening(reg, at, USD) && tx.held == NewKeys(reg, at)
                && ApplyAll(db, tx.writes) == WithAccounts(db, reg, at)
  {
    hide RunStatements, RunOpening, Advance, Keys, AllKeys, WithAccounts;
    var start, statements := Start(RegisterOp(reg), at), RegisterStatements(reg, at);
    assert statements + [] == statements && |statements| == 3;
    RunRegisterStatements(db, reg, at);
    IssuePart(db, start, 0, statements, [], Opening(reg, at, USD));
    RegisterKeys(reg, at);
    FreeStep(db, start, 3);
  }

  lemma RegisterPaysUsd(db: Database, reg: Registration, at: Attempt)
    requires RunRegister(db, reg, at).Ok?
    ensures SystemAccount(db.accounts, USD).Some?
            && SystemAccount(db.accounts, USD).value in WithAccounts(db, reg, at).accounts
    ensures var systemUsd := SystemAccount(db.accounts, USD).value;
            var afterUsd := RunOpening(WithAccounts(db, reg, at), reg, at.txId, systemUsd, at.usdId, USD, OPENING_USD);
            var tx := Solo(db, Start(RegisterOp(reg), at), 10);
            && afterUsd.Ok? && tx.proc == Opening(reg, at, EUR) && ApplyAll(db, tx.writes) == afterUsd.value
            && tx.held == NewKeys(reg, at) + {TransactionId(at.txId), AccountRow(systemUsd)}
  {
    hide RunStatements, Advance, Keys, AllKeys, Lookup, IsTaken, Start, OpeningStatements, Solo, ApplyAll, NewKeys,
        SystemAccount;
    RegisterNames(db, reg, at);
    var start, systemUsd := Start(RegisterOp(reg), at), SystemAccount(db.accounts, USD).value;
    var statements := OpeningStatements(reg, at.txId, systemUsd, at.usdId, USD, OPENING_USD);
    FreeStep(db, start, 4);
    assert statements + [] == statements;
    RunOpeningStatements(WithAccounts(db, reg, at), reg, at.txId, systemUsd, at.usdId, USD, OPENING_USD);
    hide RunOpening, WithAccounts;
    IssuePart(db, start, 5, statements, [], Opening(reg, at, EUR));
    OpeningRecordRuns(WithAccounts(db, reg, at), reg, at.txId, systemUsd, at.usdId, USD, OPENING_USD);
    FreeStep(db, start, 9);
  }

  /**
   A registration that can succeed stands, after fourteen steps, before the EUR system account, holding the USD one.
   */
  lemma RegisterHalfway(db: Database, reg: Registration, at: Attempt)
    requires RunRegister(db, reg, at).Ok?
    ensures SystemAccount(db.accounts, USD).Some? && SystemAccount(db.accounts, EUR).Some?
    ensures var tx := Solo(db, Start(RegisterOp(reg), at), 14);
            && tx.held == RegisterHolds(reg, at, SystemAccount(db.accounts, USD).value)
            && Needs(tx.proc) == {AccountRow(SystemAccount(db.accounts, EUR).value)}
  {
    hide RunStatements, Advance, AllKeys, Lookup, IsTaken, Start, OpeningStatements, OpeningRecord, RunOpening;
    RegisterPaysUsd(db, reg, at);
    var start, systemUsd, systemEur := Start(RegisterOp(reg), at), SystemAccount(db.accounts, USD).value,
        SystemAccount(db.accounts, EUR).value;
    var view := RunOpening(WithAccounts(db, reg, at), reg, at.txId, systemUsd, at.usdId, USD, OPENING_USD).value;
    OpeningKeepsKeys(WithAccounts(db, reg, at), reg, at.txId, systemUsd, at.usdId, USD, OPENING_USD);
    FreeStep(db, start, 10);
    var record := OpeningRecord(reg, at.txId2, systemEur, at.eurId, EUR, OPENING_EUR);
    var rest := [AdjustBalance(systemEur, -OPENING_EUR)] + [InsertAudit(AuditRow(reg.userId, "register", reg.userId))];
    OpeningRecordRuns(view, reg, at.txId2, systemEur, at.eurId, EUR, OPENING_EUR);
    assert Solo(db, start, 11).proc == Issue(record + rest, Succeeded(RegisterReceipt(reg.userId))) by {
      assert OpeningStatements(reg, at.txId2, systemEur, at.eurId, EUR, OPENING_EUR)
          + [InsertAudit(AuditRow(reg.userId, "register", reg.userId))] == record + rest;
    }
    IssuePart(db, start, 11, record, rest, Succeeded(RegisterReceipt(reg.userId)));
  }

  // --------------------------------------------------------------- the deadlock

  lemma ReversedMeans(start: Database, db: Database)
    requires SameHolders(start.accounts, db.accounts) && SystemAccountsSet(start.accounts)
    ensures SystemAccountsSet(db.accounts)
    ensures !SystemsInOrder(start) <==>
            Less(SystemAccount(db.accounts, EUR).value, SystemAccount(db.accounts, USD).value)
    ensures forall c: Currency :: IsSystemIn(start, SystemAccount(db.accounts, c).value)
  {
    HoldersKeepSystem(start.accounts, db.accounts);
    var usd, eur := SystemAccount(start.accounts, USD).value, SystemAccount(start.accounts, EUR).value;
    LessTotal(usd, eur);
    assert forall c: Currency :: SystemAccount(db.accounts, c).value == SystemAccount(start.accounts, c).value;
  }

  /** The smaller of the two system rows is the EUR one. */
  lemma ExchangeHolds(start: Database, db: Database, req: ExchangeRequest, terms: Terms, at: Attempt)
    requires SameHolders(start.accounts, db.accounts) && SystemAccountsSet(start.accounts) && !SystemsInOrder(start)
    requires RunExchange(db, req, terms, at).Ok?
    ensures SystemAccountsSet(db.accounts)
    ensures var tx := Solo(db, Start(ExchangeOp(req, terms), at), 5);
            && tx.held ==
                 {AccountRow(req.fromId), AccountRow(req.toId), AccountRow(SystemAccount(db.accounts, EUR).value)}
            && Needs(tx.proc) == {AccountRow(SystemAccount(db.accounts, USD).value)}
  {
    hide Solo, RunExchange, Leq, Less;
    ReversedMeans(start, db);
    ExchangeHalfway(db, req, terms, at);
    var tx := Solo(db, ExchangeLeft(req, terms, at), 5);
    var usd, eur := SystemAccount(db.accounts, USD).value, SystemAccount(db.accounts, EUR).value;
    assert {tx.proc.systemFromId, tx.proc.systemToId} == {usd, eur};
    OrderedIDsAgree(usd, eur);
    OrderedIDsAgree(tx.proc.systemFromId, tx.proc.systemToId);
    LessTotal(usd, eur);
  }

  /** What is registered is not yet there. */
  lemma NotYetThere(db: Database, reg: Registration, at: Attempt)
    requires RunRegister(db, reg, at).Ok?
    ensures Drawn(at) !! db.accounts.Keys
  {
  }

  /** An exchange taken halfway, and then a registration. */
  function Against(req: ExchangeRequest, terms: Terms, at: Attempt, reg: Registration, other: Attempt): Duel {
    Duel(1, ExchangeRequested(req), ExchangeOp(req, terms), at, 5,
         2, RegisterRequested(reg), RegisterOp(reg), other, 14)
  }

  /** Halfway, the exchange holds nothing that the registration has needed so far. */
  lemma HoldApart(
    start: Database, db: Database, req: ExchangeRequest, terms: Terms, at: Attempt, reg: Registration, other: Attempt)
    requires SameHolders(start.accounts, db.accounts) && SystemAccountsSet(start.accounts) && !SystemsInOrder(start)
    requires RunExchange(db, req, terms, at).Ok? && RunRegister(db, reg, other).Ok?
    requires IsUserAccount(db, req.fromId) && IsUserAccount(db, req.toId)
    ensures Solo(db, Start(ExchangeOp(req, terms), at), 5).held !! Solo(db, Start(RegisterOp(reg), other), 14).held
  {
    hide Solo, RunExchange, RunRegister, Less, Start, SystemsInOrder;
    ExchangeHolds(start, db, req, terms, at);
    RegisterHalfway(db, reg, other);
    ReversedMeans(start, db);
    NotYetThere(db, reg, other);
    SystemsThere(db);
  }

  /** With the system accounts reversed, a deadlock is reached from the migrated database. */
  lemma DeadlockReached(s: System) returns (actions: seq<Action>)
    requires Fresh(s.committed, s) && Initial(s.committed) && !SystemsInOrder(s.committed)
    ensures NamesUsers(s.committed, actions) && AllDrawFresh(s, actions)
    ensures var after := Run(s, actions);
            Stuck(after, 1) && Stuck(after, 2) && WaitsFor(after, 1, 2) && WaitsFor(after, 2, 1)
  {
    hide Run, AllDrawFresh, Initial, CanDuel, Settled, SystemsInOrder, Stuck, WaitsFor, Schedule, Halfway, NamesUsers;
    FirstUserRuns(s);
    var pre := FirstSchedule(s);
    var p, key, otherKey := OpposedDuel(s, Run(s, pre));
    DuelRuns(s, pre, p);
    EachWaits(s.committed, Run(s, pre), p, key, otherKey);
    actions := pre + Schedule(p);
    ScheduleNames(s.committed, pre, p);
  }

  lemma ScheduleNames(start: Database, pre: seq<Action>, p: Duel)
    requires NamesUsers(start, pre)
    requires forall id | id in NamedBy(p.ask) + NamedBy(p.otherAsk) :: !IsSystemIn(start, id)
    ensures NamesUsers(start, pre + Schedule(p))
  {
    hide IsSystemIn, NamedBy;
    forall a | a in pre + Schedule(p) && a.Submit?
        ensures forall id | id in NamedBy(a.request) :: !IsSystemIn(start, id) {
      assert a in pre || a == Submit(p.c, p.ask) || a == Submit(p.d, p.otherAsk);
    }
  }

  /** The first user exchanges one dollar while a second user registers. */
  lemma OpposedDuel(s: System, t: System) returns (p: Duel, key: Key, otherKey: Key)
    requires Fresh(s.committed, s) && Initial(s.committed) && !SystemsInOrder(s.committed)
    requires SystemAccountsSet(s.committed.accounts) && Settled(s, t)
    ensures p.c == 1 && p.d == 2 && CanDuel(s.committed, t, p)
    ensures forall id | id in NamedBy(p.ask) + NamedBy(p.otherAsk) :: !IsSystemIn(s.committed, id)
    ensures var mine, other :=
            Solo(t.committed, Start(p.op, p.at), p.n), Solo(t.committed, Start(p.otherOp, p.otherAt), p.m);
            key in Needs(mine.proc) && key in other.held && otherKey in Needs(other.proc) && otherKey in mine.held
  {
    hide Solo, Start, Initial, RunExchange, RunRegister, AdmitExchange, SystemsInOrder, Draw, BaseOf, Private,
        OneDollar;
    var start, db, base, now := s.committed, t.committed, BaseOf(s.committed), s.clock;
    var first, mine, other := FirstDraw(s), Draw(base, 'e', 'f', 'g', 'h', now), Draw(base, 'i', 'j', 'k', 'l', now);
    NewDraws(s, t, mine, other);
    var newcomer := Registration("v", "v", "v");
    BothWork(db, REGISTERED, first, now, mine, newcomer, other);
    var req := OneDollar(REGISTERED, first);
    var terms := AdmitExchange(db, req, now).value;
    OneDollarNames(REGISTERED, first);
    HoldApart(start, db, req, terms, mine, newcomer, other);
    ExchangeHolds(start, db, req, terms, mine);
    RegisterHalfway(db, newcomer, other);
    p := Against(req, terms, mine, newcomer, other);
    key, otherKey :=
        AccountRow(SystemAccount(db.accounts, USD).value), AccountRow(SystemAccount(db.accounts, EUR).value);
  }

  /**
   Exactly when deadlock is impossible: over all schedules that name no system account and draw fresh
   identifiers, no clients ever wait in a circle if and only if the USD system account has the smaller id.
   */
  lemma DeadlockFreeExactlyWhen(s: System)
    requires Fresh(s.committed, s) && Initial(s.committed)
    ensures (forall actions, path | NamesUsers(s.committed, actions) && AllDrawFresh(s, actions)
            && WaitChain(Run(s, actions), path) :: path[0] != path[|path| - 1]) <==>
            SystemsInOrder(s.committed)
  {
    hide Run, AllDrawFresh, Initial, SystemsInOrder, WaitsFor, Stuck;
    if SystemsInOrder(s.committed) {
      forall actions, path | NamesUsers(s.committed, actions) && AllDrawFresh(s, actions)
          && WaitChain(Run(s, actions), path)
        ensures path[0] != path[|path| - 1]
      {
        NoWaitCycle(s, actions, path);
      }
    } else {
      var actions := DeadlockReached(s);
      var path := [1, 2, 1];
      assert WaitChain(Run(s, actions), path);
    }
  }

  // --------------------------------------------------------------- requests that name a system account

  lemma {:induction false} PrefixIsLess(a: string, b: string)
    requires b != ""
    ensures Leq(a, a + b) && Less(a, a + b)
  {
    if a == "" {
      assert a + b == b;
    } else {
      assert (a + b)[1..] == a[1..] + b;
      PrefixIsLess(a[1..], b);
    }
  }

  /** After one step a transfer holds the smaller of its two rows and needs the larger. */
  lemma TransferHalfway(db: Database, req: TransferRequest, at: Attempt)
    requires req.toId in db.accounts && Less(req.toId, req.fromId)
    ensures var tx := Solo(db, Start(TransferOp(req), at), 1);
            tx.held == {AccountRow(req.toId)} && Needs(tx.proc) == {AccountRow(req.fromId)}
  {
    hide Leq, ApplyAll;
    OrderedIDsAgree(req.fromId, req.toId);
    LessTotal(req.fromId, req.toId);
    EmptyView(db);
    assert Solo(db, Start(TransferOp(req), at), 1) == Advance(db, Solo(db, Start(TransferOp(req), at), 0));
  }

  /** Before its system rows, the first user's exchange needs the smaller of them. */
  lemma ExchangeNeedsSmaller(start: Database, db: Database, req: ExchangeRequest, terms: Terms, at: Attempt)
    requires SameHolders(start.accounts, db.accounts) && SystemAccountsSet(start.accounts)
    requires RunExchange(db, req, terms, at).Ok?
    ensures var (left, right) :=
            OrderedIDs(SystemAccount(start.accounts, USD).value, SystemAccount(start.accounts, EUR).value);
            var tx := Solo(db, Start(ExchangeOp(req, terms), at), 4);
            tx.held == {AccountRow(req.fromId), AccountRow(req.toId)} && Needs(tx.proc) == {AccountRow(left)}
  {
    hide Solo, RunExchange, Leq, Less;
    HoldersKeepSystem(start.accounts, db.accounts);
    ExchangeHalfway(db, req, terms, at);
    var tx := Solo(db, ExchangeLeft(req, terms, at), 5);
    var usd, eur := SystemAccount(db.accounts, USD).value, SystemAccount(db.accounts, EUR).value;
    assert {tx.proc.systemFromId, tx.proc.systemToId} == {usd, eur};
    OrderedIDsAgree(usd, eur);
  }

  /** The first user exchanges one dollar, and sends a cent to the system account with the smaller id. */
  lemma NamingDuel(s: System, t: System) returns (p: Duel, key: Key, otherKey: Key)
    requires Fresh(s.committed, s) && Initial(s.committed) && SystemAccountsSet(s.committed.accounts) && Settled(s, t)
    ensures p.c == 1 && p.d == 2 && CanDuel(s.committed, t, p)
    ensures var mine, other :=
            Solo(t.committed, Start(p.op, p.at), p.n), Solo(t.committed, Start(p.otherOp, p.otherAt), p.m);
            key in Needs(mine.proc) && key in other.held && otherKey in Needs(other.proc) && otherKey in mine.held
  {
    hide Solo, Start, Initial, RunExchange, RunRegister, AdmitExchange, Private, OneDollar, Leq, Less;
    var start, db, base, now := s.committed, t.committed, BaseOf(s.committed), s.clock;
    var first, mine, other := FirstDraw(s), Draw(base, 'e', 'f', 'g', 'h', now), Draw(base, 'i', 'j', 'k', 'l', now);
    NewDraws(s, t, mine, other);
    OneDollarWorks(db, REGISTERED, first, now, mine);
    var req := OneDollar(REGISTERED, first);
    var terms := AdmitExchange(db, req, now).value;
    OneDollarNames(REGISTERED, first);
    var (left, right) := OrderedIDs(SystemAccount(start.accounts, USD).value, SystemAccount(start.accounts, EUR).value);
    var sent := TransferRequest(REGISTERED.userId, first.usdId, left, 1, None);
    LeftIsLess(s, t, left, right);
    ExchangeNeedsSmaller(start, db, req, terms, mine);
    TransferHalfway(db, sent, other);
    p := Duel(1, ExchangeRequested(req), ExchangeOp(req, terms), mine, 4,
              2, TransferRequested(sent), TransferOp(sent), other, 1);
    key, otherKey := AccountRow(left), AccountRow(first.usdId);
  }

  lemma LeftIsLess(s: System, t: System, left: string, right: string)
    requires Initial(s.committed) && SystemAccountsSet(s.committed.accounts) && Settled(s, t)
    requires (left, right) ==
             OrderedIDs(SystemAccount(s.committed.accounts, USD).value, SystemAccount(s.committed.accounts, EUR).value)
    ensures Less(left, FirstDraw(s).usdId) && left in s.committed.accounts && left in t.committed.accounts
    ensures left !in {FirstDraw(s).usdId, FirstDraw(s).eurId}
  {
    hide Leq, Less;
    SystemsThere(s.committed);
    DrawnIsNew(s.committed, 'a', 'b', 'c', 'd', s.clock);
    PrefixIsLess(left, right + ['c']);
    assert FirstDraw(s).usdId == left + (right + ['c']);
  }

  /**
   Where requests may name a system account, a circle of waiting clients is always reachable, whatever the ids:
   a transfer into the smaller system account against an exchange by the same user.
   */
  lemma NamingSystemAccountsDeadlocks(s: System) returns (actions: seq<Action>)
    requires Fresh(s.committed, s) && Initial(s.committed)
    ensures AllDrawFresh(s, actions)
    ensures var after := Run(s, actions);
            Stuck(after, 1) && Stuck(after, 2) && WaitsFor(after, 1, 2) && WaitsFor(after, 2, 1)
  {
    hide Run, AllDrawFresh, Initial, CanDuel, Settled, Stuck, WaitsFor, Schedule, Halfway, NamesUsers;
    FirstUserRuns(s);
    var pre := FirstSchedule(s);
    var p, key, otherKey := NamingDuel(s, Run(s, pre));
    DuelRuns(s, pre, p);
    EachWaits(s.committed, Run(s, pre), p, key, otherKey);
    actions := pre + Schedule(p);
  }
}
