/** A body that runs alone to its end does to the database what Engine says the operation does. */
module Bodies {
  import opened Wrappers
  import opened Rates
  import opened Tables
  import opened Engine
  import opened Order
  import opened Programs
  import Int64

  /** A list of statements run on a view, stopping at the first error. */
  function RunStatements(view: Database, statements: seq<Statement>): Result<Database, Error>
    decreases |statements|
  {
    if statements == [] then Ok(view)
    else
      var r := Outcome(view, statements[0]);
      if r.Err? then Err(r.error) else RunStatements(ApplyOption(view, r.value), statements[1..])
  }

  function ApplyOption(view: Database, w: Option<Write>): Database {
    if w.Some? then Apply(view, w.value) else view
  }

  /** How a body stands after the steps of an `Issue`. */
  ghost predicate AfterIssue(db: Database, tx: Tx, run: Result<Database, Error>, next: Proc) {
    if run.Ok? then tx.proc == next && ApplyAll(db, tx.writes) == run.value else tx.proc == Failed(run.error)
  }

  lemma IssueStep(db: Database, tx: Tx)
    requires tx.proc.Issue? && tx.proc.statements != []
    ensures var r := Outcome(ApplyAll(db, tx.writes), tx.proc.statements[0]);
            Advance(db, tx).proc == (if r.Err? then Failed(r.error) else Issue(tx.proc.statements[1..], tx.proc.next))
    ensures var r := Outcome(ApplyAll(db, tx.writes), tx.proc.statements[0]);
            r.Ok? ==> ApplyAll(db, Advance(db, tx).writes) == ApplyOption(ApplyAll(db, tx.writes), r.value)
  {
  }

  lemma IssueEnd(db: Database, tx: Tx)
    requires tx.proc.Issue? && tx.proc.statements == []
    ensures Advance(db, tx).proc == tx.proc.next && Advance(db, tx).writes == tx.writes
  {
  }

  /** `|statements| + 1` steps run an `Issue` and reach what follows it. */
  lemma {:induction false} IssueRuns(db: Database, start: Proc, n: nat, statements: seq<Statement>, next: Proc)
    requires Solo(db, start, n).proc == Issue(statements, next)
    ensures AfterIssue(db, Solo(db, start, n + |statements| + 1),
            RunStatements(ApplyAll(db, Solo(db, start, n).writes), statements), next)
    decreases |statements|
  {
    hide Advance, Outcome;
    var tx := Solo(db, start, n);
    assert Solo(db, start, n + 1) == Advance(db, tx);
    if statements == [] {
      IssueEnd(db, tx);
    } else {
      IssueStep(db, tx);
      if Outcome(ApplyAll(db, tx.writes), statements[0]).Err? {
        EndedStays(db, start, n + 1, n + |statements| + 1);
      } else {
        IssueRuns(db, start, n + 1, statements[1..], next);
      }
    }
  }

  // --------------------------------------------------------------- lists of statements

  lemma {:induction false} RunConcat(view: Database, a: seq<Statement>, b: seq<Statement>)
    ensures var first := RunStatements(view, a);
            RunStatements(view, a + b) == if first.Err? then first else RunStatements(first.value, b)
    decreases |a|
  {
    hide Outcome, ApplyOption;
    if a == [] {
      assert a + b == b;
    } else {
      assert (a + b)[0] == a[0] && (a + b)[1..] == a[1..] + b;
      var r := Outcome(view, a[0]);
      if r.Ok? {
        RunConcat(ApplyOption(view, r.value), a[1..], b);
      }
    }
  }

  lemma RunOne(view: Database, s: Statement)
    ensures var r := Outcome(view, s);
            RunStatements(view, [s]) == if r.Err? then Err(r.error) else Ok(ApplyOption(view, r.value))
  {
  }

  /** Absolute balances in a row of updates: refused when negative, else set. */
  lemma RunUpdate(view: Database, id: string, balance: int)
    requires id in view.accounts
    ensures RunStatements(view, [UpdateBalance(id, balance)]) ==
            if balance < 0 then Err(Postgres(CheckViolation))
            else Ok(view.(accounts := SetBalanceOf(view.accounts, id, balance)))
  {
  }

  lemma RunUpdates(view: Database, a: string, x: int, b: string, y: int)
    requires a in view.accounts && b in view.accounts
    ensures RunStatements(view, [UpdateBalance(a, x), UpdateBalance(b, y)]) ==
            if x < 0 || y < 0 then Err(Postgres(CheckViolation))
            else Ok(view.(accounts := SetBalanceOf(SetBalanceOf(view.accounts, a, x), b, y)))
  {
    assert [UpdateBalance(a, x), UpdateBalance(b, y)] == [UpdateBalance(a, x)] + [UpdateBalance(b, y)];
    RunConcat(view, [UpdateBalance(a, x)], [UpdateBalance(b, y)]);
    RunUpdate(view, a, x);
    if x >= 0 {
      RunUpdate(view.(accounts := SetBalanceOf(view.accounts, a, x)), b, y);
    }
  }

  lemma {:induction false} RunInserts(view: Database, entries: seq<Entry>)
    ensures RunStatements(view, Inserts(entries)) ==
            if exists i | 0 <= i < |entries| :: entries[i].amount == 0 then Err(Postgres(CheckViolation))
            else Ok(view.(ledger := view.ledger + entries))
    decreases |entries|
  {
    if entries == [] {
      assert view.ledger + entries == view.ledger;
    } else {
      var head := entries[0];
      assert Inserts(entries) == [InsertEntry(head)] + Inserts(entries[1..]);
      RunConcat(view, [InsertEntry(head)], Inserts(entries[1..]));
      RunOne(view, InsertEntry(head));
      if head.amount != 0 {
        RunInserts(view.(ledger := view.ledger + [head]), entries[1..]);
        assert view.ledger + [head] + entries[1..] == view.ledger + entries;
        assert forall i | 1 <= i < |entries| :: entries[i] == entries[1..][i - 1];
        assert forall i | 0 <= i < |entries[1..]| :: entries[1..][i] == entries[i + 1];
      }
    }
  }

  // --------------------------------------------------------------- Transfer

  /** How an ended body compares with a run of the whole operation. */
  ghost predicate Agrees(db: Database, tx: Tx, run: Result<(Database, Receipt), Error>) {
    if run.Ok? then tx.proc == Succeeded(run.value.1) && ApplyAll(db, tx.writes) == run.value.0
    else tx.proc == Failed(run.error)
  }

  lemma RunTransferStatements(
    db: Database, req: TransferRequest, at: Attempt, currency: Currency, newFrom: int, newTo: int)
    requires req.fromId in db.accounts && req.toId in db.accounts && 0 < req.amount && Int64.Fits(req.amount)
    ensures var row := TransferRow(req, at, currency);
            RunStatements(db, TransferStatements(req, at, currency, newFrom, newTo)) ==
            if newFrom < 0 || newTo < 0 then Err(Postgres(CheckViolation))
            else if IsTaken(db, row) then Err(Postgres(UniqueViolation))
            else Ok(db.(accounts := SetBalanceOf(SetBalanceOf(db.accounts, req.fromId, newFrom), req.toId, newTo),
                        transactions := db.transactions + [row],
                        ledger := db.ledger + TransferEntries(req, at, currency),
                        audit := db.audit + [TransferAudit(req, at)]))
  {
    hide Outcome;
    var row := TransferRow(req, at, currency);
    var updates := [UpdateBalance(req.fromId, newFrom), UpdateBalance(req.toId, newTo)];
    var inserts, log := Inserts(TransferEntries(req, at, currency)), [InsertAudit(TransferAudit(req, at))];
    assert TransferStatements(req, at, currency, newFrom, newTo) ==
        updates + ([InsertTransaction(row)] + (inserts + log));
    RunConcat(db, updates, [InsertTransaction(row)] + (inserts + log));
    RunUpdates(db, req.fromId, newFrom, req.toId, newTo);
    if newFrom >= 0 && newTo >= 0 {
      var v1 := db.(accounts := SetBalanceOf(SetBalanceOf(db.accounts, req.fromId, newFrom), req.toId, newTo));
      RunRecord(v1, row, TransferEntries(req, at, currency), TransferAudit(req, at));
    }
  }

  /** The statements that follow the updates: the transaction row, its entries, and the audit row. */
  lemma RunRecord(view: Database, row: Transaction, entries: seq<Entry>, event: AuditRow)
    requires row.amount > 0
    ensures RunStatements(view, [InsertTransaction(row)] + (Inserts(entries) + [InsertAudit(event)])) ==
            if IsTaken(view, row) then Err(Postgres(UniqueViolation))
            else if exists i | 0 <= i < |entries| :: entries[i].amount == 0 then Err(Postgres(CheckViolation))
            else Ok(view.(transactions := view.transactions + [row],
                          ledger := view.ledger + entries,
                          audit := view.audit + [event]))
  {
    RunConcat(view, [InsertTransaction(row)], Inserts(entries) + [InsertAudit(event)]);
    RunRow(view, row);
    if !IsTaken(view, row) {
      var v2 := view.(transactions := view.transactions + [row]);
      RunConcat(v2, Inserts(entries), [InsertAudit(event)]);
      RunInserts(v2, entries);
      RunAudit(v2.(ledger := v2.ledger + entries), event);
    }
  }

  lemma RunRow(view: Database, row: Transaction)
    requires row.amount > 0
    ensures RunStatements(view, [InsertTransaction(row)]) ==
            if IsTaken(view, row) then Err(Postgres(UniqueViolation))
            else Ok(view.(transactions := view.transactions + [row]))
  {
  }

  lemma RunAudit(view: Database, event: AuditRow)
    ensures RunStatements(view, [InsertAudit(event)]) == Ok(view.(audit := view.audit + [event]))
  {
  }

  lemma TransferLocks(db: Database, req: TransferRequest, at: Attempt)
    ensures Solo(db, TransferLeft(req, at), 2).writes == []
    ensures Solo(db, TransferLeft(req, at), 2).proc ==
            if req.fromId !in db.accounts || req.toId !in db.accounts then Failed(NoRows)
            else AfterTransferLocks(req, at, db.accounts[req.fromId], db.accounts[req.toId])
  {
    hide AfterTransferLocks, Leq;
    var start := TransferLeft(req, at);
    assert Solo(db, start, 1) == Advance(db, Solo(db, start, 0));
    assert Solo(db, start, 2) == Advance(db, Solo(db, start, 1));
  }

  lemma TransferAgrees(db: Database, req: TransferRequest, at: Attempt)
    requires 0 < req.amount && Int64.Fits(req.amount)
    ensures Agrees(db, Solo(db, TransferLeft(req, at), 9), RunTransfer(db, req, at))
  {
    hide Advance, RunStatements;
    TransferLocks(db, req, at);
    var start := TransferLeft(req, at);
    var tx := Solo(db, start, 2);
    if tx.proc.Failed? {
      EndedStays(db, start, 2, 9);
    } else {
      var source := db.accounts[req.fromId];
      var (newFrom, newTo) := PlanTransfer(req, source, db.accounts[req.toId]).value;
      IssueRuns(db, start, 2, tx.proc.statements, tx.proc.next);
      RunTransferStatements(db, req, at, source.currency, newFrom, newTo);
      assert |tx.proc.statements| == 6;
    }
  }

  // --------------------------------------------------------------- Exchange

  lemma RunExchangeUpdates(
    db: Database, req: ExchangeRequest, plan: Plan, systemFromId: string, systemToId: string, system: (int, int))
    requires {req.fromId, req.toId, systemFromId, systemToId} <= db.accounts.Keys
    ensures RunStatements(db, ExchangeUpdates(req, plan, systemFromId, systemToId, system)) ==
            if plan.newFrom < 0 || plan.newTo < 0 || system.0 < 0 || system.1 < 0 then Err(Postgres(CheckViolation))
            else Ok(db.(accounts := ExchangedAccounts(db.accounts, req, plan, systemFromId, systemToId, system)))
  {
    hide Outcome, RunStatements;
    var first := [UpdateBalance(req.fromId, plan.newFrom), UpdateBalance(req.toId, plan.newTo)];
    var second := [UpdateBalance(systemFromId, system.0), UpdateBalance(systemToId, system.1)];
    RunConcat(db, first, second);
    RunUpdates(db, req.fromId, plan.newFrom, req.toId, plan.newTo);
    if plan.newFrom >= 0 && plan.newTo >= 0 {
      var view :=
          db.(accounts := SetBalanceOf(SetBalanceOf(db.accounts, req.fromId, plan.newFrom), req.toId, plan.newTo));
      RunUpdates(view, systemFromId, system.0, systemToId, system.1);
    }
  }

  lemma RunConsume(view: Database, terms: Terms, now: int)
    ensures RunStatements(view, ConsumeStatements(terms, now)) ==
            if terms.quoteId != "" && !Redeemable(view, terms.quoteId, now) then Err(QuoteConsumed)
            else if terms.quoteId == "" then Ok(view)
            else Ok(view.(quotes := ConsumedQuotes(view.quotes, terms.quoteId, now)))
  {
  }

  lemma RunExchangeStatements(
    db: Database, req: ExchangeRequest, terms: Terms, at: Attempt, plan: Plan, systemFromId: string, systemToId: string,
    system: (int, int))
    requires {req.fromId, req.toId, systemFromId, systemToId} <= db.accounts.Keys
    requires 0 < req.amount && Int64.Fits(req.amount) && Int64.Fits(plan.converted)
    requires PlanSystem(req, plan, db.accounts[systemFromId], db.accounts[systemToId]) == Ok(system)
    ensures var run := RunStatements(db, ExchangeStatements(req, terms, at, plan, systemFromId, systemToId, system));
            var settled := SettleExchange(db, req, terms, at, plan, systemFromId, systemToId);
            run == if settled.Err? then Err(settled.error) else Ok(settled.value.0)
  {
    hide Outcome, RunStatements, IsTaken, ConsumeStatements, ExchangeAudit;
    var row, entries := ExchangeRow(req, terms, at, plan), ExchangeEntries(req, at, plan, systemFromId, systemToId);
    var updates := ExchangeUpdates(req, plan, systemFromId, systemToId, system);
    var record := [InsertTransaction(row)] + (Inserts(entries) + [InsertAudit(ExchangeAudit(req, at))]);
    var consume := ConsumeStatements(terms, at.now);
    assert ExchangeStatements(req, terms, at, plan, systemFromId, systemToId, system) == updates + (record + consume);
    RunConcat(db, updates, record + consume);
    RunExchangeUpdates(db, req, plan, systemFromId, systemToId, system);
    if plan.newFrom >= 0 && plan.newTo >= 0 && system.0 >= 0 {
      var v1 := db.(accounts := ExchangedAccounts(db.accounts, req, plan, systemFromId, systemToId, system));
      RunConcat(v1, record, consume);
      RunRecord(v1, row, entries, ExchangeAudit(req, at));
      TakenOnly(db, v1, row);
      NonZeroEntries(req, at, plan, systemFromId, systemToId);
      if !IsTaken(v1, row) && plan.converted != 0 {
        var v2 := v1.(transactions := v1.transactions + [row],
                      ledger := v1.ledger + entries,
                      audit := v1.audit + [ExchangeAudit(req, at)]);
        RunConsume(v2, terms, at.now);
      }
    }
  }

  lemma TakenOnly(a: Database, b: Database, row: Transaction)
    requires a.transactions == b.transactions
    ensures IsTaken(a, row) == IsTaken(b, row)
  {
  }

  lemma NonZeroEntries(req: ExchangeRequest, at: Attempt, plan: Plan, systemFromId: string, systemToId: string)
    requires 0 < req.amount && Int64.Fits(req.amount) && Int64.Fits(plan.converted)
    ensures var entries := ExchangeEntries(req, at, plan, systemFromId, systemToId);
            (exists i | 0 <= i < |entries| :: entries[i].amount == 0) <==> plan.converted == 0
  {
    var entries := ExchangeEntries(req, at, plan, systemFromId, systemToId);
    assert entries[3].amount == plan.converted;
    assert entries[2].amount == Int64.Wrap(-plan.converted);
  }

  lemma ExchangeLocks(db: Database, req: ExchangeRequest, terms: Terms, at: Attempt)
    ensures Solo(db, ExchangeLeft(req, terms, at), 2).writes == []
    ensures Solo(db, ExchangeLeft(req, terms, at), 2).proc ==
            if req.fromId !in db.accounts || req.toId !in db.accounts then Failed(NoRows)
            else AfterExchangeLocks(req, terms, at, db.accounts[req.fromId], db.accounts[req.toId])
  {
    hide AfterExchangeLocks, Leq;
    var start := ExchangeLeft(req, terms, at);
    assert Solo(db, start, 1) == Advance(db, Solo(db, start, 0));
    assert Solo(db, start, 2) == Advance(db, Solo(db, start, 1));
  }

  lemma SystemLocks(db: Database, start: Proc, n: nat, req: ExchangeRequest, terms: Terms, at: Attempt, plan: Plan)
    requires Solo(db, start, n).proc == FindSystemFrom(req, terms, at, plan) && Solo(db, start, n).writes == []
    ensures Solo(db, start, n + 4).writes == []
    ensures var systemFrom, systemTo :=
            SystemAccount(db.accounts, plan.source), SystemAccount(db.accounts, plan.target);
            Solo(db, start, n + 4).proc ==
            if systemFrom.None? || systemTo.None? then Failed(NoRows)
            else AfterSystemLocks(req, terms, at, plan, systemFrom.value, systemTo.value, db.accounts[systemFrom.value],
                db.accounts[systemTo.value])
  {
    hide AfterSystemLocks, Leq, Advance;
    assert Solo(db, start, n + 1) == Advance(db, Solo(db, start, n));
    assert Solo(db, start, n + 2) == Advance(db, Solo(db, start, n + 1));
    assert Solo(db, start, n + 3) == Advance(db, Solo(db, start, n + 2));
    assert Solo(db, start, n + 4) == Advance(db, Solo(db, start, n + 3));
    QuietStep(db, Solo(db, start, n));
    QuietStep(db, Solo(db, start, n + 1));
    QuietStep(db, Solo(db, start, n + 2));
    QuietStep(db, Solo(db, start, n + 3));
  }

  /** Outside an `Issue` nothing is written, and an empty buffer shows the database itself. */
  lemma QuietStep(db: Database, tx: Tx)
    requires !tx.proc.Issue? && tx.writes == []
    ensures Advance(db, tx).writes == [] && Advance(db, tx).proc == Next(db, db, tx.proc).0
  {
  }

  lemma ExchangeAgrees(db: Database, req: ExchangeRequest, terms: Terms, at: Attempt)
    requires 0 < req.amount && Int64.Fits(req.amount)
    ensures Agrees(db, Solo(db, ExchangeLeft(req, terms, at), 18), RunExchange(db, req, terms, at))
  {
    hide Advance, RunStatements, PlanExchange, SettleExchange, PlanSystem, RunExchange, SystemAccount, Solo, ApplyAll,
        ExchangeStatements;
    ExchangeLocks(db, req, terms, at);
    ExchangeCases(db, req, terms, at);
    var start := ExchangeLeft(req, terms, at);
    if Solo(db, start, 2).proc.Failed? {
      EndedStays(db, start, 2, 18);
    } else {
      var plan := PlanExchange(req, terms, db.accounts[req.fromId], db.accounts[req.toId]).value;
      SystemLocks(db, start, 2, req, terms, at, plan);
      if Solo(db, start, 6).proc.Failed? {
        EndedStays(db, start, 6, 18);
        FailedLocks(db, req, terms, at, plan);
      } else {
        SettledSteps(db, start, req, terms, at, plan, SystemAccount(db.accounts, plan.source).value,
                     SystemAccount(db.accounts, plan.target).value);
      }
    }
  }

  /** The exchange by what its two locked rows allow. */
  lemma ExchangeCases(db: Database, req: ExchangeRequest, terms: Terms, at: Attempt)
    ensures req.fromId !in db.accounts || req.toId !in db.accounts ==> RunExchange(db, req, terms, at) == Err(NoRows)
    ensures req.fromId in db.accounts && req.toId in db.accounts ==>
              var plan := PlanExchange(req, terms, db.accounts[req.fromId], db.accounts[req.toId]);
              if plan.Err? then RunExchange(db, req, terms, at) == Err(plan.error)
              else
                var systemFrom, systemTo :=
                    SystemAccount(db.accounts, plan.value.source), SystemAccount(db.accounts, plan.value.target);
                systemFrom.Some? && systemTo.Some? ==>
                  RunExchange(db, req, terms, at) ==
                      SettleExchange(db, req, terms, at, plan.value, systemFrom.value, systemTo.value)
  {
    hide PlanExchange, SettleExchange;
  }

  lemma FailedLocks(db: Database, req: ExchangeRequest, terms: Terms, at: Attempt, plan: Plan)
    requires req.fromId in db.accounts && req.toId in db.accounts
    requires PlanExchange(req, terms, db.accounts[req.fromId], db.accounts[req.toId]) == Ok(plan)
    requires var systemFrom, systemTo :=
             SystemAccount(db.accounts, plan.source), SystemAccount(db.accounts, plan.target);
             systemFrom.None? || systemTo.None?
                 || PlanSystem(req, plan, db.accounts[systemFrom.value], db.accounts[systemTo.value]).Err?
    ensures var systemFrom, systemTo :=
            SystemAccount(db.accounts, plan.source), SystemAccount(db.accounts, plan.target);
            RunExchange(db, req, terms, at) ==
            if systemFrom.None? || systemTo.None? then Err(NoRows)
            else Err(PlanSystem(req, plan, db.accounts[systemFrom.value], db.accounts[systemTo.value]).error)
  {
  }

  lemma PlanFits(req: ExchangeRequest, terms: Terms, source: Account, target: Account)
    requires PlanExchange(req, terms, source, target).Ok?
    ensures Int64.Fits(PlanExchange(req, terms, source, target).value.converted)
  {
    ConvertMinorIsConverted(req.amount, DirectionalRate(source.currency, target.currency));
  }

  lemma SettledSteps(
    db: Database, start: Proc, req: ExchangeRequest, terms: Terms, at: Attempt, plan: Plan, systemFromId: string,
    systemToId: string)
    requires {req.fromId, req.toId, systemFromId, systemToId} <= db.accounts.Keys
    requires 0 < req.amount && Int64.Fits(req.amount)
    requires PlanExchange(req, terms, db.accounts[req.fromId], db.accounts[req.toId]) == Ok(plan)
    requires Solo(db, start, 6).writes == []
    requires Solo(db, start, 6).proc ==
             AfterSystemLocks(req, terms, at, plan, systemFromId, systemToId, db.accounts[systemFromId],
                 db.accounts[systemToId])
    requires Solo(db, start, 6).proc.Issue?
    ensures Agrees(db, Solo(db, start, 18), SettleExchange(db, req, terms, at, plan, systemFromId, systemToId))
  {
    hide Advance, RunStatements, SettleExchange, PlanExchange, ExchangeStatements, ApplyAll;
    var tx := Solo(db, start, 6);
    var system := PlanSystem(req, plan, db.accounts[systemFromId], db.accounts[systemToId]).value;
    EmptyView(db);
    PlanFits(req, terms, db.accounts[req.fromId], db.accounts[req.toId]);
    RunExchangeStatements(db, req, terms, at, plan, systemFromId, systemToId, system);
    ExchangeLength(req, terms, at, plan, systemFromId, systemToId, system);
    IssueRuns(db, start, 6, tx.proc.statements, tx.proc.next);
    SettledReceipt(db, req, terms, at, plan, systemFromId, systemToId);
    EndedStays(db, start, 6 + |tx.proc.statements| + 1, 18);
  }

  lemma EmptyView(db: Database)
    ensures ApplyAll(db, []) == db
  {
  }

  lemma ExchangeLength(
    req: ExchangeRequest, terms: Terms, at: Attempt, plan: Plan, systemFromId: string, systemToId: string,
    system: (int, int))
    ensures 10 <= |ExchangeStatements(req, terms, at, plan, systemFromId, systemToId, system)| <= 11
  {
  }

  lemma SettledReceipt(
    db: Database, req: ExchangeRequest, terms: Terms, at: Attempt, plan: Plan, systemFromId: string, systemToId: string)
    requires systemFromId in db.accounts && systemToId in db.accounts
    ensures var settled := SettleExchange(db, req, terms, at, plan, systemFromId, systemToId);
            settled.Ok? ==>
                settled.value.1 == ExchangeReceipt(at.txId, plan.newFrom, plan.newTo, plan.source, plan.target)
  {
  }

  // --------------------------------------------------------------- Register

  lemma RunOpeningStatements(
    view: Database, reg: Registration, txId: string, systemId: string, accountId: string, currency: Currency,
    amount: int)
    requires systemId in view.accounts && amount > 0
    ensures RunStatements(view, OpeningStatements(reg, txId, systemId, accountId, currency, amount)) ==
            RunOpening(view, reg, txId, systemId, accountId, currency, amount)
  {
    hide Outcome, RunStatements, IsTaken;
    var row, entries :=
        OpeningRow(reg, txId, systemId, accountId, currency, amount),
        OpeningEntries(txId, systemId, accountId, currency, amount);
    var adjust := [AdjustBalance(systemId, -amount)];
    assert OpeningStatements(reg, txId, systemId, accountId, currency, amount) ==
        [InsertTransaction(row)] + (Inserts(entries) + adjust);
    RunConcat(view, [InsertTransaction(row)], Inserts(entries) + adjust);
    RunRow(view, row);
    if !IsTaken(view, row) {
      var v1 := view.(transactions := view.transactions + [row]);
      RunConcat(v1, Inserts(entries), adjust);
      RunInserts(v1, entries);
      RunAdjust(v1.(ledger := v1.ledger + entries), systemId, -amount);
    }
  }

  lemma RunAdjust(view: Database, id: string, delta: int)
    requires id in view.accounts
    ensures var balance := view.accounts[id].balance + delta;
            RunStatements(view, [AdjustBalance(id, delta)]) ==
            if !Int64.Fits(balance) then Err(Postgres(OutOfRange))
            else if balance < 0 then Err(Postgres(CheckViolation))
            else Ok(view.(accounts := SetBalanceOf(view.accounts, id, balance)))
  {
  }

  /** The user and the two accounts; none of them may exist yet. */
  lemma RunRegisterStatements(db: Database, reg: Registration, at: Attempt)
    ensures RunStatements(db, RegisterStatements(reg, at)) ==
            if Conflicts(db, reg, at) then Err(Postgres(UniqueViolation)) else Ok(WithAccounts(db, reg, at))
  {
    hide RunStatements;
    var user, usd, eur := InsertUser(RegisteredUser(reg)), InsertAccount(at.usdId, reg.userId, USD, OPENING_USD),
        InsertAccount(at.eurId, reg.userId, EUR, OPENING_EUR);
    assert RegisterStatements(reg, at) == [user] + ([usd] + [eur]);
    RunConcat(db, [user], [usd] + [eur]);
    RunOne(db, user);
    var v1 := db.(users := db.users + [RegisteredUser(reg)]);
    RunConcat(v1, [usd], [eur]);
    RunOne(v1, usd);
    RunOne(v1.(accounts := v1.accounts[at.usdId := Account(Some(reg.userId), USD, OPENING_USD, false)]), eur);
  }

  lemma OpeningStep(db: Database, start: Proc, n: nat, reg: Registration, at: Attempt, currency: Currency)
    requires Solo(db, start, n).proc == Opening(reg, at, currency)
    ensures Solo(db, start, n + 1).writes == Solo(db, start, n).writes
    ensures Solo(db, start, n + 1).proc == Next(db, db, Opening(reg, at, currency)).0
  {
  }

  lemma RegisterAgrees(db: Database, reg: Registration, at: Attempt)
    ensures Agrees(db, Solo(db, Start(RegisterOp(reg), at), 17), RunRegister(db, reg, at))
  {
    hide Advance, RunStatements, WithAccounts, RunOpening;
    var start := Issue(RegisterStatements(reg, at), Opening(reg, at, USD));
    EmptyView(db);
    IssueRuns(db, start, 0, RegisterStatements(reg, at), Opening(reg, at, USD));
    RunRegisterStatements(db, reg, at);
    if Solo(db, start, 4).proc.Failed? {
      EndedStays(db, start, 4, 17);
    } else {
      OpeningStep(db, start, 4, reg, at, USD);
      RegisterUsd(db, start, reg, at);
    }
  }

  lemma RegisterUsd(db: Database, start: Proc, reg: Registration, at: Attempt)
    requires Solo(db, start, 5).proc == Next(db, db, Opening(reg, at, USD)).0
    requires ApplyAll(db, Solo(db, start, 5).writes) == WithAccounts(db, reg, at)
    requires !Conflicts(db, reg, at)
    ensures Agrees(db, Solo(db, start, 17), RunRegister(db, reg, at))
  {
    hide Advance, RunStatements, RunOpening;
    var systemUsd := SystemAccount(db.accounts, USD);
    if systemUsd.None? {
      EndedStays(db, start, 5, 17);
    } else {
      var view := WithAccounts(db, reg, at);
      IssueRuns(db, start, 5, OpeningStatements(reg, at.txId, systemUsd.value, at.usdId, USD, OPENING_USD),
          Opening(reg, at, EUR));
      RunOpeningStatements(view, reg, at.txId, systemUsd.value, at.usdId, USD, OPENING_USD);
      if Solo(db, start, 10).proc.Failed? {
        EndedStays(db, start, 10, 17);
      } else {
        OpeningStep(db, start, 10, reg, at, EUR);
        OpeningKeepsKeys(view, reg, at.txId, systemUsd.value, at.usdId, USD, OPENING_USD);
        RegisterEur(db, start, reg, at,
            RunOpening(view, reg, at.txId, systemUsd.value, at.usdId, USD, OPENING_USD).value);
      }
    }
  }

  lemma OpeningKeepsKeys(
    view: Database, reg: Registration, txId: string, systemId: string, accountId: string, currency: Currency,
    amount: int)
    requires systemId in view.accounts && amount > 0
    requires RunOpening(view, reg, txId, systemId, accountId, currency, amount).Ok?
    ensures RunOpening(view, reg, txId, systemId, accountId, currency, amount).value.accounts.Keys == view.accounts.Keys
  {
  }

  lemma RegisterEur(db: Database, start: Proc, reg: Registration, at: Attempt, afterUsd: Database)
    requires Solo(db, start, 11).proc == Next(db, db, Opening(reg, at, EUR)).0
    requires ApplyAll(db, Solo(db, start, 11).writes) == afterUsd
    requires db.accounts.Keys <= afterUsd.accounts.Keys
    ensures var systemEur := SystemAccount(db.accounts, EUR);
            if systemEur.None? then Solo(db, start, 17).proc == Failed(NoRows)
            else
              var afterEur := RunOpening(afterUsd, reg, at.txId2, systemEur.value, at.eurId, EUR, OPENING_EUR);
              if afterEur.Err? then Solo(db, start, 17).proc == Failed(afterEur.error)
              else && Solo(db, start, 17).proc == Succeeded(RegisterReceipt(reg.userId))
                   && ApplyAll(db, Solo(db, start, 17).writes) ==
                        afterEur.value.(audit := afterEur.value.audit + [AuditRow(reg.userId, "register", reg.userId)])
  {
    hide Advance, RunStatements, RunOpening;
    var systemEur := SystemAccount(db.accounts, EUR);
    if systemEur.None? {
      EndedStays(db, start, 11, 17);
    } else {
      var opening := OpeningStatements(reg, at.txId2, systemEur.value, at.eurId, EUR, OPENING_EUR);
      var log := [InsertAudit(AuditRow(reg.userId, "register", reg.userId))];
      IssueRuns(db, start, 11, opening + log, Succeeded(RegisterReceipt(reg.userId)));
      assert 11 + |opening + log| + 1 == 17;
      RunConcat(afterUsd, opening, log);
      RunOpeningStatements(afterUsd, reg, at.txId2, systemEur.value, at.eurId, EUR, OPENING_EUR);
      var afterEur := RunOpening(afterUsd, reg, at.txId2, systemEur.value, at.eurId, EUR, OPENING_EUR);
      if afterEur.Ok? {
        RunAudit(afterEur.value, AuditRow(reg.userId, "register", reg.userId));
      }
    }
  }

  // --------------------------------------------------------------- every operation

  /** Amounts are positive 64-bit integers once admitted. */
  predicate AmountFits(op: Operation) {
    match op
    case TransferOp(req) => 0 < req.amount && Int64.Fits(req.amount)
    case ExchangeOp(req, _) => 0 < req.amount && Int64.Fits(req.amount)
    case RegisterOp(_) => true
  }

  /** Every body ends within 18 steps. */
  lemma BodyEnds(db: Database, op: Operation, at: Attempt)
    requires AmountFits(op)
    ensures Agrees(db, Solo(db, Start(op, at), 18), RunOperation(db, op, at)) && Ended(Solo(db, Start(op, at), 18).proc)
  {
    hide Advance, RunTransfer, RunExchange, RunRegister;
    match op
    case TransferOp(req) =>
      TransferAgrees(db, req, at);
      EndedStays(db, Start(op, at), 9, 18);
    case ExchangeOp(req, terms) =>
      ExchangeAgrees(db, req, terms, at);
    case RegisterOp(reg) =>
      RegisterAgrees(db, reg, at);
      EndedStays(db, Start(op, at), 17, 18);
  }

  /** A body that has ended, after however many steps, did what the operation run as a whole does. */
  lemma SoloIsOperation(db: Database, op: Operation, at: Attempt, n: nat)
    requires AmountFits(op) && Ended(Solo(db, Start(op, at), n).proc)
    ensures Agrees(db, Solo(db, Start(op, at), n), RunOperation(db, op, at))
  {
    hide Advance, RunOperation, Start;
    BodyEnds(db, op, at);
    if n <= 18 {
      EndedStays(db, Start(op, at), n, 18);
    } else {
      EndedStays(db, Start(op, at), 18, n);
    }
  }
}
