/**
 Many clients against one database: each runs its operation through the retrying transaction runner,
 one statement at a time, holding every key it has touched until it commits or rolls back
 (internal/db/db.go:42-67 around the bodies of Programs).
 */
module Interleaved {
  import opened Wrappers
  import opened Tables
  import opened Engine
  import opened Programs
  import opened Bodies
  import opened Books
  import opened Histories
  import Int64

  const MAX_ATTEMPTS: nat := 5

  /** `isRetryablePGError`: serialization failures and deadlocks. */
  predicate Retryable(e: Error) {
    e == Postgres(SerializationFailure) || e == Postgres(DeadlockDetected)
  }

  datatype Request =
    | TransferRequested(transfer: TransferRequest)
    | ExchangeRequested(exchange: ExchangeRequest)
    | RegisterRequested(registration: Registration)

  /** A client's call: between attempts, inside one, or returned. `steps` counts the attempt's steps so far. */
  datatype Session =
    | Ready(op: Operation, attempt: nat)
    | Open(op: Operation, attempt: nat, at: Attempt, tx: Tx, steps: nat)
    | Returned(result: Result<Receipt, Error>)

  /** What has been committed, in order: operations and issued quotes. */
  datatype Event =
    | Committed(client: nat, op: Operation, at: Attempt, receipt: Receipt)
    | Quoted(quoteId: string, request: QuoteRequest, now: int)

  datatype System = System(committed: Database, clock: nat, sessions: map<nat, Session>, log: seq<Event>)

  /**
   What can happen next. A `Fault` strikes where the database can fail: when an attempt begins, which
   returns the error at once, or at any statement and at the commit, which rolls back and may be retried.
   */
  datatype Action =
    | Submit(client: nat, request: Request)
    | Begin(client: nat, at: Attempt)
    | Step(client: nat)
    | Settle(client: nat)
    | Fault(client: nat, error: Error)
    | IssueQuote(quoteId: string, quote: QuoteRequest)
    | Tick

  /** The checks made before the transaction runner is entered. */
  function Admit(db: Database, clock: nat, request: Request): Session {
    match request
    case TransferRequested(req) =>
      var e := AdmitTransfer(req);
      if e.Some? then Returned(Err(e.value)) else Ready(TransferOp(req), 1)
    case ExchangeRequested(req) =>
      var terms := AdmitExchange(db, req, clock);
      if terms.Err? then Returned(Err(terms.error)) else Ready(ExchangeOp(req, terms.value), 1)
    case RegisterRequested(reg) => Ready(RegisterOp(reg), 1)
  }

  /** After a failed attempt: another one for a retryable error while any is left, else the error. */
  function Retry(op: Operation, attempt: nat, error: Error): Session {
    if Retryable(error) && attempt < MAX_ATTEMPTS then Ready(op, attempt + 1) else Returned(Err(error))
  }

  /** The keys other clients hold. */
  predicate HeldByOther(sessions: map<nat, Session>, client: nat, key: Key) {
    exists c | c in sessions :: c != client && sessions[c].Open? && key in sessions[c].tx.held
  }

  predicate HeldByAny(sessions: map<nat, Session>, key: Key) {
    exists c | c in sessions :: sessions[c].Open? && key in sessions[c].tx.held
  }

  /** A step runs when every key it needs is free or its own; otherwise the client waits. */
  predicate CanStep(sessions: map<nat, Session>, client: nat, tx: Tx) {
    forall k | k in Needs(tx.proc) :: !HeldByOther(sessions, client, k)
  }

  /** Amounts on the wire are 64-bit. */
  predicate RequestFits(request: Request) {
    match request
    case TransferRequested(req) => Int64.Fits(req.amount)
    case ExchangeRequested(req) => Int64.Fits(req.amount)
    case RegisterRequested(_) => true
  }

  predicate Enabled(s: System, a: Action) {
    match a
    case Submit(c, request) => c !in s.sessions && RequestFits(request)
    case Begin(c, at) => c in s.sessions && s.sessions[c].Ready? && at.now == s.clock
    case Step(c) => c in s.sessions && s.sessions[c].Open? && CanStep(s.sessions, c, s.sessions[c].tx)
    case Settle(c) => c in s.sessions && s.sessions[c].Open? && Ended(s.sessions[c].tx.proc)
    case Fault(c, _) => c in s.sessions && !s.sessions[c].Returned?
    case IssueQuote(q, req) => Int64.Fits(req.amount) && !HeldByAny(s.sessions, QuoteRow(q))
    case Tick => true
  }

  /** Commit publishes the writes and returns; an error rolls back, which drops the writes and the keys. */
  ghost function SettleSession(s: System, c: nat): System
    requires c in s.sessions && s.sessions[c].Open? && Ended(s.sessions[c].tx.proc)
  {
    var session := s.sessions[c];
    match session.tx.proc
    case Failed(error) => s.(sessions := s.sessions[c := Retry(session.op, session.attempt, error)])
    case Succeeded(receipt) =>
      s.(committed := ApplyAll(s.committed, session.tx.writes),
         sessions := s.sessions[c := Returned(Ok(receipt))],
         log := s.log + [Committed(c, session.op, session.at, receipt)])
  }

  ghost function QuoteStep(s: System, q: string, req: QuoteRequest): System {
    var r := RunQuote(s.committed, q, req, s.clock);
    if r.Err? then s else s.(committed := r.value, log := s.log + [Quoted(q, req, s.clock)])
  }

  ghost function Do(s: System, a: Action): System
    requires Enabled(s, a)
  {
    match a
    case Submit(c, request) => s.(sessions := s.sessions[c := Admit(s.committed, s.clock, request)])
    case Begin(c, at) =>
      var session := s.sessions[c];
      s.(sessions := s.sessions[c := Open(session.op, session.attempt, at, Tx(Start(session.op, at), [], {}), 0)])
    case Step(c) =>
      var session := s.sessions[c];
      s.(sessions := s.sessions[c := session.(tx := Advance(s.committed, session.tx), steps := session.steps + 1)])
    case Settle(c) => SettleSession(s, c)
    case Fault(c, error) =>
      var session := s.sessions[c];
      var next := if session.Open? then Retry(session.op, session.attempt, error) else Returned(Err(error));
      s.(sessions := s.sessions[c := next])
    case IssueQuote(q, req) => QuoteStep(s, q, req)
    case Tick => s.(clock := s.clock + 1)
  }

  /** Any schedule: an action that is not enabled when its turn comes is passed over. */
  ghost function Run(s: System, actions: seq<Action>): System {
    if actions == [] then s
    else
      var before := Run(s, actions[..|actions| - 1]);
      var a := actions[|actions| - 1];
      if Enabled(before, a) then Do(before, a) else before
  }

  // --------------------------------------------------------------- the serial reading of the log

  ghost function ApplyEvent(db: Database, e: Event): Option<Database> {
    match e
    case Committed(_, op, at, receipt) =>
      var r := RunOperation(db, op, at);
      if r.Ok? && r.value.1 == receipt then Some(r.value.0) else None
    case Quoted(q, req, now) =>
      var r := RunQuote(db, q, req, now);
      if r.Ok? then Some(r.value) else None
  }

  /** The committed events run one at a time, each alone and each succeeding with the receipt it gave. */
  ghost function Replay(db: Database, log: seq<Event>): Option<Database> {
    if log == [] then Some(db)
    else
      var before := Replay(db, log[..|log| - 1]);
      if before.None? then None else ApplyEvent(before.value, log[|log| - 1])
  }

  // --------------------------------------------------------------- the invariant

  ghost predicate OpReady(db: Database, op: Operation) {
    AmountFits(op)
    && (op.TransferOp? ==> AdmitTransfer(op.transfer).None?)
    && (op.ExchangeOp? ==> TermsMatch(db, op.exchange, op.terms))
  }

  /** An open transaction stands where its body would stand after as many steps alone on the committed database. */
  ghost predicate SessionSound(db: Database, session: Session) {
    match session
    case Ready(op, attempt) => OpReady(db, op) && 1 <= attempt <= MAX_ATTEMPTS
    case Open(op, attempt, at, tx, steps) =>
      OpReady(db, op) && 1 <= attempt <= MAX_ATTEMPTS && tx == Solo(db, Start(op, at), steps)
    case Returned(_) => true
  }

  ghost predicate KeysDisjoint(sessions: map<nat, Session>) {
    forall c, d | c in sessions && d in sessions && c != d && sessions[c].Open? && sessions[d].Open? ::
      sessions[c].tx.held !! sessions[d].tx.held
  }

  /** A client has one committed event when it returned a receipt, that receipt's, and otherwise none. */
  ghost predicate LogMatches(s: System) {
    && (forall i | 0 <= i < |s.log| && s.log[i].Committed? ::
         s.log[i].client in s.sessions && s.sessions[s.log[i].client] == Returned(Ok(s.log[i].receipt)))
    && (forall i, j | 0 <= i < j < |s.log| && s.log[i].Committed? && s.log[j].Committed? ::
         s.log[i].client != s.log[j].client)
    && (forall c | c in s.sessions && s.sessions[c].Returned? && s.sessions[c].result.Ok? ::
          exists i | 0 <= i < |s.log| :: s.log[i].Committed? && s.log[i].client == c)
  }

  ghost predicate Inv(start: Database, s: System) {
    && SystemAccountsSet(s.committed.accounts)
    && (forall c | c in s.sessions :: SessionSound(s.committed, s.sessions[c]))
    && KeysDisjoint(s.sessions)
    && Replay(start, s.log) == Some(s.committed)
    && LogMatches(s)
  }

  ghost predicate Fresh(start: Database, s: System) {
    s.committed == start && s.sessions == map[] && s.log == []
  }

  lemma FreshIsInv(start: Database, s: System)
    requires Fresh(start, s) && SystemAccountsSet(start.accounts)
    ensures Inv(start, s)
  {
  }

  // --------------------------------------------------------------- a commit seen by the others

  lemma TermsStay(a: Database, b: Database, op: Operation)
    requires OpReady(a, op) && QuotesKept(a.quotes, b.quotes)
    ensures OpReady(b, op)
  {
  }

  /** Sessions do not notice a change to keys none of them holds. */
  lemma SessionStays(a: Database, b: Database, session: Session)
    requires SessionSound(a, session) && QuotesKept(a.quotes, b.quotes)
    requires forall c :: SystemAccount(a.accounts, c) == SystemAccount(b.accounts, c)
    requires session.Open? ==> forall k | k in session.tx.held :: Lookup(a, k) == Lookup(b, k)
    ensures SessionSound(b, session)
  {
    hide Solo, Start;
    if session.Open? {
      SoloFrame(a, b, Start(session.op, session.at), session.steps);
    }
    if !session.Returned? {
      TermsStay(a, b, session.op);
    }
  }

  /** Operations only add and consume quotes. */
  lemma OperationKeepsQuotes(db: Database, op: Operation, at: Attempt)
    requires RunOperation(db, op, at).Ok?
    ensures QuotesKept(db.quotes, RunOperation(db, op, at).value.0.quotes)
  {
    match op
    case TransferOp(req) =>
    case ExchangeOp(req, terms) =>
      hide PlanExchange;
      var d := ExchangeSettles(db, req, terms, at);
      SettlementKeepsQuotes(db, req, terms, at, d.plan, d.systemFrom, d.systemTo);
    case RegisterOp(reg) =>
  }

  lemma SettlementKeepsQuotes(
    db: Database, req: ExchangeRequest, terms: Terms, at: Attempt, plan: Plan, systemFrom: string, systemTo: string)
    requires systemFrom in db.accounts && systemTo in db.accounts
    requires SettleExchange(db, req, terms, at, plan, systemFrom, systemTo).Ok?
    ensures QuotesKept(db.quotes, SettleExchange(db, req, terms, at, plan, systemFrom, systemTo).value.0.quotes)
  {
  }

  /** What a commit publishes is what the operation does to the committed database when run alone. */
  lemma CommitIsOperation(db: Database, session: Session)
    requires SessionSound(db, session) && session.Open? && session.tx.proc.Succeeded?
    ensures RunOperation(db, session.op, session.at) == Ok((ApplyAll(db, session.tx.writes), session.tx.proc.receipt))
  {
    hide Solo, RunOperation;
    SoloIsOperation(db, session.op, session.at, session.steps);
  }

  /** Nobody else holds a key that a commit changes. */
  lemma CommitUnseen(s: System, c: nat, d: nat)
    requires c in s.sessions && d in s.sessions && c != d && KeysDisjoint(s.sessions)
    requires SessionSound(s.committed, s.sessions[c]) && s.sessions[c].Open? && s.sessions[d].Open?
    ensures forall k | k in s.sessions[d].tx.held ::
            Lookup(s.committed, k) == Lookup(ApplyAll(s.committed, s.sessions[c].tx.writes), k)
  {
    hide Solo, Lookup;
    var session := s.sessions[c];
    SoloWritesHeld(s.committed, Start(session.op, session.at), session.steps);
    forall k | k in s.sessions[d].tx.held
      ensures Lookup(s.committed, k) == Lookup(ApplyAll(s.committed, session.tx.writes), k)
    {
      assert k !in session.tx.held;
      LookupFrameAll(s.committed, session.tx.writes, k);
    }
  }

  lemma OthersStay(s: System, c: nat, after: Database)
    requires c in s.sessions && s.sessions[c].Open? && s.sessions[c].tx.proc.Succeeded?
    requires SystemAccountsSet(s.committed.accounts) && KeysDisjoint(s.sessions)
    requires forall d | d in s.sessions :: SessionSound(s.committed, s.sessions[d])
    requires after == ApplyAll(s.committed, s.sessions[c].tx.writes)
    ensures SystemAccountsSet(after.accounts)
    ensures forall d | d in s.sessions && d != c :: SessionSound(after, s.sessions[d])
  {
    hide Solo, RunOperation, Lookup, QuotesKept, SessionSound, Sound;
    ApplyAllKeepsHolders(s.committed, s.sessions[c].tx.writes);
    HoldersKeepSystem(s.committed.accounts, after.accounts);
    CommitIsOperation(s.committed, s.sessions[c]);
    OperationKeepsQuotes(s.committed, s.sessions[c].op, s.sessions[c].at);
    forall d | d in s.sessions && d != c ensures SessionSound(after, s.sessions[d]) {
      if s.sessions[d].Open? {
        CommitUnseen(s, c, d);
      }
      SessionStays(s.committed, after, s.sessions[d]);
    }
  }

  // --------------------------------------------------------------- every action keeps the invariant

  /** Changing one session that has not committed anything. */
  lemma SessionReplaced(start: Database, s: System, c: nat, session: Session)
    requires Inv(start, s) && SessionSound(s.committed, session)
    requires c !in s.sessions || s.sessions[c].Ready? || s.sessions[c].Open?
    requires session.Returned? ==> session.result.Err?
    requires session.Open? ==> forall k | k in session.tx.held :: !HeldByOther(s.sessions, c, k)
    ensures Inv(start, s.(sessions := s.sessions[c := session]))
  {
    hide SessionSound, Replay, SystemAccountsSet;
  }

  lemma ReplayAppend(db: Database, log: seq<Event>, e: Event)
    ensures Replay(db, log + [e]) == if Replay(db, log).None? then None else ApplyEvent(Replay(db, log).value, e)
  {
  }

  lemma CommitKeepsInv(start: Database, s: System, c: nat)
    requires Inv(start, s) && c in s.sessions && s.sessions[c].Open? && s.sessions[c].tx.proc.Succeeded?
    ensures Inv(start, SettleSession(s, c))
  {
    hide Solo, RunOperation, SessionSound, SystemAccountsSet, Apply;
    var session := s.sessions[c];
    var after := ApplyAll(s.committed, session.tx.writes);
    CommitIsOperation(s.committed, session);
    OthersStay(s, c, after);
    ReplayAppend(start, s.log, Committed(c, session.op, session.at, session.tx.proc.receipt));
    ReturnedSound(after, Ok(session.tx.proc.receipt));
    LogGrows(s, c);
  }

  lemma ReturnedSound(db: Database, result: Result<Receipt, Error>)
    ensures SessionSound(db, Returned(result))
  {
  }

  lemma LogGrows(s: System, c: nat)
    requires LogMatches(s) && c in s.sessions && s.sessions[c].Open? && s.sessions[c].tx.proc.Succeeded?
    ensures LogMatches(SettleSession(s, c))
  {
    var after := SettleSession(s, c);
    assert after.log[|s.log|] == Committed(c, s.sessions[c].op, s.sessions[c].at, s.sessions[c].tx.proc.receipt);
    forall d | d in after.sessions && after.sessions[d].Returned? && after.sessions[d].result.Ok?
      ensures exists i | 0 <= i < |after.log| :: after.log[i].Committed? && after.log[i].client == d
    {
      if d == c {
        assert after.log[|s.log|].client == c;
      } else {
        var i :| 0 <= i < |s.log| && s.log[i].Committed? && s.log[i].client == d;
        assert after.log[i] == s.log[i];
      }
    }
  }

  lemma QuoteKeepsInv(start: Database, s: System, q: string, req: QuoteRequest)
    requires Inv(start, s) && Enabled(s, IssueQuote(q, req))
    ensures Inv(start, QuoteStep(s, q, req))
  {
    hide SessionSound, PlanQuote, SystemAccountsSet;
    var r := RunQuote(s.committed, q, req, s.clock);
    if r.Ok? {
      ReplayAppend(start, s.log, Quoted(q, req, s.clock));
      forall c | c in s.sessions ensures SessionSound(r.value, s.sessions[c]) {
        forall k | s.sessions[c].Open? && k in s.sessions[c].tx.held
            ensures Lookup(s.committed, k) == Lookup(r.value, k) {
          assert k != QuoteRow(q);
        }
        SessionStays(s.committed, r.value, s.sessions[c]);
      }
      LogNotes(s, QuoteStep(s, q, req), Quoted(q, req, s.clock));
    }
  }

  lemma LogNotes(s: System, after: System, e: Event)
    requires LogMatches(s) && !e.Committed? && after.sessions == s.sessions && after.log == s.log + [e]
    ensures LogMatches(after)
  {
    forall d | d in after.sessions && after.sessions[d].Returned? && after.sessions[d].result.Ok?
      ensures exists i | 0 <= i < |after.log| :: after.log[i].Committed? && after.log[i].client == d
    {
      var i :| 0 <= i < |s.log| && s.log[i].Committed? && s.log[i].client == d;
      assert after.log[i] == s.log[i];
    }
  }

  /** An admitted request is ready to run. */
  lemma AdmitSound(db: Database, clock: nat, request: Request)
    requires RequestFits(request)
    ensures SessionSound(db, Admit(db, clock, request))
    ensures !Admit(db, clock, request).Open?
    ensures Admit(db, clock, request).Returned? ==> Admit(db, clock, request).result.Err?
  {
    hide AdmitExchange, TermsMatch;
    if request.ExchangeRequested? && AdmitExchange(db, request.exchange, clock).Ok? {
      AdmittedTermsMatch(db, request.exchange, clock);
    }
  }

  lemma StepKeepsInv(start: Database, s: System, c: nat)
    requires Inv(start, s) && Enabled(s, Step(c))
    ensures Inv(start, Do(s, Step(c)))
  {
    hide Next, Needs, Start;
    var session := s.sessions[c];
    AdvanceHolds(s.committed, session.tx);
    var next := session.(tx := Advance(s.committed, session.tx), steps := session.steps + 1);
    assert next.tx == Solo(s.committed, Start(session.op, session.at), next.steps);
    forall k | k in next.tx.held ensures !HeldByOther(s.sessions, c, k) {}
    SessionReplaced(start, s, c, next);
  }

  lemma DoKeepsInv(start: Database, s: System, a: Action)
    requires Inv(start, s) && Enabled(s, a)
    ensures Inv(start, Do(s, a))
  {
    hide Advance, Solo, Admit, ApplyAll, RunQuote, Replay, SystemAccountsSet;
    match a
    case Submit(c, request) =>
      AdmitSound(s.committed, s.clock, request);
      SessionReplaced(start, s, c, Admit(s.committed, s.clock, request));
    case Begin(c, at) =>
      BeginSound(s.committed, s.sessions[c], at);
      SessionReplaced(start, s, c,
          Open(s.sessions[c].op, s.sessions[c].attempt, at, Tx(Start(s.sessions[c].op, at), [], {}), 0));
    case Step(c) => StepKeepsInv(start, s, c);
    case Settle(c) =>
      if s.sessions[c].tx.proc.Succeeded? {
        CommitKeepsInv(start, s, c);
      } else {
        SessionReplaced(start, s, c, Retry(s.sessions[c].op, s.sessions[c].attempt, s.sessions[c].tx.proc.error));
      }
    case Fault(c, error) =>
      var session := s.sessions[c];
      SessionReplaced(start, s, c,
          if session.Open? then Retry(session.op, session.attempt, error) else Returned(Err(error)));
    case IssueQuote(q, req) => QuoteKeepsInv(start, s, q, req);
    case Tick =>
  }

  lemma BeginSound(db: Database, session: Session, at: Attempt)
    requires SessionSound(db, session) && session.Ready?
    ensures SessionSound(db, Open(session.op, session.attempt, at, Tx(Start(session.op, at), [], {}), 0))
  {
  }

  /** Every reachable state satisfies the invariant, whatever the schedule. */
  lemma {:induction false} RunKeepsInv(s: System, actions: seq<Action>)
    requires Fresh(s.committed, s) && SystemAccountsSet(s.committed.accounts)
    ensures Inv(s.committed, Run(s, actions))
  {
    hide Do, Inv, Enabled;
    if actions == [] {
      FreshIsInv(s.committed, s);
    } else {
      var before := Run(s, actions[..|actions| - 1]);
      RunKeepsInv(s, actions[..|actions| - 1]);
      if Enabled(before, actions[|actions| - 1]) {
        DoKeepsInv(s.committed, before, actions[|actions| - 1]);
      }
    }
  }

  /**
   What becomes of a client whose attempt fails, by a fault or by itself: it tries again after a serialization failure
   or a detected deadlock, up to its fifth attempt, and otherwise returns the error; nothing is committed.
   */
  lemma FailedAttempt(s: System, c: nat, error: Error)
    requires c in s.sessions && s.sessions[c].Open?
    ensures var failed := Do(s, Fault(c, error));
            && failed.committed == s.committed && failed.log == s.log
            && Enabled(s, Fault(c, error))
            && var next := failed.sessions[c];
            && (next.Ready? <==>
                 && s.sessions[c].attempt < 5
                 && (error == Postgres(SerializationFailure) || error == Postgres(DeadlockDetected)))
            && (next.Ready? ==> next == Ready(s.sessions[c].op, s.sessions[c].attempt + 1))
            && (!next.Ready? ==> next == Returned(Err(error)))
    ensures s.sessions[c].tx.proc == Failed(error) ==>
              Enabled(s, Settle(c)) && Do(s, Settle(c)) == Do(s, Fault(c, error))
  {
    hide RunQuote, Advance, CanStep;
  }

  /**
   Serializability: after any interleaving, with any errors and retries, the committed database is the
   one reached by running the committed operations one at a time in the order they committed.
   */
  lemma Serializable(s: System, actions: seq<Action>)
    requires Fresh(s.committed, s) && SystemAccountsSet(s.committed.accounts)
    ensures Replay(s.committed, Run(s, actions).log) == Some(Run(s, actions).committed)
  {
    hide Run, Replay;
    RunKeepsInv(s, actions);
  }

  /**
   A client that was given a receipt has exactly one committed operation, and it gave that receipt; one given an error
   has none.
   */
  lemma ReceiptsAreCommitted(s: System, actions: seq<Action>, c: nat)
    requires Fresh(s.committed, s) && SystemAccountsSet(s.committed.accounts)
    requires c in Run(s, actions).sessions
    ensures var after := Run(s, actions);
            && (after.sessions[c].Returned? && after.sessions[c].result.Ok? <==>
                  exists i | 0 <= i < |after.log| :: after.log[i].Committed? && after.log[i].client == c)
            && (forall i | 0 <= i < |after.log| && after.log[i].Committed? && after.log[i].client == c ::
                 after.sessions[c] == Returned(Ok(after.log[i].receipt)))
            && (forall i, j | 0 <= i < j < |after.log| && after.log[i].Committed? && after.log[j].Committed? ::
                 after.log[i].client != after.log[j].client)
  {
    hide Run, Replay;
    RunKeepsInv(s, actions);
  }
}
