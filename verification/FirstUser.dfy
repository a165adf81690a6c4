/**
 The first user of a freshly migrated database: how it is registered, what it can then ask for, and identifiers
 that are new to it.
 */
module FirstUser {
  import opened Wrappers
  import opened Rates
  import opened Tables
  import opened Engine
  import opened Books
  import opened Histories
  import opened Interleaved
  import opened Deadlock
  import opened Schedules
  import Decimals
  import Order

  /** One user and two system accounts that can pay. */
  ghost predicate OneUser(db: Database, reg: Registration, at: Attempt) {
    && SystemAccountsSet(db.accounts)
    && db.users == [RegisteredUser(reg)] && Lost(db) == NO_LOSSES && db.quotes == map[]
    && |db.transactions| == 2 && db.transactions[0].id == at.txId && db.transactions[1].id == at.txId2
    && at.usdId != at.eurId && at.usdId in db.accounts && at.eurId in db.accounts
    && db.accounts[at.usdId] == Account(Some(reg.userId), USD, OPENING_USD, false)
    && db.accounts[at.eurId] == Account(Some(reg.userId), EUR, OPENING_EUR, false)
    && (forall id | id in db.accounts :: db.accounts[id].isSystem || id in Drawn(at))
    && (forall id | id in db.accounts && db.accounts[id].isSystem ::
         SEED - OPENING_USD <= db.accounts[id].balance <= SEED)
  }

  /** The accounts after the first registration. */
  ghost function FirstAccounts(db: Database, reg: Registration, at: Attempt): map<string, Account>
    requires SystemAccountsSet(db.accounts)
  {
    SystemsThere(db);
    var usd, eur := SystemAccount(db.accounts, USD).value, SystemAccount(db.accounts, EUR).value;
    SetBalanceOf(SetBalanceOf(WithAccounts(db, reg, at).accounts, usd, SEED - OPENING_USD), eur, SEED - OPENING_EUR)
  }

  lemma FirstRegistration(db: Database, reg: Registration, at: Attempt)
    requires Initial(db)
    requires Drawn(at) !! db.accounts.Keys && at.usdId != at.eurId && at.txId != at.txId2
    ensures RunRegister(db, reg, at).Ok?
    ensures var after := RunRegister(db, reg, at).value.0;
            && after.accounts == FirstAccounts(db, reg, at) && after.users == [RegisteredUser(reg)]
            && after.quotes == map[]
            && |after.transactions| == 2 && after.transactions[0].id == at.txId && after.transactions[1].id == at.txId2
  {
  }

  /** What registering the first user of a migrated database leaves. */
  lemma FirstUserRegisters(db: Database, reg: Registration, at: Attempt)
    requires Initial(db)
    requires Drawn(at) !! db.accounts.Keys && at.usdId != at.eurId && at.txId != at.txId2
    ensures RunRegister(db, reg, at).Ok?
    ensures SameHolders(db.accounts, RunRegister(db, reg, at).value.0.accounts)
    ensures OneUser(RunRegister(db, reg, at).value.0, reg, at)
  {
    hide SystemAccountsSet, RunRegister, FirstAccounts, SameHolders;
    FirstRegistration(db, reg, at);
    FirstHolders(db, reg, at);
    RegisterLosesNothing(db, reg, at);
    HoldersKeepSystem(db.accounts, FirstAccounts(db, reg, at));
  }

  lemma FirstHolders(db: Database, reg: Registration, at: Attempt)
    requires Initial(db) && Drawn(at) !! db.accounts.Keys && at.usdId != at.eurId
    ensures SameHolders(db.accounts, FirstAccounts(db, reg, at))
    ensures var accounts := FirstAccounts(db, reg, at);
            && accounts.Keys == db.accounts.Keys + Drawn(at)
            && accounts[at.usdId] == Account(Some(reg.userId), USD, OPENING_USD, false)
            && accounts[at.eurId] == Account(Some(reg.userId), EUR, OPENING_EUR, false)
            && forall id | id in db.accounts ::
                 accounts[id].isSystem && SEED - OPENING_USD <= accounts[id].balance <= SEED
  {
    SystemsThere(db);
    hide SystemAccountsSet, SystemAccount;
  }

  lemma SystemsThere(db: Database)
    requires SystemAccountsSet(db.accounts)
    ensures forall c: Currency ::
            SystemAccount(db.accounts, c).Some? && SystemAccount(db.accounts, c).value in db.accounts
    ensures SystemAccount(db.accounts, USD) != SystemAccount(db.accounts, EUR)
    ensures forall c: Currency :: db.accounts[SystemAccount(db.accounts, c).value].isSystem
  {
  }

  /** The user's request to exchange one dollar at the rate in force. */
  function OneDollar(reg: Registration, at: Attempt): ExchangeRequest {
    ExchangeRequest(reg.userId, at.usdId, at.eurId, 100, None, None, Some(RateText(DirectionalRate(USD, EUR))))
  }

  lemma OneDollarAdmitted(reg: Registration, at: Attempt, db: Database, now: int)
    ensures var terms := AdmitExchange(db, OneDollar(reg, at), now);
            terms.Ok? && terms.value.quoteId == "" && terms.value.expected == 0
                && Decimals.Equal(terms.value.rate, DirectionalRate(USD, EUR))
  {
    RateTextReadsBack(USD, EUR);
    hide RateText, DirectionalRate, Decimals.Parse, Decimals.Equal;
  }

  lemma OneDollarPlanned(reg: Registration, at: Attempt, terms: Terms, source: Account, target: Account)
    requires source == Account(Some(reg.userId), USD, OPENING_USD, false)
             && target == Account(Some(reg.userId), EUR, OPENING_EUR, false)
    requires terms.expected == 0 && Decimals.Equal(terms.rate, DirectionalRate(USD, EUR))
    ensures PlanExchange(OneDollar(reg, at), terms, source, target) ==
            Ok(Plan(92, OPENING_USD - 100, OPENING_EUR + 92, USD, EUR))
  {
    OneDollarConverted();
    hide RateText, DirectionalRate, ConvertMinor, Decimals.Equal;
  }

  lemma OneDollarConverted()
    ensures ConvertMinor(100, DirectionalRate(USD, EUR)) == 92
  {
  }

  /** That exchange can succeed. */
  lemma OneDollarWorks(db: Database, reg: Registration, at: Attempt, now: int, mine: Attempt)
    requires OneUser(db, reg, at) && mine.txId !in {at.txId, at.txId2}
    ensures AdmitExchange(db, OneDollar(reg, at), now).Ok?
    ensures RunExchange(db, OneDollar(reg, at), AdmitExchange(db, OneDollar(reg, at), now).value, mine).Ok?
  {
    hide SystemAccountsSet, PlanExchange, AdmitExchange, RateText, DirectionalRate, Decimals.Equal;
    OneDollarAdmitted(reg, at, db, now);
    var terms := AdmitExchange(db, OneDollar(reg, at), now).value;
    SystemsThere(db);
    OneDollarPlanned(reg, at, terms, db.accounts[at.usdId], db.accounts[at.eurId]);
  }

  /** And so can another registration. */
  lemma BothWork(
    db: Database, reg: Registration, at: Attempt, now: int, mine: Attempt, newcomer: Registration, other: Attempt)
    requires OneUser(db, reg, at)
    requires mine.txId !in {at.txId, at.txId2} && {other.txId, other.txId2} !! {at.txId, at.txId2}
    requires other.txId != other.txId2 && Drawn(other) !! db.accounts.Keys && other.usdId != other.eurId
    requires newcomer.userId != reg.userId && newcomer.username != reg.username && newcomer.email != reg.email
    ensures AdmitExchange(db, OneDollar(reg, at), now).Ok?
    ensures RunExchange(db, OneDollar(reg, at), AdmitExchange(db, OneDollar(reg, at), now).value, mine).Ok?
    ensures RunRegister(db, newcomer, other).Ok?
  {
    hide AdmitExchange, RunRegister, OneUser, RunExchange;
    OneDollarWorks(db, reg, at, now, mine);
    AnotherWorks(db, reg, at, newcomer, other);
  }

  lemma AnotherWorks(db: Database, reg: Registration, at: Attempt, newcomer: Registration, other: Attempt)
    requires OneUser(db, reg, at)
    requires {other.txId, other.txId2} !! {at.txId, at.txId2} && other.txId != other.txId2
    requires Drawn(other) !! db.accounts.Keys && other.usdId != other.eurId
    requires newcomer.userId != reg.userId && newcomer.username != reg.username && newcomer.email != reg.email
    ensures RunRegister(db, newcomer, other).Ok?
  {
  }

  // --------------------------------------------------------------- identifiers

  /** Identifiers longer than any in the migrated database, told apart by their last character. */
  function Id(base: string, tag: char): string {
    base + [tag]
  }

  lemma IdsDiffer(base: string, a: char, b: char)
    ensures Id(base, a) == Id(base, b) <==> a == b
  {
    assert Id(base, a)[|base|] == a && Id(base, b)[|base|] == b;
  }

  function Draw(base: string, a: char, b: char, c: char, d: char, now: int): Attempt {
    Attempt(Id(base, a), Id(base, b), Id(base, c), Id(base, d), now)
  }

  /** Attempts drawn with different characters have nothing in common. */
  lemma DrawsApart(base: string, now: int, a: char, b: char, c: char, d: char, e: char, f: char, g: char, h: char)
    requires {a, b, c, d} !! {e, f, g, h}
    ensures var x, y := Draw(base, a, b, c, d, now), Draw(base, e, f, g, h, now);
            && {x.txId, x.txId2} !! {y.txId, y.txId2} && Drawn(x) !! Drawn(y)
            && Private(x) !! Private(y)
  {
    hide Id, Private;
    TwoApart(base, a, b, e, f);
    TwoApart(base, c, d, g, h);
    PrivateApart(Draw(base, a, b, c, d, now), Draw(base, e, f, g, h, now));
  }

  lemma TwoApart(base: string, a: char, b: char, e: char, f: char)
    requires {a, b} !! {e, f}
    ensures {Id(base, a), Id(base, b)} !! {Id(base, e), Id(base, f)}
  {
    IdsDiffer(base, a, e);
    IdsDiffer(base, a, f);
    IdsDiffer(base, b, e);
    IdsDiffer(base, b, f);
  }

  lemma PrivateApart(x: Attempt, y: Attempt)
    requires {x.txId, x.txId2} !! {y.txId, y.txId2} && Drawn(x) !! Drawn(y)
    ensures Private(x) !! Private(y)
  {
  }

  lemma DrawnOnce(base: string, now: int, a: char, b: char, c: char, d: char)
    requires a != b && c != d
    ensures var x := Draw(base, a, b, c, d, now); x.txId != x.txId2 && x.usdId != x.eurId
  {
    IdsDiffer(base, a, b);
    IdsDiffer(base, c, d);
  }

  lemma InitialHasSystem(db: Database)
    requires Initial(db)
    ensures SystemAccountsSet(db.accounts)
  {
  }

  /** The smaller system id and then the larger: longer than both, and above the smaller. */
  ghost function BaseOf(db: Database): string
    requires SystemAccountsSet(db.accounts)
  {
    var (left, right) := Order.OrderedIDs(SystemAccount(db.accounts, USD).value, SystemAccount(db.accounts, EUR).value);
    left + right
  }

  /** No account of the migrated database has an identifier built on it. */
  lemma IdsAreNew(db: Database)
    requires Initial(db)
    ensures forall tag :: Id(BaseOf(db), tag) !in db.accounts
  {
    InitialHasSystem(db);
    var usd, eur := SystemAccount(db.accounts, USD).value, SystemAccount(db.accounts, EUR).value;
    OnlyTwo(db.accounts.Keys, usd, eur);
    forall tag ensures Id(BaseOf(db), tag) !in db.accounts {
      assert |Id(BaseOf(db), tag)| > |usd| && |Id(BaseOf(db), tag)| > |eur|;
    }
  }

  lemma DrawnIsNew(db: Database, a: char, b: char, c: char, d: char, now: int)
    requires Initial(db)
    ensures Drawn(Draw(BaseOf(db), a, b, c, d, now)) !! db.accounts.Keys && Draw(BaseOf(db), a, b, c, d, now).now == now
  {
    hide Id;
    IdsAreNew(db);
  }

  // --------------------------------------------------------------- the first user's registration as a run

  const REGISTERED: Registration := Registration("u", "u", "u")

  /** What the first user draws. */
  ghost function FirstDraw(s: System): Attempt
    requires SystemAccountsSet(s.committed.accounts)
  {
    Draw(BaseOf(s.committed), 'a', 'b', 'c', 'd', s.clock)
  }

  ghost function FirstSchedule(s: System): seq<Action>
    requires SystemAccountsSet(s.committed.accounts)
  {
    Call(0, RegisterRequested(REGISTERED), FirstDraw(s))
  }

  /** One user registered, and nobody at work. */
  ghost predicate Settled(s: System, t: System)
    requires SystemAccountsSet(s.committed.accounts)
  {
    && SameHolders(s.committed.accounts, t.committed.accounts) && OneUser(t.committed, REGISTERED, FirstDraw(s))
    && t.clock == s.clock && t.sessions.Keys == {0} && AllReturned(t)
  }

  lemma FirstUserRuns(s: System)
    requires Fresh(s.committed, s) && Initial(s.committed)
    ensures SystemAccountsSet(s.committed.accounts)
    ensures AllDrawFresh(s, FirstSchedule(s)) && NamesUsers(s.committed, FirstSchedule(s))
    ensures Settled(s, Run(s, FirstSchedule(s)))
  {
    hide Run, AllDrawFresh, Initial, OneUser, RunRegister, Draw, BaseOf;
    var db := s.committed;
    InitialHasSystem(db);
    var at := FirstDraw(s);
    DrawnIsNew(db, 'a', 'b', 'c', 'd', s.clock);
    DrawnOnce(BaseOf(db), s.clock, 'a', 'b', 'c', 'd');
    FirstUserRegisters(db, REGISTERED, at);
    NothingDrawn(s);
    CallRuns(s, [], 0, RegisterRequested(REGISTERED), RegisterOp(REGISTERED), at);
    assert [] + FirstSchedule(s) == FirstSchedule(s);
  }

  lemma NothingDrawn(s: System)
    ensures Run(s, []) == s && AllDrawFresh(s, [])
  {
  }

  /** Identifiers drawn later are new to that database too. */
  lemma StillNew(s: System, t: System, at: Attempt)
    requires SystemAccountsSet(s.committed.accounts) && Settled(s, t)
    requires Drawn(at) !! s.committed.accounts.Keys && Drawn(at) !! Drawn(FirstDraw(s))
    requires Drawn(FirstDraw(s)) !! s.committed.accounts.Keys
    ensures Drawn(at) !! t.committed.accounts.Keys
  {
  }

  /** What two later attempts draw is new and their own. */
  lemma NewDraws(s: System, t: System, mine: Attempt, other: Attempt)
    requires Initial(s.committed) && SystemAccountsSet(s.committed.accounts) && Settled(s, t)
    requires mine == Draw(BaseOf(s.committed), 'e', 'f', 'g', 'h', s.clock)
    requires other == Draw(BaseOf(s.committed), 'i', 'j', 'k', 'l', s.clock)
    ensures mine.now == other.now == t.clock && other.txId != other.txId2 && other.usdId != other.eurId
    ensures mine.txId !in {FirstDraw(s).txId, FirstDraw(s).txId2}
    ensures {other.txId, other.txId2} !! {FirstDraw(s).txId, FirstDraw(s).txId2}
    ensures (Drawn(mine) + Drawn(other)) !! t.committed.accounts.Keys && Private(mine) !! Private(other)
    ensures (Drawn(FirstDraw(s)) + Drawn(mine) + Drawn(other)) !! s.committed.accounts.Keys
  {
    hide Draw, Initial, BaseOf, Private, Drawn, OneUser;
    var db, base, now := s.committed, BaseOf(s.committed), s.clock;
    DrawnOnce(base, now, 'i', 'j', 'k', 'l');
    DrawsApart(base, now, 'a', 'b', 'c', 'd', 'e', 'f', 'g', 'h');
    DrawsApart(base, now, 'a', 'b', 'c', 'd', 'i', 'j', 'k', 'l');
    DrawsApart(base, now, 'e', 'f', 'g', 'h', 'i', 'j', 'k', 'l');
    DrawnIsNew(db, 'a', 'b', 'c', 'd', now);
    DrawnIsNew(db, 'e', 'f', 'g', 'h', now);
    DrawnIsNew(db, 'i', 'j', 'k', 'l', now);
    StillNew(s, t, mine);
    StillNew(s, t, other);
  }

  lemma OneDollarNames(reg: Registration, at: Attempt)
    ensures OneDollar(reg, at).fromId == at.usdId && OneDollar(reg, at).toId == at.eurId
            && OneDollar(reg, at).amount == 100
  {
  }
}
