/**
 Building schedules: one client's call from its submission to its commit, and two clients' calls taken part of
 the way, when they do not get in each other's way so far.
 */
module Schedules {
  import opened Wrappers
  import opened Tables
  import opened Engine
  import opened Programs
  import opened Bodies
  import opened Interleaved
  import opened Runs
  import opened Deadlock

  lemma RunOneMore(s: System, actions: seq<Action>, a: Action)
    ensures Run(s, actions + [a]) == if Enabled(Run(s, actions), a) then Do(Run(s, actions), a) else Run(s, actions)
    ensures AllDrawFresh(s, actions + [a]) <==> AllDrawFresh(s, actions) && DrawsFresh(s.committed, Run(s, actions), a)
  {
    hide Do, Enabled, DrawsFresh;
    var all := actions + [a];
    assert all[..|all| - 1] == actions && all[|all| - 1] == a;
    DrawOneMore(s, actions, a);
  }

  lemma DrawOneMore(s: System, actions: seq<Action>, a: Action)
    ensures AllDrawFresh(s, actions + [a]) <==> AllDrawFresh(s, actions) && DrawsFresh(s.committed, Run(s, actions), a)
  {
    hide Run, DrawsFresh;
    var all := actions + [a];
    assert forall n | 0 <= n < |actions| :: all[..n] == actions[..n] && all[n] == actions[n];
    assert all[|actions|] == a && all[..|actions|] == actions;
  }

  function StepsOf(c: nat, n: nat): seq<Action> {
    seq(n, i => Step(c))
  }

  /** A client that has just begun, and nobody else holds what its first `n` steps need. */
  ghost predicate Unhindered(t: System, c: nat, n: nat) {
    && c in t.sessions && t.sessions[c].Open? && t.sessions[c].steps == 0
    && t.sessions[c].tx == Solo(t.committed, Start(t.sessions[c].op, t.sessions[c].at), 0)
    && forall d | d in t.sessions && d != c && t.sessions[d].Open? ::
         t.sessions[d].tx.held !! Solo(t.committed, Start(t.sessions[c].op, t.sessions[c].at), n).held
  }

  ghost function AfterSteps(t: System, c: nat, n: nat): System
    requires c in t.sessions && t.sessions[c].Open?
  {
    var tx := Solo(t.committed, Start(t.sessions[c].op, t.sessions[c].at), n);
    t.(sessions := t.sessions[c := t.sessions[c].(tx := tx, steps := n)])
  }

  lemma OneStep(t: System, c: nat, n: nat)
    requires Unhindered(t, c, n + 1)
    ensures Unhindered(t, c, n)
    ensures Enabled(AfterSteps(t, c, n), Step(c)) && Do(AfterSteps(t, c, n), Step(c)) == AfterSteps(t, c, n + 1)
  {
    hide Needs, Start, Next;
    var tx := Solo(t.committed, Start(t.sessions[c].op, t.sessions[c].at), n);
    AdvanceHolds(t.committed, tx);
    hide Advance;
    var before := AfterSteps(t, c, n);
    forall k | k in Needs(tx.proc) ensures !HeldByOther(before.sessions, c, k) {
      assert k in Solo(t.committed, Start(t.sessions[c].op, t.sessions[c].at), n + 1).held;
    }
  }

  /** One client's next steps, when nobody else holds what they need. */
  lemma {:induction false} StepsRun(s: System, pre: seq<Action>, c: nat, n: nat)
    requires Unhindered(Run(s, pre), c, n)
    ensures Run(s, pre + StepsOf(c, n)) == AfterSteps(Run(s, pre), c, n)
    ensures AllDrawFresh(s, pre) ==> AllDrawFresh(s, pre + StepsOf(c, n))
  {
    hide Solo, Start, AllDrawFresh, Run, Enabled, Do, Needs;
    if n == 0 {
      assert pre + StepsOf(c, 0) == pre;
    } else {
      OneStep(Run(s, pre), c, n - 1);
      hide Unhindered;
      StepsRun(s, pre, c, n - 1);
      assert pre + StepsOf(c, n) == (pre + StepsOf(c, n - 1)) + [Step(c)];
      hide AfterSteps;
      RunOneMore(s, pre + StepsOf(c, n - 1), Step(c));
    }
  }

  lemma NothingHeld(db: Database, start: Proc)
    ensures Solo(db, start, 0) == Tx(start, [], {})
  {
  }

  // --------------------------------------------------------------- one call

  ghost predicate AllReturned(t: System) {
    forall c | c in t.sessions :: t.sessions[c].Returned?
  }

  /** A call that is admitted by the pre-checks, at a moment when nobody is at work. */
  ghost predicate CanCall(start: Database, t: System, c: nat, ask: Request, op: Operation, at: Attempt) {
    && c !in t.sessions && AllReturned(t)
    && Admit(t.committed, t.clock, ask) == Ready(op, 1) && RequestFits(ask)
    && at.now == t.clock && forall id | id in Drawn(at) :: !IsSystemIn(start, id)
  }

  function Call(c: nat, ask: Request, at: Attempt): seq<Action> {
    [Submit(c, ask)] + [Begin(c, at)] + StepsOf(c, 18) + [Settle(c)]
  }

  ghost function Started(op: Operation, at: Attempt): Session {
    Open(op, 1, at, Tx(Start(op, at), [], {}), 0)
  }

  ghost function WithSession(t: System, c: nat, session: Session): System {
    t.(sessions := t.sessions[c := session])
  }

  lemma CallStarts(s: System, pre: seq<Action>, c: nat, ask: Request, op: Operation, at: Attempt)
    requires CanCall(s.committed, Run(s, pre), c, ask, op, at)
    ensures var begin := pre + [Submit(c, ask)] + [Begin(c, at)];
            && Run(s, begin) == WithSession(Run(s, pre), c, Started(op, at))
            && (AllDrawFresh(s, pre) ==> AllDrawFresh(s, begin))
  {
    hide Run, AllDrawFresh, Start, Admit, IsSystemIn, RequestFits;
    var t := Run(s, pre);
    RunOneMore(s, pre, Submit(c, ask));
    assert Do(t, Submit(c, ask)) == WithSession(t, c, Ready(op, 1));
    RunOneMore(s, pre + [Submit(c, ask)], Begin(c, at));
  }

  /** A call left alone does what its operation does. */
  lemma CallRuns(s: System, pre: seq<Action>, c: nat, ask: Request, op: Operation, at: Attempt)
    requires CanCall(s.committed, Run(s, pre), c, ask, op, at) && AmountFits(op)
    requires RunOperation(Run(s, pre).committed, op, at).Ok?
    ensures var (after, receipt) := RunOperation(Run(s, pre).committed, op, at).value;
            Run(s, pre + Call(c, ask, at)) ==
            WithSession(Run(s, pre), c, Returned(Ok(receipt)))
            .(committed := after, log := Run(s, pre).log + [Committed(c, op, at, receipt)])
    ensures AllDrawFresh(s, pre) ==> AllDrawFresh(s, pre + Call(c, ask, at))
  {
    hide Run, AllDrawFresh, Solo, Start, RunOperation, Admit, AmountFits, IsSystemIn;
    var t, begin := Run(s, pre), pre + [Submit(c, ask)] + [Begin(c, at)];
    CallStarts(s, pre, c, ask, op, at);
    NothingHeld(t.committed, Start(op, at));
    assert Unhindered(WithSession(t, c, Started(op, at)), c, 18);
    StepsRun(s, begin, c, 18);
    BodyEnds(t.committed, op, at);
    RunOneMore(s, begin + StepsOf(c, 18), Settle(c));
    assert pre + Call(c, ask, at) == begin + StepsOf(c, 18) + [Settle(c)];
  }

  // --------------------------------------------------------------- two calls at once

  /** Two clients, what they ask for, what they draw, and how far each gets. */
  datatype Duel = Duel(
    c: nat, ask: Request, op: Operation, at: Attempt, n: nat,
    d: nat, otherAsk: Request, otherOp: Operation, otherAt: Attempt, m: nat)

  ghost predicate CanDuel(start: Database, t: System, p: Duel) {
    && p.c != p.d && CanCall(start, t, p.c, p.ask, p.op, p.at)
    && CanCall(start, t, p.d, p.otherAsk, p.otherOp, p.otherAt)
    && Named(p.op) !! Drawn(p.otherAt) && Named(p.otherOp) !! Drawn(p.at) && Private(p.at) !! Private(p.otherAt)
    && Solo(t.committed, Start(p.op, p.at), p.n).held !! Solo(t.committed, Start(p.otherOp, p.otherAt), p.m).held
  }

  function Submissions(p: Duel): seq<Action> {
    [Submit(p.c, p.ask)] + [Submit(p.d, p.otherAsk)]
  }

  function Schedule(p: Duel): seq<Action> {
    Submissions(p) + [Begin(p.c, p.at)] + [Begin(p.d, p.otherAt)] + StepsOf(p.c, p.n) + StepsOf(p.d, p.m)
  }

  ghost function Submitted(t: System, p: Duel): System {
    WithSession(WithSession(t, p.c, Ready(p.op, 1)), p.d, Ready(p.otherOp, 1))
  }

  ghost function OneBegun(t: System, p: Duel): System {
    WithSession(WithSession(t, p.c, Started(p.op, p.at)), p.d, Ready(p.otherOp, 1))
  }

  ghost function BothBegun(t: System, p: Duel): System {
    WithSession(WithSession(t, p.c, Started(p.op, p.at)), p.d, Started(p.otherOp, p.otherAt))
  }

  /** Each client as far as it gets. */
  ghost function Halfway(t: System, p: Duel): System {
    AfterSteps(AfterSteps(BothBegun(t, p), p.c, p.n), p.d, p.m)
  }

  lemma BothSubmit(s: System, pre: seq<Action>, p: Duel)
    requires CanDuel(s.committed, Run(s, pre), p)
    ensures Run(s, pre + Submissions(p)) == Submitted(Run(s, pre), p)
    ensures AllDrawFresh(s, pre) ==> AllDrawFresh(s, pre + Submissions(p))
  {
    hide Run, AllDrawFresh, IsSystemIn, Private, Drawn, Solo, Admit, RequestFits, Named;
    var t, first, second := Run(s, pre), Submit(p.c, p.ask), Submit(p.d, p.otherAsk);
    assert pre + Submissions(p) == (pre + [first]) + [second];
    RunOneMore(s, pre, first);
    RunOneMore(s, pre + [first], second);
    assert Do(t, first) == WithSession(t, p.c, Ready(p.op, 1));
  }

  lemma FirstCanBegin(start: Database, t: System, p: Duel)
    requires CanDuel(start, t, p)
    ensures Enabled(Submitted(t, p), Begin(p.c, p.at)) && DrawsFresh(start, Submitted(t, p), Begin(p.c, p.at))
    ensures Do(Submitted(t, p), Begin(p.c, p.at)) == OneBegun(t, p)
  {
    hide IsSystemIn, Start, Private, Drawn, Solo, Admit, RequestFits, Named;
  }

  lemma SecondCanBegin(start: Database, t: System, p: Duel)
    requires CanDuel(start, t, p)
    ensures Enabled(OneBegun(t, p), Begin(p.d, p.otherAt)) && DrawsFresh(start, OneBegun(t, p), Begin(p.d, p.otherAt))
    ensures Do(OneBegun(t, p), Begin(p.d, p.otherAt)) == BothBegun(t, p)
  {
    hide IsSystemIn, Start, Private, Drawn, Solo, Admit, RequestFits, Named;
  }

  lemma BothBegin(s: System, pre: seq<Action>, p: Duel)
    requires CanDuel(s.committed, Run(s, pre), p)
    ensures var begin := pre + Submissions(p) + [Begin(p.c, p.at)] + [Begin(p.d, p.otherAt)];
            Run(s, begin) == BothBegun(Run(s, pre), p) && (AllDrawFresh(s, pre) ==> AllDrawFresh(s, begin))
  {
    hide Run, AllDrawFresh, CanDuel, Do, Enabled, DrawsFresh, BothBegun, OneBegun, Submitted;
    var t, before := Run(s, pre), pre + Submissions(p);
    BothSubmit(s, pre, p);
    FirstCanBegin(s.committed, t, p);
    SecondCanBegin(s.committed, t, p);
    RunOneMore(s, before, Begin(p.c, p.at));
    RunOneMore(s, before + [Begin(p.c, p.at)], Begin(p.d, p.otherAt));
  }

  lemma DuelRuns(s: System, pre: seq<Action>, p: Duel)
    requires CanDuel(s.committed, Run(s, pre), p)
    ensures Run(s, pre + Schedule(p)) == Halfway(Run(s, pre), p)
    ensures AllDrawFresh(s, pre) ==> AllDrawFresh(s, pre + Schedule(p))
  {
    hide Run, AllDrawFresh, IsSystemIn, Start, Solo, Admit, RequestFits, Named, Private;
    var t := Run(s, pre);
    var begin := pre + Submissions(p) + [Begin(p.c, p.at)] + [Begin(p.d, p.otherAt)];
    BothBegin(s, pre, p);
    NothingHeld(t.committed, Start(p.op, p.at));
    NothingHeld(t.committed, Start(p.otherOp, p.otherAt));
    assert Unhindered(BothBegun(t, p), p.c, p.n);
    StepsRun(s, begin, p.c, p.n);
    assert Unhindered(AfterSteps(BothBegun(t, p), p.c, p.n), p.d, p.m);
    StepsRun(s, begin + StepsOf(p.c, p.n), p.d, p.m);
    assert pre + Schedule(p) == begin + StepsOf(p.c, p.n) + StepsOf(p.d, p.m);
  }

  /** Two clients that got halfway and each need a key the other holds are stuck on each other. */
  lemma EachWaits(start: Database, t: System, p: Duel, key: Key, otherKey: Key)
    requires CanDuel(start, t, p)
    requires var mine, other :=
             Solo(t.committed, Start(p.op, p.at), p.n), Solo(t.committed, Start(p.otherOp, p.otherAt), p.m);
             key in Needs(mine.proc) && key in other.held && otherKey in Needs(other.proc) && otherKey in mine.held
    ensures WaitsFor(Halfway(t, p), p.c, p.d) && WaitsFor(Halfway(t, p), p.d, p.c)
    ensures Stuck(Halfway(t, p), p.c) && Stuck(Halfway(t, p), p.d)
  {
    hide Solo, Start, Needs, Admit, RequestFits, Named, Private, IsSystemIn;
    var after := Halfway(t, p);
    assert WaitsOn(after, p.c, p.d, key);
    assert WaitsOn(after, p.d, p.c, otherKey);
  }
}
