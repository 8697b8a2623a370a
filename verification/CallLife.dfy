/** How a call of src/call.cpp moves through its scenario and how it ends: over every run,
    each call is counted once and deleted once, waits for exactly the commands it runs,
    and has a circuit of its own. Timers, variables, and what comes from the network or
    from the actions of a scenario are arbitrary here. */
module CallLife {
  import opened Basics
  import Circuits

  datatype Kind = Pause | SendCmd | Nop | Send | Recv | RecvCmd

  datatype Optional = No | Yes | Global

  /** A message of a scenario: its labels are -1 if it has none. */
  datatype Step = Step(kind: Kind, timewait: bool, onTimeout: int, next: int, tested: bool, chance: int,
                       optional: Optional, advances: bool, hasCmd: bool)
  {
    /** Whether the test of its label, if it has one, holds; `isSet` is that of its variable. */
    predicate Passes(isSet: bool) {
      tested ==> isSet
    }

    /** Whether the call goes to its label, with that random number. */
    predicate Branches(isSet: bool, rand: nat) {
      next >= 0 && Passes(isSet) && (chance > 0 ==> rand > chance)
    }

    /** Whether the call goes on from it when it comes. */
    predicate Moves(isSet: bool) {
      advances && (optional == No || (next != 0 && Passes(isSet)))
    }
  }

  predicate ValidSteps(steps: seq<Step>) {
    |steps| > 0 &&
    forall i :: 0 <= i < |steps| ==> -1 <= steps[i].next <= |steps| && -1 <= steps[i].onTimeout <= |steps|
  }

  type Scenario = s: seq<Step> | ValidSteps(s) witness [Step(Nop, false, -1, -1, false, 0, No, true, false)]

  /** What the command line and the scenario give every call. */
  datatype Settings = Settings(
    steps: Scenario, initSteps: Scenario, bye: bool, abortUnexpected: bool, pingReply: bool,
    ignoreInPause: bool, unexpectedJump: nat, jumps: bool, actionsJump: bool, hasTwin: bool,
    commands: bool, useCircuits: bool)
  {
    /** Whether nothing takes a call elsewhere than to the next message. */
    predicate Straight() {
      !jumps && !actionsJump && Unbranched(steps)
    }
  }

  /** The label of unexpected messages, if any, is before the end of the scenario. */
  type Config = c: Settings | c.jumps ==> c.unexpectedJump < |c.steps|
    witness Settings([Step(Nop, false, -1, -1, false, 0, No, true, false)],
                     [Step(Nop, false, -1, -1, false, 0, No, true, false)],
                     true, true, true, false, 0, false, false, false, false, false)

  // The way through a scenario.

  /** A scenario without labels, and with no message that is optional everywhere and goes on. */
  predicate Unbranched(steps: seq<Step>) {
    forall i :: 0 <= i < |steps| ==>
      steps[i].next < 0 && steps[i].onTimeout < 0 && (steps[i].optional == Global ==> !steps[i].advances)
  }

  /** A message that no call may leave out. Where commands of a twin come (`commands`), they pass
      over a <nop>. */
  predicate Due(steps: seq<Step>, commands: bool, i: int) {
    0 <= i < |steps| && steps[i].optional == No && (steps[i].kind == Nop ==> !commands)
  }

  /** The messages that are due before one. */
  function DueBelow(steps: seq<Step>, commands: bool, n: int): seq<int>
    decreases if n < 0 then 0 else n
  {
    if n <= 0 then [] else DueBelow(steps, commands, n - 1) + if Due(steps, commands, n - 1) then [n - 1] else []
  }

  /** The messages that are due among some. */
  function DueOf(steps: seq<Step>, commands: bool, passed: seq<int>): seq<int> {
    if passed == [] then []
    else var last := passed[|passed| - 1];
      DueOf(steps, commands, passed[..|passed| - 1]) + if Due(steps, commands, last) then [last] else []
  }

  /** A call at a message has gone on from all that are due before it, in order and once each. */
  ghost predicate InOrder(steps: seq<Step>, commands: bool, passed: seq<int>, at: int) {
    DueOf(steps, commands, passed) == DueBelow(steps, commands, at)
  }

  lemma {:induction false} GoOn(steps: seq<Step>, commands: bool, passed: seq<int>, at: nat)
    requires InOrder(steps, commands, passed, at)
    ensures InOrder(steps, commands, passed + [at], at + 1)
  {
    assert (passed + [at])[..|passed|] == passed;
  }

  /** Messages that are not due may be left out, or taken up again. */
  lemma {:induction false} LeaveOut(steps: seq<Step>, commands: bool, a: nat, b: nat)
    requires a <= b && forall i :: a <= i < b ==> !Due(steps, commands, i)
    ensures DueBelow(steps, commands, a) == DueBelow(steps, commands, b)
  {
    if a < b { LeaveOut(steps, commands, a, b - 1); }
  }

  datatype ActionResult =
    | NoError | RegexpDoesntMatch | RegexpShouldntMatch | StopCall | ConnectFailed | HeaderNotFound
    | TestDoesntMatch | TestShouldntMatch | StrcmpDoesntMatch | StrcmpShouldntMatch | RtpEchoError | VerifyFailed

  /** How a call ends in the statistics. */
  datatype End = Failed | Successful | Uncounted

  /** What is done with a message that comes. */
  datatype Treatment = Ignore | Keep | LookUp

  datatype AutoMode = Default | UnexpectedBye | UnexpectedCancel | Ping | AutoAnswer

  /** The counters of CStat, and the calls that ended in none of them. */
  datatype Stats = Stats(created: nat, failed: nat, successful: nat, uncounted: nat, current: int)
  {
    function Ended(end: End): Stats {
      match end
      case Failed => this.(failed := failed + 1, current := current - 1)
      case Successful => this.(successful := successful + 1, current := current - 1)
      case Uncounted => this.(uncounted := uncounted + 1, current := current - 1)
    }

    function Created(): Stats {
      this.(created := created + 1, current := current + 1)
    }
  }

  /** How many calls got no circuit and were counted as failed when made, and how many of
      these were counted again at their end. */
  datatype Tally = Tally(refused: nat, recounted: nat)
  {
    ghost function Made(c: Call): Tally {
      if c.Refused() then this.(refused := refused + 1) else this
    }

    function Again(): Tally {
      this.(recounted := recounted + 1)
    }
  }

  /** What a call holds. */
  datatype Members = Members(
    msgIndex: int, lastActionResult: ActionResult, timewait: bool, verifyPending: nat, hasMsg: bool, hasCmd: bool,
    passed: seq<int>)

  /** None of the calls was counted when made. */
  ghost predicate NoneRefused(calls: set<Call>) {
    forall c :: c in calls ==> !c.Refused()
  }

  /** Which running commands a call waits for. */
  ghost function Pending(verify: map<nat, Call?>, c: Call): set<nat> {
    set pid | pid in verify && verify[pid] == c
  }

  /** The running commands of the other calls. */
  ghost function Others(verify: map<nat, Call?>, c: Call): map<nat, Call?> {
    map pid | pid in verify && verify[pid] != c && verify[pid] != null :: verify[pid]
  }

  /** The circuits once a call of that circuit is gone. */
  function Freed(circuits: seq<bool>, circuit: nat): seq<bool> {
    if 0 < circuit <= |circuits| then circuits[circuit - 1 := false] else circuits
  }

  /** Each running command is of a call that is not deleted, or of none. */
  ghost predicate Commands(verify: map<nat, Call?>, calls: set<Call>) {
    forall pid :: pid in verify && verify[pid] != null ==> verify[pid] in calls
  }

  /** The calls whose end is still to be counted. */
  ghost function Countable(calls: set<Call>): set<Call> {
    set c | c in calls && c.Counts()
  }

  predicate AllBusy(circuits: seq<bool>) {
    forall k :: 0 <= k < |circuits| ==> circuits[k]
  }

  /** Whether a call has the circuit at index `k`. */
  ghost predicate Held(calls: set<Call>, k: nat) {
    exists c :: c in calls && c.circuit == k + 1
  }

  /** A circuit is busy exactly when a call has it, and only one has. */
  ghost predicate Lines(calls: set<Call>, circuits: seq<bool>) {
    (forall c :: c in calls ==> c.circuit <= |circuits|) &&
    (forall c, d :: c in calls && d in calls && c.circuit == d.circuit && c != d ==> c.circuit == 0) &&
    forall k {:trigger Held(calls, k)} :: 0 <= k < |circuits| ==> (circuits[k] <==> Held(calls, k))
  }

  lemma {:induction false} AddLine(calls: set<Call>, circuits: seq<bool>, c: Call)
    requires Lines(calls, circuits) && c !in calls && c.circuit <= |circuits|
    requires c.circuit != 0 ==> !circuits[c.circuit - 1]
    ensures Lines(calls + {c}, if c.circuit == 0 then circuits else circuits[c.circuit - 1 := true])
  {
    var all := calls + {c};
    forall k: nat ensures Held(all, k) <==> Held(calls, k) || c.circuit == k + 1 {
      if Held(calls, k) {
        var d :| d in calls && d.circuit == k + 1;
        assert d in all;
      } else if c.circuit == k + 1 {
        assert c in all;
      }
    }
    forall d | d in calls && d.circuit == c.circuit ensures c.circuit == 0 {
      if c.circuit != 0 {
        assert Held(calls, c.circuit - 1);
      }
    }
  }

  lemma {:induction false} DropLine(calls: set<Call>, circuits: seq<bool>, c: Call)
    requires Lines(calls, circuits) && c in calls
    ensures Lines(calls - {c}, Freed(circuits, c.circuit))
  {
    var left := calls - {c};
    forall k: nat ensures Held(left, k) <==> Held(calls, k) && c.circuit != k + 1 {
      if Held(left, k) {
        var d :| d in left && d.circuit == k + 1;
        assert d in calls;
      }
      if Held(calls, k) && c.circuit != k + 1 {
        var d :| d in calls && d.circuit == k + 1;
        assert d in left;
      }
    }
  }

  /** The process: its calls, its statistics, the commands it runs and its circuits. */
  class Process {
    const cfg: Config
    var stats: Stats
    /** The calls that are not deleted. */
    var calls: set<Call>
    var verify: map<nat, Call?>
    var circuits: seq<bool>
    /** The calls whose end is not counted yet. */
    ghost var open: set<Call>
    ghost var tally: Tally
    /** The members of the call that was deleted last, when it was. */
    ghost var left: Members
    /** How many calls ended as successful without having gone on from every message that is due,
        in order, but for those in their last wait when their connection closed. */
    ghost var short: nat

    constructor (cfg: Config, circuits: nat)
      requires cfg.useCircuits ==> circuits > 0
      ensures this.cfg == cfg && stats == Stats(0, 0, 0, 0, 0) && calls == {} && tally == Tally(0, 0)
      ensures this.circuits == seq(circuits, _ => false)
      ensures Inv()
    {
      this.cfg := cfg;
      stats, calls, verify := Stats(0, 0, 0, 0, 0), {}, map[];
      this.circuits := seq(circuits, _ => false);
      open, tally, left, short := {}, Tally(0, 0), Members(0, NoError, false, 0, false, false, []), 0;
    }

    /** Every call created is open or counted, and those counted twice are known. */
    ghost predicate Accounts()
      reads this
    {
      stats.created + tally.recounted == |open| + stats.failed + stats.successful + stats.uncounted &&
      stats.current == |open| - tally.recounted && (cfg.Straight() ==> short == 0)
    }

    /** What holds between two steps. */
    ghost predicate Inv()
      reads this, calls
    {
      Accounts() && Commands(verify, calls) && Lines(calls, circuits) && open == Countable(calls) &&
      (cfg.useCircuits ==> |circuits| > 0) &&
      (!cfg.useCircuits ==> tally.refused == 0) &&
      (tally.refused == 0 ==> tally.recounted == 0 && NoneRefused(calls)) &&
      forall c :: c in calls ==> c.p == this && c.Ok()
    }

    // Every step of a call keeps all of it.

    /** The commands of the other calls are theirs still. */
    lemma {:induction false} OthersPending(m: map<nat, Call?>, n: map<nat, Call?>, c: Call, d: Call)
      requires Others(m, c) == Others(n, c) && c != d
      ensures Pending(m, d) == Pending(n, d)
    {
      forall pid | pid in Pending(m, d) ensures pid in Pending(n, d) {
        assert pid in Others(m, c);
      }
      forall pid | pid in Pending(n, d) ensures pid in Pending(m, d) {
        assert pid in Others(n, c);
      }
    }

    twostate lemma OtherCalls(c: Call)
      requires old(Inv()) && c in old(calls)
      requires Others(verify, c) == old(Others(verify, c))
      requires forall d :: d in old(calls) && d != c ==> unchanged(d)
      ensures forall d :: d in old(calls) && d != c ==> d.p == this && d.Ok()
    {
      forall d | d in old(calls) && d != c ensures d.p == this && d.Ok() {
        OthersPending(verify, old(verify), c, d);
        assert old(d.Ok());
      }
    }

    twostate lemma OtherCommands(c: Call)
      requires old(Inv()) && c in old(calls) && old(calls) - {c} <= calls
      requires Others(verify, c) == old(Others(verify, c))
      requires c in calls || Pending(verify, c) == {}
      ensures Commands(verify, calls)
    {
      forall pid | pid in verify && verify[pid] != null ensures verify[pid] in calls {
        if verify[pid] != c {
          assert pid in Others(verify, c) && pid in old(Others(verify, c));
        } else {
          assert pid in Pending(verify, c);
        }
      }
    }

    twostate lemma KeepsStay(c: Call)
      requires old(Inv()) && c in old(calls) && c.p == this
      requires forall d :: d in old(calls) && d != c ==> unchanged(d)
      requires c.Same() && c.Ready() && c.Local()
      ensures Inv()
    {
      OtherCalls(c);
      OtherCommands(c);
    }

    twostate lemma KeepsGone(c: Call)
      requires old(Inv()) && c in old(calls) && c.p == this
      requires forall d :: d in old(calls) && d != c ==> unchanged(d)
      requires c.Gone() && Accounts() && open == old(open) - {c}
      requires c.Refused() || tally == old(tally)
      requires tally.refused == old(tally).refused
      ensures Inv()
    {
      OtherCalls(c);
      OtherCommands(c);
      DropLine(old(calls), old(circuits), c);
    }

    /** A step that leaves the call as between two steps, or ended, keeps the invariant. */
    twostate lemma Keeps(c: Call)
      requires old(Inv()) && c in old(calls) && c.p == this
      requires forall d :: d in old(calls) && d != c ==> unchanged(d)
      requires (c.Same() && c.Ready() && c.Local()) || c.Ended() || (c.zombie && c.Dropped())
      ensures Inv()
    {
      if c in calls {
        KeepsStay(c);
      } else {
        KeepsGone(c);
      }
    }

    // The runs of the process.

    /** A call is made, with a circuit if it needs one and one is free. */
    method NewCall(initCall: bool, automatic: bool, start: nat) returns (c: Call)
      requires Inv() && (cfg.useCircuits ==> start < |circuits|)
      modifies this
      ensures Inv() && fresh(c) && c.p == this && calls == old(calls) + {c} && c.initCall == initCall
      ensures c.msgIndex == 0 && c.passed == []
      ensures c.zombie <==> cfg.useCircuits && !automatic && AllBusy(old(circuits))
      ensures stats == if initCall then old(stats)
                       else if c.zombie then old(stats).Created().Ended(Failed) else old(stats).Created()
      ensures cfg.useCircuits && !automatic && !c.zombie ==> c.circuit != 0
      ensures |circuits| == |old(circuits)|
      ensures tally == old(tally).Made(c)
    {
      var needs := cfg.useCircuits && !automatic;
      var n := Reserve(needs, start);
      c := new Call(this, initCall, n, needs && n == 0);
      AddCall(c);
    }

    /** The circuit of a new call, if it needs one and one is free. */
    method Reserve(needs: bool, start: nat) returns (n: nat)
      requires needs ==> start < |circuits|
      ensures n <= |circuits| && (n != 0 ==> needs && !circuits[n - 1])
      ensures needs ==> (n == 0 <==> AllBusy(circuits))
    {
      n := 0;
      if needs {
        n := Circuits.FindFree(circuits, start);
      }
    }

    /** What a new call changes: it is counted as created, and as failed if it got no circuit. */
    twostate predicate Entered(new c: Call)
      requires c.circuit <= |old(circuits)|
      reads this
    {
      calls == old(calls) + {c} && verify == old(verify) && tally == old(tally).Made(c) &&
      circuits == (if c.circuit == 0 then old(circuits) else old(circuits)[c.circuit - 1 := true]) &&
      open == old(open) + (if c.Counts() then {c} else {}) &&
      stats == if c.initCall then old(stats)
               else if c.zombie then old(stats).Created().Ended(Failed) else old(stats).Created()
    }

    method AddCall(c: Call)
      requires Inv() && c !in calls && c.p == this && c.Local() && c.verifyPending == 0
      requires c.circuit <= |circuits| && (c.circuit != 0 ==> !circuits[c.circuit - 1])
      requires c.zombie ==> cfg.useCircuits
      modifies this
      ensures Inv() && Entered(c)
    {
      assert c !in open;
      Enter(c);
      KeepsNew(c);
    }

    method Enter(c: Call)
      requires Accounts() && c !in open && c.circuit <= |circuits|
      modifies this`calls, this`circuits, this`stats, this`open, this`tally
      ensures Accounts() && Entered(c)
    {
      Place(c);
      CountNew(c);
    }

    /** The call is one of the calls, and its circuit is busy. */
    method Place(c: Call)
      requires c.circuit <= |circuits|
      modifies this`calls, this`circuits
      ensures calls == old(calls) + {c}
      ensures circuits == if c.circuit == 0 then old(circuits) else old(circuits)[c.circuit - 1 := true]
    {
      calls := calls + {c};
      if c.circuit != 0 {
        circuits := circuits[c.circuit - 1 := true];
      }
    }

    /** `computeStat(E_CREATE_OUTGOING_CALL)`, or of an incoming one, and the failure of a
        call that got no circuit. */
    method CountNew(c: Call)
      requires Accounts() && c !in open
      modifies this`stats, this`open, this`tally
      ensures Accounts() && tally == old(tally).Made(c) && open == old(open) + if c.Counts() then {c} else {}
      ensures stats == if c.initCall then old(stats)
                       else if c.zombie then old(stats).Created().Ended(Failed) else old(stats).Created()
    {
      if !c.initCall {
        stats := stats.Created();
        if c.zombie {
          stats := stats.Ended(Failed);
          tally := tally.Made(c);
        } else {
          open := open + {c};
        }
      }
    }

    twostate lemma KeepsNew(c: Call)
      requires old(Inv()) && c !in old(calls) && c.p == this && c.Local() && c.verifyPending == 0
      requires c.circuit <= |old(circuits)| && (c.circuit != 0 ==> !old(circuits)[c.circuit - 1])
      requires c.zombie ==> cfg.useCircuits
      requires forall d :: d in old(calls) ==> unchanged(d)
      requires Accounts() && Entered(c)
      ensures Inv()
    {
      AddLine(old(calls), old(circuits), c);
      OldCalls();
      NoPending(verify, old(calls), c);
      AddCountable(old(calls), c);
    }

    lemma {:induction false} AddCountable(cs: set<Call>, c: Call)
      ensures Countable(cs + {c}) == Countable(cs) + if c.Counts() then {c} else {}
    {}

    lemma {:induction false} NoPending(m: map<nat, Call?>, cs: set<Call>, c: Call)
      requires Commands(m, cs) && c !in cs
      ensures Pending(m, c) == {}
    {}

    twostate lemma OldCalls()
      requires old(Inv()) && verify == old(verify)
      requires forall d :: d in old(calls) ==> unchanged(d)
      ensures forall d :: d in old(calls) ==> d.p == this && d.Ok()
    {
      forall d | d in old(calls) ensures d.p == this && d.Ok() {
        assert old(d.Ok());
      }
    }

    /** Anything that can happen to a call. */
    method AnyStep(c: Call, depth: nat)
      requires Inv() && c in calls
      modifies this, c
      ensures Inv() && (calls == old(calls) || calls == old(calls) - {c})
      ensures tally == if c !in calls && c.Refused() && !c.hadTurn then old(tally).Again() else old(tally)
      ensures c !in calls ==> left == c.Now()
    {
      Between(c);
      c.AnyEvent(depth);
      Keeps(c);
    }

    /** Between two steps every call is ready for one. */
    lemma {:induction false} Between(c: Call)
      requires Inv() && c in calls
      ensures c.p == this && c.Ready() && c.Local()
    {}

    /** `call::reap_verify_commands`, of one command. */
    method Reap(pid: nat, succeeded: bool)
      requires Inv() && pid in verify
      modifies this, if verify[pid] != null then {verify[pid]} else {}
      ensures Inv()
      ensures old(verify[pid]) == null ==> calls == old(calls) && stats == old(stats)
      ensures old(verify[pid]) != null ==>
        var c := old(verify[pid]);
        (c !in calls <==> old(c.verifyPending) == 1 && old(c.msgIndex) == |c.Steps()|) &&
        old(calls) - {c} <= calls <= old(calls) && (c !in calls ==> left == c.Now())
      ensures var c := old(verify[pid]);
        tally == if c != null && c !in calls && c.Refused() then old(tally).Again() else old(tally)
    {
      var c := verify[pid];
      if c == null {
        verify := verify - {pid};
        Forgotten(old(verify), pid);
        KeepsForgotten(pid);
      } else {
        ReapOf(c, pid, succeeded);
      }
    }

    method ReapOf(c: Call, pid: nat, succeeded: bool)
      requires Inv() && pid in verify && verify[pid] == c
      modifies this, c
      ensures Inv()
      ensures c !in calls <==> old(c.verifyPending) == 1 && old(c.msgIndex) == |c.Steps()|
      ensures old(calls) - {c} <= calls <= old(calls) && (c !in calls ==> left == c.Now())
      ensures tally == if c !in calls && c.Refused() then old(tally).Again() else old(tally)
    {
      Reaped(verify, pid, c);
      Between(c);
      verify := verify - {pid};
      c.VerifyDone(succeeded);
      Keeps(c);
    }

    lemma {:induction false} Forgotten(m: map<nat, Call?>, pid: nat)
      requires pid in m && m[pid] == null
      ensures forall c: Call :: Pending(m - {pid}, c) == Pending(m, c)
    {}

    lemma {:induction false} Reaped(m: map<nat, Call?>, pid: nat, c: Call)
      requires pid in m && m[pid] == c
      ensures |Pending(m, c)| == |Pending(m - {pid}, c)| + 1 && Others(m - {pid}, c) == Others(m, c)
    {
      assert Pending(m, c) == Pending(m - {pid}, c) + {pid};
    }

    twostate lemma KeepsForgotten(pid: nat)
      requires old(Inv()) && pid in old(verify) && old(verify)[pid] == null && verify == old(verify) - {pid}
      requires calls == old(calls) && circuits == old(circuits) && open == old(open)
      requires stats == old(stats) && tally == old(tally) && short == old(short)
      requires forall d :: d in old(calls) ==> unchanged(d)
      ensures Inv()
    {
      forall d | d in calls ensures d.p == this && d.Ok() {
        assert Pending(verify, d) == Pending(old(verify), d);
        assert old(d.Ok());
      }
    }

    /** Any run: however many calls are made and whatever happens to them. The counters add up
        as long as every call got a circuit, and in general exactly when no call that got none
        (`strays` of them) was ended otherwise than by its own turn. Where nothing branches, no call
        ends as successful short of a message that is due. */
    method AnyRun(steps: nat, depth: nat) returns (ghost strays: nat)
      requires Inv()
      modifies this, calls
      ensures Inv() && tally.recounted == old(tally).recounted + strays
      ensures tally.refused == 0 ==> Adds()
      ensures cfg.Straight() ==> short == 0
      ensures old(tally).recounted == 0 ==> (Adds() <==> strays == 0)
    {
      strays := 0;
      var done := 0;
      while done < steps
        invariant Inv() && forall c :: c in calls ==> c in old(calls) || fresh(c)
        invariant tally.recounted == old(tally).recounted + strays
      {
        if * {
          var initCall: bool, automatic: bool, start: nat := *, *, *;
          if cfg.useCircuits ==> start < |circuits| {
            var _ := NewCall(initCall, automatic, start);
          }
        } else if * {
          if calls != {} {
            var c :| c in calls;
            AnyStep(c, depth);
            strays := if c !in calls && c.Refused() && !c.hadTurn then strays + 1 else strays;
          }
        } else if verify.Keys != {} {
          var pid :| pid in verify.Keys;
          var succeeded: bool := *;
          var c := verify[pid];
          Reap(pid, succeeded);
          strays := if c != null && c !in calls && c.Refused() then strays + 1 else strays;
        }
        done := done + 1;
      }
    }

    /** No two calls print the same circuit, of a map as large as the circuits. */
    lemma {:induction false} PrintedApart(m: Circuits.Map, c: Call, d: Call)
      requires Inv() && c in calls && d in calls && c != d && c.circuit != 0 && d.circuit != 0
      requires |circuits| == m.Size()
      ensures Circuits.Name(m, c.circuit) != Circuits.Name(m, d.circuit)
    {
      Circuits.NamesDiffer(m, c.circuit, d.circuit);
    }

    /** Created = live + failed + successful + uncounted, and the current calls are the live. */
    ghost predicate Adds()
      reads this
    {
      stats.created == |Countable(calls)| + stats.failed + stats.successful + stats.uncounted &&
      stats.current == |Countable(calls)|
    }
  }

  class Call {
    const p: Process
    /** A call of an <init>: never counted. */
    const initCall: bool
    /** Whether the call got no circuit: it was counted as failed when made. */
    const zombie: bool
    /** The circuit of the call, from 1, or 0. */
    const circuit: nat

    var msgIndex: int
    var lastActionResult: ActionResult
    var timewait: bool
    var verifyPending: nat
    /** Whether a message, or a command, is kept for later. */
    var hasMsg: bool
    var hasCmd: bool
    /** Whether a call without a circuit had its turn, which deletes it. */
    ghost var hadTurn: bool
    /** The messages that the call went on from. */
    ghost var passed: seq<int>

    constructor (p: Process, initCall: bool, circuit: nat, zombie: bool)
      ensures this.p == p && this.initCall == initCall && this.circuit == circuit && this.zombie == zombie
      ensures Local() && verifyPending == 0 && msgIndex == 0 && passed == []
    {
      this.p, this.initCall, this.circuit, this.zombie := p, initCall, circuit, zombie;
      msgIndex, lastActionResult, timewait, verifyPending, hasMsg, hasCmd := 0, NoError, false, 0, false, false;
      hadTurn, passed := false, [];
    }

    ghost function Now(): Members
      reads this
    {
      Members(msgIndex, lastActionResult, timewait, verifyPending, hasMsg, hasCmd, passed)
    }

    /** Whether the end of the call is still to be counted. */
    predicate Counts() {
      !initCall && !zombie
    }

    /** Whether it was counted when made. */
    predicate Refused() {
      !initCall && zombie
    }

    function Steps(): Scenario {
      if initCall then p.cfg.initSteps else p.cfg.steps
    }

    predicate Straight() {
      !p.cfg.jumps && !p.cfg.actionsJump && Unbranched(Steps())
    }

    ghost predicate OnCourse()
      reads this
    {
      Straight() ==> InOrder(Steps(), p.cfg.commands, passed, msgIndex)
    }

    /** Where the call goes from a message: to its label, or to the next. */
    function Goes(at: int, isSet: bool, rand: nat): int
      requires at < |Steps()|
    {
      if at >= 0 && Steps()[at].Branches(isSet, rand) then Steps()[at].next else at + 1
    }

    /** A call past its last message waits for commands; it is never at a message before
        the first between two steps, and a stopped call is gone. */
    ghost predicate Local()
      reads this
    {
      0 <= msgIndex <= |Steps()| && (msgIndex == |Steps()| ==> verifyPending > 0) && lastActionResult != StopCall &&
      !(initCall && hasMsg) && (hasCmd ==> p.cfg.commands) && !hadTurn && OnCourse()
    }

    ghost predicate Ok()
      reads this, p
    {
      Local() && verifyPending == |Pending(p.verify, this)|
    }

    // What a step needs, and what it does to the process.

    /** The call is not deleted. Inside a step a jump may leave it before its first message. */
    ghost predicate Here()
      reads this, p
    {
      this in p.calls && verifyPending == |Pending(p.verify, this)| &&
      -1 <= msgIndex <= |Steps()| && lastActionResult != StopCall && !(initCall && hasMsg) &&
      (hasCmd ==> p.cfg.commands) && !hadTurn &&
      p.Accounts() && OnCourse()
    }

    /** And its end is not counted, unless it never is. */
    ghost predicate Ready()
      reads this, p
    {
      Here() && (this in p.open <==> Counts())
    }

    /** The other calls, and their commands, are as they were. */
    twostate predicate Same()
      reads p
    {
      p.calls == old(p.calls) && p.circuits == old(p.circuits) &&
      Others(p.verify, this) == old(Others(p.verify, this)) &&
      p.stats == old(p.stats) && p.open == old(p.open) && p.tally == old(p.tally) && p.short == old(p.short)
    }

    /** The call is deleted: its commands are forgotten, its circuit is free, and its members are
        as they were then. */
    twostate predicate Gone()
      reads this, p
    {
      p.left == Now() && p.calls == old(p.calls) - {this} && p.circuits == Freed(old(p.circuits), circuit) &&
      Others(p.verify, this) == old(Others(p.verify, this)) && Pending(p.verify, this) == {}
    }

    /** Its end was counted once, in one way. */
    twostate predicate CountedAs(end: End)
      reads this, p
    {
      p.short == old(p.short) + (if !initCall && end == Successful && !timewait && !Done() then 1 else 0) &&
      p.stats == (if initCall then old(p.stats) else old(p.stats).Ended(end)) &&
      p.open == old(p.open) - {this} && p.tally == (if Refused() then old(p.tally).Again() else old(p.tally))
    }

    twostate predicate Ended()
      reads this, p
    {
      Gone() && p.Accounts() && (CountedAs(Failed) || CountedAs(Successful) || CountedAs(Uncounted))
    }

    /** The call went on from all messages that are due, in order. */
    ghost predicate Done()
      reads this
    {
      InOrder(Steps(), p.cfg.commands, passed, |Steps()|)
    }

    /** `computeStat` of an end. */
    method Count(end: End)
      requires Ready() && (end == Successful && Straight() ==> timewait || Done())
      modifies p
      ensures p.Accounts() && p.calls == old(p.calls) && p.circuits == old(p.circuits) && p.verify == old(p.verify)
      ensures CountedAs(end)
    {
      if initCall {
        return;
      }
      p.stats := p.stats.Ended(end);
      p.short := if end == Successful && !timewait && !Done() then p.short + 1 else p.short;
      if this in p.open {
        p.open := p.open - {this};
      } else {
        p.tally := p.tally.Again();
      }
    }

    /** `delete this`: the running commands of the call are forgotten, and its circuit is
        free again. */
    method Delete()
      requires this in p.calls && verifyPending == |Pending(p.verify, this)|
      modifies p
      ensures Gone() && p.stats == old(p.stats) && p.open == old(p.open)
      ensures p.tally == old(p.tally) && p.short == old(p.short)
    {
      if verifyPending != 0 {
        p.verify := map pid | pid in p.verify :: if p.verify[pid] == this then null else p.verify[pid];
      } else {
        assert Pending(p.verify, this) == {};
      }
      if 0 < circuit <= |p.circuits| {
        p.circuits := p.circuits[circuit - 1 := false];
      }
      p.calls := p.calls - {this};
      p.left := Now();
    }

    /** `computeStat(E_CALL_FAILED)` and `delete this`, as most failures end a call. */
    method Fail()
      requires Ready()
      modifies p
      ensures Ended() && CountedAs(Failed)
    {
      Count(Failed);
      Delete();
    }

    /** `call::terminate`: how the call ends is told by a failed check before it, then by
        the reason. */
    method Terminate(success: bool)
      requires Ready() && (success && Straight() ==> Done())
      modifies p
      ensures Ended()
      ensures CountedAs(if lastActionResult == NoError && (success || timewait) then Successful else Failed)
    {
      assert lastActionResult != StopCall; // the source would count nothing
      Count(if lastActionResult == NoError && (success || timewait) then Successful else Failed);
      Delete();
    }

    /** `call::send_raw`, of a message that is lost, sent, waits for its socket or fails: a
        message of the scenario that fails ends the call. */
    method SendRaw() returns (status: Status)
      requires Ready()
      modifies p
      ensures if status == Broken then Ended() && CountedAs(Failed) else unchanged(p)
    {
      status := *;
      if status == Broken {
        Fail();
      }
    }

    /** `call::abortCall`, once the end of the call is counted. */
    method AbortCall()
      requires this in p.calls && verifyPending == |Pending(p.verify, this)|
      modifies p
      ensures Gone() && p.stats == old(p.stats) && p.open == old(p.open)
      ensures p.tally == old(p.tally) && p.short == old(p.short)
    {
      // what it sends is of its own, and changes nothing
      Delete();
    }

    /** How most timeouts and unexpected messages end a call. */
    method FailAndAbort()
      requires Ready()
      modifies p
      ensures Ended() && CountedAs(Failed)
    {
      Count(Failed);
      if p.cfg.bye {
        AbortCall();
      } else {
        Delete();
      }
    }

    /** `call::abort`. */
    method Abort()
      requires Ready()
      modifies p
      ensures Ended() && CountedAs(Failed)
    {
      Count(Failed);
      AbortCall();
    }

    /** The index of the message that follows, or of the label, goes into `msgIndex`. `isSet` is
        whether the variable of the test of the label is set, and `rand` a random number. */
    method Advance(isSet: bool, rand: nat)
      requires -1 <= msgIndex < |Steps()| && OnCourse()
      modifies this`msgIndex, this`passed
      ensures msgIndex == if old(msgIndex) >= 0 && Steps()[old(msgIndex)].Branches(isSet, rand)
                          then Steps()[old(msgIndex)].next else old(msgIndex) + 1
      ensures passed == old(passed) + if old(msgIndex) >= 0 then [old(msgIndex)] else []
      ensures 0 <= msgIndex <= |Steps()| && OnCourse()
    {
      var index := msgIndex + 1;
      if msgIndex >= 0 {
        var step := Steps()[msgIndex];
        if step.next >= 0 && (!step.tested || isSet) {
          if step.chance <= 0 || rand > step.chance {
            index := step.next;
          }
        }
        if Straight() { GoOn(Steps(), p.cfg.commands, passed, msgIndex); }
        passed := passed + [msgIndex];
      }
      msgIndex := index;
    }

    /** `call::next`: to the next message, or the end of the call if there is none and no
        command is awaited. */
    method Next(isSet: bool, rand: nat) returns (alive: bool)
      requires Ready() && msgIndex < |Steps()|
      modifies this`msgIndex, this`passed, p
      ensures msgIndex == if old(msgIndex) >= 0 && Steps()[old(msgIndex)].Branches(isSet, rand)
                          then Steps()[old(msgIndex)].next else old(msgIndex) + 1
      ensures passed == old(passed) + if old(msgIndex) >= 0 then [old(msgIndex)] else []
      ensures !alive <==> msgIndex == |Steps()| && verifyPending == 0
      ensures if alive then Same() && Ready() && Local() else Ended()
      ensures !alive ==> CountedAs(if lastActionResult == NoError then Successful else Failed)
    {
      Advance(isSet, rand);
      if msgIndex == |Steps()| && verifyPending == 0 {
        Terminate(true);
        return false;
      }
      return true;
    }

    method AnyNext() returns (alive: bool)
      requires Ready() && msgIndex < |Steps()|
      modifies this`msgIndex, this`passed, p
      ensures if alive then Same() && Ready() && Local() else Ended()
    {
      var isSet: bool, rand: nat := *, *;
      alive := Next(isSet, rand);
    }

    // Actions.

    /** `call::startVerify`: a command runs, and the call waits for it. `pid` is of no other
        running command. */
    method StartVerify(pid: nat)
      requires Ready() && pid !in p.verify
      modifies this`verifyPending, p
      ensures Same() && Ready() && verifyPending == old(verifyPending) + 1
    {
      assert Pending(p.verify[pid := this], this) == Pending(p.verify, this) + {pid};
      p.verify := p.verify[pid := this];
      verifyPending := verifyPending + 1;
    }

    /** `call::executeAction`: any number of commands to wait for, and a jump, in a step that
        may have one, to before any message or the end. */
    method ExecuteAction(mayJump: bool) returns (result: ActionResult)
      requires Ready() && msgIndex < |Steps()|
      modifies this`msgIndex, this`verifyPending, p
      ensures Same() && Ready() && msgIndex < |Steps()|
      ensures !mayJump || !p.cfg.actionsJump ==> msgIndex == old(msgIndex)
    {
      var commands: nat := *;
      while commands > 0
        invariant Same() && Ready() && msgIndex == old(msgIndex)
      {
        var pid: nat := *;
        if pid !in p.verify {
          StartVerify(pid);
        }
        commands := commands - 1;
      }
      if mayJump && !initCall && p.cfg.actionsJump {
        var to: nat, jumps: bool := *, *;
        if jumps && to <= |Steps()| {
          msgIndex := to - 1;
        }
      }
      result := *;
    }

    /** `call::handleActionResult`. */
    method HandleActionResult(result: ActionResult) returns (alive: bool)
      requires Ready()
      modifies this`lastActionResult, p
      ensures alive <==> result != StopCall && result != ConnectFailed
      ensures if alive then unchanged(p) && Ready() else Ended() && CountedAs(Failed)
      ensures lastActionResult == if result == NoError || result == StopCall then old(lastActionResult) else result
    {
      if result == NoError {
        return true;
      }
      if result == StopCall {
        RejectCall();
        return false;
      }
      lastActionResult := result;
      if result == ConnectFailed {
        Terminate(false);
        return false;
      }
      return true;
    }

    /** `call::rejectCall`. */
    method RejectCall()
      requires Ready()
      modifies p
      ensures Ended() && CountedAs(Failed)
    {
      Fail();
    }

    /** The actions of a step, and what becomes of their result. */
    method Act(mayJump: bool) returns (alive: bool, result: ActionResult)
      requires Ready() && msgIndex < |Steps()|
      modifies this`msgIndex, this`verifyPending, this`lastActionResult, p
      ensures if alive then Same() && Ready() && msgIndex < |Steps()| else Ended() && CountedAs(Failed)
      ensures alive <==> result != StopCall && result != ConnectFailed
      ensures !mayJump || !p.cfg.actionsJump ==> msgIndex == old(msgIndex)
    {
      result := ExecuteAction(mayJump);
      alive := HandleActionResult(result);
    }

    /** Actions of a step, and then the next message. */
    method ActAndNext(mayJump: bool, isSet: bool, rand: nat) returns (alive: bool)
      requires Ready() && msgIndex < |Steps()|
      modifies this`msgIndex, this`passed, this`verifyPending, this`lastActionResult, p
      ensures if alive then Same() && Ready() && Local() else Ended()
      ensures alive && (!mayJump || !p.cfg.actionsJump) ==> WentOnFrom(old(msgIndex), isSet, rand)
    {
      var result;
      alive, result := Act(mayJump);
      if alive {
        alive := Next(isSet, rand);
      }
    }

    /** The call went on from that message. */
    twostate predicate WentOnFrom(at: int, isSet: bool, rand: nat)
      requires at < |Steps()|
      reads this
    {
      msgIndex == Goes(at, isSet, rand) && passed == old(passed) + if at >= 0 then [at] else []
    }

    /** It is where it was. */
    twostate predicate Stayed()
      reads this
    {
      msgIndex == old(msgIndex) && passed == old(passed)
    }

    /** `call::sendCmdMessage`, or `call::sendCmdBuffer`: the twin may be gone. */
    method SendCommand() returns (sent: bool)
      requires Ready()
      modifies p
      ensures if sent then unchanged(p) else Ended() && CountedAs(Failed)
    {
      sent := *;
      if !sent {
        Fail();
      }
    }

    // The messages of a scenario.

    /** A pause: its actions run, and the call goes on when it is over. */
    method ExecutePause(step: Step) returns (alive: bool)
      requires Ready() && Local() && msgIndex < |Steps()|
      modifies this`timewait, this`msgIndex, this`verifyPending, this`lastActionResult, p
      ensures if alive then Same() && Ready() && Local() else Ended()
      ensures timewait == step.timewait && (alive ==> Stayed())
    {
      timewait := step.timewait;
      var result;
      alive, result := Act(false);
    }

    /** A <sendCmd>. A step without a command changes nothing. */
    method ExecuteSendCmd(step: Step, armed: bool, isSet: bool, rand: nat) returns (alive: bool, ghost sent: bool)
      requires Ready() && Local() && msgIndex < |Steps()|
      modifies this`msgIndex, this`passed, this`verifyPending, this`lastActionResult, p
      ensures alive ==> Same() && Ready() && Local()
      ensures (Same() && Ready() && Local()) || Ended()
      ensures alive && sent && !p.cfg.actionsJump ==> WentOnFrom(old(msgIndex), isSet, rand)
      ensures !sent ==> Stayed()
      ensures armed || !step.hasCmd ==> !sent && unchanged(p) && (alive <==> armed)
    {
      sent := false;
      if armed {
        return true, false; // a message is still being sent again
      }
      if !step.hasCmd {
        return false, false;
      }
      var done := SendCommand();
      if !done {
        return false, false;
      }
      sent := true;
      alive := ActAndNext(true, isSet, rand);
    }

    /** A <nop>, and one whose actions fail with an RTP echo error. */
    method ExecuteNop(isSet: bool, rand: nat) returns (alive: bool)
      requires Ready() && Local() && msgIndex < |Steps()|
      modifies this`msgIndex, this`passed, this`verifyPending, this`lastActionResult, p
      ensures if alive then Same() && Ready() && Local() else Ended()
      ensures alive && !p.cfg.actionsJump ==> WentOnFrom(old(msgIndex), isSet, rand)
    {
      var result;
      alive, result := Act(true);
      if alive {
        alive := EndNop(result, isSet, rand);
      }
    }

    method EndNop(result: ActionResult, isSet: bool, rand: nat) returns (alive: bool)
      requires Ready() && msgIndex < |Steps()|
      modifies this`msgIndex, this`passed, p
      ensures if alive then Same() && Ready() && Local() && WentOnFrom(old(msgIndex), isSet, rand) else Ended()
      ensures result == RtpEchoError ==> !alive
    {
      if result == RtpEchoError {
        Terminate(false);
        return false;
      }
      alive := Next(isSet, rand);
    }

    /** A message of the scenario is given to its connection, which may fail, or wait up to a
        timeout. */
    method Deliver() returns (status: Status)
      requires Ready()
      modifies p
      ensures if status == Broken then Ended() && CountedAs(Failed) else unchanged(p)
    {
      var connected: bool, timedOut: bool := *, *;
      if !connected {
        Fail(); // connect_socket_if_needed
        return Broken;
      }
      status := SendRaw();
      if status == Blocked && timedOut {
        FailAndAbort();
        return Broken;
      }
    }

    /** A <send>: its message is sent, waits or fails, and once sent its actions run. */
    method ExecuteSend(armed: bool, isSet: bool, rand: nat) returns (alive: bool, ghost sent: bool)
      requires Ready() && Local() && msgIndex < |Steps()|
      modifies this`msgIndex, this`passed, this`verifyPending, this`lastActionResult, p
      ensures alive ==> Same() && Ready() && Local()
      ensures (Same() && Ready() && Local()) || Ended()
      ensures alive && sent && !p.cfg.actionsJump ==> WentOnFrom(old(msgIndex), isSet, rand)
      ensures !sent ==> Stayed() && (alive ==> unchanged(p)) && (!alive ==> Ended() && CountedAs(Failed))
      ensures armed ==> alive && !sent
    {
      sent := false;
      if armed {
        return true, false;
      }
      var status := Deliver();
      if status != Sent {
        return status == Blocked, false;
      }
      sent := true;
      alive := ActAndNext(true, isSet, rand);
    }

    /** A timeout that jumps to its label, or ends the call without one or at the end. */
    method TimeOut(onTimeout: int) returns (alive: bool)
      requires Ready() && Local() && -1 <= onTimeout <= |Steps()| && (Straight() ==> onTimeout < 0)
      modifies this`msgIndex, p
      ensures alive <==> 0 <= onTimeout < |Steps()|
      ensures if alive then Same() && Ready() && Local() && msgIndex == onTimeout else Ended() && CountedAs(Failed)
    {
      if 0 <= onTimeout < |Steps()| {
        msgIndex := onTimeout;
        return true;
      }
      FailAndAbort();
      return false;
    }

    // Steps that call each other: a message kept for a later <recv> is taken up inside
    // the step that reaches it. `depth` bounds how deep such calls nest; the real program
    // stops there with its stack exhausted.

    /** What a step leaves: it returns true only if the call is not deleted, and the call
        is as between two steps, or ended. Only its own turn ends a call that got no
        circuit without counting it again. */
    twostate predicate Stepped(alive: bool)
      reads this, p
    {
      (alive ==> Same() && Ready() && Local()) &&
      ((Same() && Ready() && Local()) || (Ended() && !hadTurn) || (zombie && hadTurn && Dropped()))
    }

    /** Deleted without being counted. */
    twostate predicate Dropped()
      reads this, p
    {
      Gone() && p.stats == old(p.stats) && p.open == old(p.open) && p.tally == old(p.tally) && p.short == old(p.short)
    }

    /** A turn of the call, a message, a command, the loss or the return of its connection, or
        the end of the process. */
    method AnyEvent(depth: nat)
      requires Ready() && Local()
      modifies p, this
      ensures (Same() && Ready() && Local()) || (Ended() && !hadTurn) || (zombie && hadTurn && Dropped())
    {
      var event: nat := *;
      var alive: bool;
      match event {
        case 0 => alive := Run(depth);
        case 1 => if !initCall { alive := ProcessIncoming(depth); }
        case 2 => if p.cfg.commands { alive := ProcessTwin(); }
        case 3 => alive := TcpClose();
        case 4 => TcpReconnected();
        case _ => Abort();
      }
    }

    /** `call::executeMessage`. */
    method ExecuteMessage(depth: nat) returns (alive: bool)
      requires Ready() && Local() && msgIndex < |Steps()|
      modifies this, p
      ensures Stepped(alive)
      decreases depth, 1
    {
      var step := Steps()[msgIndex];
      var armed: bool, isSet: bool, rand: nat := *, *, *;
      match step.kind {
        case Pause => alive := ExecutePause(step);
        case SendCmd =>
          ghost var sent;
          alive, sent := ExecuteSendCmd(step, armed, isSet, rand);
        case Nop => alive := ExecuteNop(isSet, rand);
        case Send =>
          ghost var sent;
          alive, sent := ExecuteSend(armed, isSet, rand);
        case Recv => alive := ExecuteRecv(step, depth);
        case RecvCmd => alive := ExecuteRecv(step, depth);
      }
    }

    /** A <recv> or <recvCmd>: what was kept for it, a wait, or a timeout. */
    method ExecuteRecv(step: Step, depth: nat) returns (alive: bool)
      requires Ready() && Local() && msgIndex < |Steps()| && step == Steps()[msgIndex]
      modifies this, p
      ensures Stepped(alive)
      decreases depth, 0
    {
      if step.kind == RecvCmd && hasCmd {
        alive := TakeKeptCommand();
      } else if hasMsg {
        if depth == 0 {
          return true;
        }
        hasMsg := false;
        alive := ProcessIncoming(depth - 1);
      } else {
        alive := Wait(step);
      }
    }

    method TakeKeptCommand() returns (alive: bool)
      requires Ready() && Local() && p.cfg.commands
      modifies this, p
      ensures Stepped(alive)
    {
      hasCmd := false;
      alive := ProcessTwin();
    }

    /** A message that did not come yet. */
    method Wait(step: Step) returns (alive: bool)
      requires Ready() && Local() && msgIndex < |Steps()| && step == Steps()[msgIndex]
      modifies this`msgIndex, p
      ensures if alive then Same() && Ready() && Local() else Ended()
    {
      var timedOut: bool := *;
      if !timedOut {
        return true;
      }
      alive := TimeOut(step.onTimeout);
    }

    /** `call::run`, the turn of a call. */
    method Run(depth: nat) returns (alive: bool)
      requires Ready() && Local()
      modifies this, p
      ensures Stepped(alive)
      ensures zombie ==> !alive && hadTurn && Dropped()
      ensures !zombie && old(msgIndex) == |Steps()| ==> alive && unchanged(p) && Now() == old(Now())
      decreases depth, 6
    {
      if zombie {
        hadTurn := true;
        Delete();
        return false;
      }
      if msgIndex == |Steps()| {
        return true; // past its last message, it waits for its commands
      }
      alive := Turn(depth);
    }

    /** The turn of a call that is at a message: it goes on, is sent again, or times out. */
    method Turn(depth: nat) returns (alive: bool)
      requires Ready() && Local() && msgIndex < |Steps()|
      modifies this, p
      ensures Stepped(alive)
      decreases depth, 5
    {
      var skipped: bool := *;
      if skipped {
        alive := AnyNext();
        return;
      }
      var expired: bool, exhausted: bool := *, *;
      if expired && exhausted {
        alive := AnyTimeOut();
      } else if expired {
        alive := SendAgain(depth);
      } else {
        alive := AnyResume(depth);
      }
    }

    /** A retransmission, after which the turn goes on. */
    method SendAgain(depth: nat) returns (alive: bool)
      requires Ready() && Local() && msgIndex < |Steps()|
      modifies this, p
      ensures Stepped(alive)
      decreases depth, 4
    {
      var status := SendRaw();
      if status != Sent {
        return false;
      }
      alive := AnyResume(depth);
    }

    method AnyResume(depth: nat) returns (alive: bool)
      requires Ready() && Local() && msgIndex < |Steps()|
      modifies this, p
      ensures Stepped(alive)
      decreases depth, 3
    {
      var paused: bool, over: bool, playing: bool, tooLong: bool := *, *, *, *;
      alive := Resume(depth, paused, over, playing, tooLong);
    }

    /** The rest of a turn: a pause that is over or not, the end of a playback, which may take too
        long, the commands awaited, or a message. */
    method Resume(depth: nat, paused: bool, over: bool, playing: bool, tooLong: bool) returns (alive: bool)
      requires Ready() && Local() && msgIndex < |Steps()|
      modifies this, p
      ensures Stepped(alive)
      ensures (if paused then !over else if playing then !tooLong else old(verifyPending) > 0) ==>
        alive && unchanged(p) && Now() == old(Now())
      decreases depth, 2
    {
      if paused {
        if !over {
          return true;
        }
        alive := AnyNext();
      } else if playing {
        if !tooLong {
          return true;
        }
        alive := AnyTimeOut();
      } else if verifyPending > 0 {
        alive := true;
      } else {
        alive := ExecuteMessage(depth);
      }
    }

    /** The timeout of the last message sent, or of the message that waits for a playback. */
    method AnyTimeOut() returns (alive: bool)
      requires Ready() && Local()
      modifies this`msgIndex, p
      ensures if alive then Same() && Ready() && Local() else Ended()
    {
      var at: int := *;
      var onTimeout := if 0 <= at < |Steps()| then Steps()[at].onTimeout else -1;
      alive := TimeOut(onTimeout);
    }

    // What comes from the network and from the twin.

    /** `call::process_unexpected`, after which no message is processed further. */
    method ProcessUnexpected()
      requires Ready() && Local()
      modifies p
      ensures if p.cfg.abortUnexpected then Ended() && CountedAs(Failed) else unchanged(p)
    {
      if p.cfg.abortUnexpected {
        if p.cfg.hasTwin && msgIndex > 0 {
          var sent := SendCommand();
          if !sent {
            return;
          }
        }
        FailAndAbort();
      }
    }

    /** `call::automaticResponseMode`. */
    method AutomaticResponse(mode: AutoMode) returns (alive: bool)
      requires Ready() && Local() && mode != Default
      modifies p
      ensures alive <==> mode == AutoAnswer
      ensures if alive || !(if mode == Ping then p.cfg.pingReply else p.cfg.abortUnexpected) then unchanged(p)
              else Ended() && (CountedAs(Failed) || (mode == Ping && CountedAs(Uncounted)))
    {
      if mode == AutoAnswer {
        return true;
      }
      if if mode == Ping then p.cfg.pingReply else p.cfg.abortUnexpected {
        WarnAndEnd(if mode == Ping then Uncounted else Failed);
      }
      return false;
    }

    /** The twin is told, if it can be, and the call ends. */
    method WarnAndEnd(end: End)
      requires Ready() && Local() && end != Successful
      modifies p
      ensures Ended() && (CountedAs(Failed) || CountedAs(end))
    {
      var sent := Warn();
      if sent {
        Count(end);
        Delete();
      }
    }

    /** Tells the twin of the end of the call, if it has one. */
    method Warn() returns (sent: bool)
      requires Ready()
      modifies p
      ensures if sent then unchanged(p) else Ended() && CountedAs(Failed)
      ensures !p.cfg.hasTwin || msgIndex <= 0 ==> sent
    {
      sent := true;
      if p.cfg.hasTwin && msgIndex > 0 {
        sent := SendCommand();
      }
    }

    /** Whether the call may go on from a message at `index`: those due before it are those before
        the one the call is at. */
    ghost predicate May(index: nat)
      reads this
    {
      index < |Steps()| &&
      (Straight() ==> DueBelow(Steps(), p.cfg.commands, index) == DueBelow(Steps(), p.cfg.commands, msgIndex))
    }

    /** The call goes on from the message at `index`. */
    method GoOnFrom(index: nat, isSet: bool, rand: nat) returns (alive: bool)
      requires Ready() && May(index)
      modifies this`msgIndex, this`passed, p
      ensures if alive then Same() && Ready() && Local() && WentOnFrom(index, isSet, rand) else Ended()
    {
      msgIndex := index;
      alive := Next(isSet, rand);
    }

    /** A message of the scenario that came: its actions, and then, if it moves the call, what
        follows it. */
    method Matched(index: nat, isSet: bool, rand: nat) returns (alive: bool)
      requires Ready() && Local() && index < |Steps()| && msgIndex < |Steps()|
      requires Steps()[index].advances ==> May(index)
      modifies this`msgIndex, this`passed, this`verifyPending, this`lastActionResult, p
      ensures if alive then Same() && Ready() && Local() else Ended()
      ensures alive ==> if Steps()[index].Moves(isSet) then WentOnFrom(index, isSet, rand) else Stayed()
    {
      var result;
      alive, result := Act(false);
      if !alive || !Steps()[index].advances {
        return;
      }
      if Steps()[index].optional == No || (Steps()[index].next != 0 && (!Steps()[index].tested || isSet)) {
        alive := GoOnFrom(index, isSet, rand);
      }
    }

    /** A message that no message of the scenario matches: a jump to the label of
        unexpected messages, an automatic response, or an unexpected message. */
    method Unmatched(depth: nat) returns (alive: bool)
      requires Ready() && Local() && !initCall && msgIndex < |Steps()|
      modifies this, p
      ensures Stepped(alive)
      decreases depth, 7
    {
      var inJump: bool, mode: AutoMode := *, *;
      if p.cfg.jumps && !inJump {
        msgIndex := p.cfg.unexpectedJump;
        hasMsg := true;
        alive := Run(depth);
      } else if p.cfg.jumps || mode == Default {
        ProcessUnexpected();
        alive := false;
      } else {
        alive := AutomaticResponse(mode);
      }
    }

    /** What is done with a message first: at a <nop> or a <sendCmd> it is kept for later. */
    method Receive() returns (treatment: Treatment)
      requires Ready() && Local() && !initCall
      modifies this`hasMsg
      ensures Ready() && Local()
      ensures treatment == Ignore <==>
        msgIndex == |Steps()| || (Steps()[msgIndex].kind == Pause && p.cfg.ignoreInPause)
      ensures treatment == Keep <==> msgIndex < |Steps()| && Steps()[msgIndex].kind in {Nop, SendCmd}
      ensures hasMsg == (old(hasMsg) || treatment == Keep)
    {
      if msgIndex == |Steps()| {
        return Ignore;
      }
      var kind := Steps()[msgIndex].kind;
      if kind == Pause && p.cfg.ignoreInPause {
        return Ignore;
      }
      if kind == Nop || kind == SendCmd {
        hasMsg := true;
        return Keep;
      }
      return LookUp;
    }

    /** `call::process_incoming`. */
    method ProcessIncoming(depth: nat) returns (alive: bool)
      requires Ready() && Local() && !initCall
      modifies this, p
      ensures Stepped(alive)
      ensures old(msgIndex) == |Steps()| || (Steps()[old(msgIndex)].kind == Pause && p.cfg.ignoreInPause) ==>
        alive && unchanged(p) && Now() == old(Now())
      decreases depth, 11
    {
      var treatment := Receive();
      if treatment == Ignore {
        return true;
      }
      alive := Proceed(treatment, depth);
    }

    method Proceed(treatment: Treatment, depth: nat) returns (alive: bool)
      requires Ready() && Local() && !initCall && msgIndex < |Steps()|
      modifies this, p
      ensures Stepped(alive)
      decreases depth, 10
    {
      if treatment == Keep {
        alive := Run(depth);
      } else {
        alive := Examine(depth);
      }
    }

    /** A message that is not kept or ignored: it may end the call, be one that came before, or
        be one to look up in the scenario. */
    method Examine(depth: nat) returns (alive: bool)
      requires Ready() && Local() && !initCall && msgIndex < |Steps()|
      modifies this, p
      ensures Stepped(alive)
      decreases depth, 9
    {
      var badAck: bool, malformed: bool, again: bool, badSdp: bool := *, *, *, *;
      if badAck {
        Fail();
        return false;
      }
      if malformed {
        ProcessUnexpected(); // no To, or no reply code
        return false;
      }
      if again {
        alive := AnswerAgain();
        return;
      }
      if badSdp {
        RejectCall();
        return false;
      }
      alive := Dispatch(depth);
    }

    /** A retransmission: ignored, or answered again. */
    method AnswerAgain() returns (alive: bool)
      requires Ready() && Local()
      modifies p
      ensures alive ==> unchanged(p)
      ensures unchanged(p) || Ended()
    {
      var answers: bool := *;
      if !answers {
        return true;
      }
      var status := SendRaw();
      return status == Sent;
    }

    /** The message of the scenario that a received one is, from the current one on up to one that
        is not optional. */
    method FindAhead() returns (index: nat, found: bool)
      requires Local() && msgIndex < |Steps()|
      ensures found ==> msgIndex <= index && May(index) && Steps()[index].kind == Recv
      ensures found ==> forall i :: msgIndex <= i < index ==> Steps()[i].optional != No
    {
      index, found := msgIndex, false;
      while index < |Steps()|
        invariant msgIndex <= index <= |Steps()| && !found
        invariant forall i :: msgIndex <= i < index ==> Steps()[i].optional != No
      {
        var matches: bool := *;
        if matches && Steps()[index].kind == Recv {
          LeaveOut(Steps(), p.cfg.commands, msgIndex, index);
          return index, true;
        }
        if Steps()[index].optional == No {
          return index, false;
        }
        index := index + 1;
      }
    }

    /** Or before it, if it is optional, as all after it are, or if it is so everywhere. Some others
        are ignored: provisional ones, repeated ones, and those answered by an ACK again. */
    method FindBehind() returns (index: nat, found: bool, ignored: bool)
      requires Local() && msgIndex < |Steps()|
      ensures found ==> index < msgIndex && Steps()[index].kind == Recv && Steps()[index].optional != No
      ensures found && Steps()[index].advances ==> May(index)
      ensures found ==>
        Steps()[index].optional == Global || forall i :: index <= i < msgIndex ==> Steps()[i].optional != No
      ensures found ==> !ignored
    {
      var contig, i := true, msgIndex;
      while i > 0
        invariant 0 <= i <= msgIndex
        invariant contig ==> forall k :: i <= k < msgIndex ==> Steps()[k].optional != No
      {
        i := i - 1;
        if Steps()[i].optional == No {
          contig := false;
        }
        var matches: bool, skips: bool := *, *;
        if matches && Steps()[i].kind == Recv {
          if contig || Steps()[i].optional == Global {
            if contig { LeaveOut(Steps(), p.cfg.commands, i, msgIndex); }
            return i, true, false;
          }
          if skips {
            return i, false, true;
          }
        }
      }
      return 0, false, false;
    }

    /** Both searches, in order. */
    method Find() returns (index: nat, found: bool, ignored: bool)
      requires Local() && msgIndex < |Steps()|
      ensures found ==> index < |Steps()| && Steps()[index].kind == Recv && (Steps()[index].advances ==> May(index))
      ensures found ==> !ignored
    {
      index, found := FindAhead();
      ignored := false;
      if !found {
        index, found, ignored := FindBehind();
      }
    }

    /** The search for the message of the scenario that matches. */
    method Dispatch(depth: nat) returns (alive: bool)
      requires Ready() && Local() && !initCall && msgIndex < |Steps()|
      modifies this, p
      ensures Stepped(alive)
      decreases depth, 8
    {
      var index, found, ignored := Find();
      var lost: bool, isSet: bool, rand: nat := *, *, *;
      if ignored || (found && lost) {
        return true;
      }
      if !found {
        alive := Unmatched(depth);
        return;
      }
      alive := Matched(index, isSet, rand);
    }

    /** `call::process_twinSippCom`. */
    method ProcessTwin() returns (alive: bool)
      requires Ready() && Local() && p.cfg.commands
      modifies this, p
      ensures Stepped(alive)
    {
      var abort: bool := *;
      if abort {
        Abort();
        return false;
      }
      var index := FindCommand();
      if index == |Steps()| {
        RejectCall();
        return false;
      }
      var follows: bool, wrongSender: bool, isSet: bool, rand: nat := *, *, *, *;
      alive := TakeCommand(index, follows, wrongSender, isSet, rand);
    }

    /** The first message from the current one on that is neither optional nor a <nop>, or
        is a <recvCmd>. */
    method FindCommand() returns (index: nat)
      requires Local() && p.cfg.commands
      ensures msgIndex <= index <= |Steps()|
      ensures index < |Steps()| && Steps()[index].kind == RecvCmd ==> May(index)
      ensures forall i :: msgIndex <= i < index ==>
        Steps()[i].kind != RecvCmd && (Steps()[i].optional != No || Steps()[i].kind == Nop)
      ensures index < |Steps()| ==>
        Steps()[index].kind == RecvCmd || (Steps()[index].optional == No && Steps()[index].kind != Nop)
    {
      index := msgIndex;
      while index < |Steps()| && Steps()[index].kind != RecvCmd &&
            (Steps()[index].optional != No || Steps()[index].kind == Nop)
        invariant msgIndex <= index <= |Steps()|
        invariant forall i :: msgIndex <= i < index ==>
          Steps()[i].kind != RecvCmd && (Steps()[i].optional != No || Steps()[i].kind == Nop)
      {
        index := index + 1;
      }
      if index < |Steps()| && Steps()[index].kind == RecvCmd {
        LeaveOut(Steps(), p.cfg.commands, msgIndex, index);
      }
    }

    /** A command that came where the call is at `index`: kept for later, if a <recvCmd> `follows`,
        taken, or a reason to end the call. */
    method TakeCommand(index: nat, follows: bool, wrongSender: bool, isSet: bool, rand: nat) returns (alive: bool)
      requires Ready() && Local() && p.cfg.commands && msgIndex <= index < |Steps()|
      requires Steps()[index].kind == RecvCmd ==> May(index)
      modifies this, p
      ensures Stepped(alive)
      ensures Steps()[index].kind == RecvCmd && !wrongSender && alive ==> WentOnFrom(index, isSet, rand)
      ensures Steps()[index].kind == RecvCmd && wrongSender ==> !alive && Ended() && CountedAs(Failed)
      ensures Steps()[index].kind != RecvCmd ==>
        if Steps()[index].kind in {Recv, Send} && !old(hasCmd) && follows
        then alive && Stayed() && hasCmd && unchanged(p)
        else !alive && Ended() && CountedAs(Failed)
    {
      var step := Steps()[index];
      if step.kind != RecvCmd && (step.kind == Recv || step.kind == Send) && !hasCmd && follows {
        hasCmd := true;
        return true;
      }
      if step.kind != RecvCmd || wrongSender {
        RejectCall();
        return false;
      }
      alive := ActAndGoOn(index, isSet, rand);
    }

    method ActAndGoOn(index: nat, isSet: bool, rand: nat) returns (alive: bool)
      requires Ready() && Local() && msgIndex <= index && May(index)
      modifies this`msgIndex, this`passed, this`verifyPending, this`lastActionResult, p
      ensures if alive then Same() && Ready() && Local() && WentOnFrom(index, isSet, rand) else Ended()
    {
      var result;
      alive, result := Act(false);
      if alive {
        alive := GoOnFrom(index, isSet, rand);
      }
    }

    /** `call::tcpClose`: its connection closed, or the twin's did. */
    method TcpClose() returns (failed: bool)
      requires Ready() && Local()
      modifies this`timewait, p
      ensures Ended()
      ensures failed <==> lastActionResult != NoError || !timewait
      ensures CountedAs(if failed then Failed else Successful)
    {
      if msgIndex < |Steps()| && Steps()[msgIndex].timewait {
        timewait := true;
      }
      failed := lastActionResult != NoError || !timewait;
      Terminate(false);
    }

    /** `call::tcpReconnected`. */
    method TcpReconnected()
      requires Ready() && Local()
      modifies p
      ensures unchanged(p) || Ended()
    {
      var unanswered: bool := *;
      if unanswered {
        var _ := SendRaw();
      }
    }

    /** `call::verifyDone`: a command of the call ended. A call past its last message ends
        exactly when its last command does. */
    method VerifyDone(succeeded: bool)
      requires this in p.calls && p.Accounts() && (this in p.open <==> Counts()) && Local()
      requires verifyPending == |Pending(p.verify, this)| + 1
      modifies this`verifyPending, this`lastActionResult, p
      ensures if verifyPending == 0 && msgIndex == |Steps()| then Ended() else Same() && Ready() && Local()
      ensures verifyPending == old(verifyPending) - 1
      ensures lastActionResult == if succeeded then old(lastActionResult) else VerifyFailed
      ensures verifyPending == 0 && msgIndex == |Steps()| ==>
        CountedAs(if lastActionResult == NoError then Successful else Failed)
    {
      if !succeeded {
        lastActionResult := VerifyFailed;
      }
      verifyPending := verifyPending - 1;
      if verifyPending == 0 && msgIndex == |Steps()| {
        Terminate(true);
      }
    }
  }

  /** What does not hold of calls that got no circuit: with one circuit and two calls, the
      second is counted as failed when it is made, and again when it is aborted before its
      turn. Two calls were created, two failed, one is still open, and the statistics have
      no current call. */
  method CountedTwice(settings: Config) returns (stats: Stats, stillOpen: nat)
    requires settings.useCircuits
    ensures stats.created == 2 && stats.failed == 2 && stats.current == 0 && stillOpen == 1
  {
    var p, first := OneCall(settings);
    var second := OtherCall(p, first);
    second.Abort();
    assert p.calls == {first};
    stats, stillOpen := p.stats, |p.calls|;
  }

  method OtherCall(p: Process, first: Call) returns (second: Call)
    requires p.Inv() && p.cfg.useCircuits && p.calls == {first} && p.circuits == [true]
    requires p.stats == Stats(1, 0, 0, 0, 1)
    modifies p
    ensures fresh(second) && second.p == p && second.Ready() && second.zombie && !second.initCall
    ensures p.calls == {first, second} && p.stats == Stats(2, 1, 0, 0, 1)
  {
    second := p.NewCall(false, false, 0);
    assert second in p.calls;
  }

  method OneCall(settings: Config) returns (p: Process, c: Call)
    requires settings.useCircuits
    ensures fresh(p) && fresh(c) && p.cfg == settings && p.Inv() && p.calls == {c} && !c.zombie && !c.initCall
    ensures p.stats == Stats(1, 0, 0, 0, 1) && p.circuits == [true] && p.tally == Tally(0, 0)
  {
    p := new Process(settings, 1);
    assert !p.circuits[0];
    c := p.NewCall(false, false, 0);
    assert Held(p.calls, 0) by { assert c in p.calls && c.circuit == 1; }
  }

  /** What does not hold of a message that is optional everywhere and has no label: when it comes
      late, the call goes back to what follows it, and waits for message 1 again. */
  method GoesBack(settings: Config) returns (alive: bool, at: int)
    requires !settings.useCircuits && |settings.steps| == 3
    requires forall i :: 0 <= i < 3 ==>
      settings.steps[i] == Step(Recv, false, -1, -1, false, 0, if i == 0 then Global else No, true, false)
    ensures alive ==> at == 1
  {
    var p := new Process(settings, 0);
    var c := p.NewCall(false, false, 0);
    assert c.Steps()[0].optional == Global;
    at := 0;
    p.Between(c);
    alive := c.Matched(1, false, 0);
    if alive {
      assert c.msgIndex == 2;
      alive := c.Matched(0, false, 0);
      at := c.msgIndex;
    }
  }
}
