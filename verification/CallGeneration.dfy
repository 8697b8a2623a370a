/** The opening of calls, by rate or by users (src/call_generation_task.cpp). The clock is a
    parameter, the rate a real number, and every call is an outgoing one. The calls due at a
    rate after some time are given by a function that never falls as time passes, such as the
    floor of elapsed * rate / period. A run opens at least one call, and then as many as it has
    time for in its millisecond, which is a parameter. */
module CallGeneration {
  import opened Basics

  /** The milliseconds that a rate is of. */
  type Period = n: nat | n > 0 witness 1000

  type Schedule = (nat, real) -> nat

  /** The calls due do not become fewer. */
  ghost predicate Grows(due: Schedule) {
    forall a, b, rate :: Later(due, a, b, rate)
  }

  ghost predicate Later(due: Schedule, a: nat, b: nat, rate: real) {
    a <= b && rate >= 0.0 ==> due(a, rate) <= due(b, rate)
  }

  /** The floor of elapsed * rate / period; 0 for a rate below 0, which is never set. */
  function Uniform(elapsed: nat, rate: real, period: nat): nat
    requires period > 0
  {
    Whole(elapsed as real * (rate / period as real))
  }

  function Whole(x: real): nat {
    if x < 0.0 then 0 else x.Floor
  }

  lemma {:induction false} UniformGrows(period: nat)
    requires period > 0
    ensures Grows((elapsed, rate) => Uniform(elapsed, rate, period))
  {
    var due: Schedule := (elapsed: nat, rate: real) => Uniform(elapsed, rate, period);
    forall a, b, rate ensures Later(due, a, b, rate) {
      if a <= b && rate >= 0.0 { UniformLater(a, b, rate, period); }
    }
  }

  lemma {:induction false} UniformLater(a: nat, b: nat, rate: real, period: nat)
    requires period > 0 && rate >= 0.0 && a <= b
    ensures Uniform(a, rate, period) <= Uniform(b, rate, period)
  {
    NotBelow(rate, period as real);
    Scaled(a as real, b as real, rate / period as real);
  }

  lemma {:induction false} NotBelow(rate: real, period: real)
    requires rate >= 0.0 && period > 0.0
    ensures rate / period >= 0.0
  {
  }

  lemma {:induction false} Scaled(a: real, b: real, r: real)
    requires 0.0 <= a <= b && r >= 0.0
    ensures Whole(a * r) <= Whole(b * r)
  {
    Scales(a, b, r);
    WholeGrows(a * r, b * r);
  }

  lemma {:induction false} Scales(a: real, b: real, r: real)
    requires 0.0 <= a <= b && r >= 0.0
    ensures 0.0 <= a * r <= b * r
  {
    assert b * r - a * r == (b - a) * r;
  }

  lemma {:induction false} WholeGrows(x: real, y: real)
    requires x <= y
    ensures Whole(x) <= Whole(y)
  {
  }

  /** A user id; a call without a user has the id 0. */
  type Id = n: nat | n > 0 witness 1

  /** How often an id is in a list. */
  function Count(l: seq<Id>, id: Id): nat {
    if l == [] then 0 else Count(l[1..], id) + if l[0] == id then 1 else 0
  }

  lemma {:induction false} CountFirst(l: seq<Id>, first: Id, id: Id)
    ensures Count([first] + l, id) == Count(l, id) + if first == id then 1 else 0
  {
    assert ([first] + l)[1..] == l;
  }

  lemma {:induction false} CountLast(l: seq<Id>, id: Id)
    requires l != []
    ensures Count(l, id) == Count(l[..|l| - 1], id) + if l[|l| - 1] == id then 1 else 0
  {
    if |l| == 1 {
      assert l[1..] == [] && l[..0] == [];
    } else {
      CountLast(l[1..], id);
      assert l[1..][..|l| - 2] == l[..|l| - 1][1..];
    }
  }

  /** The calls to open, by users or by the calls `due`, up to the last call to make. */
  function CallsToOpen(users: int, ramping: bool, current: nat, created: nat, due: int, stopAfter: nat): int {
    var n := if users < 0 then due else if ramping then Min(users - current, due) else users - current;
    if created + n > stopAfter then stopAfter - created else n
  }

  /** Of these, the calls within the limit of open calls; a limit of 0 is none. */
  function Within(n: int, current: nat, allowed: nat): nat {
    var m := if allowed != 0 && current + n > allowed then allowed - current else n;
    if m <= 0 then 0 else m
  }

  lemma {:induction false} OpenLimits(users: int, ramping: bool, current: nat, created: nat, due: int,
                                      stopAfter: nat, allowed: nat)
    requires created <= stopAfter && (users < 0 ==> due >= 0)
    ensures var n := CallsToOpen(users, ramping, current, created, due, stopAfter);
      var k := Within(n, current, allowed);
      created + k <= stopAfter && (users < 0 ==> k <= n <= due) && (users >= 0 ==> current + k <= users || k == 0) &&
      (users >= 0 && ramping ==> n <= due) && (allowed != 0 && current <= allowed ==> current + k <= allowed)
  {
  }

  /** Of these, the calls that there is time for, of which there is always one. */
  function InTime(n: nat, time: nat): nat {
    if n == 0 then 0 else Min(n, if time == 0 then 1 else time)
  }

  /** What is to open after a run that was cut short at `k` of `n` calls: nothing exactly when
      the rate set `n`. By users, it is what was left. */
  lemma {:induction false} LeftToOpen(users: int, ramping: bool, current: nat, created: nat, due: int,
                                      stopAfter: nat, k: nat)
    requires created <= stopAfter && 0 < k < CallsToOpen(users, ramping, current, created, due, stopAfter)
    ensures var n := CallsToOpen(users, ramping, current, created, due, stopAfter);
      var left := CallsToOpen(users, ramping && current + k < users, current + k, created + k, due - n, stopAfter);
      (left == 0 <==> (users < 0 || ramping) && n == due) &&
      (users >= 0 && !ramping ==> left == n - k) &&
      (users < 0 ==> left == Min(due - n, stopAfter - created - k))
  {
  }

  /** The most calls to have open at a rate, when the user sets none: three times those of the
      longest duration, at least a second, and at least one. */
  function OpenLimit(rate: real, duration: nat, scenario: nat, period: Period): (limit: nat)
    ensures limit > 0
  {
    var n := Whole(Thrice(rate, Longest(duration, scenario), period));
    if n == 0 then 1 else n
  }

  function Longest(duration: nat, scenario: nat): nat {
    var longest := if duration > scenario then duration else scenario;
    if longest < 1000 then 1000 else longest
  }

  function Thrice(rate: real, longest: nat, period: Period): real {
    3.0 * rate * longest as real / period as real
  }

  /** It is the largest number of calls that a rate opens in three times the longest of the two
      durations and a second, or one. */
  lemma {:induction false} LimitIsThreeTimes(rate: real, duration: nat, scenario: nat, period: Period, longest: nat)
    requires longest >= 1000 && longest >= duration && longest >= scenario
    requires longest == 1000 || longest == duration || longest == scenario
    ensures var limit, calls := OpenLimit(rate, duration, scenario, period), Thrice(rate, longest, period);
      (limit as real <= calls < limit as real + 1.0) || (limit == 1 && calls < 1.0)
  {
    LimitIs(Thrice(rate, longest, period), OpenLimit(rate, duration, scenario, period));
  }

  lemma {:induction false} LimitIs(calls: real, limit: nat)
    requires limit == if Whole(calls) == 0 then 1 else Whole(calls)
    ensures (limit as real <= calls < limit as real + 1.0) || (limit == 1 && calls < 1.0)
  {
    WholeIs(calls);
  }

  lemma {:induction false} WholeIs(x: real)
    ensures (Whole(x) as real <= x < Whole(x) as real + 1.0) || (Whole(x) == 0 && x < 0.0)
  {
  }

  /** At ten calls per second, 30, and with a scenario of a minute 1800. */
  lemma {:induction false} LimitAtTen()
    ensures OpenLimit(10.0, 0, 0, 1000) == 30 && OpenLimit(10.0, 0, 60000, 1000) == 1800
    ensures OpenLimit(10.0, 60000, 0, 1000) == 1800
  {
  }

  /** How many of some are left when some are taken. */
  function Rest(n: nat, taken: int): nat {
    if taken <= 0 then n else if taken >= n then 0 else n - taken
  }

  class Generator {
    const due: Schedule
    const period: Period
    const stopAfter: nat
    const rateSet: bool
    const openCallsUserSetting: bool
    var users: int
    var rate: real
    var openCallsAllowed: nat
    var ramping: bool
    var paused: bool
    var quitting: bool
    var clock: nat
    var lastRateChange: nat
    var callsSince: int
    var created: nat
    var current: nat
    var freeUsers: seq<Id>
    var retiredUsers: seq<Id>
    /** The user ids of the calls that are open; in rate mode they have none. */
    var live: multiset<Id>
    /** The calls opened since the rate last changed. */
    ghost var openedSince: nat

    /** How often a user id is about: free, retired or in a call. */
    ghost function Places(id: Id): nat
      reads this`freeUsers, this`retiredUsers, this`live
    {
      Count(freeUsers, id) + Count(retiredUsers, id) + live[id]
    }

    /** No user id was lost, and none came to be. */
    twostate predicate Kept()
      reads this`freeUsers, this`retiredUsers, this`live
    {
      forall id: Id :: Places(id) == old(Places(id))
    }

    function Expected(): nat
      requires lastRateChange <= clock
      reads this
    {
      due(clock - lastRateChange, rate)
    }

    ghost predicate Counted()
      reads this
    {
      Grows(due) && rate >= 0.0 && current <= created <= stopAfter
    }

    /** In users mode there are always users enough for the calls to open. */
    ghost predicate ByUsers()
      reads this
    {
      users >= 0 && Counted() && openCallsAllowed == users && |freeUsers| + current >= users && |live| == current &&
      lastRateChange <= clock && (ramping ==> callsSince <= Expected())
    }

    /** In rate mode no more calls are opened than are due. */
    ghost predicate ByRate()
      reads this
    {
      users < 0 && Counted() && openedSince <= callsSince &&
      (if lastRateChange <= clock then callsSince <= Expected() else callsSince == 0)
    }

    /** The calls to open, but for the limit of open calls. */
    function ToOpen(): int
      requires lastRateChange <= clock
      reads this
    {
      CallsToOpen(users, ramping, current, created, Expected() - callsSince, stopAfter)
    }

    /** The users whose calls are opened have left the free ones for the calls. */
    twostate predicate Took(k: nat)
      reads this
    {
      Kept() && k <= old(|freeUsers|) && freeUsers == old(freeUsers)[..old(|freeUsers|) - k] &&
      |live| == old(|live|) + k
    }

    /** One call more; in users mode with the id of a free user. */
    method Open()
      requires users >= 0 ==> freeUsers != []
      modifies this`created, this`current, this`freeUsers, this`live, this`openedSince
      ensures created == old(created) + 1 && current == old(current) + 1 && openedSince == old(openedSince) + 1
      ensures users >= 0 ==> Took(1)
    {
      if users >= 0 {
        var id := freeUsers[|freeUsers| - 1];
        forall x: Id { CountLast(freeUsers, x); }
        freeUsers := freeUsers[..|freeUsers| - 1];
        live := live + multiset{id};
      }
      created, current, openedSince := created + 1, current + 1, openedSince + 1;
    }

    /** The loop of `run`: every call it opens, it opens in time, but for the first. */
    method OpenCalls(n: nat, time: nat) returns (k: nat)
      requires users >= 0 ==> n <= |freeUsers|
      modifies this`created, this`current, this`freeUsers, this`live, this`openedSince
      ensures k == InTime(n, time) <= n
      ensures created == old(created) + k && current == old(current) + k && openedSince == old(openedSince) + k
      ensures users >= 0 ==> Took(k)
    {
      k := 0;
      var cut := false;
      while k < n && !cut
        invariant k <= n && (cut <==> k > 0 && k >= time) && (k > 1 ==> k <= time)
        invariant created == old(created) + k && current == old(current) + k && openedSince == old(openedSince) + k
        invariant users >= 0 ==> Took(k)
        decreases n - k
      {
        Open();
        k := k + 1;
        cut := k >= time;
      }
    }

    /** The ramp ends once the calls are up to the users, the generator once the calls are made. */
    method Finish(total: nat)
      modifies this`ramping, this`quitting
      ensures ramping == (old(ramping) && current < users)
      ensures quitting == (old(quitting) || total >= stopAfter)
    {
      if ramping && current >= users {
        ramping := false;
      }
      if total >= stopAfter {
        quitting := true;
      }
    }

    /** How many calls a run opens. */
    function Opens(time: nat): nat
      requires lastRateChange <= clock
      reads this
    {
      InTime(Within(ToOpen(), current, openCallsAllowed), time)
    }

    /** The calls to open are opened, up to the limits. */
    method Generate(time: nat) returns (k: nat)
      requires (ByUsers() || ByRate()) && lastRateChange <= clock
      modifies this`created, this`current, this`freeUsers, this`live, this`openedSince, this`callsSince
      ensures old(ByUsers()) ==> ByUsers() && Took(k)
      ensures old(ByRate()) ==> ByRate()
      ensures openCallsAllowed != 0 && old(current) <= openCallsAllowed ==> current <= openCallsAllowed
      ensures old(current) <= users ==> current <= users
      ensures created == old(created) + k && current == old(current) + k
      ensures callsSince == old(callsSince) + old(ToOpen()) && k == old(Opens(time))
    {
      var n := ToOpen();
      OpenLimits(users, ramping, current, created, Expected() - callsSince, stopAfter, openCallsAllowed);
      callsSince := callsSince + n;
      k := OpenCalls(Within(n, current, openCallsAllowed), time);
    }

    /** Whether a run does anything. */
    predicate Active()
      reads this
    {
      !quitting && !paused
    }

    /** `run`, without its scheduling. */
    method Run(time: nat) returns (k: nat)
      requires (ByUsers() || ByRate()) && lastRateChange <= clock
      modifies this`created, this`current, this`freeUsers, this`live, this`openedSince, this`callsSince,
               this`ramping, this`quitting
      ensures old(ByUsers()) ==> ByUsers() && Took(k)
      ensures old(ByRate()) ==> ByRate()
      ensures openCallsAllowed != 0 && old(current) <= openCallsAllowed ==> current <= openCallsAllowed
      ensures old(current) <= users ==> current <= users
      ensures created == old(created) + k && current == old(current) + k
      ensures k == if old(Active()) then old(Opens(time)) else 0
      ensures callsSince == if old(Active()) then old(callsSince) + old(ToOpen()) else old(callsSince)
      ensures ramping == (old(ramping) && (old(Active()) ==> current < users))
      ensures quitting == (old(quitting) || (old(Active()) && old(created) >= stopAfter))
    {
      k := 0;
      if !quitting && !paused {
        var total := created;
        k := Generate(time);
        Finish(total);
      }
    }

    /** A run, and what is then left to open at the same time. If it was cut short, all that it
        did not open by users; by the rate, also while ramping, nothing exactly when the rate set
        the number of calls, and not the last call to make. */
    method RunAndLeft(time: nat) returns (k: nat, ghost left: int)
      requires (ByUsers() || ByRate()) && lastRateChange <= clock && Active() && created < stopAfter
      modifies this`created, this`current, this`freeUsers, this`live, this`openedSince, this`callsSince,
               this`ramping, this`quitting
      ensures (ByUsers() || ByRate()) && Active() && left == ToOpen()
      ensures k == old(Opens(time)) && created == old(created) + k && current == old(current) + k
      ensures 0 < k < old(ToOpen()) ==>
        (left == 0 <==> (users < 0 || old(ramping)) && old(ToOpen()) == old(Expected() - callsSince)) &&
        (users >= 0 && !old(ramping) ==> left == old(ToOpen()) - k)
    {
      ghost var n, due := ToOpen(), Expected() - callsSince;
      k := Run(time);
      left := ToOpen();
      if 0 < k < n {
        LeftToOpen(users, old(ramping), old(current), old(created), due, stopAfter, k);
      }
    }

    /** And what the next run then opens. */
    method RunTwice(time: nat, again: nat) returns (k: nat, ghost left: int, more: nat)
      requires (ByUsers() || ByRate()) && lastRateChange <= clock && Active() && created < stopAfter
      modifies this`created, this`current, this`freeUsers, this`live, this`openedSince, this`callsSince,
               this`ramping, this`quitting
      ensures k == old(Opens(time)) && created == old(created) + k + more
      ensures 0 < k < old(ToOpen()) ==>
        (left == 0 <==> (users < 0 || old(ramping)) && old(ToOpen()) == old(Expected() - callsSince)) &&
        (users >= 0 && !old(ramping) ==> left == old(ToOpen()) - k)
      ensures more == InTime(Within(left, old(current) + k, openCallsAllowed), again)
    {
      k, left := RunAndLeft(time);
      more := Run(again);
    }

    method Tick(now: nat)
      requires (ByUsers() || ByRate()) && clock <= now
      modifies this`clock
      ensures clock == now
      ensures old(ByUsers()) ==> ByUsers()
      ensures old(ByRate()) ==> ByRate()
    {
      if lastRateChange <= clock {
        assert Later(due, clock - lastRateChange, now - lastRateChange, rate);
      }
      clock := now;
    }

    /** `set_rate`; `duration` is the one set, and `scenario` that of the scenario. */
    method SetRate(newRate: real, now: nat, duration: nat, scenario: nat)
      requires ByRate()
      modifies this`rate, this`lastRateChange, this`callsSince, this`openCallsAllowed, this`openedSince
      ensures ByRate() && rate == (if newRate < 0.0 then 0.0 else newRate) && lastRateChange == now && openedSince == 0
      ensures openCallsAllowed ==
        if openCallsUserSetting then old(openCallsAllowed) else OpenLimit(rate, duration, scenario, period)
    {
      rate := if newRate < 0.0 then 0.0 else newRate;
      lastRateChange, callsSince, openedSince := now, 0, 0;
      if !openCallsUserSetting {
        openCallsAllowed := OpenLimit(rate, duration, scenario, period);
      }
    }

    constructor Users(due: Schedule, period: Period, stopAfter: nat, rateSet: bool)
      requires Grows(due)
      ensures Raised() && users == 0 && this.stopAfter == stopAfter
    {
      this.due, this.period, this.stopAfter, this.rateSet := due, period, stopAfter, rateSet;
      openCallsUserSetting := true;
      users, rate, openCallsAllowed, ramping, paused, quitting := 0, 0.0, 0, rateSet, false, false;
      clock, lastRateChange, callsSince, created, current, openedSince := 0, 0, 0, 0, 0, 0;
      freeUsers, retiredUsers, live := [], [], multiset{};
    }

    constructor Rate(due: Schedule, period: Period, stopAfter: nat, userSetting: bool, allowed: nat)
      requires Grows(due)
      ensures ByRate() && this.due == due && this.stopAfter == stopAfter && openCallsUserSetting == userSetting
      ensures openCallsAllowed == allowed && current == created == clock == lastRateChange == 0 && callsSince == 0
      ensures rate == 0.0 && Active()
    {
      this.due, this.period, this.stopAfter, rateSet, openCallsUserSetting := due, period, stopAfter, true, userSetting;
      users, rate, openCallsAllowed, ramping, paused, quitting := -1, 0.0, allowed, false, false, false;
      clock, lastRateChange, callsSince, created, current, openedSince := 0, 0, 0, 0, 0, 0;
      freeUsers, retiredUsers, live := [], [], multiset{};
    }

    /** Users that were only ever added: each has one id, and one place. */
    ghost predicate Once()
      reads this`users, this`freeUsers, this`retiredUsers, this`live
    {
      users >= 0 && retiredUsers == [] && forall id: Id :: Places(id) == if id <= users then 1 else 0
    }

    ghost predicate Raised()
      reads this
    {
      ByUsers() && current <= users && Once()
    }

    /** The retired users were taken first, and then new ids, those above the users and the
        retired ones up to `n`. */
    twostate predicate Added(n: nat)
      reads this`freeUsers, this`retiredUsers, this`live
    {
      forall id: Id :: Places(id) == old(Places(id)) + if old(users + |retiredUsers|) < id <= n then 1 else 0
    }

    /** One user more: a retired one if there is one. */
    method AddUser()
      requires users >= 0
      modifies this`users, this`freeUsers, this`retiredUsers
      ensures users == old(users) + 1 && |freeUsers| == old(|freeUsers|) + 1 && freeUsers[1..] == old(freeUsers)
      ensures old(retiredUsers) != [] ==> Kept() && |retiredUsers| == old(|retiredUsers|) - 1
      ensures old(retiredUsers) == [] ==> retiredUsers == []
      ensures old(retiredUsers) == [] ==> forall id: Id :: Places(id) == old(Places(id)) + if id == users then 1 else 0
    {
      var id: Id := users + 1;
      if retiredUsers != [] {
        id := retiredUsers[|retiredUsers| - 1];
        forall x: Id { CountLast(retiredUsers, x); }
        retiredUsers := retiredUsers[..|retiredUsers| - 1];
      }
      forall x: Id { CountFirst(freeUsers, id, x); }
      freeUsers := [id] + freeUsers;
      users := users + 1;
    }

    /** Users are added up to n. */
    method AddUsers(n: nat)
      requires users >= 0 && |freeUsers| + current >= users
      modifies this`users, this`freeUsers, this`retiredUsers
      ensures users == (if old(users) < n then n else old(users)) && |freeUsers| + current >= users
      ensures Added(users) && |retiredUsers| == Rest(old(|retiredUsers|), users - old(users))
    {
      while users < n
        invariant users == old(users) || old(users) < users <= n
        invariant |freeUsers| + current >= users
        invariant Added(users) && |retiredUsers| == Rest(old(|retiredUsers|), users - old(users))
      {
        AddUser();
      }
    }

    /** Adding to users that were only added keeps them so. */
    twostate lemma OnceMore()
      requires old(Once()) && users >= old(users) && Added(users) && |retiredUsers| == 0
      ensures Once()
    {
    }

    /** `set_users`. */
    method SetUsers(newUsers: int)
      requires ByUsers()
      modifies this`users, this`freeUsers, this`retiredUsers, this`openCallsAllowed, this`ramping,
               this`lastRateChange, this`callsSince
      ensures ByUsers() && users == (if newUsers < 0 then 0 else newUsers) && lastRateChange == clock && callsSince == 0
      ensures ramping == if rateSet then current < users else old(ramping)
      ensures Added(users) && |retiredUsers| == Rest(old(|retiredUsers|), users - old(users))
    {
      var n := if newUsers < 0 then 0 else newUsers;
      AddUsers(n);
      Restart(n);
    }

    method Restart(n: nat)
      requires Counted() && |freeUsers| + current >= n && |live| == current
      modifies this`users, this`openCallsAllowed, this`ramping, this`lastRateChange, this`callsSince
      ensures ByUsers() && users == n && lastRateChange == clock && callsSince == 0
      ensures ramping == if rateSet then current < users else old(ramping)
    {
      users, openCallsAllowed := n, n;
      if rateSet {
        ramping := current < users;
      }
      lastRateChange, callsSince := clock, 0;
    }

    /** `set_paused`: going on sets the users or the rate again. */
    method SetPaused(pause: bool, now: nat, duration: nat, scenario: nat)
      requires ByUsers() || ByRate()
      modifies this`paused, this`users, this`freeUsers, this`retiredUsers, this`openCallsAllowed, this`ramping,
               this`rate, this`lastRateChange, this`callsSince, this`openedSince
      ensures paused == pause && users == old(users) && rate == old(rate)
      ensures old(ByUsers()) ==> ByUsers() && Kept() && |retiredUsers| == old(|retiredUsers|)
      ensures old(ByRate()) ==> ByRate() && (openCallsUserSetting ==> openCallsAllowed == old(openCallsAllowed))
    {
      if !pause {
        if users >= 0 { SetUsers(users); } else { SetRate(rate, now, duration, scenario); }
      }
      paused := pause;
    }

    /** `free_user`, for a call that is no longer counted as open. */
    method FreeUser(id: Id)
      modifies this`freeUsers, this`retiredUsers
      ensures if current > openCallsAllowed then retiredUsers == [id] + old(retiredUsers) && freeUsers == old(freeUsers)
              else freeUsers == [id] + old(freeUsers) && retiredUsers == old(retiredUsers)
    {
      if current > openCallsAllowed {
        retiredUsers := [id] + retiredUsers;
      } else {
        freeUsers := [id] + freeUsers;
      }
    }

    /** A call of a user ends. */
    method EndUserCall(id: Id)
      requires ByUsers() && id in live
      modifies this`freeUsers, this`retiredUsers, this`live, this`current
      ensures ByUsers() && Kept() && live == old(live) - multiset{id} && current == old(current) - 1
      ensures if current > openCallsAllowed then retiredUsers == [id] + old(retiredUsers) && freeUsers == old(freeUsers)
              else freeUsers == [id] + old(freeUsers) && retiredUsers == old(retiredUsers)
    {
      forall x: Id { CountFirst(freeUsers, id, x); }
      forall x: Id { CountFirst(retiredUsers, id, x); }
      live := live - multiset{id};
      current := current - 1;
      FreeUser(id);
    }

    /** A call of no user ends. */
    method EndRateCall()
      requires ByRate() && current > 0
      modifies this`current
      ensures ByRate() && current == old(current) - 1
    {
      current := current - 1;
    }

    /** Anything that may happen in users mode. */
    method AnyUsersStep(n: int, id: Id, stop: bool, time: nat, raise: bool)
      requires ByUsers()
      modifies this
      ensures ByUsers()
      ensures old(Raised()) && raise ==> Raised()
    {
      if {
        case !raise || users <= n =>
          SetUsers(n);
          if old(Raised()) && raise { OnceMore(); }
        case clock <= n => Tick(n);
        case n >= 0 => SetPaused(stop, n, 0, 0);
        case id in live => EndUserCall(id);
        case true => var _ := Run(time);
      }
    }
  }

  /** Any sequence of changes of the users, runs and ends of calls: there is a free user for
      every call that a run opens, as its loop takes one each time. */
  method AnyUsersRun(due: Schedule, period: Period, stopAfter: nat, rateSet: bool, steps: nat) returns (g: Generator)
    requires Grows(due)
    ensures g.ByUsers() && |g.freeUsers| + g.current >= g.users && g.created <= stopAfter
  {
    g := new Generator.Users(due, period, stopAfter, rateSet);
    for i := 0 to steps
      invariant fresh(g) && g.ByUsers() && g.stopAfter == stopAfter
    {
      var n: int, id: Id, stop: bool, time: nat := *, *, *, *;
      g.AnyUsersStep(n, id, stop, time, false);
    }
  }

  /** As long as users are only added, the ids 1 to `users` are all about, each once. */
  method AnyRaisingRun(due: Schedule, period: Period, stopAfter: nat, rateSet: bool, steps: nat) returns (g: Generator)
    requires Grows(due)
    ensures g.Raised() && forall id: Id :: g.Places(id) == if id <= g.users then 1 else 0
  {
    g := new Generator.Users(due, period, stopAfter, rateSet);
    for i := 0 to steps
      invariant fresh(g) && g.Raised()
    {
      var n: int, id: Id, stop: bool, time: nat := *, *, *, *;
      g.AnyUsersStep(n, id, stop, time, true);
    }
  }

  /** Any sequence of changes of the rate, runs and ends of calls: no more calls are opened
      since the last change than are due, none past the last to make, and no more are open than
      the limit set. */
  method AnyRateRun(due: Schedule, period: Period, stopAfter: nat, userSetting: bool, allowed: nat, steps: nat)
    returns (g: Generator)
    requires Grows(due)
    ensures g.created <= stopAfter
    ensures g.lastRateChange <= g.clock ==> g.openedSince <= g.due(g.clock - g.lastRateChange, g.rate)
    ensures userSetting && allowed != 0 ==> g.current <= allowed
  {
    g := new Generator.Rate(due, period, stopAfter, userSetting, allowed);
    for i := 0 to steps
      invariant fresh(g) && g.ByRate() && g.stopAfter == stopAfter && g.openCallsUserSetting == userSetting
      invariant userSetting ==> g.openCallsAllowed == allowed
      invariant userSetting && allowed != 0 ==> g.current <= allowed
    {
      var n: nat, m: nat, rate: real, stop: bool, time: nat := *, *, *, *, *;
      if {
        case true => g.SetRate(rate, n, m, time);
        case g.clock <= n => g.Tick(n);
        case true => g.SetPaused(stop, n, m, time);
        case g.current > 0 => g.EndRateCall();
        case g.lastRateChange <= g.clock => var _ := g.Run(time);
      }
    }
  }

  /** A run by rate that is cut short after one of the calls due, and the next one at the same
      time: with calls enough to make, the other calls are lost; with 100 to make, it opens the
      other 99. The rate is of a million calls per second, without a limit of open calls. */
  method CutRun(stopAfter: nat) returns (k: nat, more: nat)
    requires stopAfter == 5000 || stopAfter == 100
    ensures k == 1 && more == if stopAfter == 5000 then 0 else 99
  {
    var g := ThousandDue(stopAfter);
    k := g.Run(1);
    more := g.Run(1000);
  }

  /** A generator a millisecond after that rate was set. */
  method ThousandDue(stopAfter: nat) returns (g: Generator)
    requires stopAfter >= 100
    ensures fresh(g) && g.ByRate() && g.Active() && g.lastRateChange <= g.clock && g.Expected() == 1000
    ensures g.callsSince == 0 && g.current == g.created == 0 && g.openCallsAllowed == 0 && g.stopAfter == stopAfter
    ensures g.rate == 1000000.0 && forall elapsed, rate :: g.due(elapsed, rate) == Uniform(elapsed, rate, 1000)
  {
    var due: Schedule := (elapsed, rate) => Uniform(elapsed, rate, 1000);
    UniformGrows(1000);
    assert Grows(due) by { assert due == (elapsed, rate) => Uniform(elapsed, rate, 1000); }
    g := new Generator.Rate(due, 1000, stopAfter, true, 0);
    g.SetRate(1000000.0, 0, 0, 0);
    g.Tick(1);
    assert Uniform(1, 1000000.0, 1000) == 1000;
  }
}
