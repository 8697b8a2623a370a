/** The dialogs of a call (src/call.cpp): the state of the current one is in the call's members,
    that of the others in a table, and switching swaps. Seen as one map from dialogs to states,
    switching changes nothing but to add a dialog that is new. */
module Dialogs {
  datatype Maybe = Nothing | Just(text: string)

  datatype State = State(
    cseq: nat, lastInviteCseq: nat, peerTag: Maybe, lastMessage: string, routeSet: Maybe, target: string)

  /** An entry of the table: the Call-ID of a dialog, and its state while it is not current. */
  datatype Entry = Entry(callId: string, state: State)

  /** The state of a dialog that nothing has happened in, counting from a CSeq. */
  function Unused(cseq: nat): State {
    State(cseq, 0, Nothing, "", Nothing, "")
  }

  function ViewOf(table: map<int, Entry>, current: int, members: State): map<int, State> {
    map d | d in table.Keys + {current} :: if d == current then members else table[d].state
  }

  /** The two swaps of a switch, on values; `made` has an entry for the dialog switched to. */
  lemma {:induction false} SwapTwice(table: map<int, Entry>, current: int, members: State, d: int,
                                     made: map<int, Entry>)
    requires current != d && current in table && d in made
    requires var first := table[current := Entry(table[current].callId, members)];
      made == if d in first then first else first[d := made[d]]
    ensures var now := ViewOf(made[d := Entry(made[d].callId, table[current].state)], d, made[d].state);
      var was := ViewOf(table, current, members);
      now == if d in was then was else was[d := made[d].state]
  {
  }

  class CallDialogs {
    const baseCseq: nat
    var table: map<int, Entry>
    var current: int
    var cseq: nat
    var lastInviteCseq: nat
    var peerTag: Maybe
    var lastMessage: string
    var routeSet: Maybe
    var target: string

    function Members(): State
      reads this
    {
      State(cseq, lastInviteCseq, peerTag, lastMessage, routeSet, target)
    }

    /** The state of each dialog of the call, wherever it is. */
    ghost function View(): map<int, State>
      reads this
    {
      ViewOf(table, current, Members())
    }

    /** The current dialog has an entry, which holds the unused default state. */
    ghost predicate Valid()
      reads this
    {
      current in table && table[current].state == Unused(0)
    }

    constructor (baseCseq: nat)
      ensures Valid() && this.baseCseq == baseCseq && current == 1
      ensures View() == map[1 := Unused(baseCseq)]
    {
      this.baseCseq := baseCseq;
      table, current := map[1 := Entry("", Unused(0))], 1;
      cseq, lastInviteCseq, peerTag, lastMessage, routeSet, target := baseCseq, 0, Nothing, "", Nothing, "";
    }

    /** The members and the entry of a dialog change places. */
    method Swap(d: int)
      requires d in table
      modifies this`table, this`cseq, this`lastInviteCseq, this`peerTag, this`lastMessage, this`routeSet, this`target
      ensures table == old(table)[d := Entry(old(table[d].callId), old(Members()))]
      ensures Members() == old(table[d].state)
    {
      var e := table[d];
      table := table[d := Entry(e.callId, Members())];
      cseq, lastInviteCseq, peerTag := e.state.cseq, e.state.lastInviteCseq, e.state.peerTag;
      lastMessage, routeSet, target := e.state.lastMessage, e.state.routeSet, e.state.target;
    }

    /** `dialog_entry`: a dialog's entry, made if there is none. */
    method Make(d: int)
      modifies this`table
      ensures table == if d in old(table) then old(table) else old(table)[d := Entry("", Unused(baseCseq))]
    {
      if d !in table {
        table := table[d := Entry("", Unused(baseCseq))];
      }
    }

    /** `switchDialog`. */
    method Switch(d: int)
      requires Valid()
      modifies this`table, this`current, this`cseq, this`lastInviteCseq, this`peerTag, this`lastMessage,
        this`routeSet, this`target
      ensures Valid() && current == d
      ensures View() == if d in old(View()) then old(View()) else old(View())[d := Unused(baseCseq)]
      ensures forall e :: e in old(table) ==> e in table && table[e].callId == old(table)[e].callId
    {
      if current == d {
        return;
      }
      Swap(current);
      Make(d);
      SwapTwice(old(table), current, old(Members()), d, table);
      Swap(d);
      current := d;
    }

    /** `setDialogCallId`, for a Call-ID that is not the call's already. */
    method SetCallId(d: int, callId: string)
      requires Valid()
      modifies this`table
      ensures Valid() && d in table && table[d].callId == callId
      ensures forall e :: e in old(table) && e != d ==> e in table && table[e] == old(table)[e]
      ensures View() == if d in old(View()) then old(View()) else old(View())[d := Unused(baseCseq)]
    {
      Make(d);
      table := table[d := Entry(callId, table[d].state)];
    }

    /** What the messages of the current dialog make of its state. */
    method Update(s: State)
      requires Valid()
      modifies this`cseq, this`lastInviteCseq, this`peerTag, this`lastMessage, this`routeSet, this`target
      ensures Valid() && View() == old(View())[current := s]
    {
      cseq, lastInviteCseq, peerTag := s.cseq, s.lastInviteCseq, s.peerTag;
      lastMessage, routeSet, target := s.lastMessage, s.routeSet, s.target;
    }
  }

  /** Any run of switches, Call-IDs and updates agrees with the same run on a plain map, and the
      entry of the current dialog is always the unused default one. */
  method AnyRun(baseCseq: nat, steps: nat) returns (c: CallDialogs, ghost plain: map<int, State>, ghost at: int)
    ensures c.View() == plain && c.current == at && at in plain
    ensures at in c.table && c.table[at].state == Unused(0)
  {
    c := new CallDialogs(baseCseq);
    plain, at := map[1 := Unused(baseCseq)], 1;
    for i := 0 to steps
      invariant fresh(c) && c.Valid() && c.baseCseq == baseCseq
      invariant c.View() == plain && c.current == at && at in plain
    {
      var d: int, callId: string, s: State := *, *, *;
      if {
        case true =>
          c.Switch(d);
          plain := if d in plain then plain else plain[d := Unused(baseCseq)];
          at := d;
        case true =>
          c.SetCallId(d, callId);
          plain := if d in plain then plain else plain[d := Unused(baseCseq)];
        case true =>
          c.Update(s);
          plain := plain[at := s];
      }
    }
  }
}
