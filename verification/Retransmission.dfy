/** What a call of src/call.cpp sends again over UDP: its last message, on a timer, and the
    message that answered a request, when the request comes again. */
module Retransmission {
  import opened Basics
  import opened Backoff

  /** What the command line sets. */
  datatype Limits = Limits(maxInvite: int, maxNonInvite: int, maxUdp: int, t2: nat)
  {
    /** How many times the timer sends a message again. */
    function Allowed(invite: bool): int {
      Min(if invite then maxInvite else maxNonInvite, maxUdp)
    }
  }

  predicate IsInvite(msg: string) {
    |msg| >= 6 && msg[..6] == "INVITE"
  }

  /** The requests that are told apart by it are those of the method INVITE. */
  lemma {:induction false} InviteByMethod(rest: string)
    ensures IsInvite("INVITE" + rest) && !IsInvite("BYE" + rest)
    ensures !IsInvite("REGISTER" + rest) && !IsInvite("SIP" + rest)
  {
    assert ("INVITE" + rest)[..6] == "INVITE";
    assert ("BYE" + rest)[0] == 'B' && ("REGISTER" + rest)[0] == 'R' && ("SIP" + rest)[0] == 'S';
  }

  datatype Expiry = Idle | Resent | GaveUp | NotSent

  /** What a message that comes is: new, or a retransmission. */
  datatype Arrival = New | Ignored | Answered | NotAnswered

  /** A transaction of the scenario that a received request started, "" before: its request, and
      the last response sent in it. */
  datatype Transaction = Transaction(request: string, requestHash: int, response: string)

  /** The first transaction whose request has that hash, or the number of transactions. */
  function FirstOf(ts: seq<Transaction>, cookie: int): (i: nat)
    ensures i <= |ts| && (i < |ts| ==> ts[i].request != "" && ts[i].requestHash == cookie)
    ensures forall j :: 0 <= j < i ==> ts[j].request == "" || ts[j].requestHash != cookie
  {
    if ts == [] || (ts[0].request != "" && ts[0].requestHash == cookie) then 0 else 1 + FirstOf(ts[1..], cookie)
  }

  /** What a message of the scenario that comes does to the timer. */
  datatype Effect = Leaves | Stops | Slows

  /** A response, or a request that answers, that comes after the last message sent: it stops the
      timer, but for a provisional response to another request than INVITE. `code` is 0 for a
      request, and `method_` that of the request or of the response's CSeq. */
  function EffectOf(code: nat, method_: string, index: nat, lastSent: nat): Effect {
    if (code != 0 || method_ in ["ACK", "CANCEL", "BYE", "PRACK"]) && index > lastSent then
      if code == 0 || code >= 200 || method_ <= "INVITE" then Stops else Slows
    else Leaves
  }

  /** A request is sent again until it is answered: a final response stops the timer, and so do a
      provisional one to an INVITE and the requests that answer, if they come after the message
      sent; a provisional one to another request slows it, and nothing else does anything. */
  lemma {:induction false} AnswersStop(code: nat, method_: string, index: nat, lastSent: nat)
    ensures code >= 200 && index > lastSent ==> EffectOf(code, method_, index, lastSent) == Stops
    ensures 0 < code < 200 && index > lastSent ==>
      EffectOf(code, "INVITE", index, lastSent) == Stops &&
      EffectOf(code, "BYE", index, lastSent) == Slows && EffectOf(code, "REGISTER", index, lastSent) == Slows
    ensures index > lastSent ==>
      EffectOf(0, "ACK", index, lastSent) == Stops && EffectOf(0, "CANCEL", index, lastSent) == Stops &&
      EffectOf(0, "BYE", index, lastSent) == Stops && EffectOf(0, "PRACK", index, lastSent) == Stops &&
      EffectOf(0, "INVITE", index, lastSent) == Leaves
    ensures index <= lastSent ==> EffectOf(code, method_, index, lastSent) == Leaves
    ensures EffectOf(code, method_, index, lastSent) == Slows ==> 0 < code < 200 && method_ != "INVITE"
    ensures code == 0 && EffectOf(code, method_, index, lastSent) != Leaves ==>
      method_ == "ACK" || method_ == "CANCEL" || method_ == "BYE" || method_ == "PRACK"
  {
    assert "BYE"[0] != "INVITE"[0] && "REGISTER"[0] != "INVITE"[0];
  }

  /** The retransmission state of a call on UDP with retransmissions enabled. */
  class Retransmitter {
    const limits: Limits
    const hash: string -> int

    var lastSendMsg: string
    var lastSendIndex: nat
    var transactions: seq<Transaction>
    var lastRecvHash: int
    var lastRecvIndex: int
    var recvRetransHash: int
    var recvRetransRecvIndex: int
    var recvRetransLast: bool
    var recvRetransMsg: string
    var nextRetrans: nat
    var nbRetrans: nat
    var nbLastDelay: nat

    /** A full copy of the message that answered, made when the entry was set. */
    ghost var copy: string
    /** The message whose timer runs, and what the timer was set to at first. */
    ghost var armedMsg: string
    ghost var armedDelay: nat
    /** Whether a provisional response has set the timer since. */
    ghost var provisional: bool
    /** How many times the timer has sent the last message again. */
    ghost var resent: nat
    /** The messages given to the socket. */
    ghost var wire: seq<string>
    /** The hashes of the messages received. */
    ghost var seen: set<int>

    constructor (limits: Limits, hash: string -> int, transactions: nat)
      ensures Valid() && this.limits == limits && this.hash == hash
      ensures nextRetrans == 0 && recvRetransRecvIndex == -1 && lastRecvIndex == -1 && wire == [] && seen == {}
      ensures lastSendMsg == "" && lastSendIndex == 0 && lastRecvHash == 0 && nbRetrans == nbLastDelay == 0
      ensures this.transactions == seq(transactions, _ => Transaction("", 0, ""))
    {
      this.limits, this.hash := limits, hash;
      lastSendMsg, lastSendIndex, lastRecvHash, lastRecvIndex := "", 0, 0, -1;
      this.transactions := seq(transactions, _ => Transaction("", 0, ""));
      recvRetransHash, recvRetransRecvIndex, recvRetransLast, recvRetransMsg := 0, -1, false, "";
      nextRetrans, nbRetrans, nbLastDelay := 0, 0, 0;
      copy, armedMsg, armedDelay, provisional, resent, wire, seen := "", "", 0, false, 0, [], {};
    }

    /** What the aliased pair denotes: the last message sent, or one kept apart. */
    function Replay(): string
      reads this
    {
      if recvRetransLast then lastSendMsg else recvRetransMsg
    }

    /** The pair denotes the copy; there is no alias without an entry. */
    ghost predicate ReplayValid()
      reads this
    {
      if recvRetransRecvIndex >= 0 then Replay() == copy else !recvRetransLast
    }

    ghost predicate TimerValid()
      reads this
    {
      (nextRetrans != 0 ==> lastSendMsg == armedMsg) &&
      (nextRetrans != 0 && !provisional ==>
         nbLastDelay == Delay(IsInvite(armedMsg), armedDelay, limits.t2, nbRetrans)) &&
      resent <= nbRetrans && (resent > 0 ==> resent <= limits.Allowed(IsInvite(lastSendMsg)))
    }

    /** Only messages that were received are known. */
    ghost predicate SeenValid()
      reads this
    {
      (recvRetransRecvIndex >= 0 ==> recvRetransHash in seen) && (lastRecvHash == 0 || lastRecvHash in seen) &&
      forall i :: 0 <= i < |transactions| && transactions[i].request != "" ==> transactions[i].requestHash in seen
    }

    ghost predicate Valid()
      reads this
    {
      ReplayValid() && TimerValid() && SeenValid()
    }

    /** `keepRecvRetransMsg`: before the last message changes, the entry takes it. */
    method KeepRecvRetransMsg()
      modifies this`recvRetransMsg, this`recvRetransLast
      ensures Replay() == old(Replay()) && !recvRetransLast
    {
      if recvRetransLast {
        recvRetransMsg := lastSendMsg;
        recvRetransLast := false;
      }
    }

    /** Whether a message of the transaction `txn`, from 1, or of none, 0, answers a request that
        started it. */
    predicate Answers(txn: nat)
      reads this
    {
      0 < txn <= |transactions| && transactions[txn - 1].request != ""
    }

    /** Whether a message sent now answers the last request received: it is the first sent
        since, and not in the transaction of another request. */
    predicate AnswersLast(txn: nat)
      reads this
    {
      lastRecvIndex >= 0 && lastRecvHash != 0 && (Answers(txn) ==> transactions[txn - 1].requestHash == lastRecvHash)
    }

    /** Or a later response to the request of the entry. */
    predicate AnswersLater(laterResponse: bool)
      reads this
    {
      lastRecvIndex >= 0 && recvRetransRecvIndex == lastRecvIndex && laterResponse
    }

    /** The transactions once a message was sent in one. */
    function WithAnswer(txn: nat, msg: string): seq<Transaction>
      reads this
    {
      if Answers(txn) then transactions[txn - 1 := transactions[txn - 1].(response := msg)] else transactions
    }

    /** A <send> of the scenario, of a message with a retransmission delay, or 0. It waits
        while the timer of the message before runs, and while the socket does. */
    method Send(msg: string, index: nat, delay: nat, now: nat, txn: nat, laterResponse: bool, blocked: bool)
      returns (sent: bool)
      requires Valid() && delay < U32
      modifies this
      ensures Valid()
      ensures sent <==> old(nextRetrans) == 0 && !blocked
      ensures !sent ==> unchanged(this)
      ensures sent ==> lastSendMsg == msg && lastSendIndex == index && wire == old(wire) + [msg] && resent == 0
      ensures sent ==> transactions == old(WithAnswer(txn, msg))
      ensures sent && old(AnswersLast(txn)) ==>
        copy == msg && recvRetransHash == old(lastRecvHash) && recvRetransRecvIndex == lastRecvIndex &&
        lastRecvHash == 0
      ensures sent && !old(AnswersLast(txn)) ==>
        recvRetransHash == old(recvRetransHash) && recvRetransRecvIndex == old(recvRetransRecvIndex) &&
        lastRecvHash == old(lastRecvHash) &&
        copy == (if old(AnswersLater(laterResponse)) then msg else old(copy))
      ensures sent ==> nextRetrans == (if delay == 0 then 0 else (now + delay) % U32)
      ensures sent && delay != 0 ==>
        nbRetrans == 0 && nbLastDelay == delay == armedDelay && armedMsg == msg && !provisional
      ensures lastRecvIndex == old(lastRecvIndex) && seen == old(seen)
    {
      if nextRetrans != 0 || blocked {
        return false;
      }
      wire := wire + [msg];
      lastSendIndex := index;
      Remember(msg, txn, laterResponse);
      transactions := WithAnswer(txn, msg);
      Arm(msg, delay, now);
      return true;
    }

    /** The message sent last, and the entry of the request it answers. */
    method Remember(msg: string, txn: nat, laterResponse: bool)
      requires ReplayValid()
      modifies this`lastSendMsg, this`lastRecvHash, this`recvRetransHash, this`recvRetransRecvIndex,
        this`recvRetransLast, this`recvRetransMsg, this`copy
      ensures ReplayValid() && lastSendMsg == msg
      ensures old(AnswersLast(txn)) ==>
        copy == msg && recvRetransHash == old(lastRecvHash) && recvRetransRecvIndex == lastRecvIndex &&
        lastRecvHash == 0
      ensures !old(AnswersLast(txn)) ==>
        recvRetransHash == old(recvRetransHash) && recvRetransRecvIndex == old(recvRetransRecvIndex) &&
        lastRecvHash == old(lastRecvHash) &&
        copy == (if old(AnswersLater(laterResponse)) then msg else old(copy))
    {
      KeepRecvRetransMsg();
      lastSendMsg := msg;
      if AnswersLast(txn) {
        recvRetransHash, recvRetransRecvIndex := lastRecvHash, lastRecvIndex;
        recvRetransMsg, recvRetransLast, copy := "", true, msg;
        lastRecvHash := 0;
      } else if AnswersLater(laterResponse) {
        recvRetransMsg, recvRetransLast, copy := "", true, msg;
      }
    }

    /** The timer of the message sent last. */
    method Arm(msg: string, delay: nat, now: nat)
      requires lastSendMsg == msg && nextRetrans == 0
      modifies this`nextRetrans, this`nbRetrans, this`nbLastDelay, this`armedMsg, this`armedDelay,
        this`provisional, this`resent
      ensures TimerValid() && resent == 0
      ensures nextRetrans == if delay == 0 then 0 else (now + delay) % U32
      ensures delay != 0 ==> nbRetrans == 0 && nbLastDelay == delay == armedDelay && armedMsg == msg && !provisional
    {
      resent := 0;
      if delay != 0 {
        nextRetrans, nbRetrans, nbLastDelay := (now + delay) % U32, 0, delay;
        armedMsg, armedDelay, provisional := msg, delay, false;
      }
    }

    /** The timer, as `call::run` looks at it. After the last retransmission it stops, for
        the call to go on at a label, or to end. */
    method Expire(now: nat, status: Status) returns (expiry: Expiry)
      requires Valid()
      modifies this`nextRetrans, this`nbRetrans, this`nbLastDelay, this`wire, this`resent
      ensures Valid()
      ensures expiry == Idle <==> !(0 < old(nextRetrans) < now)
      ensures expiry == Idle ==> unchanged(this)
      ensures expiry == GaveUp <==>
        0 < old(nextRetrans) < now && old(nbRetrans) >= limits.Allowed(IsInvite(old(lastSendMsg)))
      ensures expiry == Resent || expiry == NotSent ==>
        wire == old(wire) + [old(armedMsg)] &&
        nbRetrans == old(nbRetrans) + 1 <= limits.Allowed(IsInvite(lastSendMsg)) &&
        nbLastDelay == Longer(IsInvite(lastSendMsg), old(nbLastDelay), limits.t2)
      ensures expiry == GaveUp ==> wire == old(wire)
      ensures expiry == Resent ==> nextRetrans == (now + nbLastDelay) % U32 && resent == old(resent) + 1
      ensures expiry == NotSent ==> nextRetrans == old(nextRetrans)
    {
      if nextRetrans == 0 || nextRetrans >= now {
        return Idle;
      }
      nbRetrans := nbRetrans + 1;
      var invite := IsInvite(lastSendMsg);
      if nbRetrans > limits.Allowed(invite) {
        nextRetrans := 0;
        return GaveUp;
      }
      nbLastDelay := (nbLastDelay * 2) % U32;
      if limits.t2 < nbLastDelay && !invite {
        nbLastDelay := limits.t2;
      }
      wire := wire + [lastSendMsg];
      if status != Sent {
        return NotSent;
      }
      resent := resent + 1;
      nextRetrans := (now + nbLastDelay) % U32;
      return Resent;
    }

    /** Whether a message is the request of the entry again. */
    predicate IsOfEntry(msg: string)
      reads this
    {
      recvRetransRecvIndex >= 0 && hash(msg) == recvRetransHash
    }

    /** Whether it is the last message received again. */
    predicate IsLast(msg: string)
      reads this
    {
      lastRecvIndex >= 0 && hash(msg) == lastRecvHash
    }

    /** What a message that comes gets, if it came before: the answer of the entry, or that of
        its transaction, or nothing. */
    ghost function ReplayOf(msg: string, lost: bool): seq<string>
      reads this
    {
      if IsOfEntry(msg) then if lost then [] else [copy]
      else if IsLast(msg) then []
      else var i := FirstOf(transactions, hash(msg));
        if i < |transactions| && transactions[i].response != "" then [transactions[i].response] else []
    }

    /** A message that comes, in `call::process_incoming`: a request that was answered gets
        the same answer again. `status` is what becomes of the answer, and `lost` whether the
        request is dropped for the loss to be simulated. */
    method Incoming(msg: string, lost: bool, status: Status) returns (arrival: Arrival)
      requires Valid()
      modifies this`wire
      ensures Valid() && wire == old(wire) + ReplayOf(msg, lost)
      ensures arrival == New <==>
        !IsOfEntry(msg) && !IsLast(msg) && FirstOf(transactions, hash(msg)) == |transactions|
      ensures arrival == Ignored <==> arrival != New && ReplayOf(msg, lost) == []
      ensures arrival == Answered ==> status == Sent
      ensures arrival == NotAnswered ==> status != Sent
    {
      var cookie := hash(msg);
      if recvRetransRecvIndex >= 0 && recvRetransHash == cookie {
        if lost {
          return Ignored;
        }
        if recvRetransLast {
          wire := wire + [lastSendMsg];
        } else {
          wire := wire + [recvRetransMsg];
        }
        return if status == Sent then Answered else NotAnswered;
      }
      if lastRecvIndex >= 0 && lastRecvHash == cookie {
        return Ignored;
      }
      arrival := OfTransaction(cookie, status);
    }

    /** The request of a transaction again: the last response in it goes again, if any. */
    method OfTransaction(cookie: int, status: Status) returns (arrival: Arrival)
      modifies this`wire
      ensures var i := FirstOf(transactions, cookie);
        var response := if i < |transactions| then transactions[i].response else "";
        wire == (if response == "" then old(wire) else old(wire) + [response]) &&
        (arrival == New <==> i == |transactions|) && (arrival == Ignored <==> i < |transactions| && response == "") &&
        (arrival == Answered ==> status == Sent) && (arrival == NotAnswered ==> status != Sent)
    {
      var i := 0;
      while i < |transactions| && (transactions[i].request == "" || transactions[i].requestHash != cookie)
        invariant i <= |transactions|
        invariant FirstOf(transactions, cookie) == i + FirstOf(transactions[i..], cookie)
      {
        assert transactions[i..][1..] == transactions[i + 1..];
        i := i + 1;
      }
      if i == |transactions| {
        return New;
      }
      if transactions[i].response == "" {
        return Ignored;
      }
      wire := wire + [transactions[i].response];
      return if status == Sent then Answered else NotAnswered;
    }

    /** The request of the transaction `txn`, if there is such a one. */
    method Start(msg: string, txn: nat)
      requires SeenValid()
      modifies this`transactions, this`seen
      ensures SeenValid() && seen == old(seen) + {hash(msg)}
      ensures transactions == if 0 < txn <= old(|transactions|)
                              then old(transactions)[txn - 1 := Transaction(msg, hash(msg), "")] else old(transactions)
    {
      seen := seen + {hash(msg)};
      if 0 < txn <= |transactions| {
        transactions := transactions[txn - 1 := Transaction(msg, hash(msg), "")];
      }
    }

    method SetTimer(effect: Effect, now: nat)
      requires TimerValid()
      modifies this`nextRetrans, this`nbLastDelay, this`armedMsg, this`provisional
      ensures TimerValid()
      ensures nextRetrans == match effect
                             case Leaves => old(nextRetrans)
                             case Stops => 0
                             case Slows => (now + limits.t2) % U32
      ensures old(nextRetrans) != 0 ==> armedMsg == old(armedMsg)
    {
      if effect == Stops {
        nextRetrans := 0;
      } else if effect == Slows {
        if nextRetrans == 0 {
          armedMsg := lastSendMsg;
        }
        nextRetrans, nbLastDelay := (now + limits.t2) % U32, limits.t2;
        provisional := true;
      }
    }

    /** A message of the scenario that came at `index`: it may start the transaction `txn`, from
        1, and stop or slow the timer. */
    method Received(msg: string, code: nat, method_: string, index: nat, txn: nat, now: nat, advances: bool)
      requires Valid()
      modifies this
      ensures Valid()
      ensures nextRetrans == match EffectOf(code, method_, index, lastSendIndex)
                             case Leaves => old(nextRetrans)
                             case Stops => 0
                             case Slows => (now + limits.t2) % U32
      ensures lastRecvIndex == (if advances then index else old(lastRecvIndex))
      ensures lastRecvHash == (if advances then hash(msg) else old(lastRecvHash))
      ensures lastSendMsg == old(lastSendMsg) && lastSendIndex == old(lastSendIndex)
      ensures copy == old(copy) && wire == old(wire) && resent == old(resent)
      ensures recvRetransHash == old(recvRetransHash) && recvRetransRecvIndex == old(recvRetransRecvIndex)
      ensures transactions == if 0 < txn <= old(|transactions|)
                              then old(transactions)[txn - 1 := Transaction(msg, hash(msg), "")] else old(transactions)
      ensures old(nextRetrans) != 0 ==> armedMsg == old(armedMsg)
      ensures seen == old(seen) + {hash(msg)}
    {
      Start(msg, txn);
      SetTimer(EffectOf(code, method_, index, lastSendIndex), now);
      if advances {
        lastRecvIndex, lastRecvHash := index, hash(msg);
      }
    }

    /** Anything that may happen. */
    method AnyStep()
      requires Valid()
      modifies this
      ensures Valid() && old(seen) <= seen
    {
      var msg: string, n: nat, index: nat, now: nat, txn: nat, status: Status := *, *, *, *, *, *;
      var method_: string, a: bool, b: bool := *, *, *;
      if * {
        if n < U32 {
          var _ := Send(msg, index, n, now, txn, a, b);
        }
      } else if * {
        var _ := Expire(now, status);
      } else if * {
        var _ := Incoming(msg, a, status);
      } else {
        Received(msg, n, method_, index, txn, now, a);
      }
    }

    /** Any run: whatever is sent, received and awaited, a request that was answered would
        get the answer it got, a message of a hash not received yet would get none and be new, and
        the timer keeps to its limits. */
    method AnyRun(steps: nat)
      requires Valid()
      modifies this
      ensures Valid()
      ensures recvRetransRecvIndex >= 0 ==> Replay() == copy
      ensures forall msg: string, lost :: hash(msg) != 0 && hash(msg) !in seen ==> IsNew(msg, lost)
      ensures resent > 0 ==> resent <= limits.Allowed(IsInvite(lastSendMsg))
    {
      for i := 0 to steps
        invariant Valid()
      {
        AnyStep();
      }
      forall msg: string, lost | hash(msg) != 0 && hash(msg) !in seen ensures IsNew(msg, lost) {
        Unknown(msg, lost);
      }
    }

    /** A message that would be new, and get no answer. */
    ghost predicate IsNew(msg: string, lost: bool)
      reads this
    {
      ReplayOf(msg, lost) == [] && !IsOfEntry(msg) && !IsLast(msg) && FirstOf(transactions, hash(msg)) == |transactions|
    }

    lemma {:induction false} Unknown(msg: string, lost: bool)
      requires SeenValid() && hash(msg) != 0 && hash(msg) !in seen
      ensures IsNew(msg, lost)
    {
    }

    // The law of the replay, over what happens.

    /** The entry of a request, and what a retransmission of it gets. */
    ghost predicate Entered(cookie: int, index: nat, answer: string)
      reads this
    {
      Valid() && recvRetransHash == cookie && recvRetransRecvIndex == index && copy == answer
    }

    /** Something that happens after a request was answered, and answers no other: the timer, a
        message that comes, one of the scenario that does, or one that is sent when the last one
        received is answered, or in the transaction of another. Only a response to the request
        itself, which there is if `later`, is what it gets then. */
    method AnyOther(ghost cookie: int, ghost at: nat, ghost answer: string, later: bool) returns (ghost latest: string)
      requires Entered(cookie, at, answer)
      modifies this
      ensures Entered(cookie, at, latest) && (!later ==> latest == answer)
      ensures latest == answer || (lastRecvIndex == at && latest == lastSendMsg)
    {
      var msg: string, n: nat, index: nat, now: nat, txn: nat, status: Status := *, *, *, *, *, *;
      var method_: string, a: bool, b: bool := *, *, *;
      latest := answer;
      if * {
        var _ := Expire(now, status);
      } else if * {
        var _ := Incoming(msg, a, status);
      } else if * {
        Received(msg, n, method_, index, txn, now, a);
      } else if n < U32 && lastRecvHash == 0 {
        var sent := Send(msg, index, n, now, txn, later && a, b);
        latest := if sent && later && a && lastRecvIndex == at then msg else answer;
      } else if n < U32 && 0 < txn <= |transactions| && transactions[txn - 1].request != "" &&
                transactions[txn - 1].requestHash != lastRecvHash {
        var _ := Send(msg, index, n, now, txn, false, b);
      }
    }

    /** A request that comes and is answered, by the first message sent since, in no transaction
        that another request started: the request again gets that message, or the last
        response to it since, and nothing else, whatever else happened. */
    method Replays(req: string, method_: string, index: nat, start: nat, at: nat, delay: nat, now: nat,
                   msg: string, txn: nat, later: bool, status: Status, steps: nat)
      returns (sent: bool, arrival: Arrival, ghost before: seq<string>, ghost latest: string)
      requires Valid() && hash(req) != 0 && req != "" && delay < U32
      requires txn == start || !(0 < txn <= |transactions|) || transactions[txn - 1].request == ""
      modifies this
      ensures Valid() && (!later || steps == 0 ==> latest == msg)
      ensures sent ==> wire == before + [latest] && arrival == if status == Sent then Answered else NotAnswered
    {
      Received(req, 0, method_, index, start, now, true);
      sent := Send(msg, at, delay, now, txn, false, false);
      before, latest, arrival := wire, msg, New;
      if sent {
        for i := 0 to steps
          invariant Entered(hash(req), index, latest) && (!later || i == 0 ==> latest == msg)
        {
          latest := AnyOther(hash(req), index, latest, later);
        }
        before := wire;
        arrival := Incoming(req, false, status);
      }
    }

    /** A transaction that a request started, the only one of its hash, and the last response in
        it. */
    ghost predicate Started(txn: nat, cookie: int, response: string)
      reads this
    {
      Valid() && 0 < txn <= |transactions| && transactions[txn - 1].request != "" &&
      transactions[txn - 1].requestHash == cookie && transactions[txn - 1].response == response &&
      forall i :: 0 <= i < |transactions| && i != txn - 1 && transactions[i].request != "" ==>
        transactions[i].requestHash != cookie
    }

    /** Anything that happens in other transactions, or in none. */
    method AnyOutside(req: string, txn: nat, ghost response: string)
      requires Started(txn, hash(req), response)
      modifies this
      ensures Started(txn, hash(req), response)
    {
      var msg: string, n: nat, index: nat, now: nat, other: nat, status: Status := *, *, *, *, *, *;
      var method_: string, a: bool, b: bool := *, *, *;
      if * {
        var _ := Expire(now, status);
      } else if * {
        var _ := Incoming(msg, a, status);
      } else if * {
        if other != txn && n < U32 {
          var _ := Send(msg, index, n, now, other, a, b);
        }
      } else if other == 0 || (other != txn && hash(msg) != hash(req)) {
        Received(msg, n, method_, index, other, now, a);
      }
    }

    /** A request that starts a transaction and is answered in it: once other requests are, it
        gets the answer of its transaction, and nothing else. */
    method ReplaysInTransaction(req: string, method_: string, index: nat, at: nat, delay: nat, now: nat,
                                msg: string, txn: nat, status: Status, steps: nat)
      returns (replayed: bool, ghost before: seq<string>)
      requires Valid() && hash(req) !in seen && req != "" && msg != "" && delay < U32 && 0 < txn <= |transactions|
      modifies this
      ensures Valid()
      ensures replayed ==> wire == before + [msg]
      ensures replayed || nextRetrans != 0 || IsOfEntry(req) || IsLast(req)
    {
      Received(req, 0, method_, index, txn, now, true);
      var sent := Send(msg, at, delay, now, txn, false, false);
      before := wire;
      replayed := false;
      if sent {
        for i := 0 to steps
          invariant Started(txn, hash(req), msg)
        {
          AnyOutside(req, txn, msg);
        }
        before := wire;
        if !IsOfEntry(req) && !IsLast(req) {
          var _ := Incoming(req, false, status);
          replayed := true;
        }
      }
    }
  }

  /** After k retransmissions of an INVITE with no provisional response, the delay is the
      first one times 2^k, while that fits in 32 bits. */
  lemma {:induction false} InviteTimer(r: Retransmitter)
    requires r.Valid() && r.nextRetrans != 0 && !r.provisional && IsInvite(r.lastSendMsg)
    requires r.armedDelay * Pow2(r.nbRetrans) < U32
    ensures r.nbLastDelay == r.armedDelay * Pow2(r.nbRetrans)
  {
    InviteDelay(r.armedDelay, r.limits.t2, r.nbRetrans);
  }

  /** And of another request, that or T2, whichever is less. */
  lemma {:induction false} OtherTimer(r: Retransmitter)
    requires r.Valid() && r.nextRetrans != 0 && !r.provisional && !IsInvite(r.lastSendMsg) && r.nbRetrans >= 1
    requires (2 * r.armedDelay < U32 && 2 * r.limits.t2 < U32) || r.armedDelay * Pow2(r.nbRetrans) < U32
    ensures r.nbLastDelay == Min(r.armedDelay * Pow2(r.nbRetrans), r.limits.t2)
  {
    if 2 * r.armedDelay < U32 && 2 * r.limits.t2 < U32 {
      OtherDelay(r.armedDelay, r.limits.t2, r.nbRetrans);
    } else {
      OtherDelayBelow(r.armedDelay, r.limits.t2, r.nbRetrans);
    }
  }
}
