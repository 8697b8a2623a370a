/** Where the requests of a call came from that did not come from its destination, for their
    responses to go back there (src/call.cpp, section 18.2.2 of RFC 3261). Sockets are numbered,
    0 is none, and a socket that nobody holds any more is deleted. */
module RequestSources {
  import opened Basics

  const MAX := 4

  datatype Source = Source(branch: string, address: int, socket: nat)

  /** A request with a branch, and whether it came from elsewhere than the destination. */
  datatype Request = Request(source: Source, elsewhere: bool)

  /** A response, an ACK or another request. */
  datatype Kind = Response | Ack | RequestMessage

  datatype Found = Nowhere | At(source: Source)

  /** Where a response goes: as the call's other messages do, to an address, or over a socket. */
  datatype Way = AsCall | ToAddress(address: int) | Over(socket: nat)

  /** The way back to a source; `broken` are the sockets that are closed but held. */
  function WayTo(f: Found, broken: set<nat>): Way {
    match f
    case Nowhere => AsCall
    case At(e) => if e.socket == 0 then ToAddress(e.address) else if e.socket in broken then AsCall else Over(e.socket)
  }

  predicate Holds(e: Source, socket: nat) {
    socket != 0 && e.socket == socket
  }

  /** How many entries hold a socket. */
  function Holding(l: seq<Source>, socket: nat): nat {
    if l == [] then 0 else Holding(l[1..], socket) + if Holds(l[0], socket) then 1 else 0
  }

  predicate Distinct(l: seq<Source>) {
    forall i, j :: 0 <= i < j < |l| ==> l[i].branch != l[j].branch
  }

  /** The entries of other branches, in order. */
  function Without(l: seq<Source>, branch: string): seq<Source> {
    if l == [] then [] else if l[0].branch == branch then Without(l[1..], branch) else [l[0]] + Without(l[1..], branch)
  }

  // What there is to know: the last request of each branch.

  function Latest(h: seq<Request>, branch: string): Found {
    if h == [] then Nowhere
    else var r := h[|h| - 1];
      if r.source.branch != branch then Latest(h[..|h| - 1], branch)
      else if r.elsewhere then At(r.source) else Nowhere
  }

  /** The sources of the branches whose last request came from elsewhere, by its time. */
  function Record(h: seq<Request>): seq<Source> {
    if h == [] then []
    else var r := h[|h| - 1];
      Without(Record(h[..|h| - 1]), r.source.branch) + if r.elsewhere then [r.source] else []
  }

  lemma {:induction false} LatestBranch(h: seq<Request>, branch: string)
    ensures Latest(h, branch).At? ==> Latest(h, branch).source.branch == branch
  {
    if h != [] { LatestBranch(h[..|h| - 1], branch); }
  }

  lemma {:induction false} WithoutHas(l: seq<Source>, branch: string, e: Source)
    ensures e in Without(l, branch) <==> e in l && e.branch != branch
  {
    if l != [] { WithoutHas(l[1..], branch, e); }
  }

  lemma {:induction false} RecordIsLatest(h: seq<Request>, e: Source)
    ensures e in Record(h) <==> Latest(h, e.branch) == At(e)
  {
    if h != [] {
      RecordIsLatest(h[..|h| - 1], e);
      WithoutHas(Record(h[..|h| - 1]), h[|h| - 1].source.branch, e);
    }
  }

  // The table is the end of that record.

  predicate EndOf(l: seq<Source>, record: seq<Source>) {
    |l| <= |record| && record[|record| - |l|..] == l
  }

  lemma {:induction false} WithoutConcat(a: seq<Source>, b: seq<Source>, branch: string)
    ensures Without(a + b, branch) == Without(a, branch) + Without(b, branch)
  {
    if a == [] {
      assert a + b == b;
    } else {
      assert (a + b)[1..] == a[1..] + b;
      WithoutConcat(a[1..], b, branch);
    }
  }

  lemma {:induction false} EndWithout(l: seq<Source>, record: seq<Source>, branch: string)
    requires EndOf(l, record)
    ensures EndOf(Without(l, branch), Without(record, branch))
  {
    var a := record[..|record| - |l|];
    assert record == a + l;
    WithoutConcat(a, l, branch);
  }

  lemma {:induction false} EndAdd(l: seq<Source>, record: seq<Source>, e: Source)
    requires EndOf(l, record)
    ensures EndOf(l + [e], record + [e])
  {
  }

  lemma {:induction false} EndShorter(l: seq<Source>, record: seq<Source>, n: nat)
    requires EndOf(l, record) && n <= |l|
    ensures EndOf(l[n..], record)
  {
  }

  lemma {:induction false} WithoutDistinct(l: seq<Source>, branch: string)
    requires Distinct(l)
    ensures Distinct(Without(l, branch)) && |Without(l, branch)| <= |l|
    ensures forall e :: e in Without(l, branch) ==> e in l && e.branch != branch
  {
    if l != [] { WithoutDistinct(l[1..], branch); }
  }

  /** With distinct branches, taking one entry out takes its branch out. */
  lemma {:induction false} EraseIsWithout(l: seq<Source>, i: nat)
    requires Distinct(l) && i < |l|
    ensures l[..i] + l[i + 1..] == Without(l, l[i].branch)
  {
    if i == 0 {
      WithoutOther(l[1..], l[0].branch);
      assert l[..0] + l[1..] == l[1..];
    } else {
      EraseIsWithout(l[1..], i - 1);
      assert l[..i] + l[i + 1..] == [l[0]] + (l[1..][..i - 1] + l[1..][i..]);
    }
  }

  lemma {:induction false} WithoutOther(l: seq<Source>, branch: string)
    requires forall i :: 0 <= i < |l| ==> l[i].branch != branch
    ensures Without(l, branch) == l
  {
    if l != [] { WithoutOther(l[1..], branch); }
  }

  // Holding.

  lemma {:induction false} HoldingErase(l: seq<Source>, i: nat, socket: nat)
    requires i < |l|
    ensures Holding(l, socket) == Holding(l[..i] + l[i + 1..], socket) + if Holds(l[i], socket) then 1 else 0
  {
    if i == 0 {
      assert l[..0] + l[1..] == l[1..];
    } else {
      HoldingErase(l[1..], i - 1, socket);
      assert (l[..i] + l[i + 1..])[1..] == l[1..][..i - 1] + l[1..][i..];
    }
  }

  lemma {:induction false} HoldingAdd(l: seq<Source>, e: Source, socket: nat)
    ensures Holding(l + [e], socket) == Holding(l, socket) + if Holds(e, socket) then 1 else 0
  {
    if l == [] {
      assert [] + [e] == [e];
    } else {
      assert (l + [e])[1..] == l[1..] + [e];
      HoldingAdd(l[1..], e, socket);
    }
  }

  lemma {:induction false} HeldBy(l: seq<Source>, i: nat)
    requires i < |l| && l[i].socket != 0
    ensures Holding(l, l[i].socket) > 0
  {
    if i > 0 { HeldBy(l[1..], i - 1); }
  }

  /** Every socket that exists is held as often as the others hold it and as entries do, at
      least once, and every entry's socket exists. */
  predicate Counted(counts: map<nat, nat>, others: map<nat, nat>, l: seq<Source>) {
    counts.Keys == others.Keys &&
    (forall s :: s in counts ==> counts[s] == others[s] + Holding(l, s) && counts[s] > 0) &&
    forall i :: 0 <= i < |l| && l[i].socket != 0 ==> l[i].socket in counts
  }

  /** One hold less on a socket; the last one deletes it. */
  function Released(counts: map<nat, nat>, socket: nat): map<nat, nat>
    requires socket in counts && counts[socket] > 0
  {
    if counts[socket] == 1 then counts - {socket} else counts[socket := counts[socket] - 1]
  }

  /** An entry that goes gives its socket back. */
  lemma {:induction false} ForgetCounted(counts: map<nat, nat>, others: map<nat, nat>, l: seq<Source>, i: nat)
    requires Counted(counts, others, l) && i < |l| && l[i].socket != 0
    ensures counts[l[i].socket] > 0
    ensures var after := Released(counts, l[i].socket);
      Counted(after, map s | s in after :: others[s], l[..i] + l[i + 1..])
  {
    var t, rest := l[i].socket, l[..i] + l[i + 1..];
    var after := Released(counts, t);
    forall s | s in counts
      ensures Holding(l, s) == Holding(rest, s) + if s == t then 1 else 0
    {
      HoldingErase(l, i, s);
    }
    forall k | 0 <= k < |rest| && rest[k].socket != 0 ensures rest[k].socket in after {
      HeldBy(rest, k);
      assert rest[k] == if k < i then l[k] else l[k + 1];
    }
  }

  /** A socket that does not exist is in no entry. */
  lemma {:induction false} NotHeld(l: seq<Source>, socket: nat, counts: map<nat, nat>)
    requires socket !in counts && forall i :: 0 <= i < |l| && l[i].socket != 0 ==> l[i].socket in counts
    ensures Holding(l, socket) == 0
  {
    if l != [] { NotHeld(l[1..], socket, counts); }
  }

  lemma {:induction false} NotIn(l: seq<Source>, socket: nat)
    requires Holding(l, socket) == 0
    ensures forall i :: 0 <= i < |l| && l[i].socket != 0 ==> l[i].socket != socket
  {
    if l != [] { NotIn(l[1..], socket); }
  }

  /** A new entry holds its socket. */
  lemma {:induction false} AddCounted(counts: map<nat, nat>, others: map<nat, nat>, l: seq<Source>, e: Source)
    requires Counted(counts, others, l) && (e.socket != 0 ==> e.socket in counts)
    ensures Counted(if e.socket == 0 then counts else counts[e.socket := counts[e.socket] + 1], others, l + [e])
  {
    forall s | s in counts
      ensures Holding(l + [e], s) == Holding(l, s) + if Holds(e, s) then 1 else 0
    {
      HoldingAdd(l, e, s);
    }
  }

  /** The entries after a request: none of its branch but, at the end, its own. */
  function Next(l: seq<Source>, e: Source, elsewhere: bool): seq<Source> {
    var d := Without(l, e.branch);
    if !elsewhere then d else (if |d| == MAX then d[1..] else d) + [e]
  }

  lemma {:induction false} NextEnds(l: seq<Source>, h: seq<Request>, e: Source, elsewhere: bool)
    requires |l| <= MAX && Distinct(l) && EndOf(l, Record(h))
    ensures var n := Next(l, e, elsewhere);
      |n| <= MAX && Distinct(n) && EndOf(n, Record(h + [Request(e, elsewhere)]))
  {
    var r := Request(e, elsewhere);
    assert (h + [r])[..|h|] == h;
    var d, record := Without(l, e.branch), Without(Record(h), e.branch);
    WithoutDistinct(l, e.branch);
    EndWithout(l, Record(h), e.branch);
    if elsewhere { AddEnds(d, record, e); }
  }

  lemma {:induction false} AddEnds(d: seq<Source>, record: seq<Source>, e: Source)
    requires |d| <= MAX && Distinct(d) && EndOf(d, record) && forall x :: x in d ==> x.branch != e.branch
    ensures var n := (if |d| == MAX then d[1..] else d) + [e];
      |n| <= MAX && Distinct(n) && EndOf(n, record + [e])
  {
    var kept := if |d| == MAX then d[1..] else d;
    EndShorter(d, record, |d| - |kept|);
    EndAdd(kept, record, e);
    DistinctAdd(kept, e);
  }

  /** The entries after all requests. */
  function Entries(h: seq<Request>): seq<Source> {
    if h == [] then [] else Next(Entries(h[..|h| - 1]), h[|h| - 1].source, h[|h| - 1].elsewhere)
  }

  // When an entry is lost.

  /** How many entries come after that of a branch. */
  function Behind(l: seq<Source>, branch: string): nat {
    if l == [] then 0 else if l[0].branch == branch then |l| - 1 else Behind(l[1..], branch)
  }

  /** The most branches there were, at any time since the last request of a branch, whose last
      request came from elsewhere after it. */
  function Peak(h: seq<Request>, branch: string): nat {
    if h == [] || h[|h| - 1].source.branch == branch then 0
    else Max(Peak(h[..|h| - 1], branch), Behind(Record(h), branch))
  }

  /** The requests from elsewhere since the last one of a branch. */
  function Since(h: seq<Request>, branch: string): nat {
    if h == [] || h[|h| - 1].source.branch == branch then 0
    else Since(h[..|h| - 1], branch) + if h[|h| - 1].elsewhere then 1 else 0
  }

  lemma {:induction false} BehindAt(l: seq<Source>, i: nat)
    requires Distinct(l) && i < |l|
    ensures Behind(l, l[i].branch) == |l| - 1 - i
  {
    if i > 0 { BehindAt(l[1..], i - 1); }
  }

  lemma {:induction false} RecordDistinct(h: seq<Request>)
    ensures Distinct(Record(h))
  {
    if h != [] {
      var r, was := h[|h| - 1], Record(h[..|h| - 1]);
      RecordDistinct(h[..|h| - 1]);
      WithoutDistinct(was, r.source.branch);
      if r.elsewhere { DistinctAdd(Without(was, r.source.branch), r.source); }
    }
  }

  /** As many entries come after one in the end of a record as in the record. */
  lemma {:induction false} BehindEnd(l: seq<Source>, record: seq<Source>, i: nat)
    requires EndOf(l, record) && Distinct(record) && i < |l|
    ensures Behind(record, l[i].branch) == |l| - 1 - i
  {
    var k := |record| - |l| + i;
    assert record[k] == l[i];
    BehindAt(record, k);
  }

  lemma {:induction false} EntriesEnd(h: seq<Request>)
    ensures |Entries(h)| <= MAX && Distinct(Entries(h)) && EndOf(Entries(h), Record(h))
  {
    if h != [] {
      var was := h[..|h| - 1];
      EntriesEnd(was);
      NextEnds(Entries(was), was, h[|h| - 1].source, h[|h| - 1].elsewhere);
      assert was + [Request(h[|h| - 1].source, h[|h| - 1].elsewhere)] == h;
    }
  }

  /** An entry that is there has fewer than four after it. */
  lemma {:induction false} KeptIsBelow(h: seq<Request>, e: Source)
    requires e in Entries(h)
    ensures Behind(Record(h), e.branch) < MAX
  {
    EntriesEnd(h);
    RecordDistinct(h);
    var i :| 0 <= i < |Entries(h)| && Entries(h)[i] == e;
    BehindEnd(Entries(h), Record(h), i);
  }

  /** The entry that made room for a new one has four after it. */
  lemma {:induction false} LostIsBehind(d: seq<Source>, record: seq<Source>, e: Source)
    requires |d| == MAX && EndOf(d, record) && Distinct(record + [e])
    ensures Behind(record + [e], d[0].branch) == MAX
  {
    EndAdd(d, record, e);
    assert (d + [e])[0] == d[0];
    BehindEnd(d + [e], record + [e], 0);
  }

  /** An entry of another branch goes only as the first of four. */
  lemma {:induction false} NextLoses(l: seq<Source>, r: Request, e: Source)
    requires |l| <= MAX && Distinct(l) && e in l && e.branch != r.source.branch
    requires e !in Next(l, r.source, r.elsewhere)
    ensures var d := Without(l, r.source.branch); r.elsewhere && |d| == MAX && d[0] == e
  {
    var d := Without(l, r.source.branch);
    WithoutHas(l, r.source.branch, e);
    WithoutDistinct(l, r.source.branch);
    assert d == [d[0]] + d[1..];
  }

  /** A request of another branch: the entry stays if and only if fewer than four come after it. */
  lemma {:induction false} NextKeeps(h: seq<Request>, e: Source)
    requires h != [] && h[|h| - 1].source.branch != e.branch && e in Entries(h[..|h| - 1])
    ensures e in Entries(h) <==> Behind(Record(h), e.branch) < MAX
  {
    var was, r := h[..|h| - 1], h[|h| - 1];
    if e in Entries(h) {
      KeptIsBelow(h, e);
    } else {
      EntriesEnd(was);
      NextLoses(Entries(was), r, e);
      RecordDistinct(h);
      EndWithout(Entries(was), Record(was), r.source.branch);
      LostIsBehind(Without(Entries(was), r.source.branch), Without(Record(was), r.source.branch), r.source);
    }
  }

  /** The source of the last request of a branch is there if and only if there never were four
      branches with a later one from elsewhere. */
  lemma {:induction false} KeptUpToFour(h: seq<Request>, e: Source)
    requires Latest(h, e.branch) == At(e)
    ensures e in Entries(h) <==> Peak(h, e.branch) < MAX
  {
    var was, r := h[..|h| - 1], h[|h| - 1];
    if r.source.branch != e.branch {
      KeptUpToFour(was, e);
      if e in Entries(was) {
        NextKeeps(h, e);
      } else {
        WithoutHas(Entries(was), r.source.branch, e);
      }
    }
  }

  lemma {:induction false} BehindWithout(l: seq<Source>, branch: string, other: string)
    requires branch != other
    ensures Behind(Without(l, other), branch) <= Behind(l, branch)
  {
    if l != [] {
      BehindWithout(l[1..], branch, other);
      WithoutShorter(l[1..], other);
    }
  }

  lemma {:induction false} WithoutShorter(l: seq<Source>, branch: string)
    ensures |Without(l, branch)| <= |l|
  {
    if l != [] { WithoutShorter(l[1..], branch); }
  }

  lemma {:induction false} BehindAdd(l: seq<Source>, branch: string, e: Source)
    ensures Behind(l + [e], branch) <= Behind(l, branch) + 1
  {
    if l != [] {
      assert (l + [e])[1..] == l[1..] + [e];
      BehindAdd(l[1..], branch, e);
    }
  }

  /** How many of some requests came from elsewhere. */
  function Elsewhere(h: seq<Request>): nat {
    if h == [] then 0 else Elsewhere(h[1..]) + if h[0].elsewhere then 1 else 0
  }

  lemma {:induction false} ElsewhereLast(h: seq<Request>, r: Request)
    ensures Elsewhere(h + [r]) == Elsewhere(h) + if r.elsewhere then 1 else 0
  {
    if h != [] {
      assert (h + [r])[1..] == h[1..] + [r];
      ElsewhereLast(h[1..], r);
    } else {
      assert h + [r] == [r] && [r][1..] == [];
    }
  }

  /** After a request of the branch, those that follow. */
  lemma {:induction false} SinceCounts(before: seq<Request>, r: Request, after: seq<Request>)
    requires forall i :: 0 <= i < |after| ==> after[i].source.branch != r.source.branch
    ensures Since(before + [r] + after, r.source.branch) == Elsewhere(after)
  {
    var h := before + [r] + after;
    if after == [] {
      assert h == before + [r];
    } else {
      var n := |after| - 1;
      assert h[..|h| - 1] == before + [r] + after[..n] && after == after[..n] + [after[n]];
      SinceCounts(before, r, after[..n]);
      ElsewhereLast(after[..n], after[n]);
    }
  }

  /** So four requests from elsewhere are needed for it to be lost. */
  lemma {:induction false} PeakBound(h: seq<Request>, branch: string)
    ensures Peak(h, branch) <= Since(h, branch)
  {
    if h != [] && h[|h| - 1].source.branch != branch { BehindBound(h, branch); PeakBound(h[..|h| - 1], branch); }
  }

  lemma {:induction false} BehindBound(h: seq<Request>, branch: string)
    ensures Behind(Record(h), branch) <= Since(h, branch)
  {
    if h != [] {
      var r, record := h[|h| - 1], Record(h[..|h| - 1]);
      var rest := Without(record, r.source.branch);
      if r.source.branch == branch {
        NoneBehind(record, branch, if r.elsewhere then [r.source] else []);
      } else {
        BehindBound(h[..|h| - 1], branch);
        BehindWithout(record, branch, r.source.branch);
        if r.elsewhere { BehindAdd(rest, branch, r.source); } else { assert rest + [] == rest; }
      }
    }
  }

  lemma {:induction false} NoneBehind(l: seq<Source>, branch: string, end: seq<Source>)
    requires |end| <= 1
    ensures Behind(Without(l, branch) + end, branch) == 0
  {
    if l == [] {
      assert [] + end == end;
    } else {
      NoneBehind(l[1..], branch, end);
      if l[0].branch != branch {
        assert (Without(l, branch) + end)[1..] == Without(l[1..], branch) + end;
      }
    }
  }

  class Table {
    const udp: bool
    var sources: seq<Source>
    /** How often each socket that exists is held (`ss_count`), and by others than entries. */
    var counts: map<nat, nat>
    ghost var others: map<nat, nat>
    ghost var history: seq<Request>

    ghost predicate Valid()
      reads this
    {
      |sources| <= MAX && Distinct(sources) && Counted(counts, others, sources) && EndOf(sources, Record(history)) &&
      sources == Entries(history)
    }

    constructor (udp: bool)
      ensures Valid() && sources == [] && history == [] && counts == map[] && this.udp == udp
    {
      this.udp, counts, others := udp, map[], map[];
      sources, history := [], [];
    }

    /** The sockets that others hold as well stay. */
    twostate predicate OthersKept()
      reads this
    {
      forall s :: s in old(others) && old(others)[s] > 0 ==> s in others && others[s] == old(others)[s]
    }

    /** `forget_request_source`. */
    method Forget(i: nat)
      requires Counted(counts, others, sources) && i < |sources|
      modifies this`sources, this`counts, this`others
      ensures Counted(counts, others, sources) && sources == old(sources[..i] + sources[i + 1..])
      ensures OthersKept()
    {
      if sources[i].socket != 0 {
        HeldBy(sources, i);
        ForgetCounted(counts, others, sources, i);
        counts := Released(counts, sources[i].socket);
        others := map s | s in counts :: others[s];
      } else {
        forall s | s in counts ensures Holding(sources, s) == Holding(sources[..i] + sources[i + 1..], s) {
          HoldingErase(sources, i, s);
        }
      }
      sources := sources[..i] + sources[i + 1..];
    }

    /** The first entry of a branch, or the number of entries. */
    method Find(branch: string) returns (i: nat)
      requires Distinct(sources)
      ensures i <= |sources| && (i < |sources| ==> sources[i].branch == branch)
      ensures forall k :: 0 <= k < i ==> sources[k].branch != branch
      ensures i == |sources| ==> Without(sources, branch) == sources
    {
      i := 0;
      while i < |sources| && sources[i].branch != branch
        invariant i <= |sources| && forall k :: 0 <= k < i ==> sources[k].branch != branch
      {
        i := i + 1;
      }
      if i == |sources| {
        WithoutOther(sources, branch);
      }
    }

    /** Where the response with this branch goes: nowhere else, or where its request came from. */
    method Lookup(branch: string) returns (r: Found)
      requires Valid()
      ensures r == if Peak(history, branch) < MAX then Latest(history, branch) else Nowhere
      ensures r.At? && r.source.socket != 0 ==> r.source.socket in counts
    {
      var i := Find(branch);
      if Latest(history, branch).At? {
        LatestBranch(history, branch);
        KeptUpToFour(history, Latest(history, branch).source);
      }
      if i == |sources| {
        return Nowhere;
      }
      EndHas(sources, Record(history), i);
      RecordIsLatest(history, sources[i]);
      return At(sources[i]);
    }

    /** Where `send_raw` sends a response: back to the source of its request, unless that is not
        known any more or its socket is closed. A socket that it is sent over exists. */
    method Route(branch: string, broken: set<nat>) returns (way: Way)
      requires Valid()
      ensures way == WayTo(if Peak(history, branch) < MAX then Latest(history, branch) else Nowhere, broken)
      ensures way.Over? ==> way.socket in counts && way.socket !in broken
    {
      var found := Lookup(branch);
      if found == Nowhere {
        return AsCall;
      }
      if found.source.socket == 0 {
        return ToAddress(found.source.address);
      }
      return if found.source.socket in broken then AsCall else Over(found.source.socket);
    }

    /** The entry of a branch is forgotten, if there is one. */
    method Drop(branch: string)
      requires Distinct(sources) && Counted(counts, others, sources)
      modifies this`sources, this`counts, this`others
      ensures Distinct(sources) && Counted(counts, others, sources) && sources == Without(old(sources), branch)
      ensures |sources| <= old(|sources|) && OthersKept()
      ensures forall e :: e in sources ==> e.branch != branch
    {
      WithoutDistinct(sources, branch);
      var i := Find(branch);
      if i < |sources| {
        EraseIsWithout(sources, i);
        Forget(i);
      }
    }

    /** The oldest entry makes room for a new one, if it has to. */
    method MakeRoom()
      requires Distinct(sources) && Counted(counts, others, sources) && |sources| <= MAX
      modifies this`sources, this`counts, this`others
      ensures Counted(counts, others, sources) && OthersKept()
      ensures sources == if old(|sources|) == MAX then old(sources[1..]) else old(sources)
    {
      if |sources| == MAX {
        assert sources[..0] + sources[1..] == sources[1..];
        Forget(0);
      }
    }

    /** A new entry, with its socket held. */
    method Add(e: Source)
      requires Counted(counts, others, sources) && (e.socket != 0 ==> e.socket in counts)
      modifies this`sources, this`counts
      ensures Counted(counts, others, sources) && sources == old(sources) + [e]
    {
      AddCounted(counts, others, sources, e);
      if e.socket != 0 {
        counts := counts[e.socket := counts[e.socket] + 1];
      }
      sources := sources + [e];
    }

    /** A request with a branch is remembered, or its branch forgotten. */
    method Remember(e: Source, elsewhere: bool)
      requires Valid() && (e.socket != 0 ==> e.socket in counts && others[e.socket] > 0)
      modifies this`sources, this`counts, this`others, this`history
      ensures Valid() && history == old(history) + [Request(e, elsewhere)]
      ensures sources == Next(old(sources), e, elsewhere)
    {
      NextEnds(sources, history, e, elsewhere);
      assert (history + [Request(e, elsewhere)])[..|history|] == history;
      history := history + [Request(e, elsewhere)];
      if elsewhere || sources != [] {
        Drop(e.branch);
        if elsewhere {
          MakeRoom();
          Add(e);
        }
      }
    }

    /** `remember_request_source`. A message over a connection comes with its socket, which the
        connection holds; `fixed` is that every message goes to one address (-rsa). */
    method RememberMessage(kind: Kind, fixed: bool, branch: string, from: int, socket: nat, peer: int, callSocket: nat)
      requires Valid() && (!udp && socket != 0 ==> socket in counts && others[socket] > 0)
      modifies this`sources, this`counts, this`others, this`history
      ensures Valid()
      ensures var elsewhere := if udp then from != peer else socket != 0 && socket != callSocket;
        var e := Source(branch, from, if udp || !elsewhere then 0 else socket);
        history == old(history) +
          if fixed || kind != RequestMessage || branch == "" then [] else [Request(e, elsewhere)]
    {
      if fixed || kind != RequestMessage {
        return;
      }
      var elsewhere := if udp then from != peer else socket != 0 && socket != callSocket;
      if branch == "" {
        return;
      }
      Remember(Source(branch, from, if udp || !elsewhere then 0 else socket), elsewhere);
    }

    // What others do with the sockets.

    method OpenSocket(socket: nat)
      requires Valid() && socket !in counts
      modifies this`counts, this`others
      ensures Valid() && counts == old(counts)[socket := 1]
    {
      NotHeld(sources, socket, counts);
      counts, others := counts[socket := 1], others[socket := 1];
    }

    method Hold(socket: nat)
      requires Valid() && socket in counts
      modifies this`counts, this`others
      ensures Valid() && counts == old(counts)[socket := old(counts[socket]) + 1]
      ensures socket in others && others[socket] > 0
    {
      counts, others := counts[socket := counts[socket] + 1], others[socket := others[socket] + 1];
    }

    /** One of the others closes a socket it holds. */
    method Close(socket: nat)
      requires Valid() && socket in counts
      modifies this`counts, this`others
      ensures Valid() && sources == old(sources)
    {
      var entries := Holding(sources, socket);
      if counts[socket] > entries {
        ghost var o := others[socket];
        counts := Released(counts, socket);
        others := if socket in counts then others[socket := o - 1] else others - {socket};
        if socket !in counts { NotIn(sources, socket); }
      }
    }

    /** The end of the call: every entry is forgotten. */
    method Clear()
      requires Valid()
      modifies this`sources, this`counts, this`others
      ensures sources == [] && counts == others
    {
      while sources != []
        invariant Counted(counts, others, sources) && Distinct(sources) && |sources| <= MAX
        decreases |sources|
      {
        assert sources[..0] + sources[1..] == sources[1..];
        Forget(0);
      }
    }
  }

  /** A request and its response: the response goes back to where the request came from, if that
      is elsewhere, and as the call's other messages otherwise, or if the connection is closed. */
  method AnswersBack(t: Table, branch: string, from: int, socket: nat, peer: int, callSocket: nat, broken: set<nat>)
    returns (way: Way)
    requires t.Valid() && branch != "" && (!t.udp && socket != 0 ==> socket in t.counts && t.others[socket] > 0)
    modifies t
    ensures t.Valid()
    ensures t.udp ==> way == if from == peer then AsCall else ToAddress(from)
    ensures !t.udp ==> way == if socket == 0 || socket == callSocket || socket in broken then AsCall else Over(socket)
  {
    t.RememberMessage(RequestMessage, false, branch, from, socket, peer, callSocket);
    way := t.Route(branch, broken);
  }

  /** Any run of requests, lookups, sockets opened, held and closed by others, up to the end of
      the call, which leaves each socket with the holds of the others. */
  method AnyRun(udp: bool, steps: nat) returns (t: Table, ghost last: seq<Source>)
    ensures t.sources == [] && t.counts == t.others
    ensures |last| <= MAX && Distinct(last) && EndOf(last, Record(t.history)) && last == Entries(t.history)
  {
    t := new Table(udp);
    for i := 0 to steps
      invariant fresh(t) && t.Valid()
    {
      var kind: Kind, fixed: bool, branch: string, from: int := *, *, *, *;
      var socket: nat, peer: int, callSocket: nat := *, *, *;
      if {
        case socket !in t.counts => t.OpenSocket(socket);
        case socket in t.counts => t.Hold(socket);
        case socket in t.counts => t.Close(socket);
        case true => var _ := t.Route(branch, {socket});
        case socket in t.counts =>
          t.Hold(socket);
          t.RememberMessage(kind, fixed, branch, from, socket, peer, callSocket);
        case t.udp => t.RememberMessage(kind, fixed, branch, from, socket, peer, callSocket);
      }
    }
    last := t.sources;
    t.Clear();
  }

  lemma {:induction false} DistinctAdd(l: seq<Source>, e: Source)
    requires Distinct(l) && forall x :: x in l ==> x.branch != e.branch
    ensures Distinct(l + [e])
  {
  }

  lemma {:induction false} EndHas(l: seq<Source>, record: seq<Source>, i: nat)
    requires EndOf(l, record) && i < |l|
    ensures l[i] in record
  {
    assert record[|record| - |l| + i] == l[i];
  }
}
