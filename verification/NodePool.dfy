/** The pool of blocks of include/node_pool.hpp: blocks of one size carved from slabs, a linked
    list of the free ones, and the release of the slabs once a process that ends has given back
    its last block. Blocks are numbered by address, a slab's next to each other, and 0 is the
    null address. Memory maps each block that exists to the first word of it: a link while the
    pool has the block, anything while it is in use. Deleting a slab takes its blocks out of
    memory, so that no access to a deleted one can be written. */
module NodePool {
  type Address = nat

  predicate Linked(next: map<Address, Address>, head: Address, l: seq<Address>)
    decreases |l|
  {
    if l == [] then head == 0
    else head == l[0] && head != 0 && head in next && Linked(next, next[head], l[1..])
  }

  predicate Distinct(l: seq<Address>) {
    l == [] || (l[0] !in l[1..] && Distinct(l[1..]))
  }

  function Elements(l: seq<Address>): set<Address> {
    set b | b in l
  }

  predicate InSlab(b: Address, base: Address, count: nat) {
    base <= b < base + count
  }

  function Slab(base: Address, count: nat): set<Address> {
    set b | base <= b < base + count && InSlab(b, base, count)
  }

  ghost predicate Fills(l: seq<Address>, base: Address, count: nat) {
    forall b :: b in l <==> InSlab(b, base, count)
  }

  /** The blocks of all slabs. */
  function Blocks(links: seq<Address>, count: nat): set<Address> {
    if links == [] then {} else Slab(links[0], count) + Blocks(links[1..], count)
  }

  /** No two slabs overlap. */
  predicate Apart(links: seq<Address>, count: nat) {
    links == [] || (Slab(links[0], count) !! Blocks(links[1..], count) && Apart(links[1..], count))
  }

  // Lists.

  lemma {:induction false} FirstElement(l: seq<Address>)
    requires l != []
    ensures Elements(l) == {l[0]} + Elements(l[1..])
  {
  }

  /** A list does not depend on the words of other blocks. */
  lemma {:induction false} StillLinked(m: map<Address, Address>, n: map<Address, Address>, head: Address,
      l: seq<Address>)
    requires Linked(m, head, l) && forall b :: b in l ==> b in n && b in m && n[b] == m[b]
    ensures Linked(n, head, l)
    decreases |l|
  {
    if l != [] { StillLinked(m, n, m[head], l[1..]); }
  }

  lemma {:induction false} LinkedInMemory(m: map<Address, Address>, head: Address, l: seq<Address>)
    requires Linked(m, head, l)
    ensures forall b :: b in l ==> b in m
    decreases |l|
  {
    if l != [] { LinkedInMemory(m, m[head], l[1..]); }
  }

  /** Writing the word of a block that is not in a list leaves the list. */
  lemma {:induction false} WriteElsewhere(m: map<Address, Address>, head: Address, l: seq<Address>,
      b: Address, word: Address)
    requires Linked(m, head, l) && b !in l
    ensures Linked(m[b := word], head, l)
  {
    LinkedInMemory(m, head, l);
    StillLinked(m, m[b := word], head, l);
  }

  /** Putting a block in front of a list. */
  lemma {:induction false} LinkFirst(m: map<Address, Address>, head: Address, l: seq<Address>, b: Address)
    requires Linked(m, head, l) && b !in l && b != 0
    ensures Linked(m[b := head], b, [b] + l)
  {
    WriteElsewhere(m, head, l, b, head);
    assert ([b] + l)[1..] == l;
  }

  // Counting.

  lemma {:induction false} SlabCount(base: Address, count: nat)
    ensures |Slab(base, count)| == count
  {
    if count > 0 {
      SlabCount(base, count - 1);
      assert Slab(base, count) == Slab(base, count - 1) + {base + count - 1};
    }
  }

  /** As many blocks as there are slabs, times the blocks of one. */
  lemma {:induction false} BlocksCount(links: seq<Address>, count: nat)
    requires Apart(links, count)
    ensures |Blocks(links, count)| == |links| * count
  {
    if links != [] {
      SlabCount(links[0], count);
      BlocksCount(links[1..], count);
      assert |links| * count == count + (|links| - 1) * count;
    }
  }

  lemma {:induction false} DistinctCount(l: seq<Address>)
    requires Distinct(l)
    ensures |Elements(l)| == |l|
  {
    if l != [] {
      DistinctCount(l[1..]);
      FirstElement(l);
    }
  }

  lemma {:induction false} LinksAreBlocks(links: seq<Address>, count: nat)
    requires Apart(links, count) && count > 0
    ensures Distinct(links) && forall b :: b in links ==> b in Blocks(links, count)
  {
    if links != [] {
      LinksAreBlocks(links[1..], count);
      assert links[0] in Slab(links[0], count);
    }
  }

  /** What the pool has made of its memory: the free blocks in the order of their list, the
      blocks that link the slabs, which are the first of each, and the blocks in use. */
  datatype Parts = Parts(free: seq<Address>, links: seq<Address>, held: set<Address>) {
    /** Every block is free, in use or a slab's link, and only one of these. */
    ghost predicate Valid(count: nat) {
      Apart(links, count) && Distinct(free) &&
      forall b :: (b in Blocks(links, count) <==> b in free || b in held || b in links) &&
                  !(b in free && b in held) && !(b in held && b in links) && !(b in free && b in links)
    }

    /** The first free block is put to use. */
    function Pop(): Parts
      requires free != []
    {
      Parts(free[1..], links, held + {free[0]})
    }

    function Push(b: Address): Parts {
      Parts([b] + free, links, held - {b})
    }

    /** One slab more, its blocks `more` free. */
    function Grow(base: Address, more: seq<Address>): Parts {
      Parts(more, [base] + links, held)
    }
  }

  /** No block is lost: those in use, the free ones and one link for each slab are all. */
  lemma {:induction false} Conserved(p: Parts, count: nat)
    requires p.Valid(count) && count > 0
    ensures |p.held| + |p.free| + |p.links| == |p.links| * count == |Blocks(p.links, count)|
  {
    BlocksCount(p.links, count);
    LinksAreBlocks(p.links, count);
    DistinctCount(p.links);
    DistinctCount(p.free);
    assert Blocks(p.links, count) == Elements(p.free) + p.held + Elements(p.links);
    assert |Elements(p.free) + p.held| == |p.free| + |p.held|;
    assert |Elements(p.free) + p.held + Elements(p.links)| == |p.free| + |p.held| + |p.links|;
  }

  lemma {:induction false} PopValid(p: Parts, count: nat)
    requires p.Valid(count) && p.free != []
    ensures p.Pop().Valid(count) && |p.Pop().held| == |p.held| + 1
    ensures p.free[0] in Blocks(p.links, count) && p.free[0] !in p.held && p.free[0] !in p.links
  {
    assert p.free[0] in p.free && p.free == [p.free[0]] + p.free[1..];
  }

  lemma {:induction false} PushValid(p: Parts, b: Address, count: nat)
    requires p.Valid(count) && b in p.held
    ensures p.Push(b).Valid(count) && |p.Push(b).held| == |p.held| - 1
    ensures b !in p.free && b !in p.links && b in Blocks(p.links, count)
  {
    assert ([b] + p.free)[1..] == p.free;
  }

  lemma {:induction false} GrowValid(p: Parts, base: Address, more: seq<Address>, count: nat)
    requires p.Valid(count) && p.free == [] && count > 0
    requires Distinct(more) && Fills(more, base + 1, count - 1)
    requires Slab(base, count) !! Blocks(p.links, count)
    ensures p.Grow(base, more).Valid(count)
  {
    var links := [base] + p.links;
    assert links[1..] == p.links;
    LinksAreBlocks(p.links, count);
    assert Slab(base, count) == {base} + Slab(base + 1, count - 1);
  }

  /** The pool's fields, and what they mean. */
  datatype State = State(next: map<Address, Address>, freeBlocks: Address, slabs: Address, used: nat, parts: Parts)

  /** The lists are linked, the memory is that of the slabs, and the counter counts. */
  ghost predicate Sound(s: State, count: nat) {
    s.parts.Valid(count) && s.next.Keys == Blocks(s.parts.links, count) && s.used == |s.parts.held| &&
    Linked(s.next, s.freeBlocks, s.parts.free) && Linked(s.next, s.slabs, s.parts.links)
  }

  /** No block has the null address. */
  lemma {:induction false} NoNull(next: map<Address, Address>, head: Address, links: seq<Address>, count: nat)
    requires Linked(next, head, links)
    ensures 0 !in Blocks(links, count)
    decreases |links|
  {
    if links != [] { NoNull(next, next[head], links[1..], count); }
  }

  lemma {:induction false} PopSound(s: State, count: nat)
    requires Sound(s, count) && s.freeBlocks != 0
    ensures s.freeBlocks in s.next && s.parts.free != [] && s.freeBlocks == s.parts.free[0]
    ensures s.freeBlocks !in s.parts.held && s.freeBlocks !in s.parts.links
    ensures Sound(State(s.next, s.next[s.freeBlocks], s.slabs, s.used + 1, s.parts.Pop()), count)
  {
    PopValid(s.parts, count);
  }

  lemma {:induction false} WriteSound(s: State, b: Address, word: Address, count: nat)
    requires Sound(s, count) && b in s.parts.held
    ensures b in s.next && Sound(s.(next := s.next[b := word]), count)
  {
    PushValid(s.parts, b, count);
    WriteElsewhere(s.next, s.freeBlocks, s.parts.free, b, word);
    WriteElsewhere(s.next, s.slabs, s.parts.links, b, word);
  }

  lemma {:induction false} PushSound(s: State, b: Address, count: nat)
    requires Sound(s, count) && b in s.parts.held
    ensures s.used > 0 && b != 0
    ensures Sound(State(s.next[b := s.freeBlocks], b, s.slabs, s.used - 1, s.parts.Push(b)), count)
  {
    PushValid(s.parts, b, count);
    NoNull(s.next, s.slabs, s.parts.links, count);
    LinkFirst(s.next, s.freeBlocks, s.parts.free, b);
    WriteElsewhere(s.next, s.slabs, s.parts.links, b, s.freeBlocks);
  }

  lemma {:induction false} GrowSound(s: State, base: Address, next: map<Address, Address>, head: Address,
                                     more: seq<Address>, count: nat)
    requires Sound(s, count) && s.parts.free == [] && count > 0 && Slab(base, count) !! s.next.Keys
    requires Linked(next, head, more) && Distinct(more) && Fills(more, base + 1, count - 1)
    requires Linked(next, base, [base] + s.parts.links) && next.Keys == s.next.Keys + Slab(base, count)
    ensures Sound(State(next, head, base, s.used, s.parts.Grow(base, more)), count)
  {
    GrowValid(s.parts, base, more, count);
    assert ([base] + s.parts.links)[1..] == s.parts.links;
  }

  const NOTHING := Parts([], [], {})

  lemma {:induction false} NothingSound(count: nat)
    ensures Sound(State(map[], 0, 0, 0, NOTHING), count)
  {
  }

  /** A slab at `base` is carved: its first block links the slabs, the others become the free
      list, from the last on. */
  method CarveSlab(before: map<Address, Address>, slabs: Address, base: Address, count: nat, ghost links: seq<Address>)
    returns (next: map<Address, Address>, head: Address, ghost more: seq<Address>)
    requires count > 0 && base != 0 && Slab(base, count) !! before.Keys && Linked(before, slabs, links)
    ensures Linked(next, head, more) && Distinct(more) && Fills(more, base + 1, count - 1)
    ensures |more| == count - 1
    ensures Linked(next, base, [base] + links) && next.Keys == before.Keys + Slab(base, count)
  {
    LinkedInMemory(before, slabs, links);
    assert base in Slab(base, count);
    LinkFirst(before, slabs, links, base);
    next := before[base := slabs];
    head, more := 0, [];
    var i := 1;
    while i < count
      invariant 1 <= i <= count && |more| == i - 1
      invariant Linked(next, head, more) && Distinct(more) && Fills(more, base + 1, i - 1)
      invariant Linked(next, base, [base] + links) && next.Keys == before.Keys + Slab(base, i)
    {
      assert base + i in Slab(base, count);
      CarveOne(next, head, more, base, [base] + links, base, i);
      next := next[base + i := head];
      head := base + i;
      more := [base + i] + more;
      i := i + 1;
    }
  }

  method MakeSlab(before: map<Address, Address>, slabs: Address, base: Address, count: nat, ghost s: State)
    returns (next: map<Address, Address>, head: Address, ghost more: seq<Address>)
    requires count > 1 && Sound(s, count) && s.freeBlocks == 0 && s.next == before && s.slabs == slabs
    requires base != 0 && Slab(base, count) !! before.Keys
    ensures Sound(State(next, head, base, s.used, s.parts.Grow(base, more)), count)
    ensures head != 0 && |more| == count - 1 && Fills(more, base + 1, count - 1)
  {
    next, head, more := CarveSlab(before, slabs, base, count, s.parts.links);
    GrowSound(s, base, next, head, more, count);
  }

  /** The slabs are deleted one by one, each one's link read before it is gone. */
  method DeleteSlabs(before: map<Address, Address>, slabs: Address, count: nat, ghost links: seq<Address>)
    returns (next: map<Address, Address>)
    requires count > 0 && Linked(before, slabs, links) && Apart(links, count) && before.Keys == Blocks(links, count)
    ensures next == map[]
  {
    next := before;
    var slab := slabs;
    ghost var left := links;
    while slab != 0
      invariant Linked(next, slab, left) && Apart(left, count) && next.Keys == Blocks(left, count)
      decreases |left|
    {
      DeleteFirst(next, slab, left, count);
      var following := next[slab];
      next := next - Slab(slab, count);
      left := left[1..];
      slab := following;
    }
  }

  class Pool {
    const count: nat
    var next: map<Address, Address>
    var freeBlocks: Address
    var slabs: Address
    var used: nat
    var exiting: bool
    ghost var parts: Parts

    ghost function Now(): State
      reads this
    {
      State(next, freeBlocks, slabs, used, parts)
    }

    /** No slab is left once the process ends and no block is in use. */
    ghost predicate Valid()
      reads this
    {
      count >= 2 && Sound(Now(), count) && (exiting && used == 0 ==> parts.links == [])
    }

    constructor (count: nat)
      requires count >= 2
      ensures Valid() && this.count == count && !exiting && parts == NOTHING
    {
      this.count := count;
      next, freeBlocks, slabs, used, exiting := map[], 0, 0, 0, false;
      parts := NOTHING;
    }

    /** What `operator new` may return for a slab. */
    predicate Unused(base: Address)
      reads this
    {
      base != 0 && Slab(base, count) !! next.Keys
    }

    /** No block is lost, and none is left at the end. */
    lemma {:induction false} Totals()
      requires Valid()
      ensures used + |parts.free| + |parts.links| == |parts.links| * count == |next|
      ensures exiting && parts.held == {} ==> next == map[]
    {
      Conserved(parts, count);
      assert next.Keys == Blocks(parts.links, count);
    }

    /** What a user of a block writes over it does not matter. */
    method Write(b: Address, word: Address)
      requires Valid() && b in parts.held
      modifies this`next
      ensures Valid() && next == old(next)[b := word]
    {
      WriteSound(Now(), b, word, count);
      next := next[b := word];
    }

    /** A slab is made at `base` when no block is free. */
    method Grow(base: Address)
      requires count >= 2 && Sound(Now(), count) && freeBlocks == 0 && Unused(base)
      modifies this`next, this`freeBlocks, this`slabs, this`parts
      ensures Sound(Now(), count) && freeBlocks != 0
      ensures |parts.free| == count - 1 && parts == old(parts).Grow(base, parts.free)
      ensures Fills(parts.free, base + 1, count - 1)
    {
      ghost var more;
      next, freeBlocks, more := MakeSlab(next, slabs, base, count, Now());
      slabs := base;
      parts := parts.Grow(base, more);
    }

    /** The first free block is taken. */
    method Take() returns (b: Address)
      requires count >= 2 && Sound(Now(), count) && freeBlocks != 0
      modifies this`freeBlocks, this`parts, this`used
      ensures Sound(Now(), count) && used == old(used) + 1
      ensures b in next && b !in old(parts.held) && b !in parts.links
      ensures old(parts.free) != [] && b == old(parts.free[0]) && parts == old(parts.Pop())
    {
      PopSound(Now(), count);
      b := freeBlocks;
      freeBlocks := next[b];
      used := used + 1;
      parts := parts.Pop();
    }

    /** `allocate`; `base` is where a slab is made if one has to be. */
    method Allocate(base: Address) returns (b: Address)
      requires Valid() && Unused(base)
      modifies this`next, this`freeBlocks, this`slabs, this`parts, this`used
      ensures Valid()
      ensures b in next && b !in old(parts.held) && b !in parts.links && parts.held == old(parts.held) + {b}
      ensures if old(parts.free) != [] then [b] + parts.free == old(parts.free) && parts.links == old(parts.links)
              else InSlab(b, base, count) && |parts.free| == count - 2 && parts.links == [base] + old(parts.links)
    {
      if freeBlocks == 0 {
        Grow(base);
      }
      b := Take();
    }

    /** `release`. */
    method Release()
      requires count >= 2 && Sound(Now(), count) && used == 0
      modifies this`next, this`freeBlocks, this`slabs, this`parts
      ensures Valid() && next == map[] && parts == NOTHING && parts.held == old(parts.held)
    {
      assert |parts.held| == 0;
      next := DeleteSlabs(next, slabs, count, parts.links);
      slabs := 0;
      freeBlocks := 0;
      parts := NOTHING;
      NothingSound(count);
    }

    /** A block is put back on the list. */
    method Give(b: Address)
      requires count >= 2 && Sound(Now(), count) && b in parts.held
      modifies this`next, this`freeBlocks, this`parts, this`used
      ensures Sound(Now(), count) && parts == old(parts).Push(b)
    {
      PushSound(Now(), b, count);
      next := next[b := freeBlocks];
      freeBlocks := b;
      used := used - 1;
      parts := parts.Push(b);
    }

    /** `deallocate`. */
    method Deallocate(b: Address)
      requires Valid() && b in parts.held
      modifies this`next, this`freeBlocks, this`slabs, this`parts, this`used
      ensures Valid() && parts.held == old(parts.held) - {b}
      ensures parts == if exiting && used == 0 then NOTHING else old(parts).Push(b)
    {
      Give(b);
      if used == 0 && exiting {
        Release();
      }
    }

    /** The end of the process: `~releaser`. */
    method Exit()
      requires Valid()
      modifies this`next, this`freeBlocks, this`slabs, this`parts, this`exiting
      ensures Valid() && exiting
      ensures if used == 0 then next == map[] else parts == old(parts) && next == old(next)
    {
      exiting := true;
      if used == 0 {
        Release();
      }
    }

    /** What the users of the pool may do, each with the blocks it was given. */
    method AnyStep(users: set<Address>) returns (after: set<Address>)
      requires Valid() && users == parts.held
      modifies this
      ensures Valid() && after == parts.held
    {
      var b: Address, word: Address := *, *;
      after := users;
      if {
        case Unused(b) =>
          var a := Allocate(b);
          after := users + {a};
        case b in users =>
          Write(b, word);
        case b in users =>
          Deallocate(b);
          after := users - {b};
        case true =>
          Exit();
      }
    }
  }

  /** Any sequence of allocations, writes, deallocations and ends of the process, in any order:
      the pool stays valid, and the blocks that its users hold are the ones it says are held. */
  method AnyRun(count: nat, steps: nat) returns (pool: Pool, users: set<Address>)
    requires count >= 2
    ensures pool.Valid() && users == pool.parts.held && pool.used == |users|
    ensures pool.used + |pool.parts.free| + |pool.parts.links| == |pool.parts.links| * pool.count == |pool.next|
    ensures pool.exiting && users == {} ==> pool.next == map[]
  {
    pool := new Pool(count);
    users := {};
    for i := 0 to steps
      invariant fresh(pool) && pool.Valid() && users == pool.parts.held
    {
      users := pool.AnyStep(users);
    }
    pool.Totals();
  }

  lemma {:induction false} CarveOne(next: map<Address, Address>, free: Address, more: seq<Address>,
                                    slabs: Address, links: seq<Address>, base: Address, i: nat)
    requires i > 0 && Linked(next, free, more) && Distinct(more) && Fills(more, base + 1, i - 1)
    requires Linked(next, slabs, links) && base + i !in links && base != 0
    ensures Linked(next[base + i := free], base + i, [base + i] + more)
    ensures Linked(next[base + i := free], slabs, links)
    ensures Distinct([base + i] + more) && Fills([base + i] + more, base + 1, i)
  {
    var b := base + i;
    LinkFirst(next, free, more, b);
    WriteElsewhere(next, slabs, links, b, free);
    assert ([b] + more)[1..] == more;
  }

  lemma {:induction false} DeleteFirst(next: map<Address, Address>, slabs: Address, links: seq<Address>, count: nat)
    requires slabs != 0 && count > 0 && Linked(next, slabs, links) && Apart(links, count)
    requires next.Keys == Blocks(links, count)
    ensures links != [] && Linked(next - Slab(slabs, count), next[slabs], links[1..])
    ensures (next - Slab(slabs, count)).Keys == Blocks(links[1..], count)
  {
    LinksAreBlocks(links[1..], count);
    LinkedInMemory(next, next[slabs], links[1..]);
    StillLinked(next, next - Slab(slabs, count), next[slabs], links[1..]);
  }
}
