/**
 * The bump arena (util/arena.cpp): a list of chunks, newest first; a request is served from the
 * first chunk, from the head, whose free space holds the aligned request, and a new chunk is
 * pushed at the head when none does.
 *
 * The chunk list is a sequence whose first element is the head. The address malloc returns for
 * a new chunk is a parameter. Rounding up to the alignment is written with division, which for
 * a power of two is what the source's mask computes.
 */
module ArenaAlloc {
  /** CHUNK_CAPCITY: chunks are at least 256 KiB. */
  const ChunkCapacity: nat := 256 * 1024

  datatype Chunk = Chunk(memory: nat, used: nat, capacity: nat)

  predicate IsPowerOfTwo(n: nat)
    decreases n
  {
    n == 1 || (n > 1 && n % 2 == 0 && IsPowerOfTwo(n / 2))
  }

  /** make_new_chunk: nothing used, and room for at least the minimum. */
  function MakeNewChunk(memory: nat, minimum: nat): (c: Chunk)
    ensures c.memory == memory && c.used == 0
    ensures c.capacity >= minimum && c.capacity >= ChunkCapacity
    ensures c.capacity == minimum || c.capacity == ChunkCapacity
  {
    Chunk(memory, 0, if minimum > ChunkCapacity then minimum else ChunkCapacity)
  }

  /** The first multiple of align at or after x. */
  function AlignUp(x: nat, align: nat): (r: nat)
    requires align >= 1
    ensures r % align == 0 && x <= r <= x + align - 1
  {
    var s := x + align - 1;
    AlignedDown(s, align);
    s - s % align
  }

  lemma AlignedDown(s: nat, align: nat)
    requires align >= 1
    ensures (s - s % align) % align == 0
  {
    var q := s / align;
    assert s - s % align == q * align;
    MultipleOf(q, align);
  }

  lemma MultipleOf(q: nat, align: nat)
    requires align >= 1
    ensures (q * align) % align == 0
  {
    var m := q * align;
    var d := q - m / align;
    assert align * d == m % align by {
      assert m == align * (m / align) + m % align;
      assert align * d == align * q - align * (m / align);
    }
    if d >= 1 {
      AtLeastOnce(align, d);
    }
  }

  lemma {:induction false} AtLeastOnce(a: int, d: int)
    requires a >= 1 && d >= 1
    ensures a * d >= a
  {
    if d > 1 {
      AtLeastOnce(a, d - 1);
      assert a * d == a * (d - 1) + a;
    }
  }

  /** The position a request would start at in chunk c. */
  function Start(c: Chunk, align: nat): nat
    requires align >= 1
  {
    AlignUp(c.memory + c.used, align)
  }

  /** real_size: the padding up to the aligned position plus the request. */
  function RealSize(c: Chunk, req: nat, align: nat): nat
    requires align >= 1
  {
    Start(c, align) + req - (c.memory + c.used)
  }

  predicate Fits(c: Chunk, req: nat, align: nat)
    requires align >= 1
  {
    c.used + RealSize(c, req, align) <= c.capacity
  }

  /** The chunk after serving a request from it. */
  function Bumped(c: Chunk, req: nat, align: nat): Chunk
    requires align >= 1
  {
    c.(used := c.used + RealSize(c, req, align))
  }

  /** The index of the first chunk, from the head, that holds the request. */
  function FirstFit(chunks: seq<Chunk>, req: nat, align: nat): (r: nat)
    requires align >= 1
    ensures r <= |chunks|
    ensures r < |chunks| ==> Fits(chunks[r], req, align)
    ensures forall k :: 0 <= k < r ==> !Fits(chunks[k], req, align)
  {
    if chunks == [] then 0
    else if Fits(chunks[0], req, align) then 0
    else 1 + FirstFit(chunks[1..], req, align)
  }

  /** Every chunk's used space is within its capacity. */
  predicate Bounded(chunks: seq<Chunk>)
  {
    forall k :: 0 <= k < |chunks| ==> chunks[k].used <= chunks[k].capacity
  }

  /** A chunk sized for the request plus the worst padding holds the request. */
  lemma WorstCaseFits(memory: nat, req: nat, align: nat)
    requires align >= 1
    ensures Fits(MakeNewChunk(memory, req + (align - 1)), req, align)
  {
  }

  /** The chunk pushed when no chunk holds the request: room for the request and the worst
   *  padding. */
  function NewChunkFor(req: nat, align: nat, memory: nat): Chunk
    requires align >= 1
  {
    MakeNewChunk(memory, req + (align - 1))
  }

  /** The chunk list allocate works on: the given one, or a first chunk made for the request. */
  function Headed(chunks: seq<Chunk>, memory: nat, req: nat): (r: seq<Chunk>)
    ensures |r| >= 1
  {
    if chunks == [] then [MakeNewChunk(memory, req)] else chunks
  }

  /** The chunk list after a request. */
  function Allocated(cs: seq<Chunk>, req: nat, align: nat, memory: nat): seq<Chunk>
    requires align >= 1 && |cs| >= 1
  {
    var i := FirstFit(cs, req, align);
    if req == 0 then cs
    else if i < |cs| then cs[i := Bumped(cs[i], req, align)]
    else [Bumped(NewChunkFor(req, align, memory), req, align)] + cs
  }

  /** The address handed out for a request. */
  function Served(cs: seq<Chunk>, req: nat, align: nat, memory: nat): nat
    requires align >= 1 && |cs| >= 1
  {
    var i := FirstFit(cs, req, align);
    if req == 0 then cs[0].memory + cs[0].used
    else if i < |cs| then Start(cs[i], align)
    else Start(NewChunkFor(req, align, memory), align)
  }

  class Arena {
    var chunks: seq<Chunk>

    ghost predicate Valid()
      reads this
    {
      Bounded(chunks)
    }

    constructor ()
      ensures chunks == [] && Valid()
    {
      chunks := [];
    }

    /** Arena::allocate: a zero-size request returns the head's bump position; any other is
     *  served, aligned, from the first chunk that holds it, or from a new chunk pushed at the
     *  head. A head is made first when there is none. `fresh1` and `fresh2` are the addresses of
     *  those two new chunks. */
    method Allocate(req: nat, align: nat, fresh1: nat, fresh2: nat) returns (ptr: nat)
      requires IsPowerOfTwo(align) && Valid()
      modifies this
      ensures Valid()
      ensures chunks == Allocated(Headed(old(chunks), fresh1, req), req, align, fresh2)
      ensures ptr == Served(Headed(old(chunks), fresh1, req), req, align, fresh2)
    {
      assert align >= 1;
      if chunks == [] {
        chunks := [MakeNewChunk(fresh1, req)];
      }
      ghost var cs := chunks;
      var i := 0;
      ghost var pushed := false;
      while true
        invariant Bounded(chunks) && 0 <= i < |chunks|
        invariant req == 0 ==> i == 0 && !pushed
        invariant !pushed ==> chunks == cs && i <= FirstFit(cs, req, align)
        invariant pushed ==> req != 0 && FirstFit(cs, req, align) == |cs| && i == 0
                             && chunks == [NewChunkFor(req, align, fresh2)] + cs
        decreases (if pushed then 0 else 1), |chunks| - i
      {
        var cur := chunks[i];
        if req == 0 {
          return cur.memory + cur.used;
        }
        var realSize := RealSize(cur, req, align);
        if cur.used + realSize <= cur.capacity {
          if pushed {
            PushServes(cs, req, align, fresh2);
          } else {
            FitServes(cs, i, req, align, fresh2);
          }
          ptr := Bump(i, req, align);
          return;
        }
        if pushed {
          WorstCaseFits(fresh2, req, align);
          assert false;
        }
        if i + 1 < |chunks| {
          i := i + 1;
          continue;
        }
        chunks := [NewChunkFor(req, align, fresh2)] + chunks;
        i := 0;
        pushed := true;
      }
    }

    /** Serves a request from chunk i, which holds it. */
    method Bump(i: nat, req: nat, align: nat) returns (ptr: nat)
      requires align >= 1 && i < |chunks| && Bounded(chunks) && Fits(chunks[i], req, align)
      modifies this
      ensures Bounded(chunks)
      ensures chunks == old(chunks[i := Bumped(chunks[i], req, align)])
      ensures ptr == Start(old(chunks[i]), align)
    {
      var cur := chunks[i];
      ptr := Start(cur, align);
      var realSize := RealSize(cur, req, align);
      chunks := chunks[i := cur.(used := cur.used + realSize)];
    }

    /** Arena::clear: every chunk is released and the head becomes null. */
    method Clear()
      modifies this
      ensures chunks == [] && Valid()
    {
      chunks := [];
    }
  }

  /** allocate's result when chunk i is the first from the head to hold the request. */
  lemma FitServes(cs: seq<Chunk>, i: nat, req: nat, align: nat, memory: nat)
    requires align >= 1 && req != 0 && i < |cs| && i <= FirstFit(cs, req, align) && Fits(cs[i], req, align)
    ensures Allocated(cs, req, align, memory) == cs[i := Bumped(cs[i], req, align)]
    ensures Served(cs, req, align, memory) == Start(cs[i], align)
  {
    assert FirstFit(cs, req, align) == i;
  }

  /** allocate's result when no chunk holds the request and a new one was pushed at the head. */
  lemma PushServes(cs: seq<Chunk>, req: nat, align: nat, memory: nat)
    requires align >= 1 && req != 0 && |cs| >= 1 && FirstFit(cs, req, align) == |cs|
    ensures var c := NewChunkFor(req, align, memory);
            var pushed := [c] + cs;
            && Allocated(cs, req, align, memory) == pushed[0 := Bumped(pushed[0], req, align)]
            && Served(cs, req, align, memory) == Start(pushed[0], align)
  {
    var c := NewChunkFor(req, align, memory);
    assert ([c] + cs)[0 := Bumped(c, req, align)] == [Bumped(c, req, align)] + cs;
  }

  /** The chunk a request is served from, in the list after the request. */
  function ServedIndex(cs: seq<Chunk>, req: nat, align: nat): (j: nat)
    requires align >= 1 && |cs| >= 1
    ensures j < |cs|
  {
    var i := FirstFit(cs, req, align);
    if i < |cs| then i else 0
  }

  /** A non-empty request gets an aligned block inside one chunk, right after what that chunk
   *  had handed out; every other chunk is untouched, and no chunk overflows. */
  lemma AllocateServes(cs: seq<Chunk>, req: nat, align: nat, memory: nat)
    requires align >= 1 && |cs| >= 1 && Bounded(cs) && req > 0
    ensures var after := Allocated(cs, req, align, memory);
            var p := Served(cs, req, align, memory);
            var j := ServedIndex(cs, req, align);
            var before := if FirstFit(cs, req, align) < |cs| then cs[j] else NewChunkFor(req, align, memory);
            && Bounded(after)
            && p % align == 0
            && j < |after| && after[j].memory == before.memory && after[j].capacity == before.capacity
            && before.memory + before.used <= p
            && p + req == after[j].memory + after[j].used
            && after[j].used <= after[j].capacity
            && (forall k :: 0 <= k < |after| && k != j ==> after[k] in cs)
  {
    var i := FirstFit(cs, req, align);
    var after := Allocated(cs, req, align, memory);
    if i < |cs| {
      ServedInside(cs[i], req, align);
    } else {
      var c := NewChunkFor(req, align, memory);
      WorstCaseFits(memory, req, align);
      ServedInside(c, req, align);
      assert forall k :: 1 <= k < |after| ==> after[k] == cs[k - 1];
    }
  }

  /** A request served by allocate lies inside its chunk, aligned, after everything already
   *  handed out from that chunk. */
  lemma ServedInside(c: Chunk, req: nat, align: nat)
    requires align >= 1 && Fits(c, req, align) && c.used <= c.capacity
    ensures Start(c, align) % align == 0
    ensures c.memory + c.used <= Start(c, align)
    ensures Start(c, align) + req == c.memory + Bumped(c, req, align).used
    ensures Bumped(c, req, align).used <= c.capacity
  {
  }
}
