/**
 The bump arena: a fixed buffer, an offset that only grows between resets, and
 blocks handed out at eight-byte boundaries. Sizes are 64-bit unsigned words.
 */
module Arena {

  const WORD := 0x1_0000_0000_0000_0000

  function Padding(offset: nat): nat {
    (8 - offset % 8) % 8
  }

  function RoundUp(n: nat): nat {
    n + Padding(n)
  }

  /** The guard as the source computes it, in 64-bit arithmetic. */
  predicate Accepts(offset: nat, n: nat, capacity: nat) {
    (offset + Padding(offset) + n) % WORD <= capacity
  }

  predicate Fits(offset: nat, n: nat, capacity: nat) {
    offset + Padding(offset) + n <= capacity
  }

  /** The guard is right exactly when the sum does not wrap around to within the capacity. */
  lemma GuardExact(offset: nat, n: nat, capacity: nat)
    requires offset <= capacity < WORD && n < WORD
    ensures (Accepts(offset, n, capacity) <==> Fits(offset, n, capacity))
       <==> (offset + Padding(offset) + n < WORD || (offset + Padding(offset) + n) % WORD > capacity)
  {
  }

  lemma NoWrap(x: nat)
    ensures x < WORD ==> x % WORD == x
  {
  }

  lemma PaddingAligns(offset: nat)
    ensures (offset + Padding(offset)) % 8 == 0 && Padding(offset) < 8
  {
  }

  // ----- histories

  datatype Op = Alloc(size: nat) | Reset

  datatype Outcome = Refusal | Block(start: nat) | Overrun

  datatype Span = Span(start: nat, size: nat)

  /** Sum of the rounded sizes granted since the last reset: a request is granted when it still fits on top. */
  function Taken(capacity: nat, ops: seq<Op>): nat {
    if ops == [] then 0
    else
      var before := Taken(capacity, ops[..|ops| - 1]);
      match ops[|ops| - 1]
      case Reset => 0
      case Alloc(n) => if before + n <= capacity then before + RoundUp(n) else before
  }

  predicate Grants(capacity: nat, ops: seq<Op>, n: nat) {
    Taken(capacity, ops) + n <= capacity
  }

  /** The blocks handed out since the last reset, oldest first. */
  function Blocks(capacity: nat, ops: seq<Op>): seq<Span> {
    if ops == [] then []
    else
      var past := ops[..|ops| - 1];
      match ops[|ops| - 1]
      case Reset => []
      case Alloc(n) =>
        if Grants(capacity, past, n) then Blocks(capacity, past) + [Span(Taken(capacity, past), n)]
        else Blocks(capacity, past)
  }

  /** Aligned, in bounds, below `top`, and each block ends before the next begins. */
  predicate Laid(bs: seq<Span>, capacity: nat, top: nat) {
    && (forall i :: 0 <= i < |bs| ==>
          bs[i].start % 8 == 0 && bs[i].start + bs[i].size <= capacity && bs[i].start + bs[i].size <= top)
    && (forall i, j :: 0 <= i < j < |bs| ==> bs[i].start + bs[i].size <= bs[j].start)
  }

  lemma LaidOnTop(bs: seq<Span>, capacity: nat, top: nat, n: nat)
    requires Laid(bs, capacity, top) && top % 8 == 0 && top + n <= capacity
    ensures Laid(bs + [Span(top, n)], capacity, top + RoundUp(n))
  {
    var bs' := bs + [Span(top, n)];
    forall i | 0 <= i < |bs'|
      ensures bs'[i].start % 8 == 0 && bs'[i].start + bs'[i].size <= capacity && bs'[i].start + bs'[i].size <= top + RoundUp(n)
    {
      assert i < |bs| ==> bs'[i] == bs[i];
    }
    forall i, j | 0 <= i < j < |bs'| ensures bs'[i].start + bs'[i].size <= bs'[j].start {
      assert bs'[i] == bs[i] && (j < |bs| ==> bs'[j] == bs[j]);
    }
  }

  lemma StaysAligned(top: nat, n: nat)
    requires top % 8 == 0
    ensures (top + RoundUp(n)) % 8 == 0
  {
    hide RoundUp;
    RoundUpAligned(n);
    var q, r := top / 8, RoundUp(n) / 8;
    assert top == 8 * q && RoundUp(n) == 8 * r;
    RemainderOf(top + RoundUp(n), q + r, 0);
  }

  lemma RoundUpAligned(n: nat)
    ensures RoundUp(n) % 8 == 0
  {
    PaddingAligns(n);
  }

  /** For every history of requests and resets the live blocks are aligned, in bounds and disjoint. */
  lemma {:induction false} BlocksDisjoint(capacity: nat, ops: seq<Op>)
    ensures Taken(capacity, ops) % 8 == 0 && Laid(Blocks(capacity, ops), capacity, Taken(capacity, ops))
    decreases |ops|
  {
    if ops != [] {
      hide Padding, RoundUp;
      var past := ops[..|ops| - 1];
      BlocksDisjoint(capacity, past);
      match ops[|ops| - 1]
      case Reset =>
      case Alloc(n) =>
        if Grants(capacity, past, n) {
          LaidOnTop(Blocks(capacity, past), capacity, Taken(capacity, past), n);
          StaysAligned(Taken(capacity, past), n);
        }
    }
  }

  lemma TakenAfter(capacity: nat, ops: seq<Op>, op: Op)
    ensures Taken(capacity, ops + [op]) ==
      match op
      case Reset => 0
      case Alloc(n) => Taken(capacity, ops) + if Grants(capacity, ops, n) then RoundUp(n) else 0
  {
    assert (ops + [op])[..|ops + [op]| - 1] == ops;
  }

  class Arena {
    const capacity: nat
    const buffer: array<bv8>
    var offset: nat
    ghost var ops: seq<Op>

    /** The offset, padded, is what the granted requests add up to. */
    ghost predicate Valid()
      reads this
    {
      && buffer.Length == capacity < WORD && offset <= capacity
      && offset + Padding(offset) == Taken(capacity, ops)
    }

    constructor (size: nat)
      requires size < WORD
      ensures Valid() && capacity == size && ops == [] && fresh(buffer)
    {
      capacity := size;
      buffer := new bv8[size];
      offset := 0;
      ops := [];
    }

    method Zero(start: nat, n: nat)
      requires start + n <= buffer.Length
      modifies buffer
      ensures forall i :: start <= i < start + n ==> buffer[i] == 0
      ensures forall i :: 0 <= i < buffer.Length && !(start <= i < start + n) ==> buffer[i] == old(buffer[i])
    {
      forall i | start <= i < start + n {
        buffer[i] := 0;
      }
    }

    /**
     Grants exactly when the request fits on top of what is taken; a refusal
     changes nothing. Where the guard lets through a sum that wrapped around, the
     source writes past its buffer, and nothing is promised of what follows.
     */
    method Alloc(n: nat) returns (r: Outcome)
      requires Valid() && n < WORD
      modifies this, buffer
      ensures r.Overrun? <==> Accepts(old(offset), n, capacity) && !Fits(old(offset), n, capacity)
      ensures !r.Overrun? ==> Valid() && ops == old(ops) + [Op.Alloc(n)]
      ensures !r.Overrun? ==> r == if Grants(capacity, old(ops), n) then Block(Taken(capacity, old(ops))) else Refusal
      ensures r.Refusal? ==> offset == old(offset) && buffer[..] == old(buffer[..])
      ensures r.Block? ==>
        && r.start + n <= capacity
        && (forall i :: r.start <= i < r.start + n ==> buffer[i] == 0)
        && (forall i :: 0 <= i < capacity && !(r.start <= i < r.start + n) ==> buffer[i] == old(buffer[i]))
    {
      hide Taken, Padding, RoundUp;
      var padding := Padding(offset);
      PaddingAligns(offset);
      NoWrap(offset + padding + n);
      if (offset + padding + n) % WORD > capacity {
        TakenAfter(capacity, ops, Op.Alloc(n));
        ops := ops + [Op.Alloc(n)];
        return Refusal;
      }
      if offset + padding + n >= WORD {
        return Overrun;
      }
      offset := offset + padding;
      var start := offset;
      offset := offset + n;
      Zero(start, n);
      TakenAfter(capacity, ops, Op.Alloc(n));
      PaddingOver(start, n);
      ops := ops + [Op.Alloc(n)];
      return Block(start);
    }

    method Clear()
      requires Valid()
      modifies this
      ensures Valid() && offset == 0 && ops == old(ops) + [Reset]
    {
      offset := 0;
      TakenAfter(capacity, ops, Reset);
      ops := ops + [Reset];
    }
  }

  lemma PaddingOver(start: nat, n: nat)
    requires start % 8 == 0
    ensures start + n + Padding(start + n) == start + RoundUp(n)
  {
    RemainderOf(start + n, start / 8 + n / 8, n % 8);
  }

  lemma RemainderOf(a: nat, q: nat, r: nat)
    requires a == 8 * q + r && r < 8
    ensures a % 8 == r
  {
  }
}
