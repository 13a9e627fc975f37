/** The buffer of changes made while a child rewrites the append only file (aof.c): a list of large blocks. */
module RewriteBuffer {
  import opened Bytes

  const BLOCK_SIZE: nat := 1024 * 1024 * 10

  /** aofrwblock. Space is never given back when data is sent, so used and free may fall short of the block. */
  class Block {
    var used: nat
    var free: nat
    const buf: array<byte>

    constructor ()
      ensures Valid() && used == 0 && free == BLOCK_SIZE && fresh(buf)
    {
      used, free := 0, BLOCK_SIZE;
      buf := new byte[BLOCK_SIZE];
    }

    ghost predicate Valid()
      reads this
    {
      buf.Length == BLOCK_SIZE && used + free <= BLOCK_SIZE
    }

    ghost function Data(): bytes
      requires Valid()
      reads this, buf
    {
      buf[..used]
    }

    /** memcpy behind the used part. */
    method Put(s: bytes)
      requires Valid() && |s| <= free
      modifies this`used, this`free, buf
      ensures Valid() && Data() == old(Data()) + s && free == old(free) - |s|
    {
      forall i | 0 <= i < |s| {
        buf[used + i] := s[i];
      }
      used, free := used + |s|, free - |s|;
    }

    /** memmove of what is left to the front of the block. */
    method Drop(n: nat)
      requires Valid() && n <= used
      modifies this`used, buf
      ensures Valid() && Data() == old(Data())[n..]
    {
      forall i | 0 <= i < used - n {
        buf[i] := buf[i + n];
      }
      used := used - n;
    }
  }

  function Flat(parts: seq<bytes>): bytes {
    if parts == [] then [] else Flat(parts[..|parts| - 1]) + parts[|parts| - 1]
  }

  lemma {:induction false} FlatFirst(parts: seq<bytes>)
    requires parts != []
    ensures Flat(parts) == parts[0] + Flat(parts[1..])
  {
    var n := |parts| - 1;
    if n == 0 {
      assert parts[..0] == [] && parts[1..] == [];
    } else {
      var front, tail := parts[..n], parts[1..];
      FlatFirst(front);
      assert front[1..] == tail[..n - 1] && front[0] == parts[0] && tail[n - 1] == parts[n];
      Assoc(parts[0], Flat(front[1..]), parts[n]);
    }
  }

  lemma Advance(before: bytes, s: bytes, done: nat, n: nat)
    requires done + n <= |s|
    ensures (before + s[..done]) + s[done..][..n] == before + s[..done + n]
  {}

  lemma {:induction false} FlatPrefix(parts: seq<bytes>, i: nat)
    requires i < |parts|
    ensures Flat(parts[..i + 1]) == Flat(parts[..i]) + parts[i] && Flat(parts[..i]) + parts[i] <= Flat(parts)
    decreases |parts|
  {
    assert parts[..i + 1][..i] == parts[..i];
    if i + 1 == |parts| {
      assert parts[..i + 1] == parts;
    } else {
      var front := parts[..|parts| - 1];
      FlatPrefix(front, i);
      assert front[..i] == parts[..i] && front[..i + 1] == parts[..i + 1];
    }
  }

  // ---------- what writes take ----------

  /** The parts that hold anything. */
  function NonEmpty(parts: seq<bytes>): (full: seq<bytes>)
    ensures |full| <= |parts| && forall i :: 0 <= i < |full| ==> full[i] != []
  {
    if parts == [] then []
    else NonEmpty(parts[..|parts| - 1]) + if parts[|parts| - 1] == [] then [] else [parts[|parts| - 1]]
  }

  lemma {:induction false} FlatNonEmpty(parts: seq<bytes>)
    ensures Flat(NonEmpty(parts)) == Flat(parts)
  {
    if parts != [] {
      var front, last := parts[..|parts| - 1], parts[|parts| - 1];
      FlatNonEmpty(front);
      if last == [] {
        assert Flat(front) + last == Flat(front) && NonEmpty(front) + [] == NonEmpty(front);
      } else {
        assert (NonEmpty(front) + [last])[..|NonEmpty(front)|] == NonEmpty(front);
      }
    }
  }

  lemma {:induction false} NonEmptyPrefix(parts: seq<bytes>, i: nat)
    requires i < |parts|
    ensures NonEmpty(parts[..i + 1]) == NonEmpty(parts[..i]) + if parts[i] == [] then [] else [parts[i]]
    ensures NonEmpty(parts[..i + 1]) <= NonEmpty(parts)
    decreases |parts|
  {
    assert parts[..i + 1][..i] == parts[..i];
    if i + 1 == |parts| {
      assert parts[..i + 1] == parts;
    } else {
      var front := parts[..|parts| - 1];
      NonEmptyPrefix(front, i);
      assert front[..i] == parts[..i] && front[..i + 1] == parts[..i + 1];
    }
  }

  /** The i-th write takes all of the part it is offered. */
  predicate TakesWhole(results: seq<int>, i: nat, part: bytes) {
    i < |results| && results[i] == |part|
  }

  /** How much of it the i-th write takes otherwise: nothing, if it fails. */
  function Accepted(results: seq<int>, i: nat, part: bytes): (n: nat)
    ensures n <= |part|
  {
    if i < |results| && 0 < results[i] <= |part| then results[i] else 0
  }

  /** The i-th write is the first not to take all it is offered. */
  ghost predicate FailsFirst(full: seq<bytes>, results: seq<int>, i: nat) {
    && i < |full| && !TakesWhole(results, i, full[i])
    && forall j: nat :: j < i ==> TakesWhole(results, j, full[j])
  }

  /** After writing out the first parts: so many writes, each of which took all it was offered. */
  ghost predicate Halfway(parts: seq<bytes>, results: seq<int>, done: nat, writes: nat, written: bytes) {
    && done <= |parts| && written == Flat(parts[..done])
    && writes == |NonEmpty(parts[..done])| && NonEmpty(parts[..done]) <= NonEmpty(parts)
    && forall m: nat :: m < writes ==> TakesWhole(results, m, NonEmpty(parts)[m])
  }

  /** Every write, one for each part that holds anything, takes all of it. */
  ghost predicate WritesWhole(parts: seq<bytes>, results: seq<int>) {
    forall i: nat :: i < |NonEmpty(parts)| ==> TakesWhole(results, i, NonEmpty(parts)[i])
  }

  /** Written are the parts before the i-th that holds anything, and what the write of that one took. */
  ghost predicate CutShort(parts: seq<bytes>, results: seq<int>, i: nat, written: bytes) {
    var full := NonEmpty(parts);
    && FailsFirst(full, results, i)
    && written == Flat(full[..i]) + full[i][..Accepted(results, i, full[i])]
    && written <= Flat(parts)
  }

  /** An empty part is skipped, and what happens with any other depends on the next write alone. */
  lemma NextPart(parts: seq<bytes>, results: seq<int>, i: nat, k: nat, written: bytes)
    requires Halfway(parts, results, i, k, written) && i < |parts|
    ensures written + parts[i] <= Flat(parts)
    ensures parts[i] == [] ==> Halfway(parts, results, i + 1, k, written)
    ensures parts[i] != [] ==> var full := NonEmpty(parts);
      && k < |full| && full[k] == parts[i] && written == Flat(full[..k])
      && (TakesWhole(results, k, parts[i]) ==> Halfway(parts, results, i + 1, k + 1, written + parts[i]))
      && (!TakesWhole(results, k, parts[i]) ==> FailsFirst(full, results, k))
  {
    FlatPrefix(parts, i);
    NonEmptyPrefix(parts, i);
    var full := NonEmpty(parts);
    if parts[i] == [] {
      assert NonEmpty(parts[..i]) + [] == NonEmpty(parts[..i]) && written + parts[i] == written;
    } else {
      FlatNonEmpty(parts[..i]);
      assert full[..k] == NonEmpty(parts[..i]);
      assert full[k] == NonEmpty(parts[..i + 1])[k];
    }
  }

  /** How many bytes go out when each write is offered what is left of the first part, until one takes nothing. */
  function SentBy(parts: seq<bytes>, results: seq<int>): nat
    decreases |results|, |parts|
  {
    if parts == [] then 0
    else if parts[0] == [] then SentBy(parts[1..], results)
    else if results == [] || results[0] <= 0 then 0
    else
      var n := if results[0] < |parts[0]| then results[0] else |parts[0]|;
      n + SentBy(parts[0 := parts[0][n..]], results[1..])
  }

  /** Every write that takes something is followed by another, until there is nothing left. */
  lemma {:induction false} EveryWriteCounts(parts: seq<bytes>, results: seq<int>)
    ensures SentBy(parts, results) <= |Flat(parts)|
    ensures (forall i :: 0 <= i < |results| ==> results[i] > 0) ==>
      SentBy(parts, results) >= |results| || SentBy(parts, results) == |Flat(parts)|
    decreases |results|, |parts|
  {
    if parts != [] {
      FlatFirst(parts);
      if parts[0] == [] {
        EveryWriteCounts(parts[1..], results);
      } else if results != [] && results[0] > 0 {
        var n := if results[0] < |parts[0]| then results[0] else |parts[0]|;
        FlatDropped(parts, n);
        EveryWriteCounts(parts[0 := parts[0][n..]], results[1..]);
      }
    }
  }

  /** Enough writes, each of which could take a whole block, empty the buffer. */
  lemma {:induction false} EnoughWritesEmpty(parts: seq<bytes>, results: seq<int>)
    requires |results| >= |parts|
    requires forall i :: 0 <= i < |parts| ==> |parts[i]| <= BLOCK_SIZE
    requires forall i :: 0 <= i < |results| ==> results[i] >= BLOCK_SIZE
    ensures SentBy(parts, results) == |Flat(parts)|
    decreases |parts|
  {
    if parts != [] {
      FlatFirst(parts);
      if parts[0] == [] {
        EnoughWritesEmpty(parts[1..], results);
      } else {
        var rest := parts[0 := parts[0][|parts[0]|..]];
        assert rest[0] == [] && rest[1..] == parts[1..];
        EnoughWritesEmpty(parts[1..], results[1..]);
      }
    }
  }

  lemma FlatDropped(parts: seq<bytes>, n: nat)
    requires parts != [] && n <= |parts[0]|
    ensures parts[0][..n] + Flat(parts[0 := parts[0][n..]]) == Flat(parts)
  {
    var part, less := parts[0], parts[0 := parts[0][n..]];
    FlatFirst(parts);
    FlatFirst(less);
    assert less[1..] == parts[1..] && part[..n] + part[n..] == part;
    Assoc(part[..n], part[n..], Flat(parts[1..]));
  }

  class Buffer {
    var blocks: seq<Block>
    ghost var Parts: seq<bytes>
    ghost var Repr: set<object>

    constructor ()
      ensures Valid() && Contents() == [] && fresh(Repr)
    {
      blocks, Parts, Repr := [], [], {};
    }

    ghost predicate Valid()
      reads this, Repr
    {
      && this !in Repr && |Parts| == |blocks|
      && (forall i :: 0 <= i < |blocks| ==> blocks[i] in Repr && blocks[i].buf in Repr)
      && (forall i :: 0 <= i < |blocks| ==> blocks[i].Valid() && blocks[i].Data() == Parts[i])
      && (forall i, k :: 0 <= i < k < |blocks| ==> blocks[i] != blocks[k] && blocks[i].buf != blocks[k].buf)
    }

    /** Everything appended and not yet sent. */
    ghost function Contents(): bytes
      reads this
    {
      Flat(Parts)
    }

    /** Copying into the last block, as much as fits. */
    method FillLast(s: bytes) returns (n: nat)
      requires Valid() && blocks != []
      modifies this`Parts, Repr
      ensures Valid() && n == (if old(blocks[|blocks| - 1].free) < |s| then old(blocks[|blocks| - 1].free) else |s|)
      ensures Contents() == old(Contents()) + s[..n]
    {
      var last := |blocks| - 1;
      var block := blocks[last];
      n := if block.free < |s| then block.free else |s|;
      if n > 0 { block.Put(s[..n]); }
      Parts := Parts[last := Parts[last] + s[..n]];
      assert Parts[..last] == old(Parts)[..last];
    }

    method AddBlock()
      requires Valid()
      modifies this
      ensures Valid() && Contents() == old(Contents()) && fresh(Repr - old(Repr))
      ensures blocks != [] && blocks[|blocks| - 1].free == BLOCK_SIZE
    {
      var block := new Block();
      blocks := blocks + [block];
      Parts := Parts + [[]];
      Repr := Repr + {block, block.buf};
      assert Parts[..|Parts| - 1] == old(Parts);
    }

    /** A new block, and as much as fits copied into it. */
    method FillNew(s: bytes) returns (n: nat)
      requires Valid() && s != []
      modifies this, Repr
      ensures Valid() && 0 < n <= |s| && Contents() == old(Contents()) + s[..n] && fresh(Repr - old(Repr))
    {
      AddBlock();
      n := FillLast(s);
    }

    /** One turn of the loop in Append, in a new block. */
    method AppendMore(s: bytes, done: nat, ghost before: bytes) returns (now: nat)
      requires Valid() && done < |s| && Contents() == before + s[..done]
      modifies this, Repr
      ensures Valid() && done < now <= |s| && Contents() == before + s[..now] && fresh(Repr - old(Repr))
    {
      var n := FillNew(s[done..]);
      Advance(before, s, done, n);
      now := done + n;
    }

    /** aofRewriteBufferAppend */
    method Append(s: bytes)
      requires Valid()
      modifies this, Repr
      ensures Valid() && Contents() == old(Contents()) + s && fresh(Repr - old(Repr))
    {
      var done := 0;
      if blocks != [] {
        done := FillLast(s);
      }
      ghost var before := old(Contents());
      while done < |s|
        invariant 0 <= done <= |s| && Valid() && Contents() == before + s[..done]
        invariant fresh(Repr - old(Repr))
      {
        done := AppendMore(s, done, before);
      }
      assert s[..|s|] == s;
    }

    /** What one write to the pipe took is dropped from the first block. */
    method DropFromFirst(n: nat)
      requires Valid() && blocks != [] && n <= blocks[0].used
      modifies this`Parts, Repr
      ensures Valid() && old(Parts[0])[..n] + Contents() == old(Contents())
      ensures Parts == old(Parts)[0 := old(Parts[0])[n..]] && blocks == old(blocks)
      ensures blocks[0].used == old(blocks[0].used) - n
    {
      FlatDropped(Parts, n);
      blocks[0].Drop(n);
      Parts := Parts[0 := Parts[0][n..]];
    }

    method RemoveEmptyFirst()
      requires Valid() && blocks != [] && blocks[0].used == 0
      modifies this`blocks, this`Parts
      ensures Valid() && Contents() == old(Contents()) && |blocks| < |old(blocks)|
      ensures old(Parts[0]) == [] && Parts == old(Parts)[1..]
    {
      FlatFirst(Parts);
      assert Parts[0] == [];
      blocks, Parts := blocks[1..], Parts[1..];
    }

    /** One write to the pipe, of the first block; a block left empty is removed. */
    method SendFirst(result: int, ghost later: seq<int>) returns (taken: bytes)
      requires Valid() && blocks != [] && blocks[0].used > 0 && result > 0
      modifies this`blocks, this`Parts, Repr
      ensures Valid() && taken + Contents() == old(Contents()) && taken != []
      ensures old(SentBy(Parts, [result] + later)) == |taken| + SentBy(Parts, later)
    {
      var block := blocks[0];
      var n: nat := if result < block.used then result else block.used;
      taken := block.buf[..n];
      assert taken == Parts[0][..n];
      assert ([result] + later)[1..] == later;
      DropFromFirst(n);
      if block.used == 0 {
        RemoveEmptyFirst();
      }
    }

    /**
     aofChildWriteDiffData, given what successive writes to the pipe return; a
     write takes no more than it is offered. What is sent is what is no longer
     in the buffer. The handler uninstalls itself when told to stop or with
     nothing left to send.
     */
    method ChildWriteDiffData(stop: bool, results: seq<int>) returns (sent: bytes, uninstalled: bool)
      requires Valid()
      modifies this`blocks, this`Parts, Repr
      ensures Valid() && sent + Contents() == old(Contents())
      ensures stop ==> sent == [] && uninstalled
      ensures !stop ==> |sent| == old(SentBy(Parts, results))
      ensures uninstalled <==> stop || Contents() == []
    {
      sent := [];
      var k := 0;
      while true
        invariant Valid() && k <= |results| && sent + Contents() == old(Contents())
        invariant stop ==> sent == []
        invariant !stop ==> |sent| + SentBy(Parts, results[k..]) == old(SentBy(Parts, results))
        decreases |results| - k, |blocks|
      {
        if stop || blocks == [] { return sent, true; }
        if blocks[0].used > 0 {
          if k == |results| || results[k] <= 0 {
            FlatFirst(Parts);
            return sent, false;
          }
          assert results[k..] == [results[k]] + results[k + 1..];
          var taken := SendFirst(results[k], results[k + 1..]);
          sent, k := sent + taken, k + 1;
        } else {
          RemoveEmptyFirst();
        }
      }
    }

    /** One turn of the loop in Write. */
    method WriteBlock(results: seq<int>, i: nat, k: nat, written: bytes) returns (ok: bool, writes: nat, now: bytes)
      requires Valid() && i < |blocks| && Halfway(Parts, results, i, k, written)
      ensures ok ==> Halfway(Parts, results, i + 1, writes, now)
      ensures !ok ==> CutShort(Parts, results, k, now)
    {
      NextPart(Parts, results, i, k, written);
      var block := blocks[i];
      if block.used == 0 { return true, k, written; }
      var n := if k < |results| then results[k] else -1;
      if n == block.used { return true, k + 1, written + block.buf[..block.used]; }
      return false, k, if 0 < n < block.used then written + block.buf[..n] else written;
    }

    /**
     aofRewriteBufferWrite, given what the write of each non-empty block
     returns. It succeeds exactly if every one took all it was offered, and
     stops at the first that did not.
     */
    method Write(results: seq<int>) returns (ok: bool, written: bytes)
      requires Valid()
      ensures ok <==> WritesWhole(Parts, results)
      ensures ok ==> written == Contents()
      ensures !ok ==> exists i: nat :: CutShort(Parts, results, i, written)
    {
      written := [];
      var k: nat := 0;
      for i := 0 to |blocks|
        invariant Halfway(Parts, results, i, k, written)
      {
        ok, k, written := WriteBlock(results, i, k, written);
        if !ok { return; }
      }
      assert Parts[..|blocks|] == Parts;
      ok := true;
    }

    /** aofRewriteBufferSize */
    method Size() returns (size: nat)
      requires Valid()
      ensures size == |Contents()|
    {
      size := 0;
      for i := 0 to |blocks|
        invariant size == |Flat(Parts[..i])|
      {
        FlatPrefix(Parts, i);
        size := size + blocks[i].used;
      }
      assert Parts[..|blocks|] == Parts;
    }
  }
}
