/**
 The chunked byte buffer of a connection: a list of blocks filled one after the other, with
 a read position in the first one.  It is shown to behave as one flat sequence of bytes.
 */
module Buffer {

  /** Bytes are characters; `size` of the program is the length of `data`. */
  type Bytes = seq<char>

  datatype Block = Block(data: Bytes, capacity: nat)

  const INITIAL_BLOCK_SIZE: nat := 2048
  const MAX_BLOCK_SIZE: nat := 64 * 1024

  function Min(a: nat, b: nat): nat { if a < b then a else b }
  function Max(a: nat, b: nat): nat { if a < b then b else a }

  /** All bytes of the blocks, in order. */
  ghost function Flat(blocks: seq<Block>): Bytes {
    if blocks == [] then [] else blocks[0].data + Flat(blocks[1..])
  }

  lemma {:induction false} FlatSnoc(blocks: seq<Block>, b: Block)
    ensures Flat(blocks + [b]) == Flat(blocks) + b.data
  {
    if blocks == [] {
      assert blocks + [b] == [b];
      assert [b][1..] == [];
    } else {
      assert (blocks + [b])[1..] == blocks[1..] + [b];
      FlatSnoc(blocks[1..], b);
    }
  }

  lemma FlatGrowLast(blocks: seq<Block>, chunk: Bytes)
    requires blocks != []
    ensures
      var n := |blocks| - 1;
      Flat(blocks[n := blocks[n].(data := blocks[n].data + chunk)]) == Flat(blocks) + chunk
  {
    var n := |blocks| - 1;
    var last := blocks[n].(data := blocks[n].data + chunk);
    assert blocks == blocks[..n] + [blocks[n]];
    assert blocks[n := last] == blocks[..n] + [last];
    FlatSnoc(blocks[..n], blocks[n]);
    FlatSnoc(blocks[..n], last);
  }

  lemma DropTwice(s: Bytes, i: nat, j: nat, rest: Bytes)
    requires i <= |s| && rest == s[i..]
    ensures j <= |rest| ==> i + j <= |s| && rest[j..] == s[i + j..]
  {
  }

  lemma TakeMore(s: Bytes, i: nat, k: nat, rest: Bytes)
    requires i <= |s| && rest == s[i..] && k <= |rest|
    ensures s[..i] + rest[..k] == s[..i + k]
  {
  }

  lemma AppendMore(front: Bytes, data: Bytes, i: nat, k: nat)
    requires i + k <= |data|
    ensures front + data[..i] + data[i..i + k] == front + data[..i + k]
  {
  }

  /** The unread part of the first block comes first. */
  lemma FrontIsPrefix(blocks: seq<Block>, readPos: nat, k: nat)
    requires blocks != [] && readPos + k <= |blocks[0].data|
    ensures readPos + k <= |Flat(blocks)|
    ensures Flat(blocks)[readPos..][..k] == blocks[0].data[readPos..readPos + k]
  {
    assert Flat(blocks) == blocks[0].data + Flat(blocks[1..]);
  }

  lemma FlatFrom(blocks: seq<Block>, i: nat)
    requires i < |blocks|
    ensures Flat(blocks[i..]) == blocks[i].data + Flat(blocks[i + 1..])
  {
    assert blocks[i..][1..] == blocks[i + 1..];
  }

  lemma PeekStep(blocks: seq<Block>, i: nat, pos: nat, all: Bytes, copied: nat, k: nat)
    requires i < |blocks| && copied <= |all| && pos + k <= |blocks[i].data|
    requires pos <= |Flat(blocks[i..])| && Flat(blocks[i..])[pos..] == all[copied..]
    ensures copied + k <= |all| && all[..copied] + blocks[i].data[pos..pos + k] == all[..copied + k]
    ensures pos + k == |blocks[i].data| ==> Flat(blocks[i + 1..])[0..] == all[copied + k..]
  {
    FlatFrom(blocks, i);
    var rest := all[copied..];
    assert rest[..k] == blocks[i].data[pos..pos + k];
    TakeMore(all, copied, k, rest);
    DropTwice(all, copied, k, rest);
    assert pos + k == |blocks[i].data| ==> rest[k..] == Flat(blocks[i + 1..]);
  }

  /** The bytes an I/O vector names. */
  ghost function Join(iovs: seq<Bytes>): Bytes {
    if iovs == [] then [] else iovs[0] + Join(iovs[1..])
  }

  lemma {:induction false} JoinSnoc(iovs: seq<Bytes>, v: Bytes)
    ensures Join(iovs + [v]) == Join(iovs) + v
  {
    if iovs == [] {
      assert iovs + [v] == [v];
      assert [v][1..] == [];
    } else {
      assert (iovs + [v])[1..] == iovs[1..] + [v];
      JoinSnoc(iovs[1..], v);
    }
  }

  /** The unread parts of the blocks, without the empty ones. */
  ghost function Parts(blocks: seq<Block>, pos: nat): seq<Bytes>
    requires blocks != [] ==> pos <= |blocks[0].data|
  {
    if blocks == [] then []
    else (if pos < |blocks[0].data| then [blocks[0].data[pos..]] else []) + Parts(blocks[1..], 0)
  }

  lemma PartsFrom(blocks: seq<Block>, i: nat, pos: nat, iovs: seq<Bytes>)
    requires i < |blocks| && pos <= |blocks[i].data|
    ensures
      var more := if pos < |blocks[i].data| then iovs + [blocks[i].data[pos..]] else iovs;
      iovs + Parts(blocks[i..], pos) == more + Parts(blocks[i + 1..], 0)
  {
    assert blocks[i..][1..] == blocks[i + 1..];
  }

  /** The parts hold every byte that can be read, and none of them is empty. */
  lemma {:induction false} PartsAreContents(blocks: seq<Block>, pos: nat)
    requires if blocks == [] then pos == 0 else pos <= |blocks[0].data|
    ensures pos <= |Flat(blocks)| && Join(Parts(blocks, pos)) == Flat(blocks)[pos..]
    ensures forall k :: 0 <= k < |Parts(blocks, pos)| ==> Parts(blocks, pos)[k] != []
    decreases |blocks|
  {
    if blocks != [] {
      PartsAreContents(blocks[1..], 0);
      var first, rest := blocks[0].data, Parts(blocks[1..], 0);
      assert Flat(blocks)[pos..] == first[pos..] + Flat(blocks[1..]);
      if pos < |first| {
        assert ([first[pos..]] + rest)[1..] == rest;
      } else {
        assert [] + rest == rest;
      }
    }
  }

  lemma {:induction false} JoinInParts(a: seq<Bytes>, b: seq<Bytes>)
    ensures Join(a + b) == Join(a) + Join(b)
    decreases |a|
  {
    if a == [] {
      assert a + b == b;
    } else {
      assert (a + b)[1..] == a[1..] + b;
      JoinInParts(a[1..], b);
    }
  }

  lemma NoParts()
    ensures Parts([], 0) == []
  {
  }

  lemma FirstParts(all: seq<Bytes>, max: nat)
    ensures
      var first := all[..Min(max, |all|)];
      && Join(first) <= Join(all)
      && (|first| < max || |all| <= max ==> first == all)
      && ((forall k :: 0 <= k < |all| ==> all[k] != []) ==> (first == [] <==> Join(all) == [] || max == 0))
  {
    var n := Min(max, |all|);
    assert all == all[..n] + all[n..];
    JoinInParts(all[..n], all[n..]);
  }

  lemma NothingIsEmpty()
    ensures Flat([]) == [] && Join([]) == []
  {
  }

  /** The last blocks of the list: those that are left when others were read and dropped. */
  ghost predicate IsTail(blocks: seq<Block>, all: seq<Block>) {
    |blocks| <= |all| && blocks == all[|all| - |blocks|..]
  }

  lemma TailOfItself(blocks: seq<Block>)
    ensures IsTail(blocks, blocks)
  {
  }

  lemma TailOfTail(a: seq<Block>, b: seq<Block>, c: seq<Block>)
    requires IsTail(a, b) && IsTail(b, c)
    ensures IsTail(a, c)
  {
  }

  /** Blocks are filled one after the other: only the last one may have room. */
  ghost predicate Filled(blocks: seq<Block>) {
    && (forall k :: 0 <= k < |blocks| ==> |blocks[k].data| <= blocks[k].capacity && 0 < blocks[k].capacity)
    && (forall k :: 0 <= k < |blocks| - 1 ==> |blocks[k].data| == blocks[k].capacity)
  }

  lemma LastIsFilled(blocks: seq<Block>)
    requires Filled(blocks) && blocks != []
    ensures var last := blocks[|blocks| - 1]; |last.data| <= last.capacity && 0 < last.capacity
  {
  }

  lemma FirstIsRead(blocks: seq<Block>)
    requires blocks != [] && Filled(blocks)
    ensures Filled(blocks[1..]) && IsTail(blocks[1..], blocks)
    ensures |blocks[0].data| <= |Flat(blocks)| && Flat(blocks)[|blocks[0].data|..] == Flat(blocks[1..])
  {
    assert Flat(blocks) == blocks[0].data + Flat(blocks[1..]);
  }

  /** An append of n bytes adds a block exactly if the last one has no room for all of them. */
  ghost predicate Grown(before: seq<Block>, blocks: seq<Block>, n: nat)
    requires before != []
  {
    var last := before[|before| - 1];
    && (forall k :: 0 <= k < |before| ==> k < |blocks| && blocks[k].capacity == before[k].capacity)
    && if |last.data| + n <= last.capacity then |blocks| == |before|
       else |blocks| == |before| + 1 && blocks[|before|].capacity == Max(Min(2 * last.capacity, 65536), n)
  }

  class BufferBlock {
    var blocks: seq<Block>
    var totalSize: nat
    var readPos: nat
    var writePos: nat
    var checkPos: nat

    /** The blocks and positions fit together; the size may still have to be brought up to date. */
    ghost predicate Shaped()
      reads this
    {
      && Filled(blocks)
      && (if blocks == [] then readPos == 0
          else readPos <= |blocks[0].data| && writePos == |blocks[|blocks| - 1].data|)
    }

    ghost predicate Valid()
      reads this
    {
      Shaped() && totalSize == |Flat(blocks)| - readPos && checkPos == readPos
    }

    /** The bytes that can be read. */
    ghost function Contents(): Bytes
      reads this
      requires Shaped()
    {
      Flat(blocks)[readPos..]
    }

    constructor ()
      ensures Valid() && Contents() == [] && blocks == [Block([], 2048)]
    {
      blocks := [Block([], INITIAL_BLOCK_SIZE)];
      totalSize, readPos, writePos, checkPos := 0, 0, 0, 0;
    }

    /** A new, empty last block; the one before it must be full. */
    method AddBlock(capacity: nat)
      requires Valid() && 0 < capacity
      requires blocks != [] ==> writePos == blocks[|blocks| - 1].capacity
      modifies this`blocks, this`writePos
      ensures Valid() && Contents() == old(Contents())
      ensures blocks == old(blocks) + [Block([], capacity)] && writePos == 0
    {
      FlatSnoc(blocks, Block([], capacity));
      blocks := blocks + [Block([], capacity)];
      writePos := 0;
    }

    /** The copy of a chunk into the room of the last block. */
    method Write(chunk: Bytes)
      requires Valid() && blocks != [] && writePos + |chunk| <= blocks[|blocks| - 1].capacity
      modifies this
      ensures Valid() && Contents() == old(Contents()) + chunk
      ensures
        var n := |old(blocks)| - 1;
        blocks == old(blocks)[n := old(blocks)[n].(data := old(blocks)[n].data + chunk)]
    {
      var n := |blocks| - 1;
      FlatGrowLast(blocks, chunk);
      blocks := blocks[n := blocks[n].(data := blocks[n].data + chunk)];
      writePos := writePos + |chunk|;
      totalSize := totalSize + |chunk|;
    }

    /** One round of the loop of `append`: into the room of the last block, or all that is left into a new one. */
    method AppendPart(data: Bytes, src: nat) returns (n: nat)
      requires Valid() && blocks != [] && src < |data|
      modifies this
      ensures Valid() && 0 < n <= |data| - src && Contents() == old(Contents()) + data[src..src + n]
      ensures
        var last := |old(blocks)| - 1;
        var room := old(blocks)[last].capacity - |old(blocks)[last].data|;
        && (forall k :: 0 <= k <= last ==> k < |blocks| && blocks[k].capacity == old(blocks)[k].capacity)
        && if room > 0 then
             && n == Min(|data| - src, room) && |blocks| == last + 1
             && |blocks[last].data| == |old(blocks)[last].data| + n
           else
             && n == |data| - src && |blocks| == last + 2
             && blocks[last + 1].capacity == Max(Min(2 * old(blocks)[last].capacity, 65536), |data|)
    {
      hide Flat, Filled;
      LastIsFilled(blocks);
      var current := blocks[|blocks| - 1];
      var available := current.capacity - writePos;
      if available == 0 {
        available := Max(Min(current.capacity * 2, MAX_BLOCK_SIZE), |data|);
        AddBlock(available);
      }
      n := Min(|data| - src, available);
      Write(data[src..src + n]);
    }

    /**
     Appends, with a new block if the last one has no room for all of it: twice the capacity of
     that one up to 64 KB, or as much as is appended if that is more.
     */
    method Append(data: Bytes)
      requires Valid()
      modifies this
      ensures Valid() && Contents() == old(Contents()) + data
      ensures data == [] ==> blocks == old(blocks)
      ensures data != [] ==> Grown(if old(blocks) == [] then [Block([], 2048)] else old(blocks), blocks, |data|)
    {
      hide Flat, Filled;
      if |data| == 0 { return; }
      if blocks == [] {
        AddBlock(INITIAL_BLOCK_SIZE);
      }
      ghost var contents0, before := Contents(), blocks;
      var src := 0;
      while src < |data|
        invariant src <= |data| && Valid() && Contents() == contents0 + data[..src]
        invariant |before| <= |blocks| <= |before| + 1
        invariant forall k :: 0 <= k < |before| ==> blocks[k].capacity == before[k].capacity
        invariant |blocks| == |before| ==> |blocks[|before| - 1].data| == |before[|before| - 1].data| + src
        invariant |blocks| > |before| ==> src == |data| && Grown(before, blocks, |data|)
      {
        var n := AppendPart(data, src);
        AppendMore(contents0, data, src, n);
        src := src + n;
      }
      LastIsFilled(blocks);
    }

    method ReadableBytes() returns (n: nat)
      requires Valid()
      ensures n == |Contents()|
    {
      n := totalSize;
    }

    method Clear()
      modifies this
      ensures Valid() && Contents() == [] && blocks == [Block([], 2048)]
    {
      blocks := [Block([], INITIAL_BLOCK_SIZE)];
      totalSize, readPos, writePos, checkPos := 0, 0, 0, 0;
    }

    /** Moves the read position over k bytes of the first block, and drops the block once it is read. */
    method Advance(k: nat)
      requires Shaped() && blocks != [] && k <= |blocks[0].data| - readPos
      modifies this`blocks, this`readPos
      ensures Shaped() && k <= |old(Contents())| && Contents() == old(Contents())[k..]
      ensures |blocks| < old(|blocks|) || (blocks == old(blocks) && k < |blocks[0].data| - old(readPos))
      ensures IsTail(blocks, old(blocks))
    {
      hide Flat, Filled, IsTail;
      FirstIsRead(blocks);
      TailOfItself(blocks);
      DropTwice(Flat(blocks), readPos, k, Contents());
      readPos := readPos + k;
      if readPos == |blocks[0].data| {
        blocks := blocks[1..];
        readPos := 0;
        assert Flat(blocks)[0..] == Flat(blocks);
      }
    }

    /** The loop of `consumeBytes`: moves over `size` bytes, or over all there are. */
    method Skip(size: nat) returns (consumed: nat)
      requires Shaped()
      modifies this`blocks, this`readPos
      ensures Shaped() && consumed == Min(size, |old(Contents())|)
      ensures Contents() == old(Contents())[consumed..] && IsTail(blocks, old(blocks))
    {
      hide Flat, IsTail, Filled;
      NothingIsEmpty();
      TailOfItself(blocks);
      ghost var contents0 := Contents();
      consumed := 0;
      while consumed < size && blocks != []
        invariant Shaped() && consumed <= size && consumed + |Contents()| == |contents0|
        invariant Contents() == contents0[consumed..] && IsTail(blocks, old(blocks))
        decreases |blocks|, size - consumed
      {
        var available := |blocks[0].data| - readPos;
        var toConsume := Min(size - consumed, available);
        DropTwice(contents0, consumed, toConsume, Contents());
        ghost var before := blocks;
        Advance(toConsume);
        TailOfTail(blocks, before, old(blocks));
        consumed := consumed + toConsume;
      }
    }

    method ConsumeBytes(size: nat)
      requires Valid()
      modifies this
      ensures Valid() && Contents() == old(Contents())[Min(size, |old(Contents())|)..]
      ensures IsTail(blocks, old(blocks)) && writePos == old(writePos)
    {
      if size == 0 { return; }
      var consumed := Skip(size);
      totalSize := totalSize - consumed;
      checkPos := readPos;
    }

    method ReadBytes(n: nat) returns (dest: Bytes)
      requires Valid() && n <= |Contents()|
      modifies this
      ensures Valid() && dest == old(Contents())[..n] && Contents() == old(Contents())[n..]
    {
      dest := [];
      if n == 0 { return; }
      dest := Take(n);
      totalSize := totalSize - n;
      checkPos := readPos;
    }

    /** The loop of `readBytes`. */
    method Take(n: nat) returns (dest: Bytes)
      requires Shaped() && n <= |Contents()|
      modifies this`blocks, this`readPos
      ensures Shaped() && dest == old(Contents())[..n] && Contents() == old(Contents())[n..]
    {
      hide Flat, IsTail;
      NothingIsEmpty();
      ghost var contents0 := Contents();
      dest := [];
      while |dest| < n
        invariant Shaped() && |dest| <= n
        invariant dest == contents0[..|dest|] && Contents() == contents0[|dest|..]
        decreases |blocks|, n - |dest|
      {
        var current := blocks[0];
        var available := |current.data| - readPos;
        var toCopy := Min(n - |dest|, available);
        FrontIsPrefix(blocks, readPos, toCopy);
        DropTwice(contents0, |dest|, toCopy, Contents());
        TakeMore(contents0, |dest|, toCopy, Contents());
        dest := dest + current.data[readPos..readPos + toCopy];
        Advance(toCopy);
      }
    }

    /** `erase`; a length that is not positive or too large is ignored. */
    method Erase(len: int)
      requires Valid()
      modifies this
      ensures Valid()
      ensures Contents() == if 0 < len <= |old(Contents())| then old(Contents())[len..] else old(Contents())
    {
      if len <= 0 || len > totalSize { return; }
      if len == totalSize {
        Clear();
        return;
      }
      Drop(len);
      totalSize := totalSize - len;
      checkPos := readPos;
    }

    /** The loop of `erase`: whole blocks first, then a part of the next one. */
    method Drop(len: nat)
      requires Shaped() && len < |Contents()|
      modifies this`blocks, this`readPos
      ensures Shaped() && Contents() == old(Contents())[len..]
    {
      hide Flat, IsTail, Filled;
      NothingIsEmpty();
      ghost var contents0 := Contents();
      var length := len;
      while length > 0 && blocks != []
        invariant Shaped() && 0 <= length <= len && Contents() == contents0[len - length..]
        decreases |blocks|
      {
        var available := |blocks[0].data| - readPos;
        FrontIsPrefix(blocks, readPos, available);
        DropTwice(contents0, len - length, Min(length, available), Contents());
        if available <= length {
          Advance(available);
          length := length - available;
        } else {
          Advance(length);
          length := 0;
          break;
        }
      }
    }

    // ----- Readers that leave the buffer as it is -----

    /** `peekFromBlock`: the first n bytes, or nothing if there are fewer. */
    method PeekFromBlock(n: nat) returns (dest: Bytes)
      requires Valid()
      ensures dest == if n <= |Contents()| then Contents()[..n] else []
    {
      hide Flat;
      dest := [];
      NothingIsEmpty();
      if n == 0 || totalSize < n { return; }
      var index, tmpReadPos := 0, readPos;
      ghost var all := Contents();
      assert blocks[0..] == blocks;
      while index < |blocks|
        invariant index <= |blocks| && |dest| <= n
        invariant tmpReadPos == (if index == 0 then readPos else 0)
        invariant dest == all[..|dest|]
        invariant |dest| < n ==>
          tmpReadPos <= |Flat(blocks[index..])| && Flat(blocks[index..])[tmpReadPos..] == all[|dest|..]
      {
        if |dest| >= n { break; }
        var block := blocks[index];
        var available := |block.data| - tmpReadPos;
        var toCopy := Min(n - |dest|, available);
        PeekStep(blocks, index, tmpReadPos, all, |dest|, toCopy);
        dest := dest + block.data[tmpReadPos..tmpReadPos + toCopy];
        tmpReadPos := 0;
        index := index + 1;
      }
    }

    method BufferToString() returns (str: Bytes)
      requires Valid()
      ensures str == Contents()
    {
      str := PeekFromBlock(totalSize);
    }

    /** `getIOVecs`: the first `maxCount` unread parts of the blocks, or all of them. */
    method GetIOVecs(maxCount: nat) returns (iovs: seq<Bytes>)
      requires Valid()
      ensures iovs == Parts(blocks, readPos)[..Min(maxCount, |Parts(blocks, readPos)|)]
      ensures |iovs| <= maxCount && Join(iovs) <= Contents()
      ensures forall k :: 0 <= k < |iovs| ==> iovs[k] != []
      ensures iovs == [] <==> Contents() == [] || maxCount == 0
      ensures |iovs| < maxCount ==> Join(iovs) == Contents()
    {
      hide Flat, Parts;
      iovs := [];
      ghost var all := Parts(blocks, readPos);
      PartsAreContents(blocks, readPos);
      FirstParts(all, maxCount);
      NoParts();
      if blocks == [] || maxCount == 0 { return; }
      var index, tmpReadPos := 0, readPos;
      assert blocks[0..] == blocks;
      while index < |blocks|
        invariant index <= |blocks| && |iovs| <= maxCount
        invariant tmpReadPos == (if index == 0 then readPos else 0)
        invariant iovs + Parts(blocks[index..], tmpReadPos) == all
      {
        if |iovs| >= maxCount { break; }
        var block := blocks[index];
        var available := |block.data| - tmpReadPos;
        PartsFrom(blocks, index, tmpReadPos, iovs);
        if available > 0 {
          iovs := iovs + [block.data[tmpReadPos..]];
        }
        tmpReadPos := 0;
        index := index + 1;
      }
      assert index == |blocks| ==> blocks[index..] == [];
    }
  }
}
