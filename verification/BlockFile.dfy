/**
 * The append-only block file and its indices: addBlock of src/storage/add_block_implementation.js, read back
 * through getBlockByHeight and getBlockByHash of src/storage/blockchain_store.js.
 */
module BlockFile {
  import opened Wrappers

  datatype Block = Block(height: Option<int>, hash: Id, body: string)

  /** Serialisation with compression, and what reading it back gives; reading may fail. */
  datatype Codec = Codec(encode: Block -> Bytes, decode: Bytes -> Option<Block>) {
    ghost predicate Inverse() {
      forall b: Block :: decode(encode(b)) == Some(b)
    }

    /** No other byte string of the same length decodes to the block. */
    ghost predicate Canonical() {
      forall x: Bytes, b: Block :: |x| == |encode(b)| && decode(x) == Some(b) ==> x == encode(b)
    }
  }

  datatype Range = Range(position: nat, size: nat)

  /** How a file write ends: either way a number of bytes has reached the file. */
  datatype Write = Wrote(count: nat) | Failed(count: nat)

  /** One call: the block, how its write ends, and whether the bookkeeping after the indices throws. */
  datatype Call = Call(block: Option<Block>, write: Write, laterThrows: bool)

  datatype Result = Refused | Added | Threw

  datatype Store = Store(
    file: Bytes, blockIndex: map<int, Range>, hashIndex: map<Id, int>,
    filePosition: nat, currentHeight: int, currentHash: Id)

  const INITIAL: Store := Store([], map[], map[], 0, -1, Absent)

  function Zeros(n: nat): Bytes { seq(n, _ => 0) }

  /** The first count bytes of data written over the file at a position; a gap reads as zeros. */
  function Overwrite(file: Bytes, position: nat, data: Bytes, count: nat): Bytes {
    var d := if count < |data| then data[..count] else data;
    if d == [] then file
    else if |file| < position then file + Zeros(position - |file|) + d
    else file[..position] + d + if position + |d| < |file| then file[position + |d|..] else []
  }

  predicate Accepts(s: Store, c: Call) {
    && c.block.Some? && c.block.value.hash.Id?
    && c.block.value.height == Some(s.currentHeight + 1)
  }

  /** addBlock: a failed write leaves the indices alone; a later throw does not undo them. */
  function AfterAdd(codec: Codec, s: Store, c: Call): Store {
    if !Accepts(s, c) then s
    else
      var b := c.block.value;
      var data := codec.encode(b);
      var file := Overwrite(s.file, s.filePosition, data, c.write.count);
      if c.write.Failed? then s.(file := file)
      else
        Store(file, s.blockIndex[b.height.value := Range(s.filePosition, |data|)], s.hashIndex[b.hash := b.height.value],
              s.filePosition + |data|, b.height.value, b.hash)
  }

  /** The byte a read delivers at an offset; the buffer is zeroed, so past the end of the file it is 0. */
  function ByteAt(file: Bytes, offset: nat): Byte {
    if offset < |file| then file[offset] else 0
  }

  /** A read fills a zeroed buffer with what the file has of the range. */
  function ReadRange(file: Bytes, r: Range): (read: Bytes)
    ensures |read| == r.size && forall i :: 0 <= i < r.size ==> read[i] == ByteAt(file, r.position + i)
  {
    seq<Byte>(r.size, i requires 0 <= i < r.size => ByteAt(file, r.position + i))
  }

  function BlockByHeight(codec: Codec, s: Store, height: int): Option<Block> {
    if height < 0 || height > s.currentHeight || height !in s.blockIndex then None
    else codec.decode(ReadRange(s.file, s.blockIndex[height]))
  }

  function BlockByHash(codec: Codec, s: Store, hash: Id): Option<Block> {
    if hash !in s.hashIndex then None else BlockByHeight(codec, s, s.hashIndex[hash])
  }

  class BlockchainStore {
    const codec: Codec
    var file: Bytes
    var blockIndex: map<int, Range>
    var blockHashIndex: map<Id, int>
    var filePosition: nat
    var currentHeight: int
    var currentBlockHash: Id

    constructor (codec: Codec)
      ensures this.codec == codec && View() == INITIAL
    {
      this.codec := codec;
      file, blockIndex, blockHashIndex, filePosition, currentHeight, currentBlockHash := [], map[], map[], 0, -1, Absent;
    }

    ghost function View(): Store
      reads this
    {
      Store(file, blockIndex, blockHashIndex, filePosition, currentHeight, currentBlockHash)
    }

    method AddBlock(block: Option<Block>, write: Write, laterThrows: bool) returns (r: Result)
      modifies this
      ensures View() == AfterAdd(codec, old(View()), Call(block, write, laterThrows))
      ensures r.Refused? <==>
                block.None? || block.value.hash == Absent || block.value.height != Some(old(currentHeight) + 1)
      ensures r.Refused? ==> View() == old(View())
      ensures r.Threw? ==> write.Failed? || laterThrows
      ensures r.Added? ==> write.Wrote? && !laterThrows
    {
      if block.None? {
        return Refused;
      }
      var b := block.value;
      if !b.hash.Id? || b.height.None? {
        return Refused;
      }
      if b.height.value != currentHeight + 1 {
        return Refused;
      }
      var compressedData := codec.encode(b);
      var position, size := filePosition, |compressedData|;
      file := Overwrite(file, position, compressedData, write.count);
      if write.Failed? {
        return Threw;
      }
      blockIndex := blockIndex[b.height.value := Range(position, size)];
      blockHashIndex := blockHashIndex[b.hash := b.height.value];
      filePosition := filePosition + size;
      currentHeight := b.height.value;
      currentBlockHash := b.hash;
      return if laterThrows then Threw else Added;
    }

    method GetBlockByHeight(height: int) returns (b: Option<Block>)
      ensures b == BlockByHeight(codec, View(), height)
    {
      if height < 0 || height > currentHeight {
        return None;
      }
      if height !in blockIndex {
        return None;
      }
      return codec.decode(ReadRange(file, blockIndex[height]));
    }

    method GetBlockByHash(hash: Id) returns (b: Option<Block>)
      ensures b == BlockByHash(codec, View(), hash)
    {
      if hash !in blockHashIndex {
        return None;
      }
      b := GetBlockByHeight(blockHashIndex[hash]);
    }
  }

  // ----------------------------------------------------------- whole runs

  function Run(codec: Codec, calls: seq<Call>): Store {
    if calls == [] then INITIAL else AfterAdd(codec, Run(codec, calls[..|calls| - 1]), calls[|calls| - 1])
  }

  /**
   * One accepted block: how many bytes of it were written, and what its range already held where the rest belongs.
   * A whole write leaves nothing over.
   */
  datatype Entry = Entry(block: Block, written: nat, leftover: Bytes) {
    /** What the block's range holds. */
    function Landed(codec: Codec): Bytes {
      var data := codec.encode(block);
      (if written <= |data| then data[..written] else data) + leftover
    }

    /** The bytes the write left out were there already. */
    predicate Intact(codec: Codec) {
      written <= |codec.encode(block)| && leftover == codec.encode(block)[written..]
    }
  }

  function EntryOf(codec: Codec, s: Store, b: Block, count: nat): Entry {
    var size := |codec.encode(b)|;
    var written := if count < size then count else size;
    Entry(b, written, ReadRange(s.file, Range(s.filePosition + written, size - written)))
  }

  /** The log after one more call: longer by its block exactly if the call is accepted and its write succeeds. */
  function Logged(codec: Codec, s: Store, log: seq<Entry>, c: Call): (r: seq<Entry>)
    ensures log <= r
  {
    if Accepts(s, c) && c.write.Wrote? then log + [EntryOf(codec, s, c.block.value, c.write.count)] else log
  }

  /** The blocks accepted over a run, in order, each with how its write went. */
  function Log(codec: Codec, calls: seq<Call>): seq<Entry> {
    if calls == [] then []
    else
      var before := calls[..|calls| - 1];
      Logged(codec, Run(codec, before), Log(codec, before), calls[|calls| - 1])
  }

  /** Where the ranges of the blocks of a log end, laid one after another from 0. */
  function End(codec: Codec, log: seq<Entry>): nat {
    if log == [] then 0 else End(codec, log[..|log| - 1]) + |codec.encode(log[|log| - 1].block)|
  }

  function RangeOf(codec: Codec, log: seq<Entry>, h: nat): Range
    requires h < |log|
  {
    Range(End(codec, log[..h]), |codec.encode(log[h].block)|)
  }

  /** The index agrees with the log of accepted blocks, whatever reached the file. */
  ghost predicate Agrees(codec: Codec, s: Store, log: seq<Entry>) {
    && s.currentHeight == |log| - 1 && s.filePosition == End(codec, log)
    && (forall h :: h in s.blockIndex <==> 0 <= h < |log|)
    && (forall h :: 0 <= h < |log| ==> s.blockIndex[h] == RangeOf(codec, log, h))
    && (forall h :: 0 <= h < |log| ==> log[h].block.height == Some(h))
  }

  lemma LogAppend(codec: Codec, log: seq<Entry>, e: Entry)
    ensures End(codec, log + [e]) == End(codec, log) + |codec.encode(e.block)|
    ensures forall h :: 0 <= h < |log| ==> RangeOf(codec, log + [e], h) == RangeOf(codec, log, h)
    ensures RangeOf(codec, log + [e], |log|) == Range(End(codec, log), |codec.encode(e.block)|)
  {
    var more := log + [e];
    assert more[..|more| - 1] == log;
    forall h | 0 <= h < |log| ensures RangeOf(codec, more, h) == RangeOf(codec, log, h) {
      assert more[..h] == log[..h];
    }
  }

  lemma AddAgrees(codec: Codec, s: Store, log: seq<Entry>, c: Call)
    requires Agrees(codec, s, log)
    ensures Agrees(codec, AfterAdd(codec, s, c), Logged(codec, s, log, c))
  {
    hide End, Overwrite, RangeOf, ReadRange;
    if Accepts(s, c) && c.write.Wrote? {
      LogAppend(codec, log, EntryOf(codec, s, c.block.value, c.write.count));
    }
  }

  lemma {:induction false} RunAgrees(codec: Codec, calls: seq<Call>)
    ensures Agrees(codec, Run(codec, calls), Log(codec, calls))
  {
    if calls != [] {
      hide Agrees, AfterAdd, Logged;
      RunAgrees(codec, calls[..|calls| - 1]);
      AddAgrees(codec, Run(codec, calls[..|calls| - 1]), Log(codec, calls[..|calls| - 1]), calls[|calls| - 1]);
    } else {
      assert End(codec, []) == 0;
    }
  }

  lemma NextRange(codec: Codec, log: seq<Entry>, h: nat)
    requires h < |log|
    ensures var r := RangeOf(codec, log, h);
            && (h == 0 ==> r.position == 0)
            && r.position + r.size == if h == |log| - 1 then End(codec, log) else RangeOf(codec, log, h + 1).position
  {
    var prefix := log[..h + 1];
    assert prefix[..|prefix| - 1] == log[..h] && prefix[h] == log[h];
    assert h + 1 == |log| ==> prefix == log;
    assert h == 0 ==> log[..h] == [];
  }

  /**
   * After any run of calls, the ranges of heights 0 to currentHeight follow one another from 0 to filePosition,
   * whatever calls were refused, failed or fell short in a write, or threw afterwards.
   */
  lemma RangesTile(codec: Codec, calls: seq<Call>, h: nat)
    ensures var s := Run(codec, calls);
            && (forall k :: k in s.blockIndex <==> 0 <= k <= s.currentHeight)
            && (s.currentHeight < 0 ==> s.filePosition == 0)
            && (h <= s.currentHeight ==>
                  && (h == 0 ==> s.blockIndex[h].position == 0)
                  && s.blockIndex[h].position + s.blockIndex[h].size
                     == if h == s.currentHeight then s.filePosition else s.blockIndex[h + 1].position)
  {
    hide Run, Log, RangeOf;
    RunAgrees(codec, calls);
    var s, log := Run(codec, calls), Log(codec, calls);
    if h < |log| {
      NextRange(codec, log, h);
    }
  }

  // ----------------------------------------------------------- what is in the file

  lemma OverwriteAt(file: Bytes, position: nat, data: Bytes, count: nat, i: nat)
    ensures ByteAt(Overwrite(file, position, data, count), i)
         == if position <= i < position + |data| && i < position + count then data[i - position] else ByteAt(file, i)
  {
  }

  /** A write at or past the end of a range leaves what the range holds alone, also where it holds nothing yet. */
  lemma OverwriteBeyond(file: Bytes, position: nat, data: Bytes, count: nat, r: Range)
    requires r.position + r.size <= position
    ensures ReadRange(Overwrite(file, position, data, count), r) == ReadRange(file, r)
  {
    hide Overwrite, ByteAt;
    var after := Overwrite(file, position, data, count);
    forall i: nat | i < r.size ensures ReadRange(after, r)[i] == ReadRange(file, r)[i] {
      OverwriteAt(file, position, data, count, r.position + i);
    }
  }

  /** A write leaves its own range holding what it wrote, then what was there. */
  lemma OverwriteLands(codec: Codec, s: Store, b: Block, count: nat)
    ensures var data := codec.encode(b);
            ReadRange(Overwrite(s.file, s.filePosition, data, count), Range(s.filePosition, |data|)) ==
            EntryOf(codec, s, b, count).Landed(codec)
  {
    hide Overwrite, ByteAt;
    var data := codec.encode(b);
    forall i: nat | i < |data| ensures ByteAt(Overwrite(s.file, s.filePosition, data, count), s.filePosition + i)
                                    == EntryOf(codec, s, b, count).Landed(codec)[i]
    {
      OverwriteAt(s.file, s.filePosition, data, count, s.filePosition + i);
    }
  }

  /** Every range holds what its own write landed. */
  ghost predicate Holds(s: Store, codec: Codec, log: seq<Entry>) {
    forall h: nat :: h < |log| ==> ReadRange(s.file, RangeOf(codec, log, h)) == log[h].Landed(codec)
  }

  lemma {:induction false} EndGrows(codec: Codec, log: seq<Entry>, h: nat)
    requires h <= |log|
    ensures End(codec, log[..h]) <= End(codec, log)
  {
    if h < |log| {
      var before := log[..|log| - 1];
      EndGrows(codec, before, h);
      assert before[..h] == log[..h];
    } else {
      assert log[..h] == log;
    }
  }

  lemma RangeWithin(codec: Codec, log: seq<Entry>, h: nat)
    requires h < |log|
    ensures RangeOf(codec, log, h).position + RangeOf(codec, log, h).size <= End(codec, log)
  {
    NextRange(codec, log, h);
    EndGrows(codec, log, if h + 1 < |log| then h + 1 else h);
  }

  /** A write at the file position, whatever its outcome, keeps what the ranges before it hold. */
  lemma WriteKeepsRanges(codec: Codec, s: Store, log: seq<Entry>, data: Bytes, count: nat)
    requires Holds(s, codec, log) && s.filePosition == End(codec, log)
    ensures Holds(s.(file := Overwrite(s.file, s.filePosition, data, count)), codec, log)
  {
    hide Overwrite, End, RangeOf, ReadRange;
    forall h: nat | h < |log|
      ensures ReadRange(Overwrite(s.file, s.filePosition, data, count), RangeOf(codec, log, h)) == log[h].Landed(codec)
    {
      RangeWithin(codec, log, h);
      OverwriteBeyond(s.file, s.filePosition, data, count, RangeOf(codec, log, h));
    }
  }

  lemma AddHolds(codec: Codec, s: Store, log: seq<Entry>, c: Call)
    requires Agrees(codec, s, log) && Holds(s, codec, log)
    ensures Holds(AfterAdd(codec, s, c), codec, Logged(codec, s, log, c))
  {
    hide Overwrite, End, RangeOf, ReadRange, Entry.Landed;
    if Accepts(s, c) {
      var b := c.block.value;
      WriteKeepsRanges(codec, s, log, codec.encode(b), c.write.count);
      if c.write.Wrote? {
        OverwriteLands(codec, s, b, c.write.count);
        LogAppend(codec, log, EntryOf(codec, s, b, c.write.count));
      }
    }
  }

  lemma {:induction false} RunHolds(codec: Codec, calls: seq<Call>)
    ensures Holds(Run(codec, calls), codec, Log(codec, calls))
  {
    if calls != [] {
      hide Agrees, Holds, AfterAdd, Logged;
      var before := calls[..|calls| - 1];
      RunHolds(codec, before);
      RunAgrees(codec, before);
      AddHolds(codec, Run(codec, before), Log(codec, before), calls[|calls| - 1]);
    }
  }

  /**
   * After any run, a height up to the current one reads as whatever its own write landed decodes to, and no other
   * height reads: no other call, before or after, has any part in it.
   */
  lemma EveryHeightReads(codec: Codec, calls: seq<Call>, h: int)
    ensures BlockByHeight(codec, Run(codec, calls), h)
         == if 0 <= h < |Log(codec, calls)| then codec.decode(Log(codec, calls)[h].Landed(codec)) else None
  {
    hide Run, Log, End, RangeOf, ReadRange, Entry.Landed;
    RunAgrees(codec, calls);
    RunHolds(codec, calls);
  }

  lemma IntactLands(codec: Codec, e: Entry)
    requires e.written + |e.leftover| == |codec.encode(e.block)|
    ensures e.Landed(codec) == codec.encode(e.block) <==> e.Intact(codec)
  {
    var data := codec.encode(e.block);
    assert data == data[..e.written] + data[e.written..];
    assert e.Landed(codec)[e.written..] == e.leftover;
  }

  lemma {:induction false} LogSizes(codec: Codec, calls: seq<Call>, h: nat)
    requires h < |Log(codec, calls)|
    ensures var e := Log(codec, calls)[h]; e.written + |e.leftover| == |codec.encode(e.block)|
  {
    hide Run, ReadRange, Accepts;
    var before := calls[..|calls| - 1];
    if h < |Log(codec, before)| {
      LogSizes(codec, before, h);
    }
  }

  /**
   * A height reads back as the block accepted there if and only if its write was whole or the bytes it left out were
   * there already. The writes of all other calls are arbitrary.
   */
  lemma ReadsBackIff(codec: Codec, calls: seq<Call>, h: nat)
    requires codec.Inverse() && codec.Canonical() && h < |Log(codec, calls)|
    ensures var e := Log(codec, calls)[h];
            BlockByHeight(codec, Run(codec, calls), h) == Some(e.block) <==> e.Intact(codec)
  {
    hide Run, Log, BlockByHeight;
    var e := Log(codec, calls)[h];
    EveryHeightReads(codec, calls, h);
    LogSizes(codec, calls, h);
    IntactLands(codec, e);
    assert codec.decode(codec.encode(e.block)) == Some(e.block);
    assert |e.Landed(codec)| == |codec.encode(e.block)|;
  }

  /** A height whose own write was whole reads back as the block accepted there. */
  lemma WholeWriteReadsBack(codec: Codec, calls: seq<Call>, h: nat)
    requires codec.Inverse() && h < |Log(codec, calls)|
    requires Log(codec, calls)[h].written == |codec.encode(Log(codec, calls)[h].block)|
    ensures BlockByHeight(codec, Run(codec, calls), h) == Some(Log(codec, calls)[h].block)
  {
    hide Run, Log, BlockByHeight;
    var e := Log(codec, calls)[h];
    EveryHeightReads(codec, calls, h);
    LogSizes(codec, calls, h);
    IntactLands(codec, e);
    assert codec.decode(codec.encode(e.block)) == Some(e.block);
  }

  /** Offered with a hash at the height after the current one. */
  predicate IsNext(b: Option<Block>, current: int) {
    b.Some? && b.value.hash != Absent && b.value.height == Some(current + 1)
  }

  /**
   * After any run, a call whose block is the next one and whose write succeeds makes the log longer by that block, and
   * is the only one that does. A failed write moves no height and no index, and a refused call does not touch the file.
   */
  lemma NextCallOutcome(codec: Codec, calls: seq<Call>, c: Call)
    ensures var s, s' := Run(codec, calls), Run(codec, calls + [c]);
            var before, after := Log(codec, calls), Log(codec, calls + [c]);
            && s.currentHeight == |before| - 1
            && (IsNext(c.block, |before| - 1) && c.write.Wrote? ==>
                  && |after| == |before| + 1 && after[..|before|] == before && after[|before|].block == c.block.value
                  && s'.currentHeight == |before| && s'.currentHash == c.block.value.hash)
            && (!(IsNext(c.block, |before| - 1) && c.write.Wrote?) ==>
                  after == before && s'.(file := s.file) == s)
            && (!IsNext(c.block, |before| - 1) ==> s' == s)
  {
    hide Overwrite, ReadRange;
    RunAgrees(codec, calls);
    assert (calls + [c])[..|calls + [c]| - 1] == calls;
  }

  /** After any run, the next block, once written as a whole, reads back by its height. */
  lemma NextBlockReadsBack(codec: Codec, calls: seq<Call>, b: Block, laterThrows: bool)
    requires codec.Inverse() && b.hash != Absent && b.height == Some(|Log(codec, calls)|)
    ensures var s := Run(codec, calls + [Call(Some(b), Wrote(|codec.encode(b)|), laterThrows)]);
            BlockByHeight(codec, s, |Log(codec, calls)|) == Some(b)
  {
    hide BlockByHeight, Overwrite, ReadRange;
    var c, n := Call(Some(b), Wrote(|codec.encode(b)|), laterThrows), |Log(codec, calls)|;
    RunAgrees(codec, calls);
    assert (calls + [c])[..|calls + [c]| - 1] == calls;
    assert Log(codec, calls + [c])[n] == EntryOf(codec, Run(codec, calls), b, c.write.count);
    WholeWriteReadsBack(codec, calls + [c], n);
  }

  lemma DropLast<T>(a: seq<T>, b: seq<T>)
    requires b != []
    ensures (a + b)[..|a + b| - 1] == a + b[..|b| - 1]
  {
  }

  lemma {:induction false} LogGrows(codec: Codec, calls: seq<Call>, more: seq<Call>)
    ensures Log(codec, calls) <= Log(codec, calls + more)
  {
    if more == [] {
      assert calls + more == calls;
    } else {
      hide Logged, Run;
      DropLast(calls, more);
      LogGrows(codec, calls, more[..|more| - 1]);
      assert calls + more != [];
    }
  }

  /** No later call, whatever becomes of it, changes what a height already accepted reads as. */
  lemma LaterCallsKeepBlocks(codec: Codec, calls: seq<Call>, more: seq<Call>, h: nat)
    requires h <= Run(codec, calls).currentHeight
    ensures BlockByHeight(codec, Run(codec, calls + more), h) == BlockByHeight(codec, Run(codec, calls), h)
  {
    hide Run, Log, BlockByHeight;
    RunAgrees(codec, calls);
    LogGrows(codec, calls, more);
    EveryHeightReads(codec, calls, h);
    EveryHeightReads(codec, calls + more, h);
  }

  // ----------------------------------------------------------- by hash

  /** The hash index holds, for each hash in the log, the greatest height that has it. */
  ghost predicate HashesAgree(m: map<Id, int>, log: seq<Entry>) {
    && (forall h :: 0 <= h < |log| ==> log[h].block.hash in m && h <= m[log[h].block.hash])
    && (forall x :: x in m ==> 0 <= m[x] < |log| && log[m[x]].block.hash == x)
  }

  lemma AddHashes(codec: Codec, s: Store, log: seq<Entry>, c: Call)
    requires Agrees(codec, s, log) && HashesAgree(s.hashIndex, log)
    ensures HashesAgree(AfterAdd(codec, s, c).hashIndex, Logged(codec, s, log, c))
  {
    hide End, Overwrite, RangeOf, ReadRange;
  }

  lemma {:induction false} RunHashes(codec: Codec, calls: seq<Call>)
    ensures HashesAgree(Run(codec, calls).hashIndex, Log(codec, calls))
  {
    if calls != [] {
      hide HashesAgree, Agrees, AfterAdd, Logged;
      var before := calls[..|calls| - 1];
      RunHashes(codec, before);
      RunAgrees(codec, before);
      AddHashes(codec, Run(codec, before), Log(codec, before), calls[|calls| - 1]);
    }
  }

  /** The greatest height whose block has a hash. */
  predicate IsLastWith(log: seq<Entry>, x: Id, k: int) {
    && 0 <= k < |log| && log[k].block.hash == x
    && forall h :: k < h < |log| ==> log[h].block.hash != x
  }

  /** A hash reads as the last accepted height that has it does, and as nothing if no accepted block has it. */
  lemma HashReads(codec: Codec, calls: seq<Call>, x: Id)
    ensures var s, log := Run(codec, calls), Log(codec, calls);
            && (x in s.hashIndex <==> exists k :: IsLastWith(log, x, k))
            && (forall k :: IsLastWith(log, x, k) ==> BlockByHash(codec, s, x) == BlockByHeight(codec, s, k))
            && (x !in s.hashIndex ==>
                  BlockByHash(codec, s, x) == None && forall h :: 0 <= h < |log| ==> log[h].block.hash != x)
  {
    hide Run, Log, BlockByHeight;
    RunHashes(codec, calls);
    var s, log := Run(codec, calls), Log(codec, calls);
    if x in s.hashIndex {
      assert IsLastWith(log, x, s.hashIndex[x]);
    }
  }

  // ----------------------------------------------------------- short writes

  /** The log after one call that accepts a first block. */
  lemma FirstEntry(codec: Codec, b: Block, count: nat)
    requires b.hash.Id? && b.height == Some(0)
    ensures Log(codec, [Call(Some(b), Wrote(count), false)]) == [EntryOf(codec, INITIAL, b, count)]
  {
    var calls := [Call(Some(b), Wrote(count), false)];
    assert calls[..|calls| - 1] == [];
  }

  /** Such a write loses the first block: the rest of its range reads as zeros, and its last byte is not zero. */
  lemma ShortWriteLosesBlock(codec: Codec, b: Block, count: nat)
    requires codec.Inverse() && codec.Canonical() && b.hash.Id? && b.height == Some(0)
    requires var data := codec.encode(b); count < |data| && data[|data| - 1] != 0
    ensures var s := Run(codec, [Call(Some(b), Wrote(count), false)]);
            s.currentHeight == 0 && BlockByHeight(codec, s, 0) != Some(b)
  {
    hide Run, Log, BlockByHeight;
    var calls, data := [Call(Some(b), Wrote(count), false)], codec.encode(b);
    FirstEntry(codec, b, count);
    RunAgrees(codec, calls);
    ReadsBackIff(codec, calls, 0);
    var e := EntryOf(codec, INITIAL, b, count);
    assert e.leftover[|e.leftover| - 1] == 0;
    assert data[count..][|data| - count - 1] == data[|data| - 1];
  }

  /** A short write is harmless after a failed write of the same block that had reached the file as a whole. */
  lemma FailedThenShort(codec: Codec, b: Block, count: nat)
    requires codec.Inverse() && b.hash.Id? && b.height == Some(0)
    ensures var data := codec.encode(b);
            var calls := [Call(Some(b), Failed(|data|), false), Call(Some(b), Wrote(count), false)];
            BlockByHeight(codec, Run(codec, calls), 0) == Some(b)
  {
    hide BlockByHeight;
    var data := codec.encode(b);
    var first := [Call(Some(b), Failed(|data|), false)];
    var calls := first + [Call(Some(b), Wrote(count), false)];
    assert calls[..|calls| - 1] == first && first[..|first| - 1] == [];
    assert Run(codec, []) == INITIAL && Log(codec, []) == [];
    var s := Run(codec, first);
    assert Overwrite([], 0, data, |data|) == data;
    assert s == INITIAL.(file := data) && Log(codec, first) == [];
    var e := EntryOf(codec, s, b, count);
    assert Log(codec, calls) == [e];
    EveryHeightReads(codec, calls, 0);
    IntactLands(codec, e);
    assert e.leftover == data[e.written..];
    assert codec.decode(codec.encode(b)) == Some(b);
  }

  /** For instance, one byte of two reads back as nothing where both read back as the block. */
  lemma OneByteOfTwo(codec: Codec, b: Block)
    requires b.hash.Id? && b.height == Some(0)
    requires codec.encode(b) == [1, 2] && codec.decode([1, 2]) == Some(b) && codec.decode([1, 0]) == None
    ensures BlockByHeight(codec, Run(codec, [Call(Some(b), Wrote(2), false)]), 0) == Some(b)
    ensures BlockByHeight(codec, Run(codec, [Call(Some(b), Wrote(1), false)]), 0) == None
  {
    hide Run, Log, BlockByHeight;
    FirstEntry(codec, b, 1);
    FirstEntry(codec, b, 2);
    EveryHeightReads(codec, [Call(Some(b), Wrote(1), false)], 0);
    EveryHeightReads(codec, [Call(Some(b), Wrote(2), false)], 0);
    assert EntryOf(codec, INITIAL, b, 1).Landed(codec) == [1, 0];
    assert EntryOf(codec, INITIAL, b, 2).Landed(codec) == [1, 2];
  }
}
