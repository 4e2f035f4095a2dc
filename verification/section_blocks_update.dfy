/** Translation of a Java "section blocks update" packet (a batch of block changes inside one
    16x16x16 section) into Bedrock packets, and the write-back into the session's world cache.

    Everything the translator does to the session is one trace of events: packets sent to the
    Bedrock client and block states written into the cache, in the order they happen. The
    world manager (does it keep a chunk cache of its own, what blocks are currently in the
    section), the waterlogged table and the Java-to-Bedrock block mapping are inputs.
 */
module SectionBlocksUpdate {
  import opened Subsequences

  datatype Pos = Pos(x: int, y: int, z: int)

  /** One block change: an absolute position and the new Java block state id. */
  datatype BlockChangeEntry = BlockChangeEntry(position: Pos, block: int)

  /** The incoming packet: the section's chunk coordinates and its ordered changes. */
  datatype SectionBlocksUpdatePacket = SectionBlocksUpdatePacket(
    chunkX: int,
    chunkY: int,
    chunkZ: int,
    entries: seq<BlockChangeEntry>)

  /** One change as added to the sub-chunk packet, with whether its water layer changed. */
  datatype SubChunkEntry = SubChunkEntry(entry: BlockChangeEntry, updateWaterlogged: bool)

  datatype Outbound =
    | UpdateBlock(position: Pos, definition: int, dataLayer: int)
    | UpdateSubChunkBlocks(chunkX: int, chunkY: int, chunkZ: int, entries: seq<SubChunkEntry>)

  datatype Event =
    | Send(packet: Outbound)
    | CacheWrite(position: Pos, block: int)

  /** The answer of the world manager's bulk block query: the states of the section, indexed
      by `SectionIndex`, or a failure of the query. */
  datatype Snapshot = ProviderFailed | Blocks(states: seq<int>)

  /** The collaborators of one translation. */
  datatype World = World(
    hasOwnChunkCache: bool,
    snapshot: Snapshot,
    waterlogged: int -> bool,
    bedrockBlock: int -> int)

  /** The trace of one translation, and whether it ran to the end. */
  datatype Outcome = Outcome(events: seq<Event>, completed: bool)

  /** Batches below this size go straight to the world cache. */
  const BatchThreshold: int := 32

  /** The number of blocks in a section: a batch this large may be a legacy full resend. */
  const SectionVolume: int := 4096

  /** The world coordinate where a section starts along one axis (`chunk << 4`). */
  function SectionOrigin(chunk: int): int {
    chunk * 16
  }

  /** The index of a position in the section snapshot: z + 16x + 256y, relative coordinates. */
  function SectionIndex(packet: SectionBlocksUpdatePacket, p: Pos): int {
    var rx := p.x - SectionOrigin(packet.chunkX);
    var ry := p.y - SectionOrigin(packet.chunkY);
    var rz := p.z - SectionOrigin(packet.chunkZ);
    rz + rx * 16 + ry * 256
  }

  predicate InSection(packet: SectionBlocksUpdatePacket, p: Pos) {
    && 0 <= p.x - SectionOrigin(packet.chunkX) < 16
    && 0 <= p.y - SectionOrigin(packet.chunkY) < 16
    && 0 <= p.z - SectionOrigin(packet.chunkZ) < 16
  }

  predicate IsLegacyResend(world: World, packet: SectionBlocksUpdatePacket) {
    |packet.entries| == SectionVolume && !world.hasOwnChunkCache
  }

  /** Every entry's snapshot index can be read from `states`. */
  predicate IndicesInRange(packet: SectionBlocksUpdatePacket, entries: seq<BlockChangeEntry>, states: seq<int>) {
    forall i :: 0 <= i < |entries| ==> 0 <= SectionIndex(packet, entries[i].position) < |states|
  }

  lemma InitIndicesInRange(packet: SectionBlocksUpdatePacket, entries: seq<BlockChangeEntry>, states: seq<int>)
    requires entries != [] && IndicesInRange(packet, entries, states)
    ensures IndicesInRange(packet, entries[..|entries| - 1], states)
  {
    var init := entries[..|entries| - 1];
    forall i | 0 <= i < |init| ensures 0 <= SectionIndex(packet, init[i].position) < |states| {
      assert init[i] == entries[i];
    }
  }

  /** The state the snapshot held at an entry's position before the change. */
  function OldState(packet: SectionBlocksUpdatePacket, states: seq<int>, e: BlockChangeEntry): int
    requires 0 <= SectionIndex(packet, e.position) < |states|
  {
    states[SectionIndex(packet, e.position)]
  }

  /** The cache writes for `entries`, in batch order. */
  function Writes(entries: seq<BlockChangeEntry>): (w: seq<Event>)
    ensures |w| == |entries|
    ensures forall i :: 0 <= i < |w| ==> w[i] == CacheWrite(entries[i].position, entries[i].block)
  {
    if entries == [] then []
    else [CacheWrite(entries[0].position, entries[0].block)] + Writes(entries[1..])
  }

  /** The legacy path's sub-chunk entries: the changes whose state differs from the
      snapshot, each flagged when the waterlogged property of old and new state differs. */
  function ChangedEntries(packet: SectionBlocksUpdatePacket, entries: seq<BlockChangeEntry>,
                          states: seq<int>, waterlogged: int -> bool): seq<SubChunkEntry>
    requires IndicesInRange(packet, entries, states)
  {
    if entries == [] then []
    else
      var init, e := entries[..|entries| - 1], entries[|entries| - 1];
      InitIndicesInRange(packet, entries, states);
      var before := OldState(packet, states, e);
      ChangedEntries(packet, init, states, waterlogged)
        + (if before != e.block then [SubChunkEntry(e, waterlogged(before) != waterlogged(e.block))] else [])
  }

  /** The partial-region path's sub-chunk entries: every change, flagged. */
  function AllFlagged(entries: seq<BlockChangeEntry>): (r: seq<SubChunkEntry>)
    ensures |r| == |entries|
    ensures forall i :: 0 <= i < |entries| ==> r[i] == SubChunkEntry(entries[i], true)
  {
    if entries == [] then []
    else AllFlagged(entries[..|entries| - 1]) + [SubChunkEntry(entries[|entries| - 1], true)]
  }

  function SubChunkFor(packet: SectionBlocksUpdatePacket, entries: seq<SubChunkEntry>): Outbound {
    UpdateSubChunkBlocks(packet.chunkX, packet.chunkY, packet.chunkZ, entries)
  }

  /** The single-block update sent first on the legacy path to wake up a loading chunk. */
  function Trigger(world: World, packet: SectionBlocksUpdatePacket): Event
    requires |packet.entries| > 0
  {
    var first := packet.entries[0];
    Send(UpdateBlock(first.position, world.bedrockBlock(first.block), 0))
  }

  /** The translator. Only the legacy path can fail: the world manager's query fails, or an
      entry's snapshot index falls outside the returned states. The trigger packet has
      already gone out then, and nothing else happens. */
  function Translate(world: World, packet: SectionBlocksUpdatePacket): (r: Outcome)
    ensures !r.completed ==> IsLegacyResend(world, packet) && r.events == [Trigger(world, packet)]
    ensures r.completed ==> |packet.entries| <= |r.events| && r.events[|r.events| - |packet.entries|..] == Writes(packet.entries)
  {
    var entries := packet.entries;
    if |entries| < BatchThreshold then
      Outcome(Writes(entries), true)
    else if IsLegacyResend(world, packet) then
      var trigger := Trigger(world, packet);
      match world.snapshot
      case ProviderFailed => Outcome([trigger], false)
      case Blocks(states) =>
        if IndicesInRange(packet, entries, states) then
          var sub := SubChunkFor(packet, ChangedEntries(packet, entries, states, world.waterlogged));
          Outcome([trigger, Send(sub)] + Writes(entries), true)
        else
          Outcome([trigger], false)
    else
      Outcome([Send(SubChunkFor(packet, AllFlagged(entries)))] + Writes(entries), true)
  }

  // ---------------------------------------------------------------------------------------
  // The world cache

  /** The cache after the writes of `events`, applied in order. */
  function CacheAfter(cache: map<Pos, int>, events: seq<Event>): map<Pos, int>
    decreases |events|
  {
    if events == [] then cache
    else
      var next := match events[0]
        case CacheWrite(p, b) => cache[p := b]
        case Send(_) => cache;
      CacheAfter(next, events[1..])
  }

  function Positions(entries: seq<BlockChangeEntry>): set<Pos> {
    set i | 0 <= i < |entries| :: entries[i].position
  }

  /** `c` is `cache` after writing `entries`: every position of the batch holds the block of
      its last entry, every other position is as it was in `cache`. */
  ghost predicate LastEntryWins(c: map<Pos, int>, cache: map<Pos, int>, entries: seq<BlockChangeEntry>) {
    && (forall i :: 0 <= i < |entries| ==> entries[i].position in c)
    && (forall i :: 0 <= i < |entries| && (forall j :: i < j < |entries| ==> entries[j].position != entries[i].position)
          ==> c[entries[i].position] == entries[i].block)
    && (forall p :: p !in Positions(entries) ==> (p in c <==> p in cache) && (p in cache ==> c[p] == cache[p]))
  }

  lemma PositionsOfTail(entries: seq<BlockChangeEntry>)
    requires entries != []
    ensures Positions(entries) == {entries[0].position} + Positions(entries[1..])
  {
  }

  /** Writing a batch into the cache, in order, makes the last entry for each position win. */
  lemma {:induction false} WritesLastEntryWins(cache: map<Pos, int>, entries: seq<BlockChangeEntry>)
    ensures LastEntryWins(CacheAfter(cache, Writes(entries)), cache, entries)
    decreases |entries|
  {
    if entries != [] {
      var e, rest := entries[0], entries[1..];
      var next := cache[e.position := e.block];
      assert Writes(entries)[1..] == Writes(rest);
      WritesLastEntryWins(next, rest);
      PositionsOfTail(entries);
      var c := CacheAfter(next, Writes(rest));
      assert c == CacheAfter(cache, Writes(entries));
      forall i | 0 <= i < |entries| && (forall j :: i < j < |entries| ==> entries[j].position != entries[i].position)
        ensures c[entries[i].position] == entries[i].block
      {
        if i == 0 {
          assert e.position !in Positions(rest) by {
            forall k | 0 <= k < |rest| ensures rest[k].position != e.position {
              assert entries[k + 1] == rest[k];
            }
          }
        } else {
          assert rest[i - 1] == entries[i];
          assert forall j :: i - 1 < j < |rest| ==> rest[j] == entries[j + 1];
        }
      }
      forall i | 0 <= i < |entries| ensures entries[i].position in c {
        if i > 0 {
          assert rest[i - 1] == entries[i];
        }
      }
    }
  }

  /** The packets a completed translation sends do not touch the cache: its effect on the
      cache is that of the write-back alone. */
  lemma CompletedTraceWritesBatch(world: World, packet: SectionBlocksUpdatePacket, cache: map<Pos, int>)
    requires Translate(world, packet).completed
    ensures CacheAfter(cache, Translate(world, packet).events) == CacheAfter(cache, Writes(packet.entries))
  {
  }

  /** After a completed translation, on any path, every position of the batch holds the block
      of its last entry and every other position is unchanged. */
  lemma CacheHoldsLastEntry(world: World, packet: SectionBlocksUpdatePacket, cache: map<Pos, int>)
    requires Translate(world, packet).completed
    ensures LastEntryWins(CacheAfter(cache, Translate(world, packet).events), cache, packet.entries)
  {
    CompletedTraceWritesBatch(world, packet, cache);
    WritesLastEntryWins(cache, packet.entries);
  }

  /** A failed translation leaves the cache as it was. */
  lemma FailureWritesNothing(world: World, packet: SectionBlocksUpdatePacket, cache: map<Pos, int>)
    requires !Translate(world, packet).completed
    ensures CacheAfter(cache, Translate(world, packet).events) == cache
  {
  }

  // ---------------------------------------------------------------------------------------
  // Which packets go out

  /** The sub-chunk packets among the sends of `events`, in order. */
  function SentSubChunks(events: seq<Event>): (r: seq<Outbound>)
    ensures forall o :: o in r ==> o.UpdateSubChunkBlocks?
  {
    if events == [] then []
    else
      (if events[0].Send? && events[0].packet.UpdateSubChunkBlocks? then [events[0].packet] else [])
        + SentSubChunks(events[1..])
  }

  lemma {:induction false} WritesSendNothing(entries: seq<BlockChangeEntry>)
    ensures SentSubChunks(Writes(entries)) == []
    ensures forall e :: e in Writes(entries) ==> e.CacheWrite?
  {
    if entries != [] {
      assert Writes(entries)[1..] == Writes(entries[1..]);
      WritesSendNothing(entries[1..]);
    }
  }

  /** Fewer than 32 changes: the translator itself sends no packet, and the batch goes
      straight into the cache. What `updateServerCorrectBlockState` sends is not modelled. */
  lemma SmallBatchOnlyWrites(world: World, packet: SectionBlocksUpdatePacket)
    requires |packet.entries| < BatchThreshold
    ensures Translate(world, packet).completed
    ensures forall e :: e in Translate(world, packet).events ==> e.CacheWrite?
  {
  }

  /** The packets a completed batched translation sends before its write-back. */
  function BatchedSends(world: World, packet: SectionBlocksUpdatePacket): seq<Event>
    requires |packet.entries| >= BatchThreshold
    requires Translate(world, packet).completed
  {
    var entries := packet.entries;
    if IsLegacyResend(world, packet) then
      var states := world.snapshot.states;
      [Trigger(world, packet), Send(SubChunkFor(packet, ChangedEntries(packet, entries, states, world.waterlogged)))]
    else
      [Send(SubChunkFor(packet, AllFlagged(entries)))]
  }

  lemma BatchedTraceShape(world: World, packet: SectionBlocksUpdatePacket)
    requires |packet.entries| >= BatchThreshold
    requires Translate(world, packet).completed
    ensures Translate(world, packet).events == BatchedSends(world, packet) + Writes(packet.entries)
  {
  }

  lemma {:induction false} SentSubChunksAppend(a: seq<Event>, b: seq<Event>)
    ensures SentSubChunks(a + b) == SentSubChunks(a) + SentSubChunks(b)
  {
    if a != [] {
      assert (a + b)[1..] == a[1..] + b;
      SentSubChunksAppend(a[1..], b);
    } else {
      assert a + b == b;
    }
  }

  /** The sends of a batched translation: an optional single-block trigger, then the one
      sub-chunk packet addressed to the section. */
  ghost predicate SendsEndWithSubChunk(sends: seq<Event>, packet: SectionBlocksUpdatePacket) {
    && 1 <= |sends| <= 2
    && (forall j :: 0 <= j < |sends| ==> sends[j].Send?)
    && sends[|sends| - 1].packet.UpdateSubChunkBlocks?
    && sends[|sends| - 1].packet.chunkX == packet.chunkX
    && sends[|sends| - 1].packet.chunkY == packet.chunkY
    && sends[|sends| - 1].packet.chunkZ == packet.chunkZ
    && (|sends| == 2 ==> sends[0].packet.UpdateBlock?)
  }

  lemma BatchedSendsShape(world: World, packet: SectionBlocksUpdatePacket)
    requires |packet.entries| >= BatchThreshold
    requires Translate(world, packet).completed
    ensures SendsEndWithSubChunk(BatchedSends(world, packet), packet)
  {
  }

  lemma SubChunksOfShape(sends: seq<Event>, packet: SectionBlocksUpdatePacket)
    requires SendsEndWithSubChunk(sends, packet)
    ensures SentSubChunks(sends) == [sends[|sends| - 1].packet]
  {
    var last := sends[|sends| - 1];
    assert SentSubChunks([last]) == [last.packet] by { assert [last][1..] == []; }
    if |sends| == 2 {
      assert sends[1..] == [last];
      assert !sends[0].packet.UpdateSubChunkBlocks?;
    }
  }

  /** A trace made of such sends followed by the write-back of a batch. */
  ghost predicate SubChunkThenWriteBack(events: seq<Event>, packet: SectionBlocksUpdatePacket) {
    var subs := SentSubChunks(events);
    var k := |events| - |packet.entries|;
    && |subs| == 1
    && subs[0].chunkX == packet.chunkX
    && subs[0].chunkY == packet.chunkY
    && subs[0].chunkZ == packet.chunkZ
    && 1 <= k
    && events[k - 1] == Send(subs[0])
    && (forall j :: 0 <= j < k ==> events[j].Send?)
    && (forall j :: k <= j < |events| ==> events[j].CacheWrite?)
  }

  lemma SendsThenWrites(sends: seq<Event>, packet: SectionBlocksUpdatePacket)
    requires SendsEndWithSubChunk(sends, packet)
    ensures SubChunkThenWriteBack(sends + Writes(packet.entries), packet)
  {
    var w := Writes(packet.entries);
    WritesSendNothing(packet.entries);
    SentSubChunksAppend(sends, w);
    SubChunksOfShape(sends, packet);
    var events := sends + w;
    assert events[|sends| - 1] == sends[|sends| - 1];
    assert forall j :: |sends| <= j < |events| ==> events[j] == w[j - |sends|];
  }

  /** From 32 changes up, a completed translation sends exactly one sub-chunk packet,
      addressed to the packet's section, and writes the cache only after it. */
  lemma BatchedSendsOneSubChunk(world: World, packet: SectionBlocksUpdatePacket)
    requires |packet.entries| >= BatchThreshold
    requires Translate(world, packet).completed
    ensures SubChunkThenWriteBack(Translate(world, packet).events, packet)
  {
    BatchedTraceShape(world, packet);
    BatchedSendsShape(world, packet);
    SendsThenWrites(BatchedSends(world, packet), packet);
  }

  /** The legacy full resend sends a single-block update for the first change before
      anything else; no other path sends a single-block update at all. */
  lemma TriggerOnlyOnLegacyPath(world: World, packet: SectionBlocksUpdatePacket)
    ensures IsLegacyResend(world, packet) ==>
      var first := packet.entries[0];
      Translate(world, packet).events[0] == Send(UpdateBlock(first.position, world.bedrockBlock(first.block), 0))
    ensures !IsLegacyResend(world, packet) ==>
      forall e :: e in Translate(world, packet).events ==> !(e.Send? && e.packet.UpdateBlock?)
  {
  }

  // ---------------------------------------------------------------------------------------
  // What the sub-chunk packet carries

  function EntriesOf(sub: seq<SubChunkEntry>): (r: seq<BlockChangeEntry>)
    ensures |r| == |sub|
    ensures forall i :: 0 <= i < |sub| ==> r[i] == sub[i].entry
  {
    if sub == [] then [] else EntriesOf(sub[..|sub| - 1]) + [sub[|sub| - 1].entry]
  }

  /** The positions in `entries` of the changes whose state differs from the snapshot, in
      increasing order. */
  ghost function ChangedIndices(packet: SectionBlocksUpdatePacket, entries: seq<BlockChangeEntry>,
                                states: seq<int>): seq<int>
    requires IndicesInRange(packet, entries, states)
  {
    if entries == [] then []
    else
      var init, e := entries[..|entries| - 1], entries[|entries| - 1];
      InitIndicesInRange(packet, entries, states);
      ChangedIndices(packet, init, states) + (if OldState(packet, states, e) != e.block then [|init|] else [])
  }

  lemma {:induction false} ChangedIndicesMembers(packet: SectionBlocksUpdatePacket, entries: seq<BlockChangeEntry>,
                                                  states: seq<int>)
    requires IndicesInRange(packet, entries, states)
    ensures var idx := ChangedIndices(packet, entries, states);
      && (forall k :: 0 <= k < |idx| ==> 0 <= idx[k] < |entries|)
      && (forall i :: 0 <= i < |entries| ==> (i in idx <==> OldState(packet, states, entries[i]) != entries[i].block))
  {
    if entries != [] {
      var init, e := entries[..|entries| - 1], entries[|entries| - 1];
      InitIndicesInRange(packet, entries, states);
      ChangedIndicesMembers(packet, init, states);
      var pidx := ChangedIndices(packet, init, states);
      var idx := ChangedIndices(packet, entries, states);
      assert idx == pidx + (if OldState(packet, states, e) != e.block then [|init|] else []);
      forall i | 0 <= i < |entries|
        ensures i in idx <==> OldState(packet, states, entries[i]) != entries[i].block
      {
        if i < |init| { assert init[i] == entries[i]; }
      }
    }
  }

  lemma {:induction false} ChangedIndicesEmbed(packet: SectionBlocksUpdatePacket, entries: seq<BlockChangeEntry>,
                                                states: seq<int>, waterlogged: int -> bool)
    requires IndicesInRange(packet, entries, states)
    ensures Embeds(ChangedIndices(packet, entries, states), EntriesOf(ChangedEntries(packet, entries, states, waterlogged)), entries)
  {
    if entries != [] {
      var init, e := entries[..|entries| - 1], entries[|entries| - 1];
      InitIndicesInRange(packet, entries, states);
      ChangedIndicesEmbed(packet, init, states, waterlogged);
      var prev := EntriesOf(ChangedEntries(packet, init, states, waterlogged));
      var pidx := ChangedIndices(packet, init, states);
      assert entries == init + [e];
      if OldState(packet, states, e) != e.block {
        assert ChangedIndices(packet, entries, states) == pidx + [|init|];
        assert ChangedEntries(packet, entries, states, waterlogged)
          == ChangedEntries(packet, init, states, waterlogged) + [SubChunkEntry(e, waterlogged(OldState(packet, states, e)) != waterlogged(e.block))];
        assert EntriesOf(ChangedEntries(packet, entries, states, waterlogged)) == prev + [e];
        EmbedsKeepLast(pidx, prev, init, e);
      } else {
        assert ChangedIndices(packet, entries, states) == pidx;
        assert ChangedEntries(packet, entries, states, waterlogged) == ChangedEntries(packet, init, states, waterlogged);
        EmbedsDropLast(pidx, prev, init, e);
      }
    }
  }

  /** `idx` holds exactly the positions of `entries` whose state differs from the snapshot. */
  ghost predicate AreChangedPositions(idx: seq<int>, packet: SectionBlocksUpdatePacket,
                                      entries: seq<BlockChangeEntry>, states: seq<int>)
    requires IndicesInRange(packet, entries, states)
  {
    forall i :: 0 <= i < |entries| ==> (i in idx <==> OldState(packet, states, entries[i]) != entries[i].block)
  }

  /** The legacy filter keeps every changed entry, each occurrence on its own: the kept
      entries are read off exactly the changed positions of the batch, in increasing order. */
  lemma KeptAtChangedPositions(packet: SectionBlocksUpdatePacket, entries: seq<BlockChangeEntry>,
                               states: seq<int>, waterlogged: int -> bool)
    requires IndicesInRange(packet, entries, states)
    ensures var sub := ChangedEntries(packet, entries, states, waterlogged);
      exists idx :: Embeds(idx, EntriesOf(sub), entries) && AreChangedPositions(idx, packet, entries, states)
  {
    ChangedIndicesMembers(packet, entries, states);
    ChangedIndicesEmbed(packet, entries, states, waterlogged);
    var idx := ChangedIndices(packet, entries, states);
    assert Embeds(idx, EntriesOf(ChangedEntries(packet, entries, states, waterlogged)), entries);
    assert AreChangedPositions(idx, packet, entries, states);
  }

  /** Every entry of `sub` is a change of `entries` whose state differs from the snapshot,
      flagged when the waterlogged property of old and new state differs. */
  ghost predicate OnlyChanges(sub: seq<SubChunkEntry>, packet: SectionBlocksUpdatePacket,
                              entries: seq<BlockChangeEntry>, states: seq<int>, waterlogged: int -> bool)
    requires IndicesInRange(packet, entries, states)
  {
    forall s :: s in sub ==>
      && s.entry in entries
      && 0 <= SectionIndex(packet, s.entry.position) < |states|
      && OldState(packet, states, s.entry) != s.entry.block
      && s.updateWaterlogged == (waterlogged(OldState(packet, states, s.entry)) != waterlogged(s.entry.block))
  }

  /** Every change of `entries` whose state differs from the snapshot is in `sub`, flagged. */
  ghost predicate AllChanges(sub: seq<SubChunkEntry>, packet: SectionBlocksUpdatePacket,
                             entries: seq<BlockChangeEntry>, states: seq<int>, waterlogged: int -> bool)
    requires IndicesInRange(packet, entries, states)
  {
    forall i :: 0 <= i < |entries| && OldState(packet, states, entries[i]) != entries[i].block ==>
      SubChunkEntry(entries[i], waterlogged(OldState(packet, states, entries[i])) != waterlogged(entries[i].block)) in sub
  }

  /** `sub` is the legacy filter's result over `entries`: only changed entries, correctly
      flagged; every changed entry; and read off exactly the changed positions in increasing
      order, so the batch order is kept and repeated changes are all kept. */
  ghost predicate KeepsExactlyTheChanges(sub: seq<SubChunkEntry>, packet: SectionBlocksUpdatePacket,
                                         entries: seq<BlockChangeEntry>, states: seq<int>, waterlogged: int -> bool)
    requires IndicesInRange(packet, entries, states)
  {
    && OnlyChanges(sub, packet, entries, states, waterlogged)
    && AllChanges(sub, packet, entries, states, waterlogged)
    && (exists idx :: Embeds(idx, EntriesOf(sub), entries) && AreChangedPositions(idx, packet, entries, states))
  }

  /** The legacy filter keeps only changed entries, correctly flagged, and every one of them. */
  lemma {:induction false} ChangedEntriesOnlyAndAll(packet: SectionBlocksUpdatePacket, entries: seq<BlockChangeEntry>,
                                                     states: seq<int>, waterlogged: int -> bool)
    requires IndicesInRange(packet, entries, states)
    ensures OnlyChanges(ChangedEntries(packet, entries, states, waterlogged), packet, entries, states, waterlogged)
    ensures AllChanges(ChangedEntries(packet, entries, states, waterlogged), packet, entries, states, waterlogged)
  {
    var sub := ChangedEntries(packet, entries, states, waterlogged);
    if entries != [] {
      var init, e := entries[..|entries| - 1], entries[|entries| - 1];
      assert entries == init + [e];
      InitIndicesInRange(packet, entries, states);
      ChangedEntriesOnlyAndAll(packet, init, states, waterlogged);
      var prev := ChangedEntries(packet, init, states, waterlogged);
      var before := OldState(packet, states, e);
      if before != e.block {
        assert sub == prev + [SubChunkEntry(e, waterlogged(before) != waterlogged(e.block))];
      } else {
        assert sub == prev;
      }
      forall i | 0 <= i < |entries| && OldState(packet, states, entries[i]) != entries[i].block
        ensures SubChunkEntry(entries[i], waterlogged(OldState(packet, states, entries[i])) != waterlogged(entries[i].block)) in sub
      {
        if i < |init| { assert init[i] == entries[i]; }
      }
    }
  }

  /** What the legacy filter keeps, in full. */
  lemma ChangedEntriesExact(packet: SectionBlocksUpdatePacket, entries: seq<BlockChangeEntry>,
                            states: seq<int>, waterlogged: int -> bool)
    requires IndicesInRange(packet, entries, states)
    ensures KeepsExactlyTheChanges(ChangedEntries(packet, entries, states, waterlogged), packet, entries, states, waterlogged)
  {
    ChangedEntriesOnlyAndAll(packet, entries, states, waterlogged);
    KeptAtChangedPositions(packet, entries, states, waterlogged);
  }

  /** On the legacy path a change goes into the sub-chunk packet exactly when the snapshot's
      state at its index differs from the new block, flagged when the waterlogged property
      of the two states differs; the kept changes stay in batch order, and every changed
      position of the batch contributes its own entry, repeated changes included. */
  lemma LegacyPathFiltersUnchanged(world: World, packet: SectionBlocksUpdatePacket)
    requires IsLegacyResend(world, packet)
    requires Translate(world, packet).completed
    ensures world.snapshot.Blocks? && IndicesInRange(packet, packet.entries, world.snapshot.states)
    ensures |SentSubChunks(Translate(world, packet).events)| == 1
    ensures KeepsExactlyTheChanges(SentSubChunks(Translate(world, packet).events)[0].entries,
                                   packet, packet.entries, world.snapshot.states, world.waterlogged)
  {
    BatchedSendsOneSubChunk(world, packet);
    var states := world.snapshot.states;
    var events := Translate(world, packet).events;
    assert SentSubChunks(events)[0] == events[1].packet;
    assert SentSubChunks(events)[0].entries == ChangedEntries(packet, packet.entries, states, world.waterlogged);
    ChangedEntriesExact(packet, packet.entries, states, world.waterlogged);
  }

  /** Off the legacy path, from 32 changes up, every change goes into the sub-chunk packet,
      in batch order, flagged. */
  lemma PartialPathKeepsAll(world: World, packet: SectionBlocksUpdatePacket)
    requires |packet.entries| >= BatchThreshold && !IsLegacyResend(world, packet)
    ensures |SentSubChunks(Translate(world, packet).events)| == 1
    ensures var sub := SentSubChunks(Translate(world, packet).events)[0].entries;
      && |sub| == |packet.entries|
      && (forall i :: 0 <= i < |sub| ==> sub[i] == SubChunkEntry(packet.entries[i], true))
  {
    BatchedSendsOneSubChunk(world, packet);
    var events := Translate(world, packet).events;
    assert SentSubChunks(events)[0] == events[0].packet;
  }

  // ---------------------------------------------------------------------------------------
  // The snapshot index

  /** Inside the section the snapshot index lies in [0, 4096), and distinct positions get
      distinct indices. */
  lemma SectionIndexInjective(packet: SectionBlocksUpdatePacket, p: Pos, q: Pos)
    requires InSection(packet, p) && InSection(packet, q)
    ensures 0 <= SectionIndex(packet, p) < SectionVolume
    ensures SectionIndex(packet, p) == SectionIndex(packet, q) ==> p == q
  {
  }

  /** A legacy resend whose changes all lie in the section and whose snapshot covers the
      section always completes. */
  lemma WellFormedLegacyResendCompletes(world: World, packet: SectionBlocksUpdatePacket)
    requires IsLegacyResend(world, packet)
    requires world.snapshot.Blocks? && |world.snapshot.states| == SectionVolume
    requires forall i :: 0 <= i < |packet.entries| ==> InSection(packet, packet.entries[i].position)
    ensures Translate(world, packet).completed
  {
  }
}
