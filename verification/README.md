# Geyser translation core, modelled in Dafny

Geyser is a proxy between Minecraft Bedrock clients and Java servers. This project models
three of its translators as pure functions over small datatypes, and proves what they do.

- **Crafting-table inventory translator** (`CraftingInventory`, `crafting_inventory.dfy`).
  It maps slot numbers between Bedrock and Java and classifies slots as output or normal. It
  also scans one batch of Bedrock slot-delta actions into a "from" list (items removed) and a
  "to" list (items added or unchanged). The batch is abandoned when an action on the
  ingredient-use container appears. The action resolver is called only when both lists are
  non-empty. Warnings and the resolver call are recorded in an effect log.
- **Section block-update translator** (`SectionBlocksUpdate`, `section_blocks_update.dfy`).
  It handles a Java batch of block changes inside one 16x16x16 section. Small batches go
  straight to the world cache. Larger ones become one Bedrock sub-chunk packet. A full-section
  resend, when the world manager has no chunk cache of its own, is filtered against a
  snapshot of the section. What the translator does is one trace of events: packets sent and cache writes, in
  order. `CacheAfter` replays the writes on a `map<Pos, int>`.
- **Command-request router** (`CommandRequest`, `command_request.dfy`). It drops the leading
  slash and the trailing whitespace of a Bedrock command. Then it runs the command locally,
  drops it as too long, or forwards it to the server.

`subsequences.dfy` (`Subsequences`) defines "order-preserving subsequence" by an increasing
index embedding. Both filtering translators are proved against this definition.

Collaborators the translators call are inputs. These are the base-class slot mappings, the
world manager's chunk-cache flag and block query, the waterlogged table, the Java-to-Bedrock
block mapping, plain-text conversion, the too-long check, and the registry's root commands.

Behaviour of the code that the model keeps:

- Batches under 32 changes: the translator itself sends no packet on this path. It only calls
  the world cache's `updateServerCorrectBlockState` for each change. What that call sends is
  not modelled (see "## Left out").
- World-data query failure: the query runs after the first-entry trigger packet has been
  sent. A failed translation therefore holds exactly that one packet, and nothing is written
  to the cache.
- The thresholds 32 and 4096 are constants in the code.
- Every entry the legacy path flags has a changed state id: the code skips every entry whose
  state id equals the snapshot's, before it computes the flag (`ChangedEntriesOnlyAndAll`).
- `javaSlotToBedrock` is not the inverse of `bedrockSlotToJava`. A grid ingredient in Bedrock
  slot `s` maps to Java slot `s + 1`, which maps back to `s + 1` (`IngredientLandsInGrid`).
- Empty plain text: removing the first character throws. The model keeps this as the outcome
  `SubstringOutOfBounds` instead of excluding the input.

## Model

| member | source | states |
|---|---|---|
| CraftingInventory.BedrockSlotToJava | connector/src/main/java/org/geysermc/connector/edition/mcee/network/translators/inventory/CraftingInventoryTranslator.java:86-93 | an ingredient-add action's Java slot is its Bedrock slot plus one; any other container id gets the base mapping's slot |
| CraftingInventory.JavaSlotToBedrock | connector/src/main/java/org/geysermc/connector/edition/mcee/network/translators/inventory/CraftingInventoryTranslator.java:95-101 | a Java slot below the declared size 10 keeps its number (negative ones too); from 10 up the base mapping decides |
| CraftingInventory.ContainerSlotsBijective | connector/src/main/java/org/geysermc/connector/edition/mcee/network/translators/inventory/CraftingInventoryTranslator.java:50-54 | on the container's own slots [0, 10) the Java-to-Bedrock mapping is a bijection onto [0, 10), whatever the base mapping is |
| CraftingInventory.IngredientLandsInGrid | connector/src/main/java/org/geysermc/connector/edition/mcee/network/translators/inventory/CraftingInventoryTranslator.java:86-108 | an ingredient placed in Bedrock slot 0..8 lands on Java slot 1..9: a normal slot, never the output, which the reverse mapping leaves as it is |
| CraftingInventory.GetSlotType | connector/src/main/java/org/geysermc/connector/edition/mcee/network/translators/inventory/CraftingInventoryTranslator.java:103-108 | Java slot 0 is the output slot; every other slot is normal |
| CraftingInventory.OutputActionJoinsScan | connector/src/main/java/org/geysermc/connector/edition/mcee/network/translators/inventory/CraftingInventoryTranslator.java:121-153 | an action on the crafting result's slot 0 from an examined source always takes part in the scan, and is in "from" exactly when items were taken out, in "to" otherwise |
| CraftingInventory.AbortIndex | connector/src/main/java/org/geysermc/connector/edition/mcee/network/translators/inventory/CraftingInventoryTranslator.java:115-137 | the scan stops at the first examined ingredient-use action: no action before that position aborts, and the action there does |
| CraftingInventory.TranslateActions | connector/src/main/java/org/geysermc/connector/edition/mcee/network/translators/inventory/CraftingInventoryTranslator.java:110-148 | the loop with its early return produces the reference effects: the warnings before an abort only, or all warnings followed by the resolver call when both lists are non-empty |
| CraftingInventory.AbortSuppressesResolver | connector/src/main/java/org/geysermc/connector/edition/mcee/network/translators/inventory/CraftingInventoryTranslator.java:136-137 | a batch holding an examined ingredient-use action never reaches the resolver, even when earlier actions filled both lists; only warnings are logged |
| CraftingInventory.UnexaminedSourceIgnored | connector/src/main/java/org/geysermc/connector/edition/mcee/network/translators/inventory/CraftingInventoryTranslator.java:116-142 | an action of a source kind outside the four examined ones, whatever its container id and including the ingredient-use one, leaves the batch's effects exactly as if it were absent |
| CraftingInventory.InertScan | connector/src/main/java/org/geysermc/connector/edition/mcee/network/translators/inventory/CraftingInventoryTranslator.java:121-140 | an action that neither takes part nor has an unknown id leaves both lists and the warnings as if it were absent |
| CraftingInventory.ResolverCalledOnceIff | connector/src/main/java/org/geysermc/connector/edition/mcee/network/translators/inventory/CraftingInventoryTranslator.java:145-147 | the resolver is called exactly once, with the two lists, when the batch has no abort and both lists are non-empty; otherwise it is not called |
| CraftingInventory.ListsPartitionParticipants | connector/src/main/java/org/geysermc/connector/edition/mcee/network/translators/inventory/CraftingInventoryTranslator.java:121-133 | the two lists together hold each participating action exactly as often as the batch does |
| CraftingInventory.ListMembership | connector/src/main/java/org/geysermc/connector/edition/mcee/network/translators/inventory/CraftingInventoryTranslator.java:115-142 | an action is in "from" iff it participates and its count dropped, in "to" iff it participates and its count did not drop; an ignored source kind or unknown id is in neither |
| CraftingInventory.FromActionsInOrder | connector/src/main/java/org/geysermc/connector/edition/mcee/network/translators/inventory/CraftingInventoryTranslator.java:128-130 | the "from" list is an order-preserving subsequence of the batch |
| CraftingInventory.ToActionsInOrder | connector/src/main/java/org/geysermc/connector/edition/mcee/network/translators/inventory/CraftingInventoryTranslator.java:131-132 | the "to" list is an order-preserving subsequence of the batch |
| CraftingInventory.UnknownIdOnlyWarns | connector/src/main/java/org/geysermc/connector/edition/mcee/network/translators/inventory/CraftingInventoryTranslator.java:138-139 | an unknown container id adds its warning and nothing else: both lists and whether the batch aborts are as if the action were absent, and the scan continues |
| CraftingInventory.CursorToInventoryResolves | connector/src/main/java/org/geysermc/connector/edition/mcee/network/translators/inventory/CraftingInventoryTranslator.java:111-148 | one item taken from the cursor and one added to the inventory call the resolver once with the two singleton lists |
| SectionBlocksUpdate.Translate | core/src/main/java/org/geysermc/geyser/translator/protocol/java/level/JavaSectionBlocksUpdateTranslator.java:38-95 | only the legacy path can fail, and then only the trigger packet was sent; a completed translation always ends with the write-back of the whole batch |
| SectionBlocksUpdate.SmallBatchOnlyWrites | core/src/main/java/org/geysermc/geyser/translator/protocol/java/level/JavaSectionBlocksUpdateTranslator.java:40-44 | under 32 changes the translation completes and its only events are the cache writes; the translator itself sends no packet on this path |
| SectionBlocksUpdate.BatchedSendsOneSubChunk | core/src/main/java/org/geysermc/geyser/translator/protocol/java/level/JavaSectionBlocksUpdateTranslator.java:47-94 | from 32 changes up a completed translation sends exactly one sub-chunk packet, with the incoming chunk coordinates; everything before the write-back is a send and the write-back follows the sub-chunk packet |
| SectionBlocksUpdate.SendsThenWrites | core/src/main/java/org/geysermc/geyser/translator/protocol/java/level/JavaSectionBlocksUpdateTranslator.java:89-94 | sending at most a single-block trigger and then the sub-chunk packet, followed by the write-back, yields exactly one sub-chunk packet for the section, with every cache write after it |
| SectionBlocksUpdate.TriggerOnlyOnLegacyPath | core/src/main/java/org/geysermc/geyser/translator/protocol/java/level/JavaSectionBlocksUpdateTranslator.java:54-62 | a legacy full resend first sends a single-block update for the first change's position and block; no other path sends a single-block update |
| SectionBlocksUpdate.ChangedEntriesOnlyAndAll | core/src/main/java/org/geysermc/geyser/translator/protocol/java/level/JavaSectionBlocksUpdateTranslator.java:73-82 | the legacy filter keeps only entries whose snapshot state differs from the new block, each flagged when the waterlogged property of old and new state differs, and every such changed entry appears |
| SectionBlocksUpdate.KeptAtChangedPositions | core/src/main/java/org/geysermc/geyser/translator/protocol/java/level/JavaSectionBlocksUpdateTranslator.java:73-82 | the kept entries are read off exactly the changed positions of the batch, in increasing order, so a change that occurs twice is kept twice |
| SectionBlocksUpdate.ChangedEntriesExact | core/src/main/java/org/geysermc/geyser/translator/protocol/java/level/JavaSectionBlocksUpdateTranslator.java:73-82 | the legacy filter's result is fixed: only and every changed entry, correctly flagged, read off exactly the changed positions in increasing order, so batch order and repeated changes are kept |
| SectionBlocksUpdate.LegacyPathFiltersUnchanged | core/src/main/java/org/geysermc/geyser/translator/protocol/java/level/JavaSectionBlocksUpdateTranslator.java:54-89 | a completed legacy translation had a snapshot covering every index, and its one sub-chunk packet holds the changed entries, one per changed position, correctly flagged, in batch order |
| SectionBlocksUpdate.PartialPathKeepsAll | core/src/main/java/org/geysermc/geyser/translator/protocol/java/level/JavaSectionBlocksUpdateTranslator.java:83-87 | off the legacy path, from 32 changes up, the sub-chunk packet holds every change in batch order, each flagged |
| SectionBlocksUpdate.SectionIndexInjective | core/src/main/java/org/geysermc/geyser/translator/protocol/java/level/JavaSectionBlocksUpdateTranslator.java:65-75 | for positions inside the section the index z + 16x + 256y (relative to chunk << 4) lies in [0, 4096) and distinct positions get distinct indices |
| SectionBlocksUpdate.WellFormedLegacyResendCompletes | core/src/main/java/org/geysermc/geyser/translator/protocol/java/level/JavaSectionBlocksUpdateTranslator.java:71-76 | a legacy resend whose changes lie in the section and whose snapshot has 4096 states always completes |
| SectionBlocksUpdate.WritesLastEntryWins | core/src/main/java/org/geysermc/geyser/translator/protocol/java/level/JavaSectionBlocksUpdateTranslator.java:92-94 | writing a batch in order leaves each of its positions holding the block of the last change for it and every other position unchanged |
| SectionBlocksUpdate.CompletedTraceWritesBatch | core/src/main/java/org/geysermc/geyser/translator/protocol/java/level/JavaSectionBlocksUpdateTranslator.java:89-94 | the packets a completed translation sends do not touch the cache; its effect on the cache is the write-back alone |
| SectionBlocksUpdate.CacheHoldsLastEntry | core/src/main/java/org/geysermc/geyser/translator/protocol/java/level/JavaSectionBlocksUpdateTranslator.java:40-94 | after a completed translation on any path, each position of the batch holds the block of its last change and positions outside the batch are unchanged |
| SectionBlocksUpdate.FailureWritesNothing | core/src/main/java/org/geysermc/geyser/translator/protocol/java/level/JavaSectionBlocksUpdateTranslator.java:71-76 | a translation that fails at the snapshot step leaves the cache unchanged |
| CommandRequest.StripTrailing | core/src/main/java/org/geysermc/geyser/translator/protocol/bedrock/BedrockCommandRequestTranslator.java:47-49 | the result is a prefix of the text, everything removed is whitespace, and the result does not end in whitespace |
| CommandRequest.FirstSpace | core/src/main/java/org/geysermc/geyser/translator/protocol/bedrock/BedrockCommandRequestTranslator.java:55-57 | the position of the first space: none before it, and a space there unless it is the end |
| CommandRequest.JavaSplitFirstIsRoot | core/src/main/java/org/geysermc/geyser/translator/protocol/bedrock/BedrockCommandRequestTranslator.java:55-57 | the first piece of `split(" ")` is the text before the first space, and a command not ending in a space always has a first piece |
| CommandRequest.Translate | core/src/main/java/org/geysermc/geyser/translator/protocol/bedrock/BedrockCommandRequestTranslator.java:41-72 | empty plain text fails; otherwise the handled command is the text after the first character with trailing whitespace stripped; it runs locally iff the platform is standalone or ViaProxy and its root is a registered root command; otherwise it is dropped iff too long, and sent to the server iff not |
| CommandRequest.HandledCommandIsNormalised | core/src/main/java/org/geysermc/geyser/translator/protocol/bedrock/BedrockCommandRequestTranslator.java:42-49 | the handled command is a prefix of the text after its first character, only whitespace follows it there, and it does not end in whitespace |
| CommandRequest.NoLocalRunElsewhere | core/src/main/java/org/geysermc/geyser/translator/protocol/bedrock/BedrockCommandRequestTranslator.java:51-52 | on a platform other than standalone or ViaProxy a command never runs locally |

## Left out

- `prepareInventory` and `closeInventory` are empty. `openInventory` only fills and sends a container-open packet, with a byte cast of the window id.
- `updateInventory` and `updateSlot` only delegate to the container updater. The updater is not part of this model.
- The base translator's default slot mappings are not part of this model. They are parameters of `BedrockSlotToJava` and `JavaSlotToBedrock`.
- The numeric values of the Bedrock container ids and the full list of inventory source kinds are not in the modelled files. Ids are named variants, with `OtherContainer(id)` for the rest. Source kinds other than the four examined ones are `OtherSource`.
- The action resolver (`InventoryActionDataTranslator.execute`) and the logger are recorded as effects, not performed.
- `applyEntry` is modelled as adding the change and its flag to the sub-chunk packet. Its Bedrock block definitions and extra water layer are not modelled.
- `updateServerCorrectBlockState` is modelled as a plain cache write, on every path. Whatever else it does, including any packet it sends to the client, is not part of this model.
- Packet fields beyond those named, and sending over the network, are not modelled. A sent packet is an event in the trace.
- The world manager's block query and chunk-cache flag, `BlockRegistries.WATERLOGGED` and the block mapping are inputs. A negative state id passed to the waterlogged bit set would throw in Java; the model treats the table as a total predicate.
- CraftingInventory.BedrockSlotToJava: the 32-bit wrap of `getSlot() + 1` at `Integer.MAX_VALUE` is not modelled. Slots are unbounded integers, because crafting-grid slots are small numbers.
- `SectionBlocksUpdate.SectionIndex`: 32-bit overflow of `chunk << 4` and of the index sum is not modelled. Integers are unbounded because world coordinates stay far from the 32-bit limits.
- `MessageTranslator.convertToPlainText`, `isTooLong` (including the message it sends to the player), the registry's root commands, `runCommand` and `sendCommand` are parameters or outcome values.
- `CommandRequest.Translate`: `substring(1)` removes one UTF-16 unit in Java. The model removes one Unicode scalar value. They differ only when the first character lies outside the Basic Multilingual Plane.
- `CommandRequest.IsWhitespace` follows `Character.isWhitespace` as of Unicode 13. Other Unicode versions may classify a few separators differently.
- Platforms other than standalone and ViaProxy are collapsed into one `OtherPlatform`.
- Translator dispatch by packet type, sessions and concurrency are not modelled. Each translation is one sequential call.
