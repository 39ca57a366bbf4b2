# Solari verification

A Dafny 4.11 model of the parts of Solari where state, arithmetic and branching carry the weight, with
proofs of what they promise. `dafny verify dfyconfig.toml` checks everything.

| part | modules |
|---|---|
| status-panel wire protocol: CRC, frame parser | `Bytes`, `Crc`, `CrcArithmetic`, `Framing`, `FramingSafety`, `FramingDelivery`, `FramingTiming`, `FramingMagic`, `PanelParser` |
| status-panel snapshot codec | `Records`, `Snapshot`, `Tlv`, `SnapshotCodec`, `PayloadLayout`, `PanelCodec` |
| topology layout: minimum spanning forest and depths | `Graphs`, `Kruskal`, `UnionFind`, `Bfs`, `Strings`, `Layout` |
| migration ledger | `Migrations` |
| stack closure and install order | `StackOrder` |
| refresh coalescing; inventory cache and paging | `Refresh`, `Inventory` |
| panel screens: link tree, host tiles | `LinkTree`, `Tiles` |
| SOA serials | `ZoneSerial` |
| shared | `Options`, `Sequences`, `Division`, `PanelSize` |

Two styles meet in most parts. What the source computes is first given as functions, predicates or a
step relation over values, and the theorems are about those. Where the source works in place, a class
or a loop then refines them: `PanelParser.Parser` over its 4104-byte array refines `Framing`,
`PanelCodec` writes and reads arrays exactly as `SnapshotCodec` says, `UnionFind.Sets` halves paths in
arrays, and `Layout`, `StackOrder`, `LinkTree`, `Tiles`, `Migrations` and `Inventory` have the source's
loops as methods.

`Framing.State` carries, besides the parser's own fields, where its buffer lies in the byte stream and
a log of the decision taken on every candidate. The stream theorems are about every run: every byte
stream, every division into chunks, every clock, and every checksum function (`Framing.Link` has the
checksum as a field; `PanelParser.PANEL` is the instance with the CRC).

## Where the source falls short of its own words

- The parser rules ask for a magic pair before every frame (status-panel/protocol.h:25-33). After a
  resynchronisation followed by an accepted frame the parser takes what follows without looking for
  one (status-panel/protocol.c:438-440). `FramingMagic.BareFrameDispatched` builds such a stream for
  every checksum. `FramingMagic.NothingRejectedIff` says from the bytes alone which prompt runs never
  reject a candidate, and `FramingMagic.WellFramedIsPaired` that these take every frame behind its
  pair. In every other run `FramingMagic.BareFrameSits` says where a frame without the pair can sit:
  straight after another accepted frame, with a rejection before.
- Feeding an empty chunk twice at one time can give up two candidates, because it does not refresh the
  clock: `FramingDelivery.EmptyFeedExpiresTwice` is such a run, and `FramingDelivery.EmptyFeedRepeats`
  has the exact condition.
- The refresh follow-up is promised to be a single one (dashboard/public/api.jsx:1396-1399). It settles
  with a fresh enough load whenever it settles, but `Refresh.CallerMayStarve` shows that for every n a
  caller may still be waiting after n completed loads. `Refresh.RerunOutcome` has the exact condition,
  and `Refresh.BecomesQuiet` says that everyone is served once nobody calls again.
- With a slug listed both locked and unlocked, the order of the list decides between a resolved order
  and a reported cycle (`StackOrder.OrderMatters`). `StackOrder.WaitsForItself` says exactly when a slug
  waits for itself, and `StackOrder.InputOrderIgnored` that the order of the list does not matter as
  long as the last stack of each slug stays the same, unique slugs included
  (`StackOrder.UniqueSlugsAgree`).
- More than 583 hosts leave the tile search without a candidate, and its initial one-by-one grid puts
  every host but the first outside the panel (`Tiles.Show`, an if-and-only-if).

## Model

| member | source | states |
|---|---|---|
| Bytes.Le16Inverse | status-panel/protocol.c:6-13 | two bytes read as a little-endian number and written back are the same bytes |
| Bytes.Le32Spelled | status-panel/protocol.c:12-13 | a written 32-bit number is its four bytes weighted 1, 256, 65536 and 16777216 |
| Crc.FeedByte | status-panel/protocol.c:40 | the eight-step inner loop is the byte step of the register |
| Crc.PanelCrc16 | status-panel/protocol.c:38-42 | the loops over a slice of a buffer compute the fold of its bytes from 0xffff |
| CrcArithmetic.CrcIsArithmetic | status-panel/protocol.c:38-42 | the checksum is the fold in 16-bit integer arithmetic with polynomial 0x1021 and start value 0xffff |
| Crc.FoldIsBitFold | status-panel/protocol.c:38-42 | the bytewise loop is one shift per message bit |
| Crc.BitFoldLinear | status-panel/protocol.c:38-42 | the loop is linear over xor in register and message together |
| Crc.FoldAffine | status-panel/protocol.c:38-42 | between messages of one length the change of the result depends only on the flipped bits |
| Crc.ClearingBits | status-panel/protocol.c:38-42 | up to 16 bits bring a register to zero only by spelling it out (the bit step is a bijection) |
| Crc.BurstLeavesMark | status-panel/protocol.c:38-42 | a nonzero difference of up to 16 bits between equal stretches leaves a nonzero difference of registers |
| Crc.BurstDetected | status-panel/protocol.c:38-42 | for every length, an error burst of at most 16 bits anywhere changes the CRC |
| Crc.AdjacentBytesDetected | status-panel/protocol.c:38-42 | inputs of one length that differ only within two adjacent bytes have different CRCs |
| Framing.FirstMagicIsFirst | status-panel/protocol.c:411 | the scan finds a magic pair and none lies before it |
| Framing.DroppedIsLeast | status-panel/protocol.c:411 | resync drops no magic pair, keeps a trailing first magic byte, and what it keeps opens with the pair or that byte |
| FramingSafety.TurnKeeps | status-panel/protocol.c:425-441 | one turn of the inner loop keeps the run invariant: the buffer is the stream's tail, decisions are true of the stream, in order and disjoint, and explain every earlier magic pair |
| FramingSafety.RunKeeps | status-panel/protocol.c:417-443 | that invariant holds after every sequence of chunks |
| FramingSafety.RunHasRoom | status-panel/protocol.c:422-424 | in every reachable state the buffer holds fewer than 4104 bytes |
| FramingSafety.Origins | status-panel/protocol.c:437 | callbacks correspond in order to the logged acceptances with version 1 and a known type |
| FramingSafety.DispatchIsSound | status-panel/protocol.c:411-443 | every dispatched frame is a contiguous region of the stream with version 1, known type, length at most 4096 and matching CRC, and regions are disjoint and in stream order |
| FramingSafety.TimeoutsAreGaps | status-panel/protocol.c:418-421 | in every run a timeout was a chunk that came more than 500 ms, by the wrapping clock, after the latest byte before it |
| FramingTiming.LateIffTimedOut | status-panel/protocol.c:418-421 | in every run, while bytes are held, the next decision is giving the candidate up if and only if the chunk comes more than 500 ms after the latest byte, and nothing else times out |
| FramingTiming.LateDelivery | status-panel/protocol.c:417-443 | after any run whose held bytes cannot start a frame, the encoded frames of a late chunk are dispatched exactly |
| FramingTiming.RunCounts | status-panel/protocol.c:411-433 | in every run the counters are the numbers of rejections and checksum errors modulo 2 to the 32 |
| FramingSafety.NoCandidateSkipped | status-panel/protocol.c:411-441 | every magic pair of the stream was itself rejected for a true reason (length, checksum, or a late chunk), lies in an accepted frame, or is still held |
| FramingSafety.IntactFrameNotRejected | status-panel/protocol.c:429-434 | a decision that covers an intact frame is its acceptance, a timeout, or an overlapping acceptance |
| FramingSafety.IntactFrameSurvives | status-panel/protocol.c:411-443 | in every run an intact frame is accepted as it stands or still held, unless a late chunk or an overlapping accepted frame took it |
| FramingSafety.PromptFrameSurvives | status-panel/protocol.c:411-443 | when no chunk is late, an intact frame is lost only to an overlapping accepted frame |
| FramingDelivery.PushAllAppend | status-panel/protocol.c:420-442 | consuming a concatenation is consuming its parts in turn |
| FramingDelivery.FeedSplits | status-panel/protocol.c:417-443 | feeding a ++ b at t equals feeding a then b at t, for nonempty a, in state and callbacks |
| FramingDelivery.EmptyFeedRepeats | status-panel/protocol.c:418-419 | repeating an empty feed changes nothing exactly when the first left nothing to expire |
| FramingDelivery.EmptyFeedExpiresTwice | status-panel/protocol.c:418-419 | a run in which two empty chunks at one time give up two candidates |
| FramingDelivery.PromptRun | status-panel/protocol.c:417-443 | chunking and clock do not matter while gaps stay within 500 ms |
| FramingDelivery.FrameLayout | status-panel/protocol.c:213-219 | a frame is magic, version 1, type, length, payload, and the checksum of everything from version to payload |
| FramingDelivery.NoisePasses | status-panel/protocol.c:422-424 | bytes without a magic pair leave an empty parser empty, up to a last first magic byte |
| FramingDelivery.FramePasses | status-panel/protocol.c:420-442 | an encoded frame is accepted whole, dispatched when of known type, and leaves the buffer empty |
| FramingDelivery.Delivery | status-panel/protocol.c:213-219 | any prompt chunking of encoded frames separated by pair-free noise dispatches exactly the known-type frames, in order, with no error counted |
| FramingMagic.NothingRejectedIff | status-panel/protocol.c:417-443 | a prompt run rejects nothing exactly when its bytes are well framed: every candidate found by scanning from the end of the one before is intact, the last perhaps incomplete |
| FramingMagic.WellFramedIsPaired | status-panel/protocol.h:25-33 | prompt, well-framed bytes are taken with every frame behind its magic pair |
| FramingMagic.MagicUntilRejection | status-panel/protocol.h:25-33 | in every run a frame accepted before anything was rejected follows a magic pair |
| FramingMagic.BareFrameSits | status-panel/protocol.c:438-440 | in every run a frame accepted without the pair starts where the accepted frame before it ends, and something was rejected earlier |
| FramingMagic.BareFrameDispatched | status-panel/protocol.c:438-440 | for every checksum some stream makes the parser dispatch a frame no magic pair precedes |
| PanelParser.BurstRejected | status-panel/protocol.c:427-434 | a good frame hit by a burst of at most 16 bits in version, type or payload is judged corrupt |
| PanelParser.Parser.constructor | status-panel/protocol.c:415 | a new parser is empty with all counters zero |
| PanelParser.Parser.FindMagic | status-panel/protocol.c:411 | the array scan stops at the first magic pair or at the end |
| PanelParser.Parser.Resync | status-panel/protocol.c:411 | the in-place move leaves exactly the resynchronised buffer and counts it |
| PanelParser.Parser.ShiftDown | status-panel/protocol.c:438-440 | the remainder after a frame is moved to the front unchanged |
| PanelParser.Parser.CrcMatches | status-panel/protocol.c:432 | the stored checksum is compared with that of the buffered bytes |
| PanelParser.Parser.Turn | status-panel/protocol.c:425-441 | one turn refines the specified turn, strictly shrinks the buffer, and returns what it dispatched |
| PanelParser.Parser.Drain | status-panel/protocol.c:425-441 | the inner loop ends and refines the specified one |
| PanelParser.Parser.Take | status-panel/protocol.c:421-424 | one byte is scanned or appended within the array and its time noted |
| PanelParser.Parser.Expire | status-panel/protocol.c:419 | a candidate older than 500 ms, by wrapping subtraction, is given up |
| PanelParser.Parser.Feed | status-panel/protocol.c:417-443 | every chunk changes the fixed buffer and fires callbacks exactly as the stream functions say |
| Records.NameRoundTrip | status-panel/protocol.c:15-35 | a name survives its wire field up to upper-casing, filtering and truncation, and the result encodes to the same field |
| Records.FieldSpells | status-panel/protocol.c:16-28 | the field character by character: `[A-Z0-9 .:-]` as it is, lower case in upper case, anything else as a dot, a final dot when cut, NULs behind |
| Records.SpellsUnique | status-panel/protocol.c:16-28 | that description fixes the field |
| Records.FieldIsPrintable | status-panel/protocol.h:269-271 | nothing but the character set and padding goes out, and a name within it and the width goes out byte for byte |
| Records.CaseIgnored | status-panel/protocol.c:22 | names equal up to ASCII case give the same field |
| Records.ReadNameSpelled | status-panel/protocol.c:31-35 | a read name is exactly the bytes before the first NUL |
| Records.RowsRoundTrip | status-panel/protocol.c:379-380 | rows of any lawful record codec survive encoding, whatever follows |
| Records.PoolRoundTrip | status-panel/protocol.c:379 | pool rows round-trip to canonical form |
| Records.SystemRoundTrip | status-panel/protocol.c:380 | system rows round-trip to canonical form |
| Records.TopAlertRoundTrip | status-panel/protocol.c:381 | the top alert round-trips to canonical form |
| Records.GearRoundTrip | status-panel/protocol.c:383 | gear rows round-trip |
| Records.LinkRoundTrip | status-panel/protocol.c:242-250 | link rows round-trip to canonical form |
| Records.SysxRoundTrip | status-panel/protocol.c:251-258 | extended system rows round-trip |
| Records.AlertRoundTrip | status-panel/protocol.c:259-269 | alert rows round-trip to canonical form |
| Records.ProbeRoundTrip | status-panel/protocol.c:270-278 | probe rows round-trip to canonical form |
| Snapshot.GlobalsRoundTrip | status-panel/protocol.c:377 | the fixed head of the payload round-trips |
| Tlv.Apply | status-panel/protocol.c:297-356 | a decoded section, well-formed or not, leaves every count within its maximum |
| Tlv.WalkIsFold | status-panel/protocol.c:359-366 | walking sections followed by a truncated one applies exactly those sections in order |
| Tlv.EveryTrailerSplits | status-panel/protocol.c:359-366 | every byte string is a sequence of sections and a truncated rest |
| Tlv.ApplyCommutes | status-panel/protocol.c:297-356 | sections with different tags commute |
| Tlv.PermutationIgnored | status-panel/protocol.c:297-366 | permuting sections with distinct tags changes nothing |
| Tlv.UnknownIgnored | status-panel/protocol.c:353-354 | inserting a section with an unknown tag changes nothing |
| SnapshotCodec.SectionsSize | status-panel/protocol.c:222-294 | the sections written take exactly the size announced |
| SnapshotCodec.SizeBound | status-panel/protocol.c:371-375 | with counts in range the payload never exceeds 3184 bytes, so only capacity can be lacking |
| SnapshotCodec.Payload | status-panel/protocol.c:369-386 | the payload has exactly the needed length |
| SnapshotCodec.Decode | status-panel/protocol.c:389-408 | decoding succeeds exactly on a well-formed base, and then all counts are within the maxima |
| SnapshotCodec.RoundTrip | status-panel/protocol.c:369-408 | decoding an encoded snapshot gives it back in canonical form |
| SnapshotCodec.ReencodeIsIdentity | status-panel/protocol.c:369-408 | encoding the canonical form gives identical bytes |
| SnapshotCodec.OnlyBaseDecides | status-panel/protocol.c:389-408 | the return code and the base fields depend only on the base layout |
| SnapshotCodec.HeadThenWalk | status-panel/protocol.c:401-406 | after a complete base and gear trailer the rest is walked as sections |
| SnapshotCodec.TrailerOrderIgnored | status-panel/protocol.c:359-408 | permuting distinct-tag sections or changing a truncated tail does not change the decoded snapshot |
| SnapshotCodec.UnknownSectionIgnored | status-panel/protocol.c:353-408 | an unknown section between any two others does not change the decoded snapshot |
| PayloadLayout.GlobalsPlaced | status-panel/protocol.h:245-267 | the 40-byte head of every payload, field by field |
| PayloadLayout.PoolsPlaced | status-panel/protocol.h:269-275 | pool i stands at 40 + 20i, field by field |
| PayloadLayout.SystemsPlaced | status-panel/protocol.h:277-282 | system i stands 16i behind the pools, field by field |
| PayloadLayout.TopAlertPlaced | status-panel/protocol.h:284-293 | the top alert stands behind the systems, field by field |
| PayloadLayout.GearPlaced | status-panel/protocol.c:382-383 | the gear count and row i behind it |
| PayloadLayout.SectionsPlaced | status-panel/protocol.c:384 | the rest of the payload is the sections |
| PayloadLayout.SectionSpelled | status-panel/protocol.c:235-237 | a section is its tag, its little-endian length and its value |
| PayloadLayout.SectionsAscend | status-panel/protocol.c:240-294 | exactly the sections a snapshot has are sent, in the order of their tags 1 to 7 |
| PayloadLayout.LinksPlaced | status-panel/protocol.c:242-250 | link row i at 1 + 24i of its section, field by field |
| PayloadLayout.SysxPlaced | status-panel/protocol.c:251-258 | extended system row i at 1 + 12i, field by field |
| PayloadLayout.AlertsPlaced | status-panel/protocol.c:259-269 | totals, fault counts, and alert row i at 9 + 34i, field by field |
| PayloadLayout.ProbesPlaced | status-panel/protocol.c:270-278 | probe row i at 1 + 14i, field by field |
| PayloadLayout.TotalsSpelled | status-panel/protocol.c:289-293 | the four totals in order |
| PayloadLayout.DecodesIff | status-panel/protocol.c:391-393 | decoding succeeds exactly for at most 8 pools, 64 systems, a flag of 0 or 1, and the length these call for |
| PayloadLayout.IncompleteGearIgnored | status-panel/protocol.c:401-403 | without a complete gear trailer neither gear nor any section is taken |
| PayloadLayout.CompleteGearTaken | status-panel/protocol.c:401-405 | a complete gear trailer is taken |
| PayloadLayout.MalformedIgnored | status-panel/protocol.c:297-356 | a section too short for its count, or with a count out of range, changes nothing |
| PayloadLayout.WellFormedTaken | status-panel/protocol.c:297-356 | any other known section sets its flag, its counts and its plain bytes |
| PanelCodec.WriteName | status-panel/protocol.c:16-28 | the loop leaves exactly the spelled-out field in the array and changes nothing else |
| PanelCodec.LoadName | status-panel/protocol.c:31-35 | the loop reads up to the first NUL or the field's end |
| PanelCodec.EncodeFrame | status-panel/protocol.c:213-219 | zero exactly for too long a payload or too small a buffer, leaving it alone; otherwise exactly the frame and nothing after it |
| PanelCodec.PutPools | status-panel/protocol.c:379 | the pool loop writes every row, its name through the name loop |
| PanelCodec.PutSystems | status-panel/protocol.c:380 | the system loop writes every row, its name through the name loop |
| PanelCodec.PutBase | status-panel/protocol.c:376-381 | globals, pools, systems and top alert are written to the array |
| PanelCodec.PutSections | status-panel/protocol.c:240-294 | the present sections are written in order to the array |
| PanelCodec.EncodeSnapshot | status-panel/protocol.c:369-386 | zero exactly for counts over the maxima or too small a buffer; otherwise every payload byte is written, whatever was there, and nothing after it |
| PanelCodec.LoadPools | status-panel/protocol.c:395 | the pool loop reads every row, its name through the name loop |
| PanelCodec.LoadSystems | status-panel/protocol.c:396 | the system loop reads every row, its name through the name loop |
| PanelCodec.ExtRead | status-panel/protocol.c:359-366 | the cursor loop is the walk over sections |
| PanelCodec.LoadTrailer | status-panel/protocol.c:401-406 | gear and sections are read only when complete |
| PanelCodec.DecodeSnapshot | status-panel/protocol.c:389-408 | -1 leaves the output untouched; 0 yields the decoded snapshot |
| Graphs.LabelsAreComponents | dashboard/public/layout.jsx:128-157 | merging labels edge by edge decides walk connectivity |
| Graphs.ForestCount | dashboard/public/layout.jsx:147-157 | each edge of a forest removes exactly one component |
| Graphs.ForestBound | dashboard/public/layout.jsx:147-157 | a forest that connects no more than another has no more edges |
| Kruskal.GreedySpans | dashboard/public/layout.jsx:150-157 | the kept edges are acyclic and connect exactly what all edges connect |
| Kruskal.AcrossKeepsForest | dashboard/public/layout.jsx:152 | an edge between two components keeps a forest acyclic |
| Kruskal.LayerSpans | dashboard/public/layout.jsx:118-157 | the edges kept up to each weight span all edges up to that weight |
| Kruskal.GreedyIsMinimum | dashboard/public/layout.jsx:118-157 | no spanning forest weighs less than the kept edges, whatever the weights |
| Kruskal.HeavyIsNeeded | dashboard/public/layout.jsx:118-157 | a tree edge heavier than w joins ends that the edges up to w do not connect |
| Kruskal.KeptIff | dashboard/public/layout.jsx:150-157 | an edge is kept exactly when the edges before it do not connect its ends |
| Kruskal.FullTreeStops | dashboard/public/layout.jsx:150 | stopping at n - 1 kept edges loses nothing |
| UnionFind.HalvingKeepsRoot | dashboard/public/layout.jsx:133 | a path-halving write keeps ranks rising towards the root and changes no root |
| UnionFind.LinkMovesTree | dashboard/public/layout.jsx:141-143 | hanging one root under another moves exactly its own tree |
| UnionFind.Sets.constructor | dashboard/public/layout.jsx:128-130 | every element starts as its own representative |
| UnionFind.Sets.Find | dashboard/public/layout.jsx:131-137 | the halving loop ends with the representative and changes no representative |
| UnionFind.Sets.Union | dashboard/public/layout.jsx:138-145 | two classes become one; false exactly when they were one already |
| Strings.LessTotal | dashboard/public/layout.jsx:41-46 | the comparison by UTF-16 code units is total |
| Strings.LessTransitive | dashboard/public/layout.jsx:41-46 | the comparison by UTF-16 code units is transitive |
| Strings.LessIsPrecedes | dashboard/public/layout.jsx:41-46 | it goes by the first differing code unit, a proper prefix coming first |
| Bfs.SettledIsDepth | dashboard/public/layout.jsx:209-229 | a settled labelling is the distance from the root, and -1 where no walk leads |
| Bfs.DepthUnique | dashboard/public/layout.jsx:209-229 | distance is unique |
| Bfs.Visit | dashboard/public/layout.jsx:218-226 | scanning one adjacency list keeps the search invariant and labels all neighbours |
| Bfs.Depths | dashboard/public/layout.jsx:209-229 | the queue loop computes every distance from the root |
| Layout.IndexNodes | dashboard/public/layout.jsx:65-73 | each id maps to the last node that bears it |
| Layout.Dedup | dashboard/public/layout.jsx:82-98 | one entry per unordered pair of different known nodes, with the least weight of its links |
| Layout.DedupedUnique | dashboard/public/layout.jsx:82-98 | that table depends only on the set of links |
| Layout.OrderEdges | dashboard/public/layout.jsx:100-126 | the entries are put in weight and id order |
| Layout.OrderUnique | dashboard/public/layout.jsx:118-126 | a set of edges has only one such order |
| Layout.Adjacency | dashboard/public/layout.jsx:105-116 | the lists hold exactly the neighbours along the edges |
| Layout.SpanningTree | dashboard/public/layout.jsx:128-157 | the union-find loop keeps exactly the greedy edges, early stop included, and lists their neighbours |
| Layout.ArrangedUnique | dashboard/public/layout.jsx:82-126 | the edge order depends only on the set of links |
| Layout.LayoutTreeIsMinimum | dashboard/public/layout.jsx:82-157 | the tree edges are a minimum spanning forest of the deduplicated links |
| Layout.TreeEdgeIff | dashboard/public/layout.jsx:82-157 | a deduplicated link is in the tree exactly when the lighter ones, and those of its weight first by the ids of their ends, do not connect its ends |
| Layout.PhysicalLinksFirst | dashboard/public/layout.jsx:30-35 | where the tree joins nodes that no uplink or attaches link joins, no route of such links connects them; the same with monitors links added |
| Layout.NoTreeNoEdges | dashboard/public/layout.jsx:231-234 | without a tree edge there is no edge, so the full-graph fallback changes nothing |
| Layout.DisconnectedIsMinusOne | dashboard/public/layout.jsx:207-250 | a depth is -1 exactly when no way along the links leads from the root to the node |
| Layout.AnswerUnique | dashboard/public/layout.jsx:82-234 | depths do not depend on the order or duplication of the links |
| Layout.ComputeDepths | dashboard/public/layout.jsx:62-234 | from raw links to depths, every node gets its tree distance from the root |
| Migrations.CheckHistory | tools/migrate.py:128-143 | accepts exactly the ledgers that record, as applied and with matching checksums, a prefix of the files, and returns the rest |
| Migrations.StepKeeps | tools/migrate.py:105-168 | every step of any runner, crashes included, keeps the ledger invariant |
| Migrations.LedgerIsPrefix | tools/migrate.py:105-168 | in every reachable state the rows are a prefix of the files with at most the last applying, and SQL files started in order, once each |
| Migrations.StartsInOrder | tools/migrate.py:156-168 | no SQL file starts twice, nor before every earlier file is recorded as applied |
| Migrations.CrashInterrupts | tools/migrate.py:156-168 | a runner that stops between inserting a row and marking it applied leaves the database interrupted |
| Migrations.InterruptedStays | tools/migrate.py:130-135 | once a migration is interrupted every step leaves ledger and SQL alone, and a runner that reads the ledger stops |
| Migrations.InterruptedForever | tools/migrate.py:105-168 | that holds over every later run of any runners |
| Migrations.CanComplete | tools/migrate.py:105-168 | from every reachable world that is idle and not interrupted a new runner has a run that records every file as applied |
| Migrations.UntrackedForever | tools/migrate.py:110-112 | a nonempty database without a ledger is never touched |
| Migrations.ApplyAll | tools/migrate.py:156-168 | the loop applies the unrecorded files in order, or stops at the first that fails and leaves it applying |
| Migrations.Migrate | tools/migrate.py:105-168 | an undisturbed run refuses exactly an untracked or unclean database, leaving it alone; otherwise everything is applied, or the first failing file is left applying |
| StackOrder.Index | dashboard/public/screens-prov.jsx:137-138 | the catalogue is built with later stacks replacing earlier ones |
| StackOrder.LastIsCatalogued | dashboard/public/screens-prov.jsx:137-138 | a slug stands for the last stack that bears it |
| StackOrder.Closure | dashboard/public/screens-prov.jsx:140-147 | the worklist computes the least known set that holds the seeds and is closed under dependencies |
| StackOrder.ClosureUnique | dashboard/public/screens-prov.jsx:140-147 | that set is unique |
| StackOrder.PickReady | dashboard/public/screens-prov.jsx:154-161 | the least ready slug by locked, sort order and slug, or nothing when all wait |
| StackOrder.GreedyIsOrdered | dashboard/public/screens-prov.jsx:156-164 | every prefix built is duplicate-free, within the closure, and has dependencies first |
| StackOrder.ResolvedUnique | dashboard/public/screens-prov.jsx:154-164 | the order is determined by catalogue, locked slugs and closure |
| StackOrder.CompleteIffPossible | dashboard/public/screens-prov.jsx:158-165 | the loop completes exactly when an install order exists, and then has one |
| StackOrder.ReportedAreBlocked | dashboard/public/screens-prov.jsx:160 | every reported slug has an unmet dependency among the reported ones |
| StackOrder.LockedFirst | dashboard/public/screens-prov.jsx:151 | in an install order all locked stacks precede all unlocked ones |
| StackOrder.NeedsFirst | dashboard/public/screens-prov.jsx:148-164 | whatever a placed slug names, and for an unlocked one every locked slug, is placed before it |
| StackOrder.NoCycleIffPlan | dashboard/public/screens-prov.jsx:158-165 | a cycle is reported exactly when no order of the closure places everything after what it names and after the locked ones |
| StackOrder.ReportedWaits | dashboard/public/screens-prov.jsx:160 | every reported slug waits, by its own fields, for a reported one |
| StackOrder.ResolvedIsSorted | dashboard/public/screens-prov.jsx:154-163 | a slug placed while another could have been has the earlier lock, then the smaller sort order, then the slug that comes first |
| StackOrder.IndependentIsSorted | dashboard/public/screens-prov.jsx:154-163 | a closure without dependencies comes out sorted by lock, sort order and slug |
| StackOrder.WaitsForItself | dashboard/public/screens-prov.jsx:148-153 | a slug waits for itself exactly when it depends on itself or is listed locked and, last, unlocked |
| StackOrder.MixedDuplicateBlocks | dashboard/public/screens-prov.jsx:138-160 | a slug that waits for itself is always reported |
| StackOrder.OrderMatters | dashboard/public/screens-prov.jsx:136-166 | one slug listed locked and unlocked resolves when the locked stack is last and is a cycle when it is first |
| StackOrder.ResolveOrder | dashboard/public/screens-prov.jsx:136-166 | the loops return the greedy order of the closure and report exactly what could not be placed |
| StackOrder.InputOrderIgnored | dashboard/public/screens-prov.jsx:136-166 | as long as the last stack of each slug is the same, the result depends only on which stacks and selections there are |
| StackOrder.UniqueSlugsAgree | dashboard/public/screens-prov.jsx:138 | lists with unique slugs and the same stacks meet that condition |
| Refresh.StepKeeps | dashboard/public/api.jsx:1392-1436 | every call, settlement and reaction keeps the protocol invariant |
| Refresh.Play | dashboard/public/api.jsx:1392-1436 | the invariant holds in every interleaving |
| Refresh.BoundedAtTwo | dashboard/public/api.jsx:1392-1436 | at most one load is pending, at most one follow-up unresolved, and its rerun is never lost |
| Refresh.NoStaleSnapshot | dashboard/public/api.jsx:1396-1406 | whatever load a caller's promise settles with began no earlier than the call |
| Refresh.RerunOutcome | dashboard/public/api.jsx:1402-1403 | a follow-up gets a load of its own exactly when nobody started one before it ran |
| Refresh.QuietIsServed | dashboard/public/api.jsx:1392-1436 | when no load is pending and no reaction left, both slots are free and every caller has its load |
| Refresh.BecomesQuiet | dashboard/public/api.jsx:1392-1436 | after any run, at most six steps without a further call make everything quiet |
| Refresh.CallersShare | dashboard/public/api.jsx:1400-1406 | callers that arrive while a follow-up is queued share it and start nothing |
| Refresh.CallerMayStarve | dashboard/public/api.jsx:1400-1406 | for every n a queued caller may still be waiting after n completed loads |
| Inventory.StepKeeps | dashboard/public/api.jsx:385-394 | every fetch, settlement and invalidation keeps the cache invariant |
| Inventory.NothingStale | dashboard/public/api.jsx:445-473 | in every run the cached snapshot, the shared load and whatever a caller is handed began after the latest invalidation |
| Inventory.SupersededIsInert | dashboard/public/api.jsx:460-471 | a load overtaken by an invalidation neither overwrites nor clears newer state |
| Inventory.OneLoadPerGeneration | dashboard/public/api.jsx:446 | two unsettled loads begun since the latest invalidation are the same |
| Inventory.BeganIff | dashboard/public/api.jsx:389-394 | a load is current exactly when no write came since the fetch that started it |
| Inventory.LoadHistory | dashboard/public/api.jsx:450-472 | a load starts with a fetch and is settled exactly by its success or failure |
| Inventory.SnapshotIsLatest | dashboard/public/api.jsx:461-467 | in every run the cached snapshot is that of the latest success of a current load, if no write came since |
| Inventory.FetchHandsOver | dashboard/public/api.jsx:445-473 | after any events: a running current load is shared even by force; otherwise a cached one is handed over if and only if the caller does not force and the latest success is less than 5000 ms old; else the load begins with this call |
| Inventory.AppendPage | dashboard/public/api.jsx:427-434 | a page is appended exactly when no id repeats |
| Inventory.GetList | dashboard/public/api.jsx:395-444 | succeeds with some rows exactly when the server's pages, each consistent and announcing their number, read as those rows with distinct ids within 100 pages and 100000 rows; an error says what was wrong with the next page |
| Inventory.UnchangedIsRead | dashboard/public/api.jsx:395-444 | a collection within the limits that does not change has such a reading: itself |
| LinkTree.EndsSoon | dashboard/public/screens-panel.jsx:585-588 | a parent walk that ends does so in fewer steps than there are nodes, so the step limit rejects no good walk |
| LinkTree.RootedOrCycle | dashboard/public/screens-panel.jsx:580-590 | a walk never ends exactly when it is on a cycle or leads into one |
| LinkTree.ParentOf | dashboard/public/screens-panel.jsx:580-590 | the stated parent for nodes that hang off a root, none for all others |
| LinkTree.DrawnIff | dashboard/public/screens-panel.jsx:580-590 | a node is drawn under its stated parent exactly when that is a node and the chain of stated parents leads out |
| LinkTree.Depth | dashboard/public/screens-panel.jsx:591-599 | the distance to the root, or zero when there is none |
| LinkTree.DrawnIsForest | dashboard/public/screens-panel.jsx:600-601 | for every parent array the drawn parents form a forest, each child one deeper than its parent |
| LinkTree.VisitPop | dashboard/public/screens-panel.jsx:606-610 | replacing a node by its children is one step of the recursive preorder |
| LinkTree.Order | dashboard/public/screens-panel.jsx:603-610 | the stack loop yields the preorder: every node once, each after its parent |
| LinkTree.SubtreesTogether | dashboard/public/screens-panel.jsx:603-610 | a node and everything below it stand together in the order |
| LinkTree.SiblingsInOrder | dashboard/public/screens-panel.jsx:605-609 | siblings, and roots, stand by increasing number |
| LinkTree.LeafToCome | dashboard/public/screens-panel.jsx:611-620 | whenever a node is placed fewer leaves were passed than there are |
| LinkTree.PlaceNodes | dashboard/public/screens-panel.jsx:611-620 | every node stands at its depth's column and the next leaf's row |
| LinkTree.ColumnsRise | dashboard/public/screens-panel.jsx:617 | columns rise with depth, strictly for at most 45 levels |
| LinkTree.ColumnEnds | dashboard/public/screens-panel.jsx:617 | roots stand in column 5, the deepest nodes in column 50 |
| LinkTree.RowsRise | dashboard/public/screens-panel.jsx:618 | rows rise with the leaves passed, between 1 and 9, strictly for at most nine leaves |
| LinkTree.RowsCentred | dashboard/public/screens-panel.jsx:618 | mirrored leaves stand equally far from the middle row, up to one row |
| LinkTree.Arrange | dashboard/public/screens-panel.jsx:580-651 | forest, preorder and coordinates together: every two-by-two glyph lies inside the 53 by 11 panel |
| Tiles.Choose | dashboard/public/screens-panel.jsx:318-344 | the search returns the first best candidate: largest tiles, then most gutters |
| Tiles.TileFits | dashboard/public/screens-panel.jsx:345-352 | each host's tile has the promised size, or one LED more in either direction, and lies inside the panel |
| Tiles.FirstTileExact | dashboard/public/screens-panel.jsx:345-352 | the first tile stands in the corner with exactly the promised size, and the last column and row end at the edges |
| Tiles.ReadingOrder | dashboard/public/screens-panel.jsx:345-352 | tiles follow each other as in reading, at least the gutters apart |
| Tiles.TilesApart | dashboard/public/screens-panel.jsx:345-358 | hosts whose tiles share an LED are the same host |
| Tiles.CandidateIff | dashboard/public/screens-panel.jsx:324-332 | a candidate grid exists exactly for at most 583 hosts |
| Tiles.Show | dashboard/public/screens-panel.jsx:316-358 | every host has LEDs of its own inside the panel if and only if there are at most 583, and then on the first grid with the largest tiles and most gutters |
| ZoneSerial.ChangeIsNewer | netdb/zone_serial.py:32-40 | a changed zone's serial is newer by section 3.2 of RFC 1982, across the wrap too: the date's when that is newer, otherwise the successor |
| ZoneSerial.LaterOfTheTwo | netdb/zone_serial.py:32-40 | the serial is the larger of date and successor exactly within half the range short of the wrap |
| ZoneSerial.RunStep | netdb/zone_serial.py:13-40 | after every run from any applied zone: the draft's content, the date's serial for a first zone, serial changes exactly with content and then forward, refusal exactly for a change dated beyond 32 bits, and restamping is the identity |
| ZoneSerial.OutOfRangeRefused | netdb/zone_serial.py:25-27 | a previous zone is itself the error exactly when its serial exceeds 32 bits |

## Left out

- React rendering, fixtures, mappers, routing, service worker and release tooling: user interface and plumbing.
- Floating-point layout (layout.jsx force refinement and radial placement), colours, animation and edge drawing on the panel.
- Layout.ComputeDepths: takes the root as a parameter; root selection (dashboard/public/layout.jsx:159-205) and the single-node shortcut (lines 75-80) are not modelled.
- The fixed-offset CONTROL, STATE, CONFIG, PROVISION, PROVACK and ACK codecs and `panelSeqNewer`: straight-line copies.
- Null-pointer checks and re-entrant frame callbacks.
- The snapshot structure is a value that methods take and return; output bytes are written to arrays in place. Apart from names of pools and systems, the field stores of one record are one copy of the record's bytes, and characters after a name's NUL are not kept.
- `Array.sort` is an insertion sort in `Layout.OrderEdges`, and the least ready slug is found by scanning in `StackOrder.PickReady`. Slugs that name members of `Object.prototype` are not modelled.
- `StackOrder.ResolveOrder` returns the empty set where the source returns null for no cycle.
- The check-only modes of tools/migrate.py, its database and process calls, and its default validation: a runner may stop at any step, which covers them.
- Inventory pages that are not of the expected shape at all (no array, no metadata), and `uploadReceipt`, which bypasses the invalidation.
- Link parents that are negative or fractional numbers.
- Regular-expression matching in `stampZone` (a zone is its text around the one serial slot) and `atomicWrite`.
- Network, clocks and randomness: times, server answers and dates are parameters.
