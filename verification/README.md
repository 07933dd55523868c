# The software GPU's command pipeline, modelled and proved

The runtime draws a console's graphics commands in software, with a pool of worker threads.
This project models the parts of it whose correctness rests on whole runs rather than on one
function, and proves what those parts are for.

**The render command queue** (`runtime/gxr.c`). One producer numbers draws, frame-buffer copies
and clears into a ring of 4,096 slots. N workers each run every command on the rows they own
(`y % N`). Nothing resets the counts; ordering comes only from fences that name commands by
number. `RenderQueue` is the state machine: a producer step is one claim, publish, token, hook
or drain, a worker step is one load of another worker's count or one row of one command, and the
steps interleave freely. `Commands` gives the meaning of the stream, one operation at a time, and
`QueueInvariant` says what every reachable state satisfies: each row of the frame buffer is the
one-at-a-time run's row after exactly its owner's count of commands, and each byte of memory is
that run's byte before the first command that has yet to store it. `QueueWorkers`, `QueueReads`,
`QueueRows`, `QueueProducer` and `QueuePublish` show that every step keeps it; `QueueTheorems`,
`QueueRaces` and `QueueRuns` draw the conclusions, and `QueueStale` is a run that goes wrong.
`OperationMeaning` says what one operation does without the rules that find a copy's rows.
`CopyGeometry` is the copies' tiled layout, `TexelFormats` a texel's bytes in each format, and
`CopiedTexture` the two together: a copy, decoded as a texture, gives the copied pixels.
`PendingCopies` the list of copies to memory, `QueueRing` the producer's counts and slots as a
class, `ScreenRing` the triple buffer the workers fill with screens, and `ScreenRuns` the queue
and that buffer as one machine.

**The texture cache** (`runtime/gxr_tev.c`). `TextureIndex` is the open-addressed index with its
gap-closing removal, `TextureCache` what a lookup shows over any run of writes, invalidates,
copies, palette loads, tokens, hooks and evictions, `TextureMemory` the cache as a class,
`TextureDecode` the two ways a picture is decoded, `Buffers` the graveyard and the vertex arena.
`TextureLevel` is the picture a lookup's own arguments ask for, `TextureEncoding` palette and
compressed textures written from their texels, `MipChain` the sizes of the levels. `Combiner` is the pixel's colour combiner: the
general stage loop and the direct arithmetic that stands in for it. `CombinerMeaning` says what a
stage computes, and `CombinerSetup` writes a setup into register words.

**The command stream** (`runtime/gx.c`). `CommandStream` is the resumable parser, `Capture` the
recording that inlines display lists, `CommandPipe` the pipe's buffer as a class. `StreamMeaning`
says what a stream does to the registers, and `StreamEncoding` writes streams from the commands
they are to be read as.

**Around them.** `FileTable`, `FileTableEncoding` and `BlockStore` (`runtime/disc.c`), `MemoryCard` and `CardFile`
(`runtime/exi.c`), `DisplayRate` (`runtime/interp_rate.h`) and `FramePairs` (`runtime/gxr.c`).

Classes stand where the source updates globals in place; each of their methods is tied to a
function on values, and the lemmas are about those functions. Machines with several threads are
step relations over values, with runs as sequences of states.

## Where the code falls short of its promise

Each of these is kept as the code has it, with how it goes wrong and exactly when.

- **A hook can uncover an older copy.** `gxr_hook_hazard` forgets every copy that overlaps the
  hook's range, but not an older copy beneath one of those that lies outside the range. The older
  copy is then named as the newest writer of bytes a later copy wrote
  (`PendingCopies.HookUncoversAnOlderCopy`), and its image may be drawn
  (`QueueRaces.UncoveringHookAllowsAStaleImage`; for any number of workers such a state is
  reached, `QueueStale.StaleImageReached`). The list stays honest if and only if the hook
  uncovers nothing (`PendingCopies.HookHonestIff`). Runs of the queue and of the texture cache have
  such hooks: the bytes are marked suspect (`PendingCopies.HookHonestBut`), and the queue's theorems
  hold of every run whose draws take no image over a suspect byte.
- **A texture can keep a torn picture.** A lookup that wants more mip levels in an epoch already
  hashed decodes again but keeps the old hash. If the bytes change, are looked up that way, and
  change back, the wrong picture outlives the next invalidate
  (`TextureCache.TornPictureOutlivesInvalidate`). A picture tears if and only if such a lookup
  meets a texture that would no longer hash as it did (`TextureCache.TearsExactly`); runs in which
  none does are right at every announced lookup (`TextureCache.RunsShowMemory`); and a lookup can
  make a later one wrong if and only if it decodes that way to a different picture
  (`TextureCache.TearMattersIff`).
- **An image outlives a write.** The guest's write over a copy still listed, followed by an
  invalidate, leaves the copy's image in use (`TextureCache.ImageOutlivesWrite`). The next lookup is wrong if and only if it takes that
  image and the write changes the picture (`TextureCache.ImageOutlivesWriteIff`).
- **A command longer than the pipe is lost.** A store that would overfill the 64 KB pipe drops
  what the pipe held (`CommandPipe.LongLoadIsLost`). The pipe loses bytes if and only if a store
  overfills it, which takes a command within six bytes of the pipe's size or longer
  (`CommandPipe.Pipe.Write`).
- **A capture need not replay.** A stray byte 0x41 at the top level is skipped live but read as an
  inlined list in a capture (`Capture.StrayRecordSwallowsCommands`). And a capture keeps lists as
  they were when called, but not the arrays that indexed loads read: a replay reads those in the
  frame's last memory, and loads what the guest put there since (`Capture.ChangedArrayDiffers`). A
  frame replays if and only if no command of its stream begins with that byte and every indexed
  load, in the stream or in a list carried out, finds the words it found live
  (`Capture.FrameReplays`, whatever memory does between stores; `Capture.CaptureReplays` of one
  stretch).
- **A card's changes are forgotten when its file cannot be opened.** `card_flush` drops the dirty
  range then (`CardFile.ForgottenProgram`). A flush leaves the file equal to the card if and only if
  the file is open or opens, and is then written whole for its size or every byte dropped before
  lies in the dirty range or is what was loaded; or the file does not open, is large enough, and
  nothing dropped differs from what was loaded (`CardFile.Card.Heals`, proved of
  `CardFile.Card.Flush`). So a later program mends an earlier one's loss only by covering it
  (`CardFile.MendedProgram`).

## Model

| member | source | states |
|---|---|---|
| `QueueTheorems.QueueRefinesSequential` | runtime/gxr.c:1856-2025 | For every N >= 1, stream and interleaving, with any hooks and with writes by the processor over finished copies, whose draws take no image over a suspect byte: with everything published finished and nothing half built, frame buffer, screen and memory are those of running the operations one at a time |
| `QueueTheorems.WorkerCountDoesNotShow` | runtime/gxr.c:1840-1935 | Two runs of the same operations with different numbers of workers end in the same picture and memory |
| `QueueTheorems.NextKeeps` | runtime/gxr.c:1937-2025 | Every producer and worker step keeps the invariant, the number of workers and the starting world |
| `QueueTheorems.WorkerFindsItsCommand` | runtime/gxr.c:1985-1996 | In every reachable state the slot of a published command a worker asks for holds that command: the mismatch branch is never taken |
| `QueueTheorems.SlotFreeWhenClaimed` | runtime/gxr.c:1856-1886 | When a slot is claimed, every earlier command that used it is finished by every worker, though only a stale lower bound is checked |
| `QueueTheorems.FurthestBehindRuns` | runtime/gxr.c:1909-1935 | The worker furthest behind has an enabled step: no fence or neighbour fence can hold it |
| `QueueTheorems.NoDeadlock` | runtime/gxr.c:1909-2025 | In every reachable state with an unfinished command some worker can step |
| `QueueTheorems.WaitsEnd` | runtime/gxr.c:1769-1789 | However workers are scheduled, at most Left(s) worker steps happen before all published commands are run: every wait and drain ends |
| `QueueRuns.RunsAreRaceFree` | runtime/gxr.c:1909-2025 | In every reachable state, what one worker is about to store no other worker is about to store or read |
| `QueueRuns.UnfinishedCopiesAreListed` | runtime/gxr.c:3848-3863 | Every copy to memory some worker has yet to finish is in the list, with a span holding each byte it stores, through drains, tokens and hooks |
| `QueueRuns.ProducerReadsFinished` | runtime/gxr.c:3571-3580 | Once the newest listed overlap of a span is finished, so is every copy that stores into the span |
| `QueueRuns.ProducerReadsSequential` | runtime/gxr.c:3571-3580 | Such a span holds exactly the bytes of running the stream one operation at a time |
| `QueueRuns.ScreensAreWhole` | runtime/gxr.c:3432-3437 | When the last worker has copied its rows of a screen copy, the screen is the one-at-a-time run's screen |
| `QueueRuns.NoneAFrameBehind` | runtime/gxr.c:3832-3833 | A worker at the copy that ends a frame has no worker a frame behind it: the entry fence gives the ring's counting step its guard |
| `QueueRuns.FramesAreSequential` | runtime/gxr.c:3232-3262 | The frame taken when the last worker's rows are done is the one-at-a-time run's frame of that number, and no worker has begun to end the next |
| `ScreenRuns.PresentedInOrder` | runtime/gxr.c:3217-3288 | In every run of queue and triple buffer together, each picture the presenter is shown is the one-at-a-time run's screen after the copy that ends the frame of its number, numbers rise, and one worker at most fills |
| `ScreenRuns.CountIsFenced` | runtime/gxr.c:3832-3833 | A worker that reaches the ring's count finds no worker a frame behind: the queue's entry fence is all the ring needs |
| `ScreenRuns.FillShows` | runtime/gxr.c:3242-3262 | What the filler copies out is that frame's screen, whole |
| `ScreenRuns.StepKeeps` | runtime/gxr.c:3242-3288 | Every step of the two together keeps both invariants and their coupling, and is a step of the ring or leaves it alone |
| `QueueRaces.StoresApart` | runtime/gxr.c:3818-3840 | Two workers about to store the same byte are the same worker |
| `QueueRaces.ImagesOver` | runtime/gxr.c:2937-2942 | A running draw samples no image of a copy some worker has yet to finish |
| `QueueRaces.UncoveringHookAllowsAStaleImage` | runtime/gxr.c:3594-3607 | After a hook that uncovers an older copy, a draw may take that copy's image though memory holds other bytes |
| `QueueStale.StaleImageReached` | runtime/gxr.c:3594-3607 | From any start and with any number of workers: two overlapping copies, run, and a hook over the second alone, leave the first's image usable though memory holds the second's byte |
| `QueueReads.RowsRead` | runtime/gxr.c:3832-3893 | A running copy reads, in its own and its neighbours' rows, what the one-at-a-time run reads, under only the fences the code sets |
| `QueueReads.TexturesRead` | runtime/gxr_tev.c:790-875 | A running draw's textures, decoded or images of queued copies, hold the one-at-a-time run's bytes |
| `Commands.TranslateMeans` | runtime/gxr.c:3749-3899 | Whatever N is, the commands an operation is split into mean the operation: a foreign copy with a clear becomes a copy and a separate clear |
| `Commands.ToMemory` | runtime/gxr.c:3096-3209 | A copy built from its registers stores exactly the bytes the layout writes, each in the row that layout gives it, inside the declared span |
| `OperationMeaning.ScreenCopyMeans` | runtime/gxr.c:3362-3397 | Row y of the screen is made of rows y, y + 1 and y + 2 of the rectangle with its edge rows doubled when the copy filters, and of the rectangle's row y alone when not; memory is left alone, and a clear fills the rectangle |
| `OperationMeaning.MemoryCopyMeans` | runtime/gxr.c:3096-3209 | Each stored byte is made of those rows, or in a half-scale copy of rows 2y and 2y + 1 of the rectangle, and the row above when it filters; no other byte changes |
| `OperationMeaning.TextureCopyMeans` | runtime/gxr.c:3096-3209 | The same of a copy built from its registers, for every byte of every texel |
| `OperationMeaning.DrawAndWriteMean` | runtime/gxr.c:3749-3899 | A draw shades each row by the bytes memory holds at its texels; a write changes one byte |
| `CopiedTexture.CopyLands` | runtime/gxr.c:3083-3209 | In a texture as wide as the stride says, or packed for a narrower stride, each byte of each texel is where a decode of that texture reads it |
| `CopiedTexture.SpanIsTiles` | runtime/gxr.c:3533-3550 | The declared span is exactly the copy's tiles, nothing for a format not written, and the copy stores exactly when every one of those tiles is in memory |
| `CopiedTexture.CopiedTextureDecodes` | runtime/gxr.c:3096-3209 | Decoding the texture a copy made gives, at every copied texel, the copied pixel rounded to the format |
| `TexelFormats.DecodedAs` | runtime/gxr_tev.c:433-492 | A stored pixel decodes to each channel's kept bits, spread over a byte again |
| `TexelFormats.CopyDecodes` | runtime/gxr.c:3190-3202 | Every channel comes back within the format's error: none, 3, 7, 15 or 31 |
| `TexelFormats.CopyIsStable` | runtime/gxr.c:3190-3202 | Copying a decoded texel stores the same bytes again |
| `TexelFormats.NeighbourKept` | runtime/gxr.c:3191-3191 | Of two 4-bit texels in a byte, storing one leaves the other |
| `CopyGeometry.TexelInSpan` | runtime/gxr.c:3533-3550 | The declared span holds every byte of every texel the copy stores |
| `CopyGeometry.RowsDisjoint` | runtime/gxr.c:3096-3209 | No byte is stored by two rows of one copy, for every format and destination stride |
| `CopyGeometry.TexelRow` | runtime/gxr.c:3083-3209 | Every byte of texel (x, y) is one the inverse layout gives to row y |
| `CopyGeometry.WrittenIsTexel` | runtime/gxr.c:3096-3209 | And the inverse invents nothing: each byte it calls written is a byte of a texel of that row |
| `CopyGeometry.WrittenInSpan` | runtime/gxr.c:3533-3550 | Written bytes lie in the declared span and in memory |
| `PendingCopies.NewestIsNewest` | runtime/gxr.c:3555-3562 | The search names a listed overlap newer than every other, or none when none overlaps |
| `PendingCopies.HookHonestIff` | runtime/gxr.c:3594-3607 | After a hook the list still names true newest writers exactly when the hook uncovers no older copy |
| `PendingCopies.HookHonestBut` | runtime/gxr.c:3594-3607 | After any hook the list is honest of every copy none of whose bytes it uncovered |
| `PendingCopies.HookUncoversAnOlderCopy` | runtime/gxr.c:3594-3607 | A concrete list where the hook makes an overwritten copy look like the newest |
| `PendingCopies.AppendHonest` | runtime/gxr.c:3848-3863 | Publishing a copy keeps the list ordered and honest |
| `PendingCopies.PendingList.Newest` | runtime/gxr.c:3555-3562 | The loop from the newest end finds the newest overlap, or -1 when there is none |
| `PendingCopies.PendingList.Add` | runtime/gxr.c:3848-3863 | A copy goes at the end, nothing else moves |
| `PendingCopies.PendingList.Forget` | runtime/gxr.c:3594-3607 | The in-place compaction leaves, in order, exactly the copies that do not overlap |
| `QueueRing.CommandRing.RanMin` | runtime/gxr.c:1754-1764 | The least of the workers' counts and what is published |
| `QueueRing.CommandRing.WaitRan` | runtime/gxr.c:1769-1789 | After it every worker is past the command; one not yet published is not waited for |
| `QueueRing.CommandRing.ClaimSlot` | runtime/gxr.c:1856-1886 | The slot gets the command's number and the machine's fences, no other slot changes, and no worker still runs what was there |
| `QueueRing.CommandRing.Drain` | runtime/gxr.c:2323-2364 | Afterwards every worker's count is what is published |
| `ScreenRing.FillerNeverWritesTheTakersSlot` | runtime/gxr.c:3242-3262 | In any run the slot filled is neither the published one nor the presenter's |
| `ScreenRing.OneFiller` | runtime/gxr.c:3432-3437 | Only one worker at a time fills |
| `ScreenRing.QuietRing` | runtime/gxr.c:3217-3262 | Between fills the slots are a permutation and published = taken + missed + (1 if one is unread) |
| `ScreenRing.FramesInOrder` | runtime/gxr.c:3275-3288 | A take gets the newest frame; frames are shown in order, none twice |
| `ScreenRing.NextKeeps` | runtime/gxr.c:3242-3288 | Every step of a worker or the presenter keeps the ring's invariant |
| `TextureIndex.EmptySlot` | runtime/gxr_tev.c:675-688 | With 1,024 entries in 2,048 slots there is always an empty slot, so every probe ends |
| `TextureIndex.WalkIsComplete` | runtime/gxr_tev.c:675-681 | A walk that ends at an empty slot has passed every slot that could hold the key |
| `TextureIndex.AddKeeps` | runtime/gxr_tev.c:683-688 | A key put in its walk's first empty slot is added to the map, and every other key is still found |
| `TextureIndex.KeyStays` | runtime/gxr_tev.c:694-709 | A key the gap-closing test leaves where it is needs no slot before the gap |
| `TextureIndex.KeyMoves` | runtime/gxr_tev.c:694-709 | Moving a key back into the gap moves the gap and breaks no other walk |
| `TextureIndex.GapEnds` | runtime/gxr_tev.c:694-709 | At the next empty slot the table is whole again |
| `TextureIndex.KeyIndex.Find` | runtime/gxr_tev.c:675-681 | Finds the key's entry exactly when the map has the key |
| `TextureIndex.KeyIndex.Add` | runtime/gxr_tev.c:683-688 | The map gains the key; no entry is lost |
| `TextureIndex.KeyIndex.Remove` | runtime/gxr_tev.c:694-709 | The map loses exactly that key |
| `TextureCache.RunsShowMemory` | runtime/gxr_tev.c:790-875 | Over any run in which no lookup tears the picture, announced or not, every lookup made with its writes announced, none of them over a copy still listed, shows what decoding memory and palette now would |
| `TextureCache.AnnouncedRunsShowMemory` | runtime/gxr_tev.c:790-875 | From the renderer's start, over any run whose writes are announced before each lookup, every lookup shows it |
| `TextureCache.LookupShowsMemory` | runtime/gxr_tev.c:790-875 | One lookup of a sound entry shows memory unless its bytes were written unannounced, over a listed copy, or its picture is torn |
| `TextureCache.TearsExactly` | runtime/gxr_tev.c:790-875 | A picture tears exactly at a lookup for more levels, in an epoch already hashed, of a texture that would no longer hash as it did |
| `TextureCache.TearsUnannounced` | runtime/gxr_tev.c:790-875 | Which happens only between a write and its announcement |
| `TextureCache.TearMattersIff` | runtime/gxr_tev.c:790-875 | A lookup leaves every later announced lookup right, in all runs without another tear, exactly unless it decodes again for more levels to a different picture |
| `TextureCache.ImageOutlivesWriteIff` | runtime/gxr_tev.c:790-875 | After a write over the texture and an invalidate, the next lookup is right exactly unless it takes a listed copy's image and the write changes the picture |
| `TextureCache.ImageOutlivesWrite` | runtime/gxr_tev.c:790-915 | From the renderer's start: a copy makes the texture's image, the guest writes one of its bytes and invalidates, and the next lookup shows the copy's picture |
| `TextureCache.TornPictureOutlivesInvalidate` | runtime/gxr_tev.c:790-875 | A run of three lookups after which, with every write announced, the wrong picture is shown |
| `TextureCache.CopyKeeps` | runtime/gxr_tev.c:100-110 | A queued copy, which moves the epoch and is listed, keeps every entry sound |
| `TextureCache.LoadKeeps` | runtime/gxr_tev.c:325-346 | A palette load keeps every entry sound, though it moves no epoch |
| `TextureCache.HookKeeps` | runtime/gxr.c:3594-3607 | A hook keeps every entry sound, with what it uncovers marked suspect |
| `TextureCache.PackedSpan` | runtime/gxr_tev.c:223-234 | A packed copy's declared span is its texture's size in bytes |
| `TextureMemory.Cache.Take` | runtime/gxr_tev.c:731-771 | A free entry, else a dropped one, else the least recently used; the index loses exactly its key |
| `TextureMemory.Cache.Refresh` | runtime/gxr_tev.c:790-875 | The entry becomes the one the value model looks up, nothing else changes, and an image is fenced on its copy while a decode has waited for every copy it reads |
| `TextureMemory.Cache.Lookup` | runtime/gxr_tev.c:790-875 | Returns the entry of the key asked for, showing the level that its own arguments name in memory as it is, when that lies in memory and its writes are announced; an image is fenced on its copy, and a decode has waited for every copy it reads |
| `TextureMemory.LookupTwice` | runtime/gxr_tev.c:790-805 | Two lookups with nothing between them get one entry exactly when they ask for the same address in the window, format and size and, of a palette format, the same palette |
| `TextureLevel.KeyLevelIs` | runtime/gxr_tev.c:494-562 | Decoding the bytes a key covers gives the picture that guest and texture memory hold under its fields |
| `TextureLevel.KeyLevelAsked` | runtime/gxr_tev.c:798-803 | The key a lookup files its arguments under names the picture of the arguments themselves |
| `TextureLevel.KeysShared` | runtime/gxr_tev.c:798-803 | Two lookups share a key exactly when they ask for the same picture's address in the window, format, size and, where it is read, palette |
| `TextureEncoding.PixelAt` | runtime/gxr_tev.c:541-559 | The picture's pixels are in rows, four channels together |
| `TextureEncoding.IndexedTexel` | runtime/gxr_tev.c:473-485 | Where a tile was written from chosen palette entries, its texels are the colours of those entries, for all three palette formats |
| `TextureEncoding.EntryDecodes` | runtime/gxr_tev.c:356-386 | A palette entry is the colour it was stored from, rounded to the palette's format |
| `TextureEncoding.BlockTexel` | runtime/gxr_tev.c:396-430 | A compressed block's texel is the one of its four colours chosen for it, the two in between being means of the first two |
| `TextureEncoding.FourBlocks` | runtime/gxr_tev.c:518-531 | A compressed tile is its four blocks, left to right and then down |
| `TextureMemory.Cache.LoadPalette` | runtime/gxr_tev.c:325-346 | The bytes arrive, and every decode they may reach is hashed again; a load that does not fit changes nothing |
| `TextureMemory.Cache.CopyImage` | runtime/gxr_tev.c:882-915 | The texture's entry holds the image the workers will make of what memory will hold |
| `TextureMemory.Cache.DropAll` | runtime/gxr_tev.c:211-219 | No decode is left |
| `MipChain.ChainIs` | runtime/gxr_tev.c:775-788 | The levels made, and the bytes waited for, are of every half of the texture's size down to one texel, or of as many as were asked for |
| `TextureMemory.WaitCovers` | runtime/gxr_tev.c:775-875 | Waiting for the newest copy over the whole mip chain waits for every copy over the base |
| `TextureDecode.DecodeRow` | runtime/gxr_tev.c:608-628 | Every texel of the row, at its place, and no other row |
| `TextureDecode.DecodeLevel` | runtime/gxr_tev.c:494-562 | Every texel whose tile is in memory, at its place |
| `TextureDecode.DecodeRows` | runtime/gxr_tev.c:608-628 | Rows decoded one by one in any order make the whole decode's picture |
| `Combiner.DirectIsGeneral` | runtime/gxr_tev.c:1333-1465 | For every recognised one-stage setup, raster colour, texel and constant, the direct arithmetic gives the stage loop's four bytes |
| `Combiner.RegistersBounded` | runtime/gxr_tev.c:1333-1465 | Registers stay within eleven signed bits through any stages, and the constants of the bank are never written |
| `Combiner.Prepared` | runtime/gxr_tev.c:1022-1148 | Whatever the register words, the setup made of them is one the pixel path may run |
| `Combiner.AlphaAlways` | runtime/gxr_tev.c:1011-1020 | Says yes exactly when the alpha test passes for every alpha |
| `Combiner.StageInPlace` | runtime/gxr_tev.c:1333-1465 | One stage updates the bank as the value model's stage does |
| `Combiner.Pixel` | runtime/gxr_tev.c:1333-1465 | Fast or not, the pixel's colour and alpha verdict are the general combiner's |
| `CombinerMeaning.ColourSelected` | runtime/gxr_tev.c:943-956 | Each colour selector names its register, texel, raster colour, constant or number |
| `CombinerMeaning.AlphaSelected` | runtime/gxr_tev.c:958-963 | Each alpha selector likewise |
| `CombinerMeaning.StageMeans` | runtime/gxr_tev.c:1333-1465 | Every stage, blending or comparing, of any bias, operation, scale and clamp, does what the relations between its operands and results say |
| `CombinerMeaning.PixelMeans` | runtime/gxr_tev.c:1333-1465 | A pixel is what a chain of such stages leaves in the first register, held to bytes |
| `CombinerMeaning.StageOnce` | runtime/gxr_tev.c:1333-1465 | And those relations allow one result only |
| `CombinerMeaning.BlendEnds` | runtime/gxr_tev.c:1403-1420 | A blend at weight 0 is its first operand exactly, at 255 its second, and otherwise lies between them |
| `CombinerMeaning.AddsAndSubtracts` | runtime/gxr_tev.c:1403-1420 | Unscaled and where neither saturates, the adding and the subtracting stage sum to twice the operand and bias |
| `CombinerMeaning.AlphaTestMeans` | runtime/gxr_tev.c:1302-1331 | A compare mode's bits say whether less, equal and more pass; the logic how many of the two may |
| `CombinerSetup.StageRead` | runtime/gxr_tev.c:1038-1060 | A stage's choices written into the register words are read back |
| `CombinerSetup.ProgramRead` | runtime/gxr_tev.c:1022-1060 | And so is a whole setup: stages, swap table, constants, registers and alpha test |
| `CommandStream.SizedOfPrefix` | runtime/gx.c:502-612 | A whole command's own bytes show that it is whole |
| `CommandStream.SizedMonotone` | runtime/gx.c:502-612 | And bytes after it do not change its length |
| `CommandStream.ParseJoins` | runtime/gx.c:502-640 | Parsing two stretches in turn, the first's remainder put before the second, is parsing them whole |
| `CommandStream.SplitDoesNotShow` | runtime/gx.c:629-696 | Any split into stores gives the same registers, loads, draws, calls and unparsed bytes |
| `CommandStream.NestedCallsOnlyCount` | runtime/gx.c:548-587 | A list call inside a list runs nothing |
| `StreamMeaning.RegistersFollow` | runtime/gx.c:502-612 | After any parse each register of the three sets holds the value of the last event told that loaded it, or what it held before |
| `StreamMeaning.MaskedLoad` | runtime/gx.c:453-462 | A masked load changes the bits of its mask and no others, and the mask then lapses |
| `StreamEncoding.VertexSizeIs` | runtime/gx.c:400-431 | A vertex is as long as its attributes, one after the other, as the descriptor and format registers lay them out |
| `StreamEncoding.WrittenSays` | runtime/gx.c:400-431 | Registers written from a layout say that layout |
| `StreamEncoding.OneReads` | runtime/gx.c:502-612 | Each load, indexed load in memory or outside it, call, draw and unknown byte, written as bytes, is read as itself and whole |
| `StreamEncoding.AllRead` | runtime/gx.c:502-612 | A stream written from any list of them, lists within calls included, tells exactly that list and leaves nothing |
| `Capture.RecordRuns` | runtime/gx.c:277-292 | Carrying out a command's record is carrying out the command when its indexed loads find the same words; when not, the renderer is told something else at some one place |
| `Capture.CaptureReplays` | runtime/gx.c:847-881 | For any two memories, a capture and a cut-off command's bytes replay to the live parse's registers, loads, draws and remainder exactly when no command begins with the record's byte and every indexed load finds the same words; otherwise even the loads and draws told differ |
| `Capture.FrameReplays` | runtime/gx.c:801-881 | The same, both ways, of a frame of stores with memory as it was at each, replayed in the frame's last memory from the registers saved at the screen copy that began it |
| `Capture.SteadyFrame` | runtime/gx.c:629-696 | While memory does not change, the split into stores shows in neither the parse nor the capture |
| `Capture.ChangedArrayDiffers` | runtime/gx.c:526-546 | A stream that is its own capture and whose replay loads an array's new word |
| `Capture.StrayRecordSwallowsCommands` | runtime/gx.c:548-587 | A stream whose capture replays without one of its register loads |
| `CommandPipe.Pipe.Write` | runtime/gx.c:680-696 | The pipe holds the unparsed suffix of what was fed, with memory as it was at each store, and the capture its records; bytes are lost exactly when a store would overfill it, and then the command begun is within six bytes of the pipe's size or longer |
| `CommandPipe.Pipe.Flush` | runtime/gx.c:629-640 | Parses the whole commands held, moves the rest to the front, and records the commands |
| `CommandPipe.Pipe.InlineList` | runtime/gx.c:277-292 | The call is cut out of the capture, its record put there, and what followed it kept |
| `CommandPipe.LongLoadIsLost` | runtime/gx.c:680-696 | A run: a load of 0x4000 registers in stores of eight bytes is lost, unparsed, at the store of its 65,537th byte |
| `CommandPipe.LongLoadNeverWhole` | runtime/gx.c:502-612 | A load of 0x4000 registers is never whole in the pipe |
| `FileTable.IndexIsRecursiveWalk` | runtime/disc.c:451-507 | The table of a tree is indexed exactly when the tree fits the stack and path, with the recursive walk's paths, and as many files as the tree has |
| `FileTable.WalkOfNodes` | runtime/disc.c:451-507 | Walking the entries of some nodes inside open directories is walking the nodes recursively |
| `FileTable.FilesInOrder` | runtime/disc.c:451-507 | Each file comes once: entry numbers rise |
| `FileTable.Place` | runtime/disc.c:451-507 | One entry keeps the stack of ends and prefixes and the path buffer in step with the open directories |
| `FileTable.IndexFst` | runtime/disc.c:451-507 | For any bytes: refuses exactly when the walk does, else the extents and the name pool are the walk's files |
| `FileTableEncoding.TableDescribes` | runtime/disc.c:451-507 | A table written from a tree, entries and names, describes that tree |
| `FileTableEncoding.TableReadsBack` | runtime/disc.c:451-507 | So it is indexed as exactly the tree's files, with their paths, places and sizes, when the tree fits, and refused when not |
| `FramePairs.WalkIsComplete` | runtime/gxr.c:2469-2477 | A walk that meets no such key before an empty slot, or all round, shows there is none |
| `FramePairs.ChainGrows` | runtime/gxr.c:2488-2521 | A record linked behind the tail extends its key's chain |
| `FramePairs.TakenKeeps` | runtime/gxr.c:2533-2577 | Taking a record out of the middle keeps every chain whole and apart from the others |
| `FramePairs.PlacesApart` | runtime/gxr.c:2488-2521 | No two draws' positions overlap, and all fit |
| `FramePairs.Frame.SlotOf` | runtime/gxr.c:2469-2477 | The key's slot or the first empty one of its walk; never neither while records are fewer than slots |
| `FramePairs.Frame.Claim` | runtime/gxr.c:2488-2521 | The draw is recorded last in its key's chain unless the frame is full, and no other record changes |
| `FramePairs.Frame.Match` | runtime/gxr.c:2533-2577 | None exactly when none of the key is left, else the nearest of the first 32, which is left no more |
| `FramePairs.Pairing.Draw` | runtime/gxr.c:2488-2577 | Each record is matched at most once, by a draw of its key and count; matched, unmatched and demoted add up to the keyed draws |
| `FramePairs.Pairing.Rotate` | runtime/gxr.c:2671-2683 | The current frame becomes the one before, a new one begins |
| `MemoryCard.TransfersJoin` | runtime/exi.c:496-530 | However transfers split a stream of bytes, the card's state and answers are the same |
| `MemoryCard.BitsOnlyClear` | runtime/exi.c:257-327 | Without an erase bits only go from 1 to 0 |
| `MemoryCard.ChangesAreDirty` | runtime/exi.c:155-164 | Whatever a stream changes lies in the dirty range, which only widens |
| `MemoryCard.ProgramReadsBack` | runtime/exi.c:257-327 | What is programmed reads back anded with what was there: exactly as sent on erased flash |
| `MemoryCard.EraseBlanks` | runtime/exi.c:301-321 | A sector erase blanks the sector its two bytes name and no other byte, a chip erase the card, whatever is sent after |
| `MemoryCard.ErasedProgramReadsBack` | runtime/exi.c:257-327 | On a sector just erased, what is programmed reads back as it was sent |
| `MemoryCard.Identity` | runtime/exi.c:274-279 | Asked, the card gives its four device bytes, most significant first and again, and its maker's three |
| `MemoryCard.StatusClears` | runtime/exi.c:257-282 | The status reads as it is; clearing it takes the two error bits and the interrupt line and nothing else |
| `MemoryCard.InterruptSet` | runtime/exi.c:257-327 | One bit of a set-interrupt command says whether the end of a write raises the interrupt |
| `CardFile.Card.constructor` | runtime/exi.c:117-140 | The flash is the file's bytes, blank beyond them |
| `CardFile.Card.Byte` | runtime/exi.c:257-327 | One byte's effect on registers, flash and dirty range, keeping file and card equal outside it |
| `CardFile.Card.Flush` | runtime/exi.c:171-195 | Nothing is dirty after it; the file changes by the dirty range, or is written whole; a file that cannot be opened loses the range; and it leaves file and card equal exactly under a condition on the open, the file's size, the range and what was dropped |
| `CardFile.Card.Deselected` | runtime/exi.c:343-352 | The end of a program or erase writes through and raises the interrupt once |
| `CardFile.Card.Select` | runtime/exi.c:563-574 | Leaving the card, the file is the card exactly when the flush's condition held, which is when it is large enough and every dropped byte is as it was loaded |
| `CardFile.ForgottenProgram` | runtime/exi.c:171-195 | A program with the open failing leaves the file equal to the card exactly when it changed nothing and the file is large enough |
| `CardFile.MendedProgram` | runtime/exi.c:171-195 | A second program with the open succeeding mends that exactly when the file is of another size, the byte is the same, or nothing was changed |
| `CardFile.Card.Dma` | runtime/exi.c:362-378 | The same stream of bytes as immediate transfers, dropped whole when it passes memory's end |
| `BlockStore.MarkOne` | runtime/disc.c:1010-1042 | Setting block k's bit marks block k and no other |
| `BlockStore.Store.VerifyBlocks` | runtime/disc.c:1010-1042 | Passes exactly when every block touched is intact, names a bad one otherwise, and hashes none twice |
| `BlockStore.Store.Check` | runtime/disc.c:998-1042 | A block is hashed only if not marked, and marked only if intact |
| `BlockStore.Store.Serve` | runtime/disc.c:1075-1080 | With checking on, served exactly when every byte's block is intact, each hashed before; the bytes are the image's, zero past its end |
| `DisplayRate.WeightsRise` | runtime/interp_rate.h:21-32 | One to eight weights rise in (0, 1], and the last is 1 exactly when the frame ends on a refresh |
| `DisplayRate.ImagesOnTime` | runtime/interp_rate.h:4-11 | Over any run image i falls at game time 30 i / hz, none skipped or repeated |
| `DisplayRate.ComesBack` | runtime/interp_rate.h:21-32 | Every thirtieth frame ends on a refresh |
| `DisplayRate.CarriedForGood` | runtime/interp_rate.h:42-52 | A remainder carried into a rate of whole images a frame never goes away: why a change of rate starts again at 0 |
| `DisplayRate.FrameWeights` | runtime/interp_rate.h:21-32 | The loop's weights and remainder are the value model's |
| `DisplayRate.CappedIsMost` | runtime/interp_rate.h:42-47 | The rate used is the highest the budget leaves, up to the display's: one within the cap is kept |
| `DisplayRate.Accumulator.Frame` | runtime/interp_rate.h:42-52 | A frame's images are those of a run at this rate begun at its last change |
| `Buffers.NothingReachableIsReused` | runtime/gxr_tev.c:143-209 | No buffer an unfinished command or the setup being built reaches is handed out again, or freed by a drain |
| `Buffers.FreedOnce` | runtime/gxr_tev.c:193-209 | A drain frees each retired buffer once, and none an entry still has |
| `Buffers.BlocksDisjoint` | runtime/gxr.c:2916-2942 | Vertex blocks of unfinished draws, and of the one being set up, lie in the arena and apart |
| `Buffers.RoomIsEnough` | runtime/gxr.c:2916-2942 | The room check's sixteen spare bytes cover both blocks' rounding, and an empty arena holds the longest draw |
| `Buffers.NextKeeps` | runtime/gxr.c:2323-2364 | Every step of the producer and the workers keeps buffers and blocks apart |
| `Buffers.Graveyard.Bury` | runtime/gxr_tev.c:164-184 | The buffer joins the list, which grows rather than overflows |
| `Buffers.Graveyard.Empty` | runtime/gxr_tev.c:193-209 | Frees exactly the buffers the setup being built does not use, keeping the others in order |

## Left out

- QueueTheorems.QueueRefinesSequential: its runs have no draw that takes an image over a suspect byte and no processor write to a byte an unfinished copy spans, because the code is then wrong.
- CommandPipe.Pipe.Write: not while a display list is being recorded, when a store's bytes go to guest memory at a wrapping write pointer (runtime/gx.c:642-662), because what is recorded is only read when the list is called.
- ScreenRing.OneFiller: the ring's counting step has the entry fence as its guard here; without it, on the queue, ScreenRuns.PresentedInOrder says the same.
- Lines and points: only one worker draws them, over every row, so they are outside the ownership argument.
- The second stream of in-between images, rendering backends and late landing, timing counters and reports.
- Draining after every command (`SOA_GXR_DRAIN`), and running inline when there are no workers: simpler forms of the same protocol.
- Sleeping, waking and weak memory: every shared count is one atomic step here, as the source's own rule says.
- Pixels: what a draw makes of a row, and the pixel and grey value a copy makes of three rows, are any functions; the rasterizer, clipping, lighting, fog and the filters' arithmetic are not modelled.
- Integer width of the counts: they are unbounded, as 64-bit counts that rise by one are in practice.
- TextureDecode.DecodeLevel: a texel here is any function of its tile's bytes, and the compressed format, which no copy makes, is left out; TextureLevel and TextureEncoding have the formats' own arithmetic.
- Mip levels above the base: the hash covers only the base level.
- Hash collisions, failed allocations, `SOA_TEXVERIFY` and replacement textures: lookups assume distinct sources hash apart.
- The hashes that choose a key's home slot, in the texture index and in frame pairing, are any functions.
- Sorting the file table after the walk, and finding a file's name by offset.
- Mods' virtual files, comparing against a whole image, failed reads and the wording of the stop.
- What a draw fetches from arrays and textures in memory: a replayed capture is compared by the loads, calls and draws of its stream, not by pixels.
- A capture's reset in the middle of a store, and register dumps at a frame's start beyond those that shape the stream.
- How far apart two draws' centres are is any ordered distance; a frame's tables are new ones rather than cleared ones, so reuse of their storage is not captured.
- The card's formatted contents and checksums, its flash id, the clock and its memory, and the channel registers but for selection and the interrupt.
- SHA-1 itself: the digest is any function, and the store's file does not change.
- Rounding: the rate's weights are exact, not single precision, and `interp_rate_round` is not modelled.
- The graveyard's own reallocation failing.
