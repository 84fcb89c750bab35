# Nouns/Alps verification

A Dafny model of the parts of the alps-dao monorepo where data is derived from other data, with
proofs about all inputs and all runs.

**Image codec** (`packages/nouns-sdk/src/image`). `Image.dfy` crops a picture, maps colours to palette
indexes and prints a run-length encoding; `SvgBuilder.dfy` parses it and paints rectangles;
`Collection.dfy` threads one growing palette through many images. Proved: the encoding is optimal, the
crop minimal, painting places every pixel once, parts are layered in order, and encoder, parser and
painter undo each other, for one picture and for a whole collection under its final palette.

**Subgraph indexer** (`packages/nouns-subgraph/src`). `Indexer.dfy` holds the event handlers, which load
copies of entities and save them back; each is proved to be a step of `Store.dfy`. `TokenIndex.dfy`,
`TokenCounts.dfy` and `ProposalIndex.dfy` prove what each step keeps, as an exact condition wherever an
event can break it. `TokenRuns.dfy` and `ProposalRuns.dfy` conclude for runs, each result under the rules
of `Runs.dfy` that it needs; `History.dfy` says what the store holds in terms of the events alone, and
`Verdict.dfy` what a client shows. `Quorum.dfy` pins the rounding of the quorum and compares it with its
exact curve.

**Client state** (`packages/nouns-webapp`, `packages/nouns-assets`). `AuctionState.dfy`: bids,
settlements and extensions may arrive in any order. `LogKeys.dfy` and `LogFetch.dfy`: the log cache and
its printed keys. `SeedParts.dfy`: shift and cast on hex strings.

Theorems about runs assume `Runs.Ordered` (block numbers never decrease) or single rules (`Runs.Rule`):
transfers move a token of the sender and mints are fresh, transfers are between two accounts, token holders
leave their recorded delegate for another one, vote changes are chained, proposal ids are fresh, a proposal
is queued once before it is executed, an account votes once on a proposal. The contracts do not guarantee
the second and the third. A mint to the owner of the token contract emits a self-transfer (`ERC721.sol`),
and `_delegate` of `ERC721Checkpointable.sol` emits DelegateChanged for an account without tokens, for an
unchanged delegate, and from a delegate chosen before the account was emptied. Only what
is said of the delegates' lists needs the third, and only this and what is said of owners and holders needs
the second. The step lemmas assume neither:
they say exactly when the indexes survive.

Conventions: `None` stands for `undefined`, `null`, NaN or an exception; addresses, token ids and
proposal ids are numbers; big numbers are integers; a JavaScript `Map` is a `JsMap`, which remembers
insertion order. Raw amounts and their copies (`tokenBalance`, `delegatedVotes`, `votes`) are one field.

What the proofs show that the documentation does not say:

- Under the first three rules `totalDelegates` misses exactly the delegates that transfers and vote changes
  create (`DelegatesUncounted`).
- An account that delegates while holding nothing leaves its next token with the wrong delegate
  (`TransferRepresented`, `StaleDelegateExample`); one that gives its last token away and later leaves its
  old delegate puts a token in two lists (`ForgottenDelegate`).
- A self-transfer lists the token twice (`TransferOwned`), and the holder counter drops an account that
  sends itself its only token (`TransferHoldersCounted`).
- A pre-populated palette works if it is empty, starts with `''` and repeats nothing, or has its first
  colour twice in front and no `''`. The exact condition is that of `UsableExact` and, for palettes of
  colours, `ColourSeeds`; where it fails some opaque colour gets an index that does not name it (`SeedNames`,
  `RedBecomesTransparent`).
- A picture decodes under a palette of more than 256 entries exactly if its own colours are among the first
  256 (`CodecRoundTrip`).
- Images in a folder called `root` are overwritten if some image has no folder (`FormatComplete`).
- An auction loaded in full can show an older, lower bid as its amount (`FirstBidOverwrites`), and a late
  bid overwrites a settlement that names another one (`LateBidOverwrites`, `PlaceSettleCommute`).
- Block ranges share their end points, so logs there are fetched twice (`SplitRanges`). A filter's key is
  fetched at increasing blocks exactly if reprinting keeps it (`FetchesIncrease`); that of a filter without
  topics is not kept (`UnstableKeyExample`, `UnstableRepeats`). Keys turn wildcard topics into the topic
  `\0` and drop the first block (`FilterRoundTrip`).
- One hash in 2^24 has no seed (`SeedParts.SeedExact`).
- A proposal created before its start block that nobody votes on is shown as active for ever after its
  end block (`UnvotedShownActive`).

## Model

| member | source | states |
|---|---|---|
| `Hex.ByteRoundTrip` | packages/nouns-sdk/src/image/utils.ts:6-8 | a number is printed in two characters iff it is below 256, and every printed number parses back to itself |
| `Hex.FromHexToHex` | packages/nouns-sdk/src/image/utils.ts:6-8 | the printed digits denote the number |
| `Hex.ParsePrefix` | packages/nouns-sdk/src/image/svg-builder.ts:9-14 | parsing reads the hex digits up front and ignores what follows; without any there is no number |
| `Hex.DigitValues` | packages/nouns-sdk/src/image/svg-builder.ts:9-14 | the sixteen digits, letters in either case |
| `Hex.RgbToHexDenotes` | packages/nouns-sdk/src/image/utils.ts:16-18 | a colour's name has six hex digits and denotes 65536 r + 256 g + b |
| `Hex.RgbToHexInjective` | packages/nouns-sdk/src/image/utils.ts:16-18 | two colours have the same six-character name iff their channels agree |
| `RunLength.RunsExpand` | packages/nouns-sdk/src/image/image.ts:71-91 | the runs expand to the data, each holds 1 to 255 items, and none could have been longer |
| `RunLength.GreedyStaysAhead` | packages/nouns-sdk/src/image/image.ts:76-85 | a greedy list is never behind any other list of runs of at most 255 items |
| `RunLength.FirstRunCovers` | packages/nouns-sdk/src/image/image.ts:77 | a constant stretch of at most 255 items fits in the first run |
| `RunLength.RunsOptimal` | packages/nouns-sdk/src/image/image.ts:71-91 | no list of runs of at most 255 items that expands to the same data is shorter |
| `ImageEncoder.Image.Encode` | packages/nouns-sdk/src/image/image.ts:71-91 | returns the printed runs of the data; `tuples` gains all of them but the last |
| `ImageEncoder.Image.IsTransparentColumn` | packages/nouns-sdk/src/image/image.ts:122-129 | true iff no pixel of the column is opaque |
| `ImageEncoder.Image.IsTransparentRow` | packages/nouns-sdk/src/image/image.ts:131-138 | true iff no pixel of the row is opaque |
| `ImageEncoder.Image.CalcBounds` | packages/nouns-sdk/src/image/image.ts:93-120 | the least box around the opaque pixels, inside the picture; the empty corner box if there are none |
| `Picture.CropUnique` | packages/nouns-sdk/src/image/image.ts:93-120 | only one box meets that description |
| `Picture.FitsCrop` | packages/nouns-sdk/src/image/image.ts:4-8 | the box fits four bytes iff there is a row and no opaque pixel lies beyond column 254 or row 255 |
| `Picture.IndexXY` | packages/nouns-sdk/src/image/svg-builder.ts:59-78 | the k-th pixel of a box stands at (left + k mod w, top + k div w) |
| `Picture.XYIndex` | packages/nouns-sdk/src/image/image.ts:41-42 | and every position of the box is the position of its index |
| `Picture.AreaIndex` | packages/nouns-sdk/src/image/image.ts:41-42 | a position is inside the box iff its index is below the area |
| `Palette.ColourMap.IndexOf` | packages/nouns-sdk/src/image/image.ts:46-52 | a colour not seen yet gets the size of the map; the index is 0 for transparent pixels, else the colour's |
| `Palette.InsertAllGrows` | packages/nouns-sdk/src/image/image.ts:46-49 | the palette grows by appending; no colour in it changes its index |
| `Palette.InsertAllWellFormed` | packages/nouns-sdk/src/image/image.ts:46-49 | reading colours into a map neither makes nor breaks it: `''` first, and every colour mapped to its position |
| `Palette.WellFormedNames` | packages/nouns-sdk/src/image/image.ts:51-52 | those are exactly the maps in which the index of every pixel names its colour, and is 0 for transparent ones only |
| `Palette.PixelIndexNames` | packages/nouns-sdk/src/image/image.ts:51-52 | a pixel's index names its colour, and is 0 iff the pixel is transparent |
| `ImageEncoder.Image.ReadRow` | packages/nouns-sdk/src/image/image.ts:42-53 | one row: every pixel gets the index the grown map gives it |
| `ImageEncoder.Image.ReadBox` | packages/nouns-sdk/src/image/image.ts:39-54 | the whole box, in row order; the map has then absorbed every colour of the box, transparent ones included |
| `ImageEncoder.Image.ToRLE` | packages/nouns-sdk/src/image/image.ts:36-65 | crops to the least box, absorbs its colours, and returns the printed box and runs |
| `SvgBuilder.DecodeExact` | packages/nouns-sdk/src/image/svg-builder.ts:7-27 | a string decodes to an image iff, after an optional `0x`, every two-character field parses, and then to these fields: palette index, top, right, bottom, left, and a length and an index for every four characters or less |
| `SvgBuilder.ByteAt` | packages/nouns-sdk/src/image/svg-builder.ts:9-14 | a decoded field is below 256 |
| `Codec.FormatLayout` | packages/nouns-sdk/src/image/image.ts:56-64 | the printed data, field by field: `0x`, 0, top, right, bottom, left, and the length and the index of each run |
| `Codec.DecodeFormat` | packages/nouns-sdk/src/image/svg-builder.ts:7-27 | bounds and runs decode to themselves iff each of them fits its byte |
| `Codec.DecodedFitsBytes` | packages/nouns-sdk/src/image/svg-builder.ts:7-27 | whatever decodes has fields below 256 |
| `Codec.DecodeChunk` | packages/nouns-sdk/src/image/svg-builder.ts:21-23 | a four-character chunk decodes to its run, before whatever follows |
| `SvgBuilder.PaintStroke` | packages/nouns-sdk/src/image/svg-builder.ts:61-68 | one rectangle paints its stretch of the line in its colour and changes no other pixel |
| `SvgBuilder.DrawStep` | packages/nouns-sdk/src/image/svg-builder.ts:70-74 | the pen stays inside the box, on the position after the last pixel drawn |
| `SvgBuilder.PaintRun` | packages/nouns-sdk/src/image/svg-builder.ts:55-79 | a run of any length is split at the right bound and drawn completely |
| `SvgBuilder.PaintPart` | packages/nouns-sdk/src/image/svg-builder.ts:48-79 | terminates for all runs and bounds; each non-zero pixel is painted once in its colour, no rectangle crosses the bounds, the widths add up to the non-transparent pixels |
| `SvgBuilder.ShownConcat` | packages/nouns-sdk/src/image/svg-builder.ts:80 | later rectangles are painted on top |
| `SvgBuilder.ComposeLayer` | packages/nouns-sdk/src/image/svg-builder.ts:48-80 | one more part on top shows where it is not transparent, and nothing else changes |
| `SvgBuilder.BuildSVG` | packages/nouns-sdk/src/image/svg-builder.ts:44-86 | every pixel shows the last part whose index there is not 0, or else the background |
| `Codec.PixelInIndexes` | packages/nouns-sdk/src/image/image.ts:41-54 | at every position, inside or outside the crop, the encoded index names the pixel's colour, or is 0 where the picture is transparent |
| `Codec.ByteIndexesDecode` | packages/nouns-sdk/src/image/image.ts:36-65 | where the indexes fit a byte, whatever the map, each pixel decodes to the index that was encoded |
| `Codec.CodecRoundTrip` | packages/nouns-sdk/src/image/image.ts:36-65 | the data of a picture that fits decodes to its own pixels, under any later palette, iff its opaque colours are among the first 256 entries |
| `Codec.SmallPaletteWithin` | packages/nouns-sdk/src/image/image.ts:36-65 | in a palette of at most 256 entries they always are |
| `Codec.MisnamedDot` | packages/nouns-sdk/src/image/image.ts:46-54 | a picture of one pixel whose index does not name it does not decode to itself |
| `Codec.EncodedDecodes` | packages/nouns-sdk/src/image/image.ts:36-65 | the data decodes to its own box and runs iff the picture fits and all its indexes fit a byte |
| `Codec.BlankHasNoRuns` | packages/nouns-sdk/src/image/image.ts:73-90 | a picture has no runs iff it has no opaque pixel |
| `Codec.BlankEncodesEmpty` | packages/nouns-sdk/src/image/image.ts:56-64 | such a picture is encoded as five zero bytes |
| `Codec.FaithfulPainted` | packages/nouns-sdk/src/image/svg-builder.ts:59-78 | a decoded picture is painted once on each opaque pixel, in its own colour, and nowhere else |
| `Codec.FaithfulDrawn` | packages/nouns-sdk/src/image/svg-builder.ts:44-86 | a drawing of faithful parts shows at each pixel the last of their pictures that is opaque there, or else the background |
| `Codec.TopColourIs` | packages/nouns-sdk/src/image/svg-builder.ts:44-86 | the colour shown is that of the last picture opaque there, and denotes its red, green and blue |
| `Codec.EncodeAndDraw` | packages/nouns-sdk/src/image/svg-builder.ts:44-86 | encoding a picture and drawing the data shows every pixel again, over the background, if its colours are among the first 256; what is shown denotes the pixel's red, green and blue |
| `Seeding.SeededKeys` | packages/nouns-sdk/src/image/png-collection-encoder.ts:11-18 | the seeded keys are the transparent entry and the given colours |
| `Seeding.UsableExact` | packages/nouns-sdk/src/image/png-collection-encoder.ts:15-18 | for any entries and any set of names that are read: each of those maps to its position iff the palette is a + b + d with none of them in a and d, and either a loses one name and b is all new, or a loses none and the first of b is given twice |
| `Seeding.ColourSeedExact` | packages/nouns-sdk/src/image/png-collection-encoder.ts:15-18 | where all entries are `''` or names that are read, iff some part up front is a palette as in `SeedExact` and the rest is `''` |
| `Seeding.SeedExact` | packages/nouns-sdk/src/image/png-collection-encoder.ts:15-18 | every key, `''` too, maps to its position iff the palette is empty, or starts with `''` and repeats nothing, or lacks `''` and has its first colour, alone, twice in front |
| `Collection.SeedNames` | packages/nouns-sdk/src/image/png-collection-encoder.ts:15-18 | after seeding, the index of every pixel names its colour iff the palette is usable in the sense of `UsableExact` |
| `Collection.SeedDecodes` | packages/nouns-sdk/src/image/png-collection-encoder.ts:15-18 | with fewer than 256 entries, all pictures decode to themselves iff it is usable |
| `Collection.ColourSeeds` | packages/nouns-sdk/src/image/png-collection-encoder.ts:15-18 | a palette of colours and `''` is usable iff it meets the condition of `ColourSeedExact` |
| `Collection.RedBecomesTransparent` | packages/nouns-sdk/src/image/png-collection-encoder.ts:15-18 | one unusable palette turns opaque red into index 0, another into an index past its end |
| `Collection.PNGCollectionEncoder.constructor` | packages/nouns-sdk/src/image/png-collection-encoder.ts:11-18 | starts with the seeded palette and no images |
| `Collection.PNGCollectionEncoder.EncodeImage` | packages/nouns-sdk/src/image/png-collection-encoder.ts:40-51 | stores the data under the name, lists it in its folder, grows the palette; from a usable seed each stored image that fits keeps decoding to its picture iff its colours are among the first 256 |
| `Collection.EncodedRecoverable` | packages/nouns-sdk/src/image/png-collection-encoder.ts:40-44 | a new encoding that fits decodes to its picture, under the palette it leaves behind, iff its colours are among the first 256 |
| `Collection.RecoverableLater` | packages/nouns-sdk/src/image/png-collection-encoder.ts:40-44 | and so under every longer palette, of any size |
| `Collection.PNGCollectionEncoder.Data` | packages/nouns-sdk/src/image/png-collection-encoder.ts:30-32 | the written palette starts with the transparent entry and repeats nothing; from a usable seed, every image last stored under a name, if it fits, decodes to its picture under it iff its colours are among the first 256; an image is missing from the written data iff the folder listing it first is called `root` and some other image is in no folder |
| `Collection.PNGCollectionEncoder.DrawStored` | packages/nouns-sdk/src/image/svg-builder.ts:44-86 | from a usable seed, stored images that fit, with colours among the first 256, drawn over each other under the final palette: every pixel shows the colour of the last picture opaque there, or else the background |
| `Collection.PNGCollectionEncoder.Format` | packages/nouns-sdk/src/image/png-collection-encoder.ts:65-95 | the grouped images of the specification |
| `Listing.Format` | packages/nouns-sdk/src/image/png-collection-encoder.ts:65-95 | deleting from the copied map while listing gives each name its data once and leaves the unlisted images to `root` |
| `Listing.FormatFolder` | packages/nouns-sdk/src/image/png-collection-encoder.ts:75-81 | one folder: a name listed or deleted before finds no data |
| `Listing.FormatComplete` | packages/nouns-sdk/src/image/png-collection-encoder.ts:70-94 | a stored image is written with its data, except exactly where the listing is by folder, the first folder that lists it is called `root`, and another image is in no folder |
| `Listing.RootFolderLosesImage` | packages/nouns-sdk/src/image/png-collection-encoder.ts:87-93 | two images, one of them in a folder `root`: it is lost |
| `Listing.FormatFlat` | packages/nouns-sdk/src/image/png-collection-encoder.ts:23-25 | the flat list is the stored images in order of first encoding |
| `Listing.DataMissing` | packages/nouns-sdk/src/image/png-collection-encoder.ts:75-81 | an entry lacks its data iff a name is listed twice |
| `Indexer.Indexer.GetOrCreateAccount` | packages/nouns-subgraph/src/utils/helpers.ts:14-35 | loads the account, or saves and returns an empty one |
| `Indexer.Indexer.GetOrCreateDelegate` | packages/nouns-subgraph/src/utils/helpers.ts:39-65 | loads the delegate, or creates it and counts it unless it is the zero address |
| `Indexer.Indexer.GetGovernanceEntity` | packages/nouns-subgraph/src/utils/helpers.ts:108-124 | a copy of the stored entity, or a zero one that is not stored |
| `Indexer.Indexer.GetOrCreateDynamicQuorumParams` | packages/nouns-subgraph/src/utils/helpers.ts:126-146 | the start block is set by the first call that has a block |
| `Indexer.Indexer.UpdateFromHolder` | packages/nouns-subgraph/src/alps-erc-721.ts:115-156 | the sender's side, with the handler's own copy of the governance entity |
| `Indexer.Indexer.UpdateToHolder` | packages/nouns-subgraph/src/alps-erc-721.ts:158-211 | the receiver's side |
| `Indexer.Indexer.HandleTransfer` | packages/nouns-subgraph/src/alps-erc-721.ts:99-212 | the new store is the transfer step of the old one |
| `Indexer.Indexer.PushAll` | packages/nouns-subgraph/src/alps-erc-721.ts:55-57 | the pushed list is the concatenation |
| `Indexer.Indexer.HandleDelegateChanged` | packages/nouns-subgraph/src/alps-erc-721.ts:40-76 | the new store is the re-delegation step of the old one |
| `Indexer.Indexer.HandleDelegateVotesChanged` | packages/nouns-subgraph/src/alps-erc-721.ts:78-96 | the new store is the vote-change step of the old one |
| `Indexer.Indexer.HandleProposalCreated` | packages/nouns-subgraph/src/alps-dao.ts:34-79 | the new store is the creation step of the old one |
| `Indexer.Indexer.HandleProposalCanceled` | packages/nouns-subgraph/src/alps-dao.ts:81-86 | sets the status of a known proposal; an unknown one stops indexing |
| `Indexer.Indexer.HandleProposalVetoed` | packages/nouns-subgraph/src/alps-dao.ts:88-93 | sets the status of a known proposal; an unknown one stops indexing |
| `Indexer.Indexer.HandleProposalQueued` | packages/nouns-subgraph/src/alps-dao.ts:95-105 | status, execution time and queue counter of a known proposal |
| `Indexer.Indexer.HandleProposalExecuted` | packages/nouns-subgraph/src/alps-dao.ts:107-117 | status, execution time and queue counter of a known proposal |
| `Indexer.Indexer.HandleVoteCast` | packages/nouns-subgraph/src/alps-dao.ts:119-182 | the new store is the vote step of the old one |
| `Indexer.Indexer.HandleMinQuorumVotesBPSSet` | packages/nouns-subgraph/src/alps-dao.ts:184-188 | the parameter and, the first time, the start block |
| `Indexer.Indexer.HandleMaxQuorumVotesBPSSet` | packages/nouns-subgraph/src/alps-dao.ts:190-194 | the parameter and, the first time, the start block |
| `Indexer.Indexer.HandleQuorumCoefficientSet` | packages/nouns-subgraph/src/alps-dao.ts:196-200 | the parameter and, the first time, the start block |
| `Indexer.Indexer.Handle` | packages/nouns-subgraph/src/alps-erc-721.ts:99-212 | every event is one step of the store, so runs of handlers are runs of steps |
| `TokenIndex.TransferMoves` | packages/nouns-subgraph/src/alps-erc-721.ts:99-212 | accounts and owners after a transfer: both accounts were read before either was saved |
| `TokenIndex.TransferRelists` | packages/nouns-subgraph/src/alps-erc-721.ts:126-182 | the token list of any delegate after a transfer |
| `TokenIndex.TransferOwned` | packages/nouns-subgraph/src/alps-erc-721.ts:121-191 | a transfer keeps each account's list equal to the tokens it owns, without repetition and as long as its balance, iff sender and receiver differ or it is a mint |
| `TokenIndex.TransferRepresented` | packages/nouns-subgraph/src/alps-erc-721.ts:126-201 | any transfer, to the sender itself too, keeps each delegate's list equal to the tokens of the accounts that name it iff the receiver has no stale delegate |
| `TokenIndex.StaleDelegateExample` | packages/nouns-subgraph/src/alps-erc-721.ts:178-200 | an account without tokens delegates and then receives one: the lists no longer agree |
| `TokenIndex.DelegateChangedRedelegates` | packages/nouns-subgraph/src/alps-erc-721.ts:40-60 | accounts and token lists after a re-delegation; the new delegate is saved last |
| `TokenIndex.DelegateChangedOwned` | packages/nouns-subgraph/src/alps-erc-721.ts:44-47 | re-delegation leaves ownership alone |
| `TokenIndex.DelegateChangedRepresented` | packages/nouns-subgraph/src/alps-erc-721.ts:49-60 | it keeps the delegates' lists iff the delegator holds nothing, or moves from its recorded delegate to another one |
| `TokenIndex.ForgottenDelegate` | packages/nouns-subgraph/src/alps-erc-721.ts:142-200 | an account whose delegate the store forgot with its last token receives a token and leaves its old delegate: the token is in two lists |
| `TokenIndex.ForgottenDelegateExample` | packages/nouns-contracts/contracts/base/ERC721Checkpointable.sol:197-208 | such a run: the contract emits the old delegate, which it did not forget |
| `TokenIndex.TransferNoneWhenEmpty` | packages/nouns-subgraph/src/alps-erc-721.ts:142-146 | a transfer keeps accounts without tokens without delegate |
| `TokenIndex.DelegateChangedNoneWhenEmpty` | packages/nouns-subgraph/src/alps-erc-721.ts:46-47 | re-delegation does so iff the delegator holds tokens |
| `TokenCounts.TransferGovernance` | packages/nouns-subgraph/src/alps-erc-721.ts:115-201 | all counters after any transfer, `totalDelegates` included: which of the delegates it creates are counted |
| `TokenCounts.TransferSums` | packages/nouns-subgraph/src/alps-erc-721.ts:126-182 | a transfer changes no vote and no number of represented holders |
| `TokenCounts.TransferSupplyCounted` | packages/nouns-subgraph/src/alps-erc-721.ts:102-170 | any transfer of the sender's token and any fresh mint keeps the supply counter right |
| `TokenCounts.TransferHoldersCounted` | packages/nouns-subgraph/src/alps-erc-721.ts:116-198 | a transfer keeps the holder counter and the supply counter right, except exactly where an account sends its only token to itself |
| `TokenCounts.TransferCountsNoDelegate` | packages/nouns-subgraph/src/alps-erc-721.ts:102-198 | where the token indexes agree, a transfer leaves `totalDelegates` as it was: the older governance copy overwrites the count of a delegate it created |
| `TokenCounts.TransferUncounted` | packages/nouns-subgraph/src/alps-erc-721.ts:102-198 | there, the number of delegates less `totalDelegates` grows by one iff the delegate given the token is new |
| `TokenCounts.VotesChangedUncounted` | packages/nouns-subgraph/src/alps-erc-721.ts:78-96 | in any state, a vote change makes it grow by one iff the delegate is new |
| `TokenCounts.DelegateChangedUncounted` | packages/nouns-subgraph/src/alps-erc-721.ts:41-60 | a re-delegation never changes it |
| `TokenCounts.VotesChangedCounted` | packages/nouns-subgraph/src/alps-erc-721.ts:78-96 | a vote change keeps the vote total and the delegate counter iff it starts from the recorded votes and is not from 0 to 0 |
| `TokenCounts.DelegateChangedSums` | packages/nouns-subgraph/src/alps-erc-721.ts:49-53 | the sum of represented holders changes iff a delegate is replaced by itself |
| `TokenCounts.TransferVotesCounted` | packages/nouns-subgraph/src/alps-erc-721.ts:126-182 | transfers keep the vote counters right |
| `ProposalIndex.QueueStep` | packages/nouns-subgraph/src/alps-dao.ts:95-105 | queueing keeps the queue counter right iff the proposal had no execution time |
| `ProposalIndex.ExecuteStep` | packages/nouns-subgraph/src/alps-dao.ts:107-117 | executing keeps it right iff the proposal had one |
| `ProposalIndex.StatusStep` | packages/nouns-subgraph/src/alps-dao.ts:81-93 | cancelling and vetoing, also of a queued proposal, keep it right |
| `ProposalIndex.VoteTallied` | packages/nouns-subgraph/src/alps-dao.ts:119-161 | a vote keeps all totals equal to the sums over stored votes iff it replaces no stored vote with weight |
| `ProposalIndex.CreatedTallied` | packages/nouns-subgraph/src/alps-dao.ts:62-64 | a new proposal starts with totals that agree |
| `ProposalIndex.VoteQuorum` | packages/nouns-subgraph/src/alps-dao.ts:163-176 | a vote leaves every dynamic proposal that has votes with the quorum of its own totals and snapshot |
| `ProposalIndex.ParameterStep` | packages/nouns-subgraph/src/alps-dao.ts:184-200 | a parameter event changes no proposal, and no proposal's regime iff it is not the first one or not older than the proposal |
| `ProposalIndex.StepKeeps` | packages/nouns-subgraph/src/alps-dao.ts:163-176 | in block order, no event changes a proposal's dates, snapshot or regime, nor a quorum outside the dynamic regime |
| `ProposalIndex.StartBlockOnce` | packages/nouns-subgraph/src/utils/helpers.ts:139-143 | the start block is never overwritten |
| `TokenRuns.SupplyIndex` | packages/nouns-subgraph/src/alps-erc-721.ts:102-170 | `totalTokenHolders` is the number of live tokens, if transfers move tokens of the sender |
| `TokenRuns.StepOwners` | packages/nouns-subgraph/src/alps-erc-721.ts:40-212 | one such event, between two accounts if a transfer, keeps the ownership index and its counters |
| `TokenRuns.OwnershipIndex` | packages/nouns-subgraph/src/alps-erc-721.ts:99-212 | lists, balances, owners, holder count and supply agree, if such transfers are between two accounts |
| `TokenRuns.VoteIndex` | packages/nouns-subgraph/src/alps-erc-721.ts:78-96 | vote total and delegate count agree with the delegates, if vote changes are chained |
| `TokenRuns.RepresentedSum` | packages/nouns-subgraph/src/alps-erc-721.ts:49-53 | on every run represented holders sum to the number of delegates replaced by themselves |
| `TokenRuns.StepDelegated` | packages/nouns-subgraph/src/alps-erc-721.ts:40-212 | one event keeps the delegates' lists right and accounts without tokens without delegate |
| `TokenRuns.DelegationPartition` | packages/nouns-subgraph/src/alps-erc-721.ts:40-201 | each token is in exactly one delegate's list, once, that of its owner's delegate; an account has no delegate iff it holds nothing; represented holders sum to 0 |
| `TokenRuns.DelegatesUncounted` | packages/nouns-subgraph/src/utils/helpers.ts:39-65 | `totalDelegates` is short of the number of delegates by exactly the transfers and vote changes that created one |
| `TokenRuns.TotalHeldCountsReceipts` | packages/nouns-subgraph/src/alps-erc-721.ts:187-188 | `totalTokensHeldRaw` is the number of transfers received, on every run |
| `TokenRuns.VoteStoresRepresented` | packages/nouns-subgraph/src/alps-dao.ts:146 | a stored vote lists exactly the tokens its voter represented at that moment |
| `ProposalRuns.ProposalCount` | packages/nouns-subgraph/src/alps-dao.ts:34-79 | `proposals` counts the proposals, on every run |
| `ProposalRuns.QueueIndex` | packages/nouns-subgraph/src/alps-dao.ts:81-117 | `proposalsQueued` counts the proposals with an execution time, if each is queued once before it is executed |
| `ProposalRuns.RunTallied` | packages/nouns-subgraph/src/alps-dao.ts:119-161 | totals equal the sums over stored votes, if ids are fresh and nobody votes twice |
| `ProposalRuns.RunQuorum` | packages/nouns-subgraph/src/alps-dao.ts:163-176 | every dynamic proposal with votes has the quorum of its own totals and snapshot, if ids are fresh and blocks ordered |
| `ProposalRuns.RegimeFixed` | packages/nouns-subgraph/src/alps-dao.ts:163-200 | from its creation to the end of such a run a proposal keeps its regime and snapshot |
| `ProposalRuns.StartBlockFixed` | packages/nouns-subgraph/src/utils/helpers.ts:139-143 | over any run the start block changes at most once |
| `ProposalRuns.PendingHasNoVotes` | packages/nouns-subgraph/src/alps-dao.ts:178-180 | a proposal still recorded as pending has no votes, if ids are fresh |
| `ProposalRuns.OpenStatus` | packages/nouns-subgraph/src/alps-dao.ts:66 | a proposal that is never cancelled, vetoed, queued or executed is stored as active iff it was created at or after its start block or has a vote, else as pending, if ids are fresh |
| `History.RunParams` | packages/nouns-subgraph/src/alps-dao.ts:184-200 | on every run the parameters are those of the last event of each kind, 0 if there was none, and the start block is that of the first |
| `History.RunEta` | packages/nouns-subgraph/src/alps-dao.ts:95-117 | on every run a proposal's execution time is that of its last queueing, and none if it was executed since or never queued |
| `History.ClosedStatus` | packages/nouns-subgraph/src/alps-dao.ts:81-117 | on every run a proposal that was closed, and not created again, has the status of its last cancelling, vetoing, queueing or executing |
| `History.VoteRecorded` | packages/nouns-subgraph/src/alps-dao.ts:138-161 | on every run a stored vote is the voter's last one: its weight, side and block |
| `History.RunVoted` | packages/nouns-subgraph/src/alps-dao.ts:138-161 | on every run a proposal has stored votes iff somebody voted on it |
| `History.RunCast` | packages/nouns-subgraph/src/alps-dao.ts:146-161 | with fresh ids the totals are the weights cast for each side, also where somebody votes twice |
| `History.RunOwner` | packages/nouns-subgraph/src/alps-erc-721.ts:99-212 | on every run a token belongs to the receiver of its last transfer |
| `History.RunMints` | packages/nouns-subgraph/src/alps-erc-721.ts:115-170 | on every run `totalTokenHolders` is the number of mints less burns |
| `History.RunDelegateVotes` | packages/nouns-subgraph/src/alps-erc-721.ts:78-96 | on every run a delegate's votes are those its last vote change states |
| `Quorum.ToI32Exact` | packages/nouns-subgraph/src/utils/dynamicQuorum.ts:15-16 | within the contract's ranges the conversion to i32 loses nothing |
| `Quorum.QuorumExact` | packages/nouns-subgraph/src/utils/dynamicQuorum.ts:4-19 | a number is the quorum iff it comes from the three divisions rounded down: votes against in basis points of the supply, times the coefficient per million, and the capped sum of basis points of the supply |
| `Quorum.QuorumBounds` | packages/nouns-subgraph/src/utils/dynamicQuorum.ts:4-19 | the quorum lies between the minimum and the maximum share of the supply |
| `Quorum.QuorumMonotone` | packages/nouns-subgraph/src/utils/dynamicQuorum.ts:4-19 | more votes against or a larger coefficient never lower it |
| `Quorum.QuorumBelowCurve` | packages/nouns-webapp/src/components/DynamicQuorumInfoModal/index.tsx:46-48 | it never exceeds the exact curve and misses it by less than supply * (coefficient / 10^6 + 1) / 10^4 + 1 |
| `Verdict.RecordsKept` | packages/nouns-subgraph/src/alps-dao.ts:70-76 | to the end of the run a proposal records the mints less burns, the last parameters and the regime of the events before its creation; that supply is the number of live tokens, if transfers move tokens |
| `Verdict.DecidedOutcome` | packages/nouns-webapp/src/wrappers/alpsDao.ts:395-409 | the verdict, under either regime, in any state whose totals and quorum are right |
| `Verdict.DecidedVerdict` | packages/nouns-webapp/src/wrappers/alpsDao.ts:395-409 | on any run with ordered blocks, fresh ids and single votes, a decided proposal shows as succeeded iff its stored votes for outnumber those against and reach the quorum, else as defeated |
| `Verdict.VerdictFromCreation` | packages/nouns-webapp/src/wrappers/alpsDao.ts:395-409 | the same with what the events before the creation event say: the quorum it states, or that of the supply and the parameters if these were set in an earlier block |
| `Verdict.OpenVerdict` | packages/nouns-webapp/src/wrappers/alpsDao.ts:380-412 | what is shown of a proposal that is never closed, at every block and time, from the events alone: unknown without a block, pending up to its start block and active from then on, and the verdict on the votes cast only after its end block and only if it was created late or voted on |
| `Verdict.ClosedVerdict` | packages/nouns-webapp/src/wrappers/alpsDao.ts:410-424 | on every run a closed proposal shows as cancelled, vetoed or executed at every block and time, and a queued one as expired iff 1209600 seconds have passed since its execution time |
| `Verdict.UnvotedShownActive` | packages/nouns-webapp/src/wrappers/alpsDao.ts:386-409 | after its end block such a proposal shows as succeeded or defeated iff it was created at or after its start block or has a vote; otherwise as active for ever; created late and without votes, as defeated |
| `Verdict.UnvotedExamples` | packages/nouns-webapp/src/wrappers/alpsDao.ts:386-409 | two runs without votes, after the end block: one proposal shows as active, the other as defeated |
| `AuctionState.AuctionSlice.MaxOf` | packages/nouns-webapp/src/state/slices/auction.ts:48-52 | the bid the left fold selects |
| `AuctionState.AuctionSlice.Append` | packages/nouns-webapp/src/state/slices/auction.ts:78-86 | the new state is the bid step of the run theorems below |
| `AuctionState.AuctionSlice.SetActiveAuction` | packages/nouns-webapp/src/state/slices/auction.ts:69-73 | the new state is the creation step; no bid of another auction is left |
| `AuctionState.AuctionSlice.SetFullAuction` | packages/nouns-webapp/src/state/slices/auction.ts:74-77 | the new state is the loading step; all bids held are on the active auction iff those held before are on the loaded one |
| `AuctionState.AuctionSlice.SetAuctionSettled` | packages/nouns-webapp/src/state/slices/auction.ts:87-93 | the new state is the settlement step; bids on the active auction stay so |
| `AuctionState.AuctionSlice.SetAuctionExtended` | packages/nouns-webapp/src/state/slices/auction.ts:94-98 | the new state is the extension step; bids on the active auction stay so |
| `AuctionState.MaxBidIsGreatest` | packages/nouns-webapp/src/state/slices/auction.ts:48-52 | the selected bid is in the list and no bid is higher |
| `AuctionState.Delivered` | packages/nouns-webapp/src/state/slices/auction.ts:78-98 | after any bids, settlements and extensions the state holds exactly the bids placed on the auction, once each; amount and bidder are those of the highest one or of a settlement; it is settled iff a settlement of it was among them and ends as the last extension of it says |
| `AuctionState.DeliveredInOrder` | packages/nouns-webapp/src/state/slices/auction.ts:78-86 | bids are held newest first |
| `AuctionState.EarliestOfHighest` | packages/nouns-webapp/src/state/slices/auction.ts:48-52 | while the auction is not settled, of the highest bids the one placed first is shown |
| `AuctionState.AuctionOutcome` | packages/nouns-webapp/src/state/slices/auction.ts:78-98 | with bids, and settlements that name a highest one, the outcome is the highest bid placed and its sender, in whatever order actions arrive |
| `AuctionState.EmptyOutcome` | packages/nouns-contracts/contracts/AlpsAuctionHouse.sol:240-245 | without bids, and settlements for nothing to one fixed account, it is that account and 0, or the start |
| `AuctionState.BidConfluence` | packages/nouns-webapp/src/state/slices/auction.ts:78-98 | two orders of delivery, with any repetition, that place the same bids end with the same bids and, if there are any, the same amount; with distinct values, in the same auction iff their last extensions and what settling shows agree |
| `AuctionState.PlaceSettleCommute` | packages/nouns-webapp/src/state/slices/auction.ts:78-93 | a bid and a settlement of the active auction commute iff the bid is already held or the settlement names the highest bid |
| `AuctionState.CreateForgets` | packages/nouns-webapp/src/state/slices/auction.ts:69-73 | a run ends the same whatever came before its last creation |
| `AuctionState.FromCreation` | packages/nouns-webapp/src/state/slices/auction.ts:69-98 | from its creation on, in any run, an auction is what its own bids, settlements and extensions make of it, as in `Delivered` |
| `AuctionState.OwnBidsStep` | packages/nouns-webapp/src/state/slices/auction.ts:69-98 | all bids held stay on the active auction unless another auction is loaded over them |
| `AuctionState.OwnBidsRun` | packages/nouns-webapp/src/index.tsx:140-157 | so they are after every run that loads an auction only at its start |
| `AuctionState.AmountNeverDecreases` | packages/nouns-webapp/src/state/slices/auction.ts:82-83 | while an auction has a bid and no settlement, no bid lowers its amount |
| `AuctionState.LoadedShown` | packages/nouns-webapp/src/state/slices/auction.ts:74-77 | a loaded auction is shown as it was loaded, over the bids held, until an action concerns it |
| `AuctionState.AmountDrops` | packages/nouns-webapp/src/state/slices/auction.ts:78-98 | from any state, over any bids and extensions and settlements of other auctions, the amount drops iff a bid is new and all bids, held and placed, are lower |
| `AuctionState.FirstBidOverwrites` | packages/nouns-webapp/src/state/slices/auction.ts:74-84 | so for an auction loaded over any bids held |
| `AuctionState.LateBidOverwrites` | packages/nouns-webapp/src/state/slices/auction.ts:82-91 | and so for the settled amount, after the last settlement of the auction |
| `LogKeys.SplitJoin` | packages/nouns-webapp/src/utils/logParsing.ts:31-36 | splitting undoes joining for pieces without the separator |
| `LogKeys.JoinSplit` | packages/nouns-webapp/src/utils/logParsing.ts:20-21 | joining undoes splitting |
| `LogKeys.KeysParse` | packages/nouns-webapp/src/utils/logParsing.ts:17-32 | every printed key parses |
| `LogKeys.KeyExample` | packages/nouns-webapp/src/utils/logParsing.ts:13-23 | the layout of one key with a list of topics and a wildcard |
| `LogKeys.KeyRoundTrip` | packages/nouns-webapp/src/utils/logParsing.ts:17-42 | parsing and printing a key gives it back iff it has one colon and no empty topic |
| `LogKeys.UnstableKeyExample` | packages/nouns-webapp/src/utils/logParsing.ts:17-42 | the key of a filter without topics is not given back |
| `LogKeys.CleanIsStable` | packages/nouns-webapp/src/utils/logParsing.ts:17-42 | the keys of clean filters are given back |
| `LogKeys.FilterRoundTrip` | packages/nouns-webapp/src/utils/logParsing.ts:17-42 | a clean filter itself is given back iff it has no first block, no empty address, no wildcard or empty topic and no list of one topic |
| `LogFetch.LogsSlice.Add` | packages/nouns-webapp/src/state/slices/logs.ts:26-33 | counts the listener or starts the entry |
| `LogFetch.LogsSlice.Remove` | packages/nouns-webapp/src/state/slices/logs.ts:76-80 | counts the listener down |
| `LogFetch.LogsSlice.FetchingLogs` | packages/nouns-webapp/src/state/slices/logs.ts:34-45 | marks the known keys of the filters with the block |
| `LogFetch.LogsSlice.FetchedLogs` | packages/nouns-webapp/src/state/slices/logs.ts:46-60 | stores the answer unless a newer one is there |
| `LogFetch.LogsSlice.FetchedLogsError` | packages/nouns-webapp/src/state/slices/logs.ts:61-75 | stores the error unless a newer answer is there |
| `LogFetch.SplitRanges` | packages/nouns-webapp/src/state/updaters/logs.ts:42-51 | the ranges contain each requested block once, and twice iff it is the last block of one range and the first of the next; no other block |
| `LogFetch.UpdateRefines` | packages/nouns-webapp/src/state/updaters/logs.ts:17-40 | marking the listed filters marks exactly the keys under which a needed fetch is filed |
| `LogFetch.FetchingGrows` | packages/nouns-webapp/src/state/slices/logs.ts:34-45 | no action makes a key forget that it was fetched; the block it was fetched at decreases iff an update at an older block marks it |
| `LogFetch.FetchRemembered` | packages/nouns-webapp/src/state/updaters/logs.ts:17-40 | after a fetch of a stable key the cache remembers its block or a later one, if blocks never decrease or no other key is filed under this one |
| `LogFetch.UnstableRepeats` | packages/nouns-webapp/src/state/updaters/logs.ts:17-40 | an unstable key is fetched again at the same block |
| `LogFetch.FetchesIncrease` | packages/nouns-webapp/src/state/updaters/logs.ts:17-40 | with blocks that never decrease, the fetches of a filter's key start at strictly increasing blocks over every run iff the key is stable |
| `LogFetch.FiledOverRepeats` | packages/nouns-webapp/src/state/updaters/logs.ts:17-40 | a stable key fetched at blocks 10 and then 7, because a fetch of another key is filed under it |
| `LogFetch.FetchesIncreaseInAnyOrder` | packages/nouns-webapp/src/state/updaters/logs.ts:17-40 | with blocks in any order they do so over every run on a set of filters iff the key is stable and no other key of the set is filed under it |
| `LogFetch.FiledOverExample` | packages/nouns-webapp/src/utils/logParsing.ts:17-42 | two filters of which the key of one is filed under that of the other |
| `LogFetch.ListenersCounted` | packages/nouns-webapp/src/state/slices/logs.ts:26-33 | every key ever listened to has an entry, with the number of listeners that came less those that left since |
| `LogFetch.AnswerHeld` | packages/nouns-webapp/src/state/slices/logs.ts:46-75 | the cached answer of a known key is the last one delivered for the latest block, and none before one is |
| `LogFetch.FetchesExactly` | packages/nouns-webapp/src/state/updaters/logs.ts:17-40 | a stable key that no other key is filed under is fetched iff it is listened to and neither a fetch nor an answer for that block or a later one came before |
| `LogFetch.ResultsNeverAge` | packages/nouns-webapp/src/state/slices/logs.ts:46-75 | a cached answer is only replaced by one for the same or a later block |
| `LogFetch.StillNeeded` | packages/nouns-webapp/src/state/updaters/logs.ts:22-34 | after an update a key is due again for the same block iff no fetch is filed under it |
| `SeedParts.HexLength` | packages/nouns-assets/src/utils.ts:49 | a number has more than k hex digits iff it is at least 16^k |
| `SeedParts.CutDigits` | packages/nouns-assets/src/utils.ts:50 | the last d digits are the number modulo 16^d; with fewer digits the cut reaches the prefix and is no number |
| `SeedParts.ShiftAndCast` | packages/nouns-assets/src/utils.ts:44-51 | the result is (v >> s) mod 2^u if the shifted number has u/4 even-padded digits, and no number otherwise |
| `SeedParts.Window` | packages/nouns-assets/src/utils.ts:60-67 | for 48 bits that means: iff the shifted number is at least 2^40 |
| `SeedParts.Part` | packages/nouns-assets/src/utils.ts:60-68 | one draw is the 48-bit window modulo the count iff the count is not zero and the number reaches 2^(shift + 40) |
| `SeedParts.SeedExact` | packages/nouns-assets/src/utils.ts:75-84 | a seed comes out iff the hash is at least 2^232 and no count is zero, and is made of its five windows modulo the counts |
| `SeedParts.NoSeedOfZero` | packages/nouns-assets/src/utils.ts:75-84 | the hash 0 has no seed |
| `SeedParts.SeedInRange` | packages/nouns-assets/src/utils.ts:75-84 | every part is below its count |
| `SeedParts.WindowsCompose` | packages/nouns-assets/src/utils.ts:77-83 | the windows do not overlap: they are the digits of the number in base 2^w |

## Left out

- SVG text, the factor 10 on coordinates, and the 320 x 320 viewport: rectangles are records in pixel units.
- DecodeImage: a field that would be NaN, as in truncated data, makes the result None; drawing with NaN sizes is not modelled. A byte is parsed as the longest prefix of hex digits; white space, a sign or `0x` inside a byte, which parseInt also accepts, is not.
- `writeToFile`, and the order in which JavaScript lists folder names that look like integers.
- Collection.PNGCollectionEncoder.EncodeImage: folders are a map; in the source they are a plain object, where a folder named like an inherited property, such as `constructor`, makes the push throw.
- TransferEvent, DelegationEvent and Seed entities, and the calldata and text fields of proposals: written once from event data, never read by a handler.
- Indexer.HandleVoteCast: a division by a zero supply, and any event on an unknown proposal, stop the indexer (no new store); the partly filled entity that the code would try to save is not modelled.
- ToI32: takes the low 32 bits; the library's abort on larger numbers is not modelled. It cannot happen within the contract's ranges (`ToI32Exact`).
- The receiver's and the sender's branches of handleTransfer for a balance that falls to zero by receiving, or rises by sending: proved unreachable and left out of the methods.
- GetSeed: starts at the hash, an arbitrary number; keccak is not part of this model. The uint size of shiftRightAndCast is taken in whole hex digits, as all callers do.
- LogFetch.Step: a run lists actions of one store; network calls and the order in which React runs effects are the caller's choice of actions. `publicProvider.getLogs` is not part of this model.
- AuctionState.Bid: big numbers are values; their JSON forms are not modelled.
- Loss of precision of JavaScript numbers above 2^53 in getProposalState.
- The Solidity contracts: what they emit appears only as the rules that runs may keep.
- `nouns-api`, `nouns-bots`, deployment scripts, React components and hooks: input and output.
- `chunkArray`, bid comparators, trait names, `getAlpData`, `getRandomAlpSeed`: they would only add easy members.
