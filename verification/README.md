# A verified model of DGDS

DGDS publishes a text once, sells access to it, and gives every buyer a copy with an invisible
watermark, so that a leaked copy can be traced to the access it was delivered for. This project
models the three parts of the program on which that promise rests and proves what they promise.

**The watermark channel**, on bytes. `Utf8` holds the lenient and the strict decoder, `CanonicalForm`
the removal of the channel, `CanonicalStability` when removing it once is enough, `ByScalar` the
canonical and the marked form scalar value by scalar value, with every code point written out, `MarkCodec` the
136-bit frame, `LegacyMark` the version-1 frame and its CRC-16, `MarkChannel` writing and reading,
`StrewnMarks` marks in any pattern, `CandidateTable` the table the reader keeps, `Recovery` what can be
read back and from how little, `Splicing` what is read from parts of two copies. The
code-point view (tokens) is derived from the bytes: `Scan` cuts any byte string into tokens, and a
text is valid exactly when every token encodes a scalar value as sections 3 and 4 of RFC 3629 say.
Reading is specified by windows of the sequence of significant bits; the shift register, the
candidate table and the loop are proved to compute that.

**Purchase and delivery.** `Crypto` is ideal: a sealed value opens exactly under its key and its
associated data; digest, message authentication, key derivation and signature verification are
arbitrary functions (`Primitives`). `StoreContents` says what each store operation makes of the
contents, `Stores` are the stores as objects, `Requests` says what one request makes of all
contents, and `Services` are the services as methods that go through the stores step by step. `Answers`
says of every request, on the stores alone, which condition comes first and decides the error, and the reply
and every change when there is none; `ClientAnswers` does so for fetching content. Each
method is proved equal to its specification, failures included: `faults` names the storage and
cryptographic steps of a request that fail, a step that a request takes several times being named once
for each time (`Again`), so that any one of them can fail alone. Two granularities are used on top
of that. In `EndToEnd`, `Attribution`, `SplicedCopies`, `ClientAgreement` and `Client` a request is
one step and statements are about every run. In `BuyInterleaving`, `PublishInterleaving` and
`SecretFile` a step is one storage operation (an exclusive link, an unlink, a rename, a listing, a
read, one write or read call), any number of threads interleave, every step may fail, and any thread
may stop for good between two steps. The two meet in `PublishAlone` and `BuyAlone`: a thread that runs
alone and meets no failure comes to what the request as a whole comes to. The split is in the nature of
the program: two interleaved issues for the same context and device each save a receipt and the last
rename wins, so "the returned receipt is the stored one" is a statement about whole requests.

**The rate limiter and the byte formats.** `RateLimiter` compares the shared, pruned table with one
counter kept alone. `Binary`, `SealedContentCodec`, `ReceiptCodec` and `Records` are the length-prefixed
encodings, `Offsets` gives them field by field. `Catalogue` is paging over files named by decimal identifiers.

`Bytes` and `Errors` hold the shared types. Byte values are integers from 0 to 255, and shifts and
masks are written as division and remainder by powers of two. Widths are modelled where they matter:
64-bit identifiers, signed 64-bit timestamps in the encodings, four-byte lengths that wrap.

Where something one might expect is not so, the model follows the code and a lemma says exactly how:

- One pass of `canonical_form` need not be enough outside valid UTF-8
  (`CanonicalForm.CanonicalUnstableOutsideUtf8`). It is enough if and only if nowhere in the result a
  broken lead byte has got behind it the continuation bytes it announces so that they spell U+200B, a
  variation selector behind a letter or digit, or a letter or digit in front of a variation selector
  (`CanonicalStability.StableIff`); in particular whenever no undecodable byte could begin a code point
  (`CanonicalStability.StableWithoutBrokenLead`).
- An author who takes a receipt of their own publication while the receipt store cannot be read is
  issued a new one, because `buy` takes that failure for a missing receipt. If the reply is then
  lost or not saved, the author's earlier local receipt is stale: a run from empty stores gets there
  (`ClientAgreement.StrandedRun`), and nothing else separates client and server
  (`ClientAgreement.StepAgrees`).
- A purchase that stops while its pair marker is linked and its record is not, or that cannot link the
  record and then cannot release the marker either, leaves a pair that nobody can buy any
  more. Those two are the only causes (`BuyInterleaving.AbandonedExactly`, `BuyInterleaving.AbandonedIff`),
  both are reached (`BuyInterleaving.AbandonedRuns`), and there is no way back
  (`BuyInterleaving.AbandonedForGood`).
- In the same way a publication that stops while it has its claim, or cannot release it, leaves a content
  that nobody can publish (`PublishInterleaving.AbandonedIff`, `PublishInterleaving.AbandonedRuns`,
  `PublishInterleaving.AbandonedIsNeverPublished`).
- `attribute` skips a mark whose context it fails to look up. Take the front of one buyer's copy, with
  at least 272 code points, and the back of another's from the same place on, with at least 407, such
  that no window shows a legacy frame and the second mark is among the first sixteen sighted. That text
  names nobody, but when only the lookup of the second mark fails it names the first buyer, unless a
  third mark matches (`SplicedCopies.SplicedDeliveries`). A failure never names anybody in any other way
  (`Attribution.NamedUnderFaults`).
- A publication text of 2^32 bytes or more, or a stored receipt whose encoding is that long, is
  written with a length that wraps and does not decode (`Records.PublicationRoundTripIff`,
  `Records.ParseStoredLayout`).
- In one window's time a caller may be accepted twice the limit, and not more
  (`RateLimiter.TwiceIsReached`, `RateLimiter.NeverMoreThanTwice`).

`dafny verify dfyconfig.toml` checks the whole project.

## Model

| member | source | states |
|---|---|---|
| Utf8.DecodeUtf8 | libs/core/src/codec/utf8.cpp:9-45 | returns the token at the front of the rest of the text: its code point and exactly the bytes it stands for, never past the end |
| Utf8.IsValidUtf8 | libs/core/src/codec/utf8.cpp:53-100 | accepts a byte string if and only if it is the encoding of some sequence of Unicode scalar values |
| Utf8.LenientForms | libs/core/src/codec/utf8.cpp:9-45 | what the lenient decoder makes of any bytes, form by form with the lead ranges and shifts written out, overlong encodings, surrogates and values beyond the last code point included; anything else is one unknown byte |
| Utf8.UnknownIsOneByte | libs/core/src/codec/utf8.cpp:26-38 | the unknown marker stands for exactly the undecodable positions and always for a single byte |
| Utf8.StrictIsProper | libs/core/src/codec/utf8.cpp:59-94 | the validator's lead ranges, continuation, overlong, surrogate and maximum tests single out exactly the tokens that encode a scalar value |
| Utf8.ValidIffProper | libs/core/src/codec/utf8.cpp:9-100 | a text is valid exactly when walking it with the lenient decoder meets only encoded scalar values |
| Utf8.DecodersAgree | libs/core/src/codec/utf8.cpp:9-100 | on valid text the lenient decoder returns, at every boundary, that scalar value and its encoding, never the unknown marker |
| CanonicalForm.ComputeCanonicalForm | libs/core/src/identity/canonical_form.cpp:37-62 | the loop computes the bytes of the tokens that are not in the channel, each judged by the last kept code point |
| CanonicalForm.CanonicalIsStable | libs/core/src/identity/canonical_form.cpp:31-62 | on valid text the canonical form is valid, free of U+200B and its own canonical form |
| CanonicalForm.CanonicalNeverLonger | libs/core/src/identity/canonical_form.cpp:37-62 | canonicalisation never lengthens any byte string |
| CanonicalForm.OwnCanonicalForm | libs/core/src/identity/canonical_form.cpp:37-62 | any byte string is its own canonical form if and only if no token of it is in the channel |
| CanonicalForm.CanonicalUnstableOutsideUtf8 | libs/core/src/identity/canonical_form.cpp:43-59 | the bytes E2 80 E2 80 8B 8B are not stable under one pass |
| ByScalar.KeepAppended | libs/core/src/identity/canonical_form.cpp:31-62 | one more token, of any bytes at all, is dropped exactly when it is U+200B, or in FE00-FE0F or E0100-E01EF with 30-39, 41-5A or 61-7A the code point that stayed last; nothing before it changes |
| ByScalar.CanonicalScalars | libs/core/src/identity/canonical_form.cpp:37-62 | the canonical form of the encoding of any scalar values is the encoding of those that stay, one by one |
| ByScalar.CanonicalAppended | libs/core/src/identity/canonical_form.cpp:20-62 | for any bytes, and one scalar value encoded behind them: dropped or kept by those same ranges and the code point that stayed last |
| ByScalar.CanonicalAppendedToText | libs/core/src/identity/canonical_form.cpp:20-62 | on valid text that code point is the last scalar value of the canonical form |
| CanonicalStability.ScanKept | libs/core/src/identity/canonical_form.cpp:37-62 | decoding the kept bytes again finds the kept tokens, except that undecodable bytes brought together become a code point exactly where they spell one |
| CanonicalStability.StableIff | libs/core/src/identity/canonical_form.cpp:31-62 | for arbitrary bytes, the canonical form is its own canonical form if and only if nowhere among the kept tokens a broken lead byte is followed by the broken continuation bytes it announces so that they spell U+200B, a variation selector behind a letter or digit, or a letter or digit in front of a variation selector |
| CanonicalStability.StableWithoutBrokenLead | libs/core/src/identity/canonical_form.cpp:31-62 | so it is its own canonical form whenever each undecodable byte of the text is a stray continuation byte or one that occurs in no encoding |
| MarkCodec.WriteBits | libs/core/src/watermark/mark_codec.cpp:27-32 | writes the big-endian bits of the value in place and leaves every other bit alone |
| MarkCodec.ReadBits | libs/core/src/watermark/mark_codec.cpp:34-42 | the value whose big-endian bits stand at the offset |
| MarkCodec.EncodeMark | libs/core/src/watermark/mark_codec.cpp:75-85 | the frame: version, identifier and code, most significant bit first, nothing else |
| MarkCodec.DecodeMark | libs/core/src/watermark/mark_codec.cpp:87-98 | the mark whose fields stand in the frame |
| MarkCodec.MarkOfFrameOf | libs/core/src/watermark/mark_codec.cpp:75-98 | decoding an encoded mark gives the mark |
| MarkCodec.FrameOfMarkOf | libs/core/src/watermark/mark_codec.cpp:75-98 | encoding a decoded frame gives the frame: decoding loses nothing |
| MarkCodec.FrameFields | libs/core/src/watermark/mark_codec.cpp:12-25 | version in bits 0 to 7, identifier in 8 to 71, code in 72 to 135, each most significant bit first |
| LegacyMark.Crc16 | libs/core/src/watermark/mark_codec.cpp:44-61 | the integer loop computes the bit-serial register fed with the payload, from all ones |
| LegacyMark.ToLegacyPayload | libs/core/src/watermark/mark_codec.cpp:63-71 | the nine bytes whose bits are the first 72 of the frame |
| LegacyMark.IsLegacyMark | libs/core/src/watermark/mark_codec.cpp:100-106 | accepts exactly the frames with version 1 and the checksum of their payload |
| LegacyMark.FeedLinear | libs/core/src/watermark/mark_codec.cpp:44-61 | the register is linear: the sum of two inputs gives the sum of the registers |
| LegacyMark.StepInvertible | libs/core/src/watermark/mark_codec.cpp:50-57 | only the zero register steps to zero |
| LegacyMark.BurstDetected | libs/core/src/watermark/mark_codec.cpp:44-61 | every nonzero error within 16 consecutive bits of the 88-bit frame turns an accepted frame into a rejected one |
| LegacyMark.FeedTaps | libs/core/src/watermark/mark_codec.cpp:44-61 | the register from all ones, bit by bit: it shifts by one place, and bits 12, 5 and 0 flip when the bit that falls out differs from the input bit |
| LegacyMark.LegacyIff | libs/core/src/watermark/mark_codec.cpp:100-106 | exactly the frames are legacy whose first byte is 1 and whose bits 72 to 87 are the checksum of the first 72 |
| LegacyMark.LegacyFrame | libs/core/src/watermark/mark_codec.cpp:63-106 | nine bytes that start with 1, their checksum and any six bytes are accepted |
| MarkChannel.HasMarkChannel | libs/core/src/watermark/mark_channel.cpp:66-84 | true exactly for valid text with at least 136 significant code points |
| MarkChannel.EmbedMark | libs/core/src/watermark/mark_channel.cpp:86-116 | without a channel nothing; otherwise the text with U+200B behind each significant code point whose bit of the repeated frame is 1 |
| MarkChannel.MarkedText | libs/core/src/watermark/mark_channel.cpp:86-116 | for any text with a channel, marks and variation selectors in it included, the marked text is valid, scans to the written tokens and has the canonical form of the original |
| MarkChannel.MarkedSize | libs/core/include/dgds/core/models/protocol.h:17-22 | a marked copy of any content within the publishing limit is its stored size plus three bytes for each 1-bit, at most four times the size, and in hexadecimal leaves 64 KiB of a response free |
| ByScalar.EmbeddedExactly | libs/core/src/watermark/mark_channel.cpp:66-116 | text of scalar values is marked exactly when at least 136 of them are not U+200B, and then U+200B stands behind each of these whose bit of the repeated frame is 1 |
| MarkChannel.CountOccurrence | libs/core/src/watermark/mark_channel.cpp:48-60 | the table in place: one more sighting of a listed mark, or a new entry while there is room |
| MarkChannel.RegisterStep | libs/core/src/watermark/mark_channel.cpp:137-147 | the shift register always shows the window of the last 136 significant bits, oldest first |
| MarkChannel.ReadMarks | libs/core/src/watermark/mark_channel.cpp:118-182 | the loop finds what the windows of the significant bits say: legacy escape first, then the marks sighted twice, then which error |
| CandidateTable.TallyExact | libs/core/src/watermark/mark_channel.cpp:48-60 | every listed mark has its exact number of sightings, none is listed twice, and a mark is missing only when the table is full of others |
| CandidateTable.TallyNames | libs/core/src/watermark/mark_channel.cpp:48-60 | the table lists the first sixteen different marks sighted, in the order of their first sighting |
| CandidateTable.ConfidentIff | libs/core/src/watermark/mark_channel.cpp:161-182 | a mark is read with confidence if and only if it is among the first sixteen different ones and sighted at least twice |
| CandidateTable.ConfidentExactly | libs/core/src/watermark/mark_channel.cpp:161-175 | what is read with confidence is the list of those of the first sixteen different marks that are sighted at least twice, in order of first sighting |
| CandidateTable.TallyListsAll | libs/core/src/watermark/mark_channel.cpp:56-59 | with at most sixteen different marks seen, every one is listed |
| Recovery.WindowIsRotation | libs/core/src/watermark/mark_channel.cpp:98-113 | each window over a repeated frame is the rotation of the frame that its position says |
| Recovery.LegacySeenIff | libs/core/src/watermark/mark_channel.cpp:149-152 | over a full period of windows the legacy escape is taken exactly when some rotation of the frame is a legacy frame |
| Recovery.EmbeddedBits | libs/core/src/watermark/mark_channel.cpp:98-147 | the significant bits read from a marked text are the frame, repeated |
| Recovery.ReadsIff | libs/core/src/watermark/mark_channel.cpp:118-182 | of any text exactly those marks are read that are sighted at least twice and are among the first sixteen different ones sighted, provided that no window shows a legacy frame; each is listed once |
| Recovery.ReadsExactly | libs/core/src/watermark/mark_channel.cpp:118-182 | what any text reads as: the version error exactly when a window is legacy, else that list, else which of the two errors, by whether any U+200B is there |
| Recovery.ExactRecovery | libs/core/src/watermark/mark_channel.cpp:86-182 | a mark written into text free of U+200B with at least 272 significant code points is read back first in a duplicate-free list, or the version error is reported, the latter exactly when some rotation is legacy |
| Recovery.ExcerptRecovery | libs/core/src/watermark/mark_channel.cpp:86-182 | any rest of a marked text from a code-point boundary on, with at least 407 significant code points, gives the version error exactly when some rotation is legacy, and otherwise yields the mark exactly when it is among the first sixteen different marks sighted, so always when at most 16 marks of version 2 are among the rotations |
| Recovery.PassageRecovery | libs/core/src/watermark/mark_channel.cpp:86-182 | the same for any passage cut at code-point boundaries on both sides, with at least 408 significant code points: the version error exactly when some rotation or the last window is legacy |
| StrewnMarks.StrewnText | libs/core/src/watermark/mark_channel.cpp:86-147 | a text free of U+200B with marks strewn in behind any of its code points is valid, reads as exactly that pattern of bits and has the canonical form of the text |
| Splicing.CopyIsCut | libs/core/src/watermark/mark_channel.cpp:86-116 | a marked copy is its front up to any code point followed by its back from there on |
| Splicing.SpliceIsRead | libs/core/src/watermark/mark_channel.cpp:86-182 | the front of one copy, with at least 272 code points, and the back of another from the same place on, with at least 407, have the canonical form of the text; they give the version error exactly when a window of the two frames is legacy, and otherwise yield the first mark in front and the second exactly when it is among the first sixteen different marks sighted |
| Stores.MetadataRegistry.FindPurchaseOf | src/stubs/metadata-registry/src/file_metadata_registry.cpp:343-360 | loads all records and picks one of this user and publication, if there is one |
| Stores.MetadataRegistry.AddPurchase | src/stubs/metadata-registry/src/file_metadata_registry.cpp:296-325 | marker then record, the marker released when the record cannot be stored; every record keeps a marker that names it |
| Stores.MetadataRegistry.HasReceipt | src/stubs/metadata-registry/src/file_metadata_registry.cpp:427-443 | whether a receipt is stored for the context and any device |
| StoreContents.AddPurchaseMarks | src/stubs/metadata-registry/src/file_metadata_registry.cpp:296-325 | adding keeps the marker of every record, adds a record only under an unused identifier, and undoes its marker on failure unless the release fails |
| Stores.KeyStore.CreateMasterKey | src/stubs/key-store/src/file_key_store.cpp:30-51 | the present master key, or a new one only while no file key is stored; the existence test, the listing, the load and the write may each fail on their own |
| Stores.KeyStore.ObtainKey | src/stubs/key-store/src/file_key_store.cpp:75-117 | the stored file key, or a new one stored for that identity alone |
| Services.Server.ResolveContext | libs/server/src/services/access.cpp:7-40 | a purchase gives the buyer's access, a publication the author's, anything else the error |
| Services.Server.ResolveAccess | libs/server/src/services/access.cpp:42-55 | the access, for its own user only |
| Services.Server.Publish | libs/server/src/services/publication_service.cpp:25-110 | the whole new state and result: checks, claim, key, blob, record, and the claim released after any later failure |
| Services.Server.IssueReceipt | libs/server/src/services/purchase_service.cpp:122-160 | a receipt is stored exactly when it is returned, for this context and device alone |
| Services.Server.ReceiptFor | libs/server/src/services/purchase_service.cpp:15-46 | the stored receipt, a first one when the purchase has none at all, or the error |
| Services.Server.Buy | libs/server/src/services/purchase_service.cpp:48-107 | the whole new state and result of a purchase: existing record, own publication, new record, record found on the second look |
| Services.Server.RestoreReceipt | libs/server/src/services/purchase_service.cpp:109-120 | a new receipt for a context of the user |
| Services.Server.SealMarked | libs/server/src/services/delivery_service.cpp:18-42 | the stored content as it is without a channel, the marked content sealed otherwise |
| Services.Server.MarkForPurchase | libs/server/src/services/delivery_service.cpp:46-56 | the content with the mark of the context |
| Services.Server.FetchPackage | libs/server/src/services/delivery_service.cpp:58-93 | the package for a context and device, or the first error on the way |
| Services.Server.Match | libs/server/src/services/attribution_service.cpp:27-70 | the loop over the marks, in which the lookups of each mark succeed or fail on their own, finds the only matching access, or the error that the marks together call for |
| Services.Server.Attribute | libs/server/src/services/attribution_service.cpp:14-85 | the finding for a leaked text, or the error |
| Answers.ContextAnswers | libs/server/src/services/access.cpp:7-40 | a context is found exactly when it is recorded and neither lookup fails, with its publication, owner, kind and day; otherwise which error |
| Answers.AccessAnswers | libs/server/src/services/access.cpp:42-55 | the access is given exactly to the owner of the context; otherwise which error |
| Answers.FileKeyAnswers | src/stubs/key-store/src/file_key_store.cpp:30-117 | a file key is there or made for this identity alone, a master key made only in an empty key store; otherwise which error, and no file key written |
| Answers.FileKeyIff | src/stubs/key-store/src/file_key_store.cpp:75-117 | when nothing fails a file key is there or can be made if and only if the master key is present or the key store is empty |
| Answers.PublishAnswers | libs/server/src/services/publication_service.cpp:25-110 | a draft refused before its claim changes nothing and gets the first failing check; after the claim the first failure is answered and the claim given back, or the failure to do so answered; otherwise record, claim, sealed text and keys in full |
| Answers.PublishIff | libs/server/src/services/publication_service.cpp:25-110 | in every sound state a draft is published if and only if the author is registered, the text valid, the signature good, that very content unclaimed, its file key there or to be made and no step fails; it is a duplicate if and only if it passes the checks and that very content is claimed |
| Answers.IssueAnswers | libs/server/src/services/purchase_service.cpp:122-160 | a receipt of version 1 for context, user and days is issued with the next key and stored for the device in place of any other, or the first failure answered and nothing but a key drawn |
| Answers.RestoreAnswers | libs/server/src/services/purchase_service.cpp:109-120 | the owner of a context is issued a receipt as of the day the access was granted; otherwise which error |
| Answers.FirstPurchase | libs/server/src/services/purchase_service.cpp:78-107 | a first purchase of another's publication: the first failure is answered and leaves no record, and no marker unless its release fails too; otherwise record, marker and a receipt as of now |
| Answers.FirstPurchaseIff | libs/server/src/services/purchase_service.cpp:48-107 | the buyer gets a receipt if and only if the pair has no marker, the master key is present and none of the eleven steps fails; then the purchase is recorded and the receipt is for it and stored |
| Answers.RepeatedPurchase | libs/server/src/services/purchase_service.cpp:15-59 | a recorded purchase: the receipt stored for the device, or a first one as of the day of purchase when there is none, or refused when only another device has one |
| Answers.OwnAnswers | libs/server/src/services/purchase_service.cpp:67-76 | the author's own publication: the stored receipt, or a new one as of the day of publication |
| Answers.NothingToBuy | libs/server/src/services/purchase_service.cpp:61-65 | where nothing is published nothing is bought and nothing changes |
| Answers.FetchAnswers | libs/server/src/services/delivery_service.cpp:18-93 | a fetch changes nothing; the first failure is answered, and otherwise the package is given field by field: the canonical form of the draft, marked with the version-2 code of this context when it has a channel, under the file key, which is wrapped under the key of the stored receipt |
| Answers.OpensIff | libs/core/src/envelope/package.cpp:14-58 | of any package, whoever made it: a text comes out if and only if version and algorithm are 1, the key opens the file key and that the text, both bound to the identity, the text has that identity and the signature holds |
| Answers.OpeningFails | libs/core/src/envelope/package.cpp:14-58 | and otherwise the first thing wrong with it is answered |
| Answers.ReceiptOpensIff | libs/core/src/envelope/receipt.cpp:35-41 | a receipt of version 1 gives its key to its own device with its own header, and otherwise which error |
| EndToEnd.PublishedRecord | libs/server/src/services/publication_service.cpp:91-109 | the stored record is what was submitted, under the author's registered name, with the size of the canonical text |
| EndToEnd.StepKeeps | libs/server/src/services/purchase_service.cpp:48-160 | every request, with any of its storage steps failing at any of the times it is taken, keeps keys, publications, purchases and receipts sound, and no purchase record is of the buyer's own publication |
| EndToEnd.FetchedOpens | libs/server/src/services/delivery_service.cpp:18-93 | in every state of every run a fetched package opens under the key in the last receipt returned for that context and device, to a text with the canonical form of the published draft, which is the canonical text or its marked form |
| EndToEnd.EntitledFetchSucceeds | libs/server/src/services/delivery_service.cpp:58-93 | with the master key present and no storage failure, the owner of a context gets a package for any device a receipt was returned to |
| EndToEnd.OlderReceiptFails | libs/core/src/envelope/package.cpp:14-30 | a key from any other receipt is refused with an authentication failure |
| EndToEnd.KeysStep | src/stubs/key-store/src/file_key_store.cpp:30-51 | while a file key is stored no request makes or changes the master key, and none changes a file key |
| EndToEnd.MasterNeverReplaced | src/stubs/key-store/src/file_key_store.cpp:30-51 | over any run, deletions included, a master key with file keys under it stays or is gone for good, and file keys stay |
| EndToEnd.FileKeysOpen | src/stubs/key-store/src/file_key_store.cpp:53-73 | at every point of every run each stored file key unwraps under whatever master key is present |
| Attribution.MatchedIff | libs/server/src/services/attribution_service.cpp:27-70 | whichever lookups of whichever marks fail, some access is found if and only if the master key loaded for every mark whose context was found and exactly one of the marks, as looked up, is authentic for a context of this very content; the access found is that mark's |
| Attribution.MatchedError | libs/server/src/services/attribution_service.cpp:64-70 | when no mark matches, the error is a content mismatch if some mark was authentic, else an authentication failure if some context was found, else the last lookup's error |
| Attribution.NamedUnderFaults | libs/server/src/services/attribution_service.cpp:30-38 | what is named under failures is what is named without them, except exactly when another matching mark went unnoticed because its lookup failed: then nobody is named without them |
| Attribution.AttributedIff | libs/server/src/services/attribution_service.cpp:14-85 | whichever lookups fail, a context and user are named if and only if the master key loaded for every mark whose context was found, one and only one mark, as looked up, matches, that mark names the context, and its owner is the user and known; the answer is then, in every field, what the stores say of that context |
| Attribution.AttributedFinding | libs/server/src/services/attribution_service.cpp:72-84 | kind, owner, registered name of the owner, publication, title and day of whatever is answered are those of the context it names |
| Attribution.MatchingMeans | libs/server/src/services/attribution_service.cpp:33-55 | a mark matches exactly when the master key is there, the mark names a recorded context of this very content, and its code is the one computed for this content, context and version |
| Attribution.RunPersists | libs/server/src/services/purchase_service.cpp:48-160 | over any run records never change, file keys stay, and their master key stays or is gone |
| Attribution.DeliveredText | libs/server/src/services/delivery_service.cpp:46-56 | a delivered text is the canonical text or its marked form, with the very mark a later server computes for its context |
| Attribution.DeliveredCopyIsTraced | libs/server/src/services/attribution_service.cpp:14-85 | a copy delivered anywhere in a run, with 272 significant code points and no legacy rotation, is traced at any later point to its context and owner, with all that is recorded of the context, or, when another of its rotations matches too, to nobody |
| SplicedCopies.TwoMatches | libs/server/src/services/attribution_service.cpp:52-62 | a text from which two matching marks are read names nobody |
| SplicedCopies.NamedDespite | libs/server/src/services/attribution_service.cpp:30-38 | when only the lookup of one of two matching marks fails, the owner of the other is named if and only if no third mark matches |
| SplicedCopies.SpliceNamesNobody | libs/server/src/services/attribution_service.cpp:14-85 | a splice of two different matching copies, long enough, with no legacy window and the second mark among the first sixteen sighted, names nobody; with only the lookup of the second mark failing it names the first buyer, unless a third mark matches |
| SplicedCopies.SplicedDeliveries | libs/server/src/services/attribution_service.cpp:14-85 | the same of two copies delivered for different contexts at any points of a run, cut at the same code point, at any later point |
| BuyInterleaving.StepKeeps | libs/server/src/services/purchase_service.cpp:48-160 | every storage step of every thread, failed or not, keeps the invariant on markers, records, receipts and threads |
| BuyInterleaving.OneRecordPerPair | src/stubs/metadata-registry/src/file_metadata_registry.cpp:296-325 | under every interleaving a user has at most one record of a publication, and its marker exists and names it |
| BuyInterleaving.UnlinksOwnMarker | src/stubs/metadata-registry/src/file_metadata_registry.cpp:143-147 | a marker is never overwritten, and only the thread that linked it ever removes it, while its pair has no record |
| BuyInterleaving.RecordsPersist | src/stubs/metadata-registry/src/file_metadata_registry.cpp:296-325 | records are never changed or removed |
| BuyInterleaving.ReturnedIsBacked | libs/server/src/services/purchase_service.cpp:15-107 | a purchase that returned a receipt is backed by a record of its pair or by the user's own publication ever after, and so is every stored receipt |
| BuyInterleaving.AbandonedExactly | src/stubs/metadata-registry/src/file_metadata_registry.cpp:296-325 | a step of any thread leaves a pair with a marker, no record and no holder if and only if the holder of its marker stops, or fails to unlink the marker after it could not link its record |
| BuyInterleaving.AbandonedIff | src/stubs/metadata-registry/src/file_metadata_registry.cpp:143-147 | in every run a pair is in that state if and only if such a step happened earlier |
| BuyInterleaving.AbandonedRuns | src/stubs/metadata-registry/src/file_metadata_registry.cpp:296-325 | both causes are reached, for any publication by another user: a single purchase links its marker and stops, or fails to link its record and then to unlink its marker |
| BuyInterleaving.AbandonedForGood | src/stubs/metadata-registry/src/file_metadata_registry.cpp:304-313 | such a pair stays so under every continuation |
| BuyInterleaving.AbandonedIsNeverBought | libs/server/src/services/purchase_service.cpp:88-103 | from then on only the author of the publication gets a receipt for it |
| BuyAlone.BuysAlone | libs/server/src/services/purchase_service.cpp:48-160 | a purchase that runs alone, storage step by storage step, and meets no failure has finished after fourteen steps with the reply and the contents that buying as a whole comes to |
| PublishInterleaving.StepKeeps | libs/server/src/services/publication_service.cpp:25-110 | every storage step of every thread, failed or not, keeps the invariant on claims, keys, blobs, records and threads |
| PublishInterleaving.PublishedForGood | libs/server/src/services/publication_service.cpp:52-109 | once recorded, a publication keeps its record and claim, its blob opens under its stored file key to the canonical form of its draft, and no other record has its identity, whatever earlier attempts left behind |
| PublishInterleaving.RunsLast | src/stubs/key-store/src/file_key_store.cpp:75-117 | under every interleaving no master key, file key or record is ever replaced |
| PublishInterleaving.ReleasesOwnClaim | libs/server/src/services/publication_service.cpp:16-21 | a claim is given back only by the thread that made it and never once its content is published |
| PublishInterleaving.AbandonedExactly | libs/server/src/services/publication_service.cpp:16-21 | a step of any thread leaves an identity claimed, unpublished and without a holder if and only if the holder of its claim stops, or fails to release the claim |
| PublishInterleaving.AbandonedIff | libs/server/src/services/publication_service.cpp:57-110 | in every run an identity is in that state if and only if such a step happened earlier |
| PublishInterleaving.AbandonedRuns | libs/server/src/services/publication_service.cpp:57-77 | both causes are reached, for any valid text signed by its author: a single publication makes its claim and stops, or fails at its next step and then to give the claim back |
| PublishInterleaving.AbandonedIsNeverPublished | libs/server/src/services/publication_service.cpp:57-65 | from then on the content is never recorded, and each attempt is refused as a duplicate when it claims |
| PublishAlone.PublishesAlone | libs/server/src/services/publication_service.cpp:25-110 | a publication that runs alone, storage step by storage step, and meets no failure has finished after twelve steps with the reply and the contents that publishing as a whole comes to |
| SecretFile.StepSound | src/stubs/support/src/file_storage.cpp:82-120 | every system call of a thread keeps what it relies on, and the file at the path unchanged once there |
| SecretFile.OtherSound | src/stubs/support/src/file_storage.cpp:82-120 | no system call of one thread takes anything from another |
| SecretFile.SecretForGood | src/stubs/support/src/file_storage.cpp:105-119 | the secret file never changes once linked |
| SecretFile.AllAgree | src/stubs/support/src/file_storage.cpp:391-426 | under every interleaving all calls that succeed return the same secret, which the file holds, and none ever finds it incomplete |
| SecretFile.CallSucceeds | src/stubs/support/src/file_storage.cpp:353-426 | whatever other threads do, a call that meets no failure has its 32-byte secret after at most 72 system calls of its own: the one the file holds, and has held since it was there |
| SecretFile.FailureAnswers | src/stubs/support/src/file_storage.cpp:82-120 | what each failing system call comes to: which error, or none when only the pending name could not be taken away |
| RateLimiter.Limiter.Accepted | libs/server/src/middleware/rate_limiter.cpp:15-41 | the whole new table and the decision, pruning included |
| RateLimiter.Limiter.Prune | libs/server/src/middleware/rate_limiter.cpp:43-52 | erases exactly the counters whose window is over |
| RateLimiter.Noninterference | libs/server/src/middleware/rate_limiter.cpp:15-52 | for a clock that starts at zero or later and never goes back, each decision is that of one counter kept for that operation and caller alone and never pruned |
| RateLimiter.NeverMoreThanTwice | libs/server/src/middleware/rate_limiter.cpp:29-40 | no half-open interval of one window's length sees more than twice the limit |
| RateLimiter.CounterWindow | libs/server/src/middleware/rate_limiter.cpp:29-40 | a counter's calls are exactly those allowed in its own window and never exceed the limit |
| RateLimiter.RefusedIff | libs/server/src/middleware/rate_limiter.cpp:15-41 | a call is refused if and only if there is a limit, the window that began last is not over and the limit has been reached in it |
| RateLimiter.SharedCount | libs/server/src/middleware/rate_limiter.cpp:15-41 | the shared limiter accepts of one caller, in any interval, as many calls as the counter kept alone |
| RateLimiter.SharedNeverMoreThanTwice | libs/server/src/middleware/rate_limiter.cpp:15-52 | the bound of twice the limit for the shared, pruned limiter, whatever others do |
| RateLimiter.TwiceIsReached | libs/server/src/middleware/rate_limiter.cpp:29-40 | two full bursts around a window's end reach twice the limit |
| Binary.Buffer.AppendInteger | libs/core/src/codec/binary.cpp:10-17 | appends the big-endian bytes of the value, at most eight of them |
| Binary.Buffer.AppendBytes | libs/core/src/codec/binary.cpp:19-23 | appends the bytes |
| Binary.Reader.ReadByte | libs/core/src/codec/binary.cpp:25-34 | takes the first byte of the rest, if any |
| Binary.Reader.ReadInteger | libs/core/src/codec/binary.cpp:36-54 | takes the integer at the front, or takes nothing |
| Binary.Reader.ReadBytes | libs/core/src/codec/binary.cpp:56-68 | takes so many bytes from the front, or takes nothing |
| Binary.TakeAppendedInteger | libs/core/src/codec/binary.cpp:10-54 | an integer that fits its width is read back from what was appended, and the rest with it |
| Binary.TakenInteger | libs/core/src/codec/binary.cpp:10-54 | what was read is what appending the value would have written |
| SealedContentCodec.Encode | libs/core/src/crypto/sealed_content_codec.cpp:17-32 | the layout, or an error exactly when the ciphertext is longer than four bytes can say |
| SealedContentCodec.Decode | libs/core/src/crypto/sealed_content_codec.cpp:34-59 | the value the layout was made from, or the error |
| SealedContentCodec.ParseLayout | libs/core/src/crypto/sealed_content_codec.cpp:17-59 | what is encoded decodes to itself, and with anything after it to nothing |
| SealedContentCodec.LayoutParse | libs/core/src/crypto/sealed_content_codec.cpp:17-59 | what is accepted is the encoding of what it decodes to |
| SealedContentCodec.PrefixFree | libs/core/src/crypto/sealed_content_codec.cpp:34-59 | no accepted string is a proper prefix of another |
| ReceiptCodec.EncodeHeader | libs/core/src/envelope/receipt.cpp:15-26 | the associated data of a header |
| ReceiptCodec.Encode | libs/core/src/envelope/receipt.cpp:43-56 | the layout of a receipt, or the error |
| ReceiptCodec.Decode | libs/core/src/envelope/receipt.cpp:58-102 | the receipt, with an unsupported version told apart from a malformed string |
| ReceiptCodec.AssociatedDataInjective | libs/core/src/envelope/receipt.cpp:15-26 | two headers with the same associated data are equal, negative times and any version included |
| ReceiptCodec.ParseLayout | libs/core/src/envelope/receipt.cpp:43-102 | a version-1 receipt decodes to itself, and with anything after it to nothing; another version never decodes |
| ReceiptCodec.LayoutParse | libs/core/src/envelope/receipt.cpp:43-102 | what is accepted is the encoding of what it decodes to, of version 1 |
| ReceiptCodec.PrefixFree | libs/core/src/envelope/receipt.cpp:58-102 | no accepted string is a proper prefix of another |
| Records.AppendText | src/stubs/metadata-registry/src/records.cpp:17-20 | a four-byte length, which wraps, and the text |
| Records.ReadText | src/stubs/metadata-registry/src/records.cpp:22-32 | takes a text from the front, or fails |
| Records.EncodePublication | src/stubs/metadata-registry/src/records.cpp:59-75 | the layout of a publication |
| Records.DecodePublication | src/stubs/metadata-registry/src/records.cpp:77-104 | the publication, or the error |
| Records.ParsePublicationLayout | src/stubs/metadata-registry/src/records.cpp:59-104 | with texts shorter than 2^32 bytes, a publication decodes to itself, and with anything after it to nothing |
| Records.PublicationLayoutParse | src/stubs/metadata-registry/src/records.cpp:59-104 | what is accepted is the encoding of what it decodes to |
| Records.PublicationRoundTripIff | src/stubs/metadata-registry/src/records.cpp:17-20 | the round trip of a publication holds if and only if each of its texts is shorter than 2^32 bytes |
| Records.EncodePurchase | src/stubs/metadata-registry/src/records.cpp:106-115 | the layout of a purchase |
| Records.DecodePurchase | src/stubs/metadata-registry/src/records.cpp:117-137 | the purchase, or the error |
| Records.ParsePurchaseLayout | src/stubs/metadata-registry/src/records.cpp:106-137 | a purchase decodes to itself, and with anything after it to nothing |
| Records.PurchaseLayoutParse | src/stubs/metadata-registry/src/records.cpp:106-137 | what is accepted is the encoding of what it decodes to |
| Records.EncodeStored | src/stubs/metadata-registry/src/records.cpp:139-160 | the layout of a stored receipt, or the error of either part |
| Records.DecodeStored | src/stubs/metadata-registry/src/records.cpp:162-189 | the stored receipt, or the error |
| Records.ParseStoredLayout | src/stubs/metadata-registry/src/records.cpp:139-189 | a stored receipt decodes to itself if and only if it has version 1, its receipt is shorter than 2^32 bytes and nothing follows; otherwise it is refused |
| Records.StoredLayoutParse | src/stubs/metadata-registry/src/records.cpp:139-189 | what is accepted is the encoding of what it decodes to |
| Records.PrefixFree | src/stubs/metadata-registry/src/records.cpp:59-189 | of each kind of record, no accepted string is a proper prefix of another |
| Catalogue.HasReceipt | src/stubs/metadata-registry/src/file_metadata_registry.cpp:427-443 | true exactly when some name begins with the identifier and a dash |
| Catalogue.PrefixFindsExactly | src/stubs/metadata-registry/src/file_metadata_registry.cpp:434-440 | that is the case exactly when a receipt of that very identifier is stored, whatever longer identifiers begin alike |
| Catalogue.IdentifierOfName | src/stubs/metadata-registry/src/file_metadata_registry.cpp:66-78 | the identifier is read back from the name made of it |
| Catalogue.WindowOf | src/stubs/metadata-registry/src/file_metadata_registry.cpp:80-92 | the slice of the records from the offset on, of at most the limit |
| Catalogue.WindowOfFiles | src/stubs/metadata-registry/src/file_metadata_registry.cpp:94-141 | the page as specified from the listing and the files of its window |
| Catalogue.PageReadsItsWindow | src/stubs/metadata-registry/src/file_metadata_registry.cpp:94-141 | two directories that hold the same files for the names of the window give the same page, whatever else they hold |
| Catalogue.PageIsWindow | src/stubs/metadata-registry/src/file_metadata_registry.cpp:94-141 | the page equals loading all records, sorting by identifier and slicing, in whatever order the directory is listed |
| Catalogue.PagesAreTheCatalogue | src/stubs/metadata-registry/src/file_metadata_registry.cpp:94-141 | for any limit of at least one, the pages together are every publication once in strictly increasing order, under one total |
| Offsets.BigEndianAt | libs/core/src/codec/binary.cpp:10-17 | the bytes of an integer, the most significant one first |
| Offsets.SealedOffsets | libs/core/src/crypto/sealed_content_codec.cpp:17-32 | algorithm, 12 bytes of nonce, length in four bytes, ciphertext, 16 bytes of tag |
| Offsets.HeaderOffsets | libs/core/src/envelope/receipt.cpp:15-26 | version, identifier, 16 bytes of user, both times: 41 bytes |
| Offsets.ReceiptOffsets | libs/core/src/envelope/receipt.cpp:43-56 | the header, 32 bytes of ephemeral key, the sealed key |
| Offsets.TextOffsets | src/stubs/metadata-registry/src/records.cpp:17-20 | a text is its length in four bytes and the text |
| Offsets.PublicationOffsets | src/stubs/metadata-registry/src/records.cpp:59-75 | identifier and author, the three texts, then 145 bytes of fixed fields in their places |
| Offsets.PurchaseOffsets | src/stubs/metadata-registry/src/records.cpp:106-115 | the four fields of the 40 bytes |
| Offsets.StoredOffsets | src/stubs/metadata-registry/src/records.cpp:139-160 | device key, length of the receipt in four bytes, receipt, wrapped file key |
| ClientAgreement.BuyStays | libs/server/src/services/purchase_service.cpp:15-107 | a purchase never replaces a stored receipt, but for an author's own publication when the receipt store cannot be read |
| ClientAgreement.ElsewhereStays | libs/server/src/services/purchase_service.cpp:109-160 | requests for other devices leave this device's receipts alone |
| ClientAgreement.ReplyIsStored | libs/server/src/services/purchase_service.cpp:122-160 | a reply is the receipt then stored for its context and device |
| ClientAgreement.StepAgrees | libs/client/src/client.cpp:10-57 | with one client per device key, a step keeps every local receipt equal to the server's if and only if it is not this: an author with a local receipt asks again for their own publication, reading the stored receipt fails, no other step of the reissue fails and the master key is present, and the reply is not saved |
| ClientAgreement.OwnReplyIff | libs/server/src/services/purchase_service.cpp:66-76 | an author whose stored receipt is missing or unreadable gets one if and only if the master key is present and none of the eight steps on the way fails |
| ClientAgreement.RunsAgree | libs/client/src/client.cpp:10-57 | over any run with lost replies, repeated attempts, failed saves and wiped stores, and no such step, each local receipt is the server's current one |
| ClientAgreement.AgreedFetchOpens | libs/client/src/client.cpp:59-95 | then whatever is fetched opens with the local receipt to the published text up to its mark |
| ClientAgreement.StrandedRun | libs/server/src/services/purchase_service.cpp:66-76 | the exception is reached from empty stores, for any text signed by its author: register, publish, take a receipt, ask again with the receipt unreadable and the reply lost |
| Client.ApiClient.Receive | libs/client/src/client.cpp:97-105 | saves the receipt of a reply under its own identifier, or leaves the local store alone |
| Client.ApiClient.Buy | libs/client/src/client.cpp:10-30 | server, local store and result after a purchase |
| Client.ApiClient.StoredReceipt | libs/client/src/client.cpp:32-57 | the local receipt, a restored one when there is none, or the error when the local one cannot be read or does not decode |
| Client.ApiClient.FetchContent | libs/client/src/client.cpp:59-95 | server, local store and result after fetching content, whichever of the three requests fails or loses its reply, and when the device key cannot be read or used |
| Client.AcceptedIff | libs/client/src/client.cpp:84-94 | whatever package arrives, a text is accepted if and only if its digest is the identity asked for, the author's signature on that identity holds and the key of the receipt opens it |
| ClientAnswers.ContentAnswers | libs/client/src/client.cpp:32-95 | with client and server agreed, fetching content answers the first thing that goes wrong in the requests, on the line, in the local store or with the device key; when nothing does, it is the canonical form of the published draft, marked for this context when it has a channel |
| Client.FetchedIsPublished | libs/client/src/client.cpp:59-95 | content the client returns is the published text, as stored or marked, and client and server are agreed afterwards whatever went wrong |
| Client.EntitledGetsContent | libs/client/src/client.cpp:59-95 | with the master key present and no trouble the owner of a context gets the content, even after the local store was wiped |

## Left out

- OpenSSL, randomness and secret memory: cryptography is ideal, drawn keys are numbered in the order they are drawn, drawn identifiers are unused in the statements about whole requests and arbitrary in the interleavings; nonces are part of the byte format only.
- Networking, JSON, request routing, sessions, user registration, command line and platform key stores: plumbing around the modelled services that would add only easy members.
- Real file-system effects below the modelled calls: permissions, flushing to disk, symbolic links. A directory listing is one step.
- A `publish` step in `PublishInterleaving` that obtains the master key goes through the same checks as `load_or_create_secret`; the writing of that file itself is modelled in `SecretFile`.
- Deleting the master key while requests interleave: deletion is a step between whole requests in `EndToEnd`.
- Restoring and delivering inside an interleaving: both take whole-request steps only.
- Timestamps are unbounded integers outside the encodings, so a window that ends beyond 2^63 is not modelled.
- Two file names that read as the same identifier (leading zeros) and the order `std::sort` would give them: the registry never writes such names.
- `publications_of_author`, `purchases_of_user` and `purchase_count`: filters over the same listing and window.
- Client.ApiClient.Buy: does not model a failing device key, because nothing is sent or stored before it is read.
- CanonicalForm.CanonicalIsStable: is about valid text, which `publish` checks before anything else; `CanonicalStability.StableIff` is the exact condition for arbitrary bytes.
- A failure inside hashing, signature verification, mark codes and mark-key derivation (OpenSSL running out of memory): those functions are total here. Sealing, drawing keys and every storage step may fail.
- The stores' single lookups and replacements are proved against the functions of the same names in `StoreContents` and have no row of their own.
