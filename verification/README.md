# A model of the virtual file system's core, with proofs

This project models the hard parts of an in-memory virtual file system written in TypeScript and proves what its
documentation and design promise of them. `dafny verify dfyconfig.toml` checks the whole project; every file is a module
named after what it models, and opens with a line on what that is.

- **Volumes.** `Forest` and `Volumes` hold the state that everything else works on: inodes, directories with entries,
  files and symbolic links with links, and the consistency (`WellFormed`) of a published volume. `Assembly` builds a
  volume from node specifications. `Sorting` and `Basics` hold byte order, sorted listings and small tools.
- **Snapshot images.** `Lines` is the chunked line reader, as a class over a growing buffer and as two pure readers:
  one per chunk, one per byte. `CanonicalBase64` is canonical base64. `TreeMeter`, `TreeReader`, `TreeGraph`, `TreeMeaning`,
  `TreeVolume`, `TreePaths` and `TreeEnd` are the reader of tree images: the meter, the records, the graph check, what
  an accepted image describes, the path check and the end. `TreeWriter`, `TreeImages` and `TreeRoundTrip` are the
  writer, what it writes for a volume, and the law that joins both. `TreeBudget` and `TreeUsage` measure volumes: when
  they fit a budget, and when a live image's header counts them right.
- **Semantic identity.** `MerkleFraming` is the length-prefixed framing, `MerkleIdentity` the identity as a function of
  the namespace, `MerkleWalk` and `MerkleIdentify` the budgeted walk and digest schedule that compute it.
- **Search.** `GlobBraces`, `GlobScan` and `GlobExpand` are brace expansion, `GlobMatch` the metered matcher and
  `GlobPatterns` what its patterns match, `SearchVisitor` the stack visitor, `Utf8`, `ContentSearch` and `ContentRows` the
  content search and the rows it gives.
- **Walks.** `Resolve` and `ResolveMeaning` are symbolic link resolution; `Walks`, `Fixtures`, `FixtureTrees` and
  `FixtureRoundTrip` are the snapshot walk and the fixture that undoes it; `WalkOrder` says in which order the walk and the
  search meet what. `Overlay` is the overlay diff. `HexPaths`, `CallerWatch` and `WatchScope` are a confined caller's
  watch.
- **Protocols.** `R2Store` is the compare-and-swap store, `Coordinator` and `CoordinatorRuns` the workbench coordinator
  with its workers, each as a system of steps between yield points.
- **XDR.** `Xdr` is the codec library, `XdrLayout` the byte layout of RFC 4506 that it keeps to.

A method stands for code that changes things step by step; it is proved against a pure function or a predicate, and
lemmas then say what that function or predicate means in terms of its own: bytes at positions, cuts of a text, paths of a
volume. A digest is any function into 32 bytes: where two digests are
equal, either the inputs are, or two different byte strings that were both hashed have the same digest. JSON, UTF-8
decoding of lines, regular expressions, path text and selectors are parameters, with what is asked of them in `requires`
clauses (`Faithful` for lines: a written line is not empty, holds no newline, does not end in a carriage return and
parses back to its record; `Aligned` for patterns: matches begin and end at characters).

One promise needs a condition. An owner of the store that answered "unknown" after a write may still start another one:
exactly when it then has a commit that is computing its digest, or a load that found no object and whose image fits
(`R2Store.SendsAfterUnknown`). `R2Store.OverlappingCommitsStillWrite` gives such a run; an owner that runs one operation
at a time sends nothing (`R2Store.SerialOwnerStaysSilent`).

## Model

| member | source | states |
|---|---|---|
| `Lines.ChunkingIrrelevant` | packages/core/src/VirtualFileSystem.ts:1856-1864 | two ways of cutting the same bytes give the reader the same value or the same failure, which is what reading byte by byte gives |
| `Lines.FeedFromIsDrive` | packages/core/src/internal/lines.ts:91-139 | scanning a chunk line by line agrees with reading it byte by byte, whatever was held before, and keeps the meter law-abiding |
| `Lines.DrivePiece` | packages/core/src/internal/lines.ts:94-104 | metering every prefix of a piece without a newline gives the verdict of metering the piece once |
| `Lines.FeedFrame` | packages/core/src/internal/lines.ts:91-121 | reading framed lines is closing them one after another |
| `Lines.NextNewline` | packages/core/src/internal/lines.ts:94-96 | the first newline at or after a position, or the length |
| `Lines.LineReader.Hold` | packages/core/src/internal/lines.ts:70-79 | the held bytes grow by the piece, whether or not the buffer had to be replaced |
| `Lines.LineReader.Complete` | packages/core/src/internal/lines.ts:106-119 | the line is what was held and the piece; it is parsed and folded once, and nothing stays held |
| `Lines.LineReader.Scan` | packages/core/src/internal/lines.ts:91-122 | one batch leads to the same reader as the whole rest of the chunk, and makes progress; a failure is the first one |
| `Lines.LineReader.Push` | packages/core/src/internal/lines.ts:124-134 | a detached chunk is refused; any other has the effect of `Feed` in spite of the batches |
| `Lines.LineReader.Finish` | packages/core/src/internal/lines.ts:136 | an unfinished line is refused, else the fold finishes |
| `Lines.Frame` | packages/core/src/internal/lines.ts:160-171 | the frame is every line followed by a newline, in a buffer filled exactly |
| `Lines.FrameLinesAppend` | packages/core/src/internal/lines.ts:160-171 | framing distributes over appending lines |
| `Lines.RunAccepts` | packages/core/src/internal/lines.ts:81-136 | a run accepts exactly the inputs that are readable lines (not empty, no carriage return at the end, parsed), each with a line feed behind it, that charge and fold one after another to a state that finishes |
| `Lines.UnfinishedRefused` | packages/core/src/internal/lines.ts:136 | input that does not end with a line feed is refused as malformed text once everything before it was folded |
| `Lines.UnreadableRefused` | packages/core/src/internal/lines.ts:81-89 | an empty line, one that ends with a carriage return and one that does not parse are refused as malformed text |
| `CanonicalBase64.EncodeRoundTrip` | packages/core/src/internal/canonicalBase64.ts:6-34 | encoded text is canonical, measures as the input's length and decodes to the input, for every byte string (RFC 4648, section 4) |
| `CanonicalBase64.CanonicalRoundTrip` | packages/core/src/internal/canonicalBase64.ts:6-14 | canonical text decodes, to as many bytes as measured, and is the only text that does: encoding them gives it back (RFC 4648, section 3.5) |
| `CanonicalBase64.CanonicalGroup` | packages/core/src/internal/canonicalBase64.ts:6-14 | a final group is canonical exactly when its digits are digits, its padding is at the end and its unused bits are zero |
| `CanonicalBase64.EncodeAppend` | packages/core/src/internal/canonicalBase64.ts:16-26 | encoding distributes over a cut at a multiple of three |
| `CanonicalBase64.EncodeChunked` | packages/core/src/internal/canonicalBase64.ts:16-26 | encoding in chunks of 12288 bytes gives the encoding of the whole |
| `CanonicalBase64.EncodeSpelled` | packages/core/src/internal/canonicalBase64.ts:16-26 | every position of an encoding holds the character that section 4 of RFC 4648 puts there: six bits of a group of three bytes, the highest first, or padding |
| `MerkleFraming.U64Injective` | packages/core/src/internal/merkle.ts:53-57 | different numbers below two to the sixty-fourth are written differently |
| `MerkleFraming.DecimalInjective` | packages/core/src/internal/merkle.ts:66-69 | different timestamps have different decimal texts |
| `Sorting.LexMeans` | packages/core/src/internal/bytes.ts:4-18 | byte order: the first byte that differs decides, and without one the shorter string comes first |
| `MerkleFraming.U64Spells` | packages/core/src/internal/merkle.ts:53-57 | a number is written in eight bytes, the most significant first |
| `MerkleFraming.DecimalSpells` | packages/core/src/internal/merkle.ts:66-69 | a timestamp is written as a minus sign, if negative, and its decimal digits without a leading zero |
| `MerkleFraming.PreimageLaidOut` | packages/core/src/internal/merkle.ts:98-119 | kind 0, 1 or 2, then owner, group and mode at bytes 1, 9 and 17, the access, modification, change and birth stamps framed in this order, then the framed content, or the count of names and each framed name with its child digest |
| `MerkleFraming.PreimageInjective` | packages/core/src/internal/merkle.ts:98-119 | equal preimages come from the same kind, metadata and payload, the same names and the same child digests |
| `MerkleFraming.PlannedIsWritten` | packages/core/src/internal/merkle.ts:78-96 | the planned length is the number of bytes written |
| `MerkleFraming.PutFrames` | packages/core/src/internal/merkle.ts:59-64 | frames are written one after another, and what stands before them is kept |
| `MerkleFraming.WritePreimage` | packages/core/src/internal/merkle.ts:98-119 | the buffer of the planned length ends up holding the preimage, laid out as the contract of the digest has it |
| `MerkleIdentity.IdentityIsNamespace` | packages/core/src/internal/merkle.ts:180-281 | the same namespace has the same identity; different namespaces with equal identities exhibit two different byte strings, both hashed for them, with one digest |
| `MerkleIdentity.IdentityTells` | packages/core/src/internal/merkle.ts:180-281 | unless hashed byte strings collide, equal identities mean the same paths, content and hard-link partition |
| `MerkleIdentity.SameIdentity` | packages/core/src/internal/merkle.ts:1-2 | the identity depends on nothing but the namespace |
| `MerkleIdentity.RenumberingKeepsIdentity` | packages/core/src/internal/merkle.ts:1-2 | changing every inode number by an injective map that keeps the root keeps the identity |
| `MerkleIdentity.DigestsAlong` | packages/core/src/internal/merkle.ts:98-119 | equal root digests give the same paths with equal digests and the same content along each |
| `MerkleIdentity.EqualIdentities` | packages/core/src/internal/merkle.ts:155-178 | equal identities have equal root digests and equal hard-link groups |
| `MerkleIdentity.PartitionKept` | packages/core/src/internal/merkle.ts:266-268 | with equal groups, paths of one file in one volume are paths of one file in the other |
| `MerkleIdentity.IdentityBytesInjective` | packages/core/src/internal/merkle.ts:161-176 | equal identity preimages hold the same root digest and the same groups |
| `MerkleIdentity.IdentityBytesLaidOut` | packages/core/src/internal/merkle.ts:161-174 | the text "effect-vfs-semantic-sha256-v1" and a NUL, the 32 bytes of the root digest, the count of groups, then each group as the count of its paths and the framed paths |
| `MerkleIdentity.SharedPath` | packages/core/src/internal/merkle.ts:211-227 | a byte path names one file, so groups are disjoint |
| `MerkleWalk.SeenIsReached` | packages/core/src/internal/merkle.ts:193-237 | the finished walk has met every reached inode once and nothing else |
| `MerkleWalk.VisitedIsAll` | packages/core/src/internal/merkle.ts:211-214 | the finished walk has counted every entry of every reached directory once |
| `MerkleWalk.NamedIsGroups` | packages/core/src/internal/merkle.ts:218-227 | the paths recorded for a file with several links are all of its paths |
| `MerkleIdentify.BreadthFirst` | packages/core/src/internal/merkle.ts:193-237 | the walk succeeds exactly when the reached inodes and entries fit the budget, and a failure names one that does not |
| `MerkleIdentify.HashMeter.Charge` | packages/core/src/internal/merkle.ts:128-142 | the total grows by the charge and is refused exactly when it passes the limit |
| `MerkleIdentify.ChildrenLater` | packages/core/src/internal/merkle.ts:180-181 | in the leaves-first schedule every child digest exists before its parent is hashed |
| `MerkleIdentify.NodeDigest` | packages/core/src/internal/merkle.ts:145-153 | the planned length is charged, and within the limit the result is the digest of the node's preimage |
| `MerkleIdentify.DigestNode` | packages/core/src/internal/merkle.ts:249-264 | payload first, then preimage; success keeps every digest right and every total exact, failure names an exceeded budget |
| `MerkleIdentify.DigestAll` | packages/core/src/internal/merkle.ts:239-264 | every reached inode gets its digest, with exact totals, unless a budget does not hold them all |
| `MerkleIdentify.CollectGroups` | packages/core/src/internal/merkle.ts:266-268 | the groups are those of the files with several paths, each sorted |
| `MerkleIdentify.IdentityMeasured` | packages/core/src/internal/merkle.ts:161-162 | the planned length of the identity is the number of bytes written |
| `MerkleIdentify.WriteIdentity` | packages/core/src/internal/merkle.ts:161-174 | the buffer of the planned length ends up holding the identity's byte string, laid out as the contract of the digest has it |
| `MerkleIdentify.IdentityDigest` | packages/core/src/internal/merkle.ts:156-178 | the groups are sorted, the length charged, and within the limit the byte string hashed |
| `MerkleIdentify.Identify` | packages/core/src/internal/merkle.ts:182-281 | succeeds exactly when every budget holds the whole; then the digest is the identity and digests, groups and counts are those of the reached namespace |
| `TreeMeter.ChargeLineLawful` | packages/core/src/internal/tree.ts:141-155 | the line meter keeps the laws under which chunk boundaries do not show |
| `TreeMeter.LineRefused` | packages/core/src/internal/tree.ts:142-155 | a line is refused exactly when a bound is passed; of two, the one a shorter prefix passes is named, the input bound at a tie |
| `TreeMeter.Meter.Line` | packages/core/src/internal/tree.ts:143-155 | the stateful meter charges as the pure charge does, and a refusal leaves it as it was |
| `TreeMeter.Meter.Node` | packages/core/src/internal/tree.ts:156-174 | the stateful meter charges a node as the pure charge does; what that comes to is `TreeBudget.DocumentFits` |
| `TreeBudget.DocumentFits` | packages/core/src/internal/tree.ts:127-177 | charging the document of a volume succeeds exactly when no line is too long, the document fits, and the nodes that paths reach, their entries, and the bytes of their names and content fit; a failure is `LimitExceeded` with the field of a bound that is passed |
| `TreeBudget.ReadsWhenItFits` | packages/core/src/internal/tree.ts:127-177 | what was written for a volume reads back, cut in any way, exactly when the volume fits the budget; a failure names a bound that is passed |
| `TreeReader.Reader.Note` | packages/core/src/internal/tree.ts:241-260 | a name is refused exactly when it is not 1 to 255 good bytes, and is noted otherwise |
| `TreeReader.Reader.NoteLinks` | packages/core/src/internal/tree.ts:307-314 | every link is noted in order up to the first bad name, whose place is reported |
| `TreeReader.Reader.ReadLeaf` | packages/core/src/internal/tree.ts:300-341 | a file or symbolic link is refused for its first fault, else its names, bytes and specification are added |
| `TreeReader.Reader.ReadDirectory` | packages/core/src/internal/tree.ts:290-298 | a directory's parent, position and name are recorded |
| `TreeReader.Reader.Read` | packages/core/src/internal/tree.ts:262-342 | the reader's fields change as `ReadRecord` says, and a failure is the one it gives |
| `TreeMeaning.ReadAllMeans` | packages/core/src/internal/tree.ts:262-342 | reading succeeds exactly when every record is acceptable after its predecessor, and the state is then determined by the records |
| `TreeMeaning.RecordsMean` | packages/core/src/internal/tree.ts:252-340 | records are accepted exactly when the first is the root, inode numbers ascend and stay below the allocator, revisions stay within the counter, names and targets are good, only retained files lack a name, and every file is inline and fits |
| `TreeMeaning.Ascend` | packages/core/src/internal/tree.ts:272-276 | accepted inode numbers ascend |
| `TreeGraph.GraphIssueMeans` | packages/core/src/internal/tree.ts:344-369 | no issue exactly when every name's parent is a directory, no directory holds a name twice and every directory reaches the root |
| `TreeGraph.ReachTogether` | packages/core/src/internal/tree.ts:361-367 | a directory and its parent reach the root together, which is why a whole chain may be remembered |
| `TreeGraph.CheckNames` | packages/core/src/internal/tree.ts:347-353 | the loop with the set of held names reports the first fault of the names |
| `TreeGraph.Sweep` | packages/core/src/internal/tree.ts:355-368 | the memoised sweep reports the first directory that plainly does not reach the root |
| `TreeGraph.CheckGraph` | packages/core/src/internal/tree.ts:344-369 | the whole check: the first issue, and none exactly on graphs that form a tree |
| `TreePaths.GroupByParent` | packages/core/src/internal/tree.ts:373-380 | every name is listed under its parent, and nothing else is |
| `TreePaths.MeasureBelow` | packages/core/src/internal/tree.ts:384-394 | one directory: every name is measured and every directory below queued once, or the path of the reported name is too long |
| `TreePaths.PathIssue` | packages/core/src/internal/tree.ts:372-395 | the walk halts; nothing is reported exactly when every absolute path fits, and what is reported is a name whose path does not |
| `TreeEnd.ImageNames` | packages/core/src/internal/tree.ts:241-260 | the names read are the entries of the volume described |
| `TreeEnd.RuntimeIssue` | packages/core/src/internal/tree.ts:397-417 | no issue exactly when the stored counts match, the limits hold and every path fits; else the first fault |
| `TreeUsage.NamesAreEntries` | packages/core/src/internal/tree.ts:397-400 | as many names are read as the restored volume has entries |
| `TreeUsage.LiveImageMeans` | packages/core/src/internal/tree.ts:397-417 | a live image is accepted exactly when its header counts the entries of the restored volume and the bytes of all records, and both and every absolute path fit its limits |
| `TreeUsage.CountFaultSpelled` | packages/core/src/internal/tree.ts:397-412 | the field that a wrong header is refused with: counts before limits, entries before bytes |
| `TreeUsage.PlacesSpelled` | packages/core/src/internal/tree.ts:236-239 | the field of a failure spells the index of the record and of the link |
| `TreeEnd.End` | packages/core/src/internal/tree.ts:428-437 | an image is accepted exactly when it has a root, its graph is a tree and its header holds |
| `TreeVolume.AcceptedIsWellFormed` | packages/core/src/internal/tree.ts:344-369 | what the reader accepts restores to a well-formed volume in which every node is reached from the root |
| `TreeVolume.ImageEntry` | packages/core/src/internal/volumeState.ts:141-164 | the entries of a restored directory are the names claimed in it |
| `TreeVolume.ImageLive` | packages/core/src/internal/tree.ts:355-368 | exactly the directories read are live in the restored volume |
| `TreeWriter.TreeNodes` | packages/core/src/internal/tree.ts:514-516 | the inodes a path reaches, each once, in ascending order |
| `TreeWriter.FindBelow` | packages/core/src/internal/volumeState.ts:41-56 | the children of one directory are found, each queued once |
| `TreeWriter.Writer.Encode` | packages/core/src/internal/tree.ts:544-555 | the text of a node, charged as line and then as node; unmetered writing never fails |
| `TreeWriter.Writer.Chunk` | packages/core/src/internal/tree.ts:562-588 | a chunk frames the next lines, as many as fit 128 lines and 65536 bytes or the one line that does not, and charges what it took and what it carries over |
| `TreeWriter.Writer.WriteTree` | packages/core/src/internal/tree.ts:537-600 | the chunks together frame the document; the stream fails exactly when charging the document fails, after framing a prefix of it |
| `TreeImages.WrittenRestores` | packages/core/src/internal/tree.ts:483-516 | the records written for a volume are accepted and restore everything a path reaches, with the same inodes, names, metadata and payloads |
| `TreeImages.WrittenClaims` | packages/core/src/internal/tree.ts:483-511 | the names claimed by the written records are the entries of the volume |
| `TreeRoundTrip.SnapshotLawful` | packages/core/src/internal/tree.ts:127-176 | the snapshot reader with its meter keeps the laws of the line reader, so cutting never shows |
| `TreeRoundTrip.CloseRecord` | packages/core/src/internal/tree.ts:262-342 | closing the line of an acceptable record charges what the writer charged and reads the record |
| `TreeRoundTrip.ReadDocument` | packages/core/src/internal/tree.ts:419-438 | however a document is cut, reading it charges it as writing it does, then runs the end check |
| `TreeRoundTrip.WriteThenRead` | packages/core/src/internal/tree.ts:537-600 | under any budget, reading what was written fails with the field the writer fails with, or restores everything a path reaches |
| `TreeRoundTrip.AnyAcceptedIsWellFormed` | packages/core/src/internal/tree.ts:443-457 | whatever bytes arrive and however they are cut, what the snapshot reader accepts restores to a well-formed volume |
| `TreeRoundTrip.EncodeSnapshot` | packages/core/src/internal/tree.ts:514-600 | the metered writer and the reader of the unmetered output fail together, with the same field, or the volume comes back |
| `Assembly.AssembledStep` | packages/core/src/internal/volumeState.ts:133-203 | one step of a lookup in the assembled volume follows a claimed name |
| `Volumes.LookupBack` | packages/core/src/internal/engine.ts:1110-1123 | in a well-formed volume a path to a directory is that directory's own, and a path to anything else is one of its links |
| `Volumes.PathBytesInjective` | packages/core/src/internal/engine.ts:243-250 | different paths of names are different byte paths |
| `Volumes.PathSpelled` | packages/core/src/internal/engine.ts:243-250 | the root is a slash, any other path each of its names with a slash in front |
| `Volumes.ListNames` | packages/core/src/internal/engine.ts:1123 | the names of a directory in byte order, each once |
| `GlobBraces.ExpandLiteral` | packages/core/src/internal/glob.ts:119-130 | a pattern without a comma in a brace stands for its own text |
| `GlobBraces.LabelMeans` | packages/core/src/internal/glob.ts:96-114 | exactly the braces and commas behind an even run of backslashes and outside a class count as such |
| `GlobBraces.CrossIs` | packages/core/src/internal/glob.ts:132-143 | two parts combine to each string of the first in turn, with every string of the second behind it |
| `GlobBraces.ExpandChoice` | packages/core/src/internal/glob.ts:132-143 | a choice stands for all strings of its first alternative, then of the next, each with everything behind it |
| `GlobBraces.ExpandLiteralBrace` | packages/core/src/internal/glob.ts:114-130 | a brace without a comma keeps its braces around each string of its body |
| `GlobBraces.SplitExpand` | packages/core/src/internal/glob.ts:131-143 | replacing the first choice by each alternative in turn loses and reorders nothing of the cartesian meaning |
| `GlobBraces.Cross` | packages/core/src/internal/glob.ts:138-143 | the strings of two parts combine to as many as the product |
| `GlobScan.ScanFindsFirst` | packages/core/src/internal/glob.ts:92-126 | on a source with a nesting, the scan with a stack finds the first choice of the nesting |
| `GlobScan.ScanItemsFails` | packages/core/src/internal/glob.ts:114-126 | the scan fails exactly as a recursive parse does, with the same message |
| `GlobScan.Scan` | packages/core/src/internal/glob.ts:92-126 | the loop over the characters with escapes and classes computes the scan of the labelled text |
| `GlobScan.ParsesWhenNested` | packages/core/src/internal/glob.ts:112-126 | the parser accepts exactly the sources whose braces are matched |
| `GlobExpand.SplitTexts` | packages/core/src/internal/glob.ts:132-143 | the parts of a split have the texts that the source cuts out of the value |
| `GlobExpand.PushAlternatives` | packages/core/src/internal/glob.ts:138-143 | pushing the alternatives last one first keeps what the pending values stand for, in order |
| `GlobExpand.ExpandSource` | packages/core/src/internal/glob.ts:87-145 | expansion terminates and gives the left-to-right cartesian meaning; a source with matched braces is refused if and only if its alternatives pass the limit |
| `GlobMatch.MeansSnoc` | packages/core/src/internal/glob.ts:250-282 | the recursive meaning of wildcards, read from the front, agrees with adding one step at the end, as a row does |
| `GlobMatch.WorkMeter.Tick` | packages/core/src/internal/glob.ts:238-246 | work is counted up to the limit and refused beyond it |
| `GlobMatch.Cell` | packages/core/src/internal/glob.ts:256-278 | one cell of the scalar table, negated classes and early exit included, for exactly the work it takes |
| `GlobMatch.TokenRow` | packages/core/src/internal/glob.ts:252-282 | a row says which prefixes of the text the tokens so far match |
| `GlobMatch.SegmentMatches` | packages/core/src/internal/glob.ts:248-285 | the verdict is the recursive meaning of `*`, `?`, classes and literals, for exactly the work it takes, unless the budget does not hold that |
| `GlobMatch.SegmentRow` | packages/core/src/internal/glob.ts:294-306 | a row says which prefixes of the path the segments so far match |
| `GlobMatch.Part` | packages/core/src/internal/glob.ts:298-303 | one cell of the path table; a segment is asked only about parts after a matched prefix |
| `GlobMatch.PathMatches` | packages/core/src/internal/glob.ts:292-308 | the last cell says whether the segments match the whole path |
| `GlobMatch.MatchesAny` | packages/core/src/internal/glob.ts:287-312 | the verdict is the recursive meaning with `**` over whole segments, for exactly the work it takes, unless the budget does not hold that |
| `GlobMatch.Matches` | packages/core/src/internal/glob.ts:234-317 | an excluded path is never included; each verdict is exact; a run fails if and only if the work it takes is more than the budget has left, and the count never passes it |
| `GlobPatterns.SegmentMeansCut` | packages/core/src/internal/glob.ts:248-285 | a segment matches exactly the texts that can be cut into one stretch for every token: anything for a star, one scalar for a question mark, itself for a literal, a listed or unlisted scalar for a class |
| `GlobPatterns.PatternMeansCut` | packages/core/src/internal/glob.ts:287-312 | a pattern matches exactly the paths that can be cut into one stretch for every segment: any run of names for a globstar, one matching name for any other; one that ends with a slash takes directories only |
| `GlobPatterns.ClassWorkMeans` | packages/core/src/internal/glob.ts:263-274 | a class takes one unit of work for every range tried, up to the first that holds the scalar |
| `GlobPatterns.SegmentWorkMeans` | packages/core/src/internal/glob.ts:248-285 | a segment takes one unit of work for each cell of its table, and one for every range that a class tries on a scalar that comes after a matched prefix |
| `GlobPatterns.PathWorkMeans` | packages/core/src/internal/glob.ts:292-308 | a path takes one unit for each cell of the path table, and the work of every segment asked about a part that comes after a matched prefix |
| `GlobPatterns.AnyWorkMeans` | packages/core/src/internal/glob.ts:287-314 | the patterns up to the first that matches are asked, each for one unit and the work of its path, none for a directory pattern asked about something else |
| `GlobPatterns.MatchWorkMeans` | packages/core/src/internal/glob.ts:317-319 | an excluded path takes the work of the excludes alone, any other that of both lists |
| `GlobPatterns.AnyMeansCut` | packages/core/src/internal/glob.ts:287-315 | a list of patterns takes a path exactly when the path can be cut up for one of them |
| `Resolve.ComponentsAppend` | packages/core/src/internal/engine.ts:370-387 | appending a suffix to a link target appends its components |
| `Resolve.SplicedPath` | packages/core/src/internal/image.ts:150-163 | a target spliced in front of what is left prepares to the spliced components, with the right trailing slash |
| `Resolve.PreparePath` | packages/core/src/internal/engine.ts:360-396 | the loop over the bytes yields the components and, for each, the suffix behind it |
| `Resolve.SpliceIsNest` | packages/core/src/internal/image.ts:126-166 | rewriting the path and resolving each link on its own, recursively, give the same node or the same failure |
| `Resolve.SpliceSplits` | packages/core/src/internal/image.ts:150-163 | what comes before the rest of a path is resolved as a path of its own, with the expansions it leaves |
| `Resolve.BudgetOnlyStops` | packages/core/src/internal/image.ts:152 | more expansions change nothing unless the lookup ran out of them |
| `Resolve.LoopExactlyWhen` | packages/core/src/internal/image.ts:152 | `SymlinkLoop` is the answer exactly when no lookup within the limit finishes |
| `Resolve.ResolvePath` | packages/core/src/internal/image.ts:112-167 | the loop halts and gives the node or the failure of the recursive reference |
| `ResolveMeaning.ComponentsMean` | packages/core/src/internal/engine.ts:345-396 | slashes separate, and a name reaches up to the next slash |
| `ResolveMeaning.PrepareMeans` | packages/core/src/internal/engine.ts:345-396 | the empty path, a NUL and a name over 255 bytes are refused, each with its own error; the path is absolute behind a leading slash |
| `ResolveMeaning.PlainResolves` | packages/core/src/internal/image.ts:126-166 | a path with no link on its way leads where its names, dots normalised, lead by plain lookup; a trailing slash asks for a directory; no expansion is used up |
| `ResolveMeaning.PlainFails` | packages/core/src/internal/image.ts:127-140 | a name behind something that is no directory fails with `NotDirectory`, a name that is not there with `NotFound` |
| `ResolveMeaning.LinkGoesOn` | packages/core/src/internal/image.ts:142-164 | at a link that is not the last name or is to be followed, the lookup goes on with the target in its place, from the root if the target starts with a slash, one expansion less; an empty target and no expansion left fail |
| `Walks.VisitsAreLookups` | packages/core/src/internal/image.ts:183-216 | every path a walk emits leads to the node emitted |
| `Walks.LookupsAreVisited` | packages/core/src/internal/image.ts:183-216 | every path below the start is emitted |
| `Walks.VisitsDistinct` | packages/core/src/internal/image.ts:183-216 | no path is emitted twice |
| `WalkOrder.VisitsAscend` | packages/core/src/internal/image.ts:193-199 | paths are emitted in the order of their names, each directory before what is in it |
| `WalkOrder.EntryMeans` | packages/core/src/internal/image.ts:193-214 | the first path of a node gives its content, any later one a hard link to the first |
| `Walks.ParentsListed` | packages/core/src/internal/image.ts:193-198 | every path comes after its parent's |
| `Walks.OneLinkOneVisit` | packages/core/src/internal/image.ts:201-208 | only a node with several links is emitted twice, which is why only those are remembered |
| `Walks.PushChildren` | packages/core/src/internal/image.ts:195-197 | pushing the sorted children in reverse keeps the order of what is still to come |
| `Walks.Walk` | packages/core/src/internal/image.ts:184-216 | the stack emits the recursive pre-order in byte order of names, content at the first path of a node and a link to it at later ones |
| `Fixtures.FixturePathBack` | packages/core/src/internal/fixture.ts:83-91 | the path of a walk parses back to the names it was made of |
| `Fixtures.FixturePathMeans` | packages/core/src/internal/fixture.ts:83-91 | an entry is accepted at exactly the absolute paths without a NUL, an overlong name or a dot component that name something |
| `Fixtures.DeclareEntries` | packages/core/src/internal/fixture.ts:94-144 | succeeds exactly on entries with good, different paths; a failure is that of the first entry at fault |
| `Fixtures.LoopLeadsNowhere` | packages/core/src/internal/fixture.ts:150-157 | a loop of hard links reaches no declaration |
| `Fixtures.ResolveLinks` | packages/core/src/internal/fixture.ts:146-166 | succeeds exactly when every hard link leads to a file or symbolic link, and each then stands for it |
| `FixtureTrees.NamePaths` | packages/core/src/internal/fixture.ts:168-180 | succeeds exactly when every path hangs below a declared directory, and collects every node's links |
| `FixtureTrees.AssembledLookup` | packages/core/src/internal/volumeState.ts:133-203 | a lookup in the assembled volume finds exactly the declared paths |
| `FixtureTrees.Build` | packages/core/src/internal/fixture.ts:36-213 | succeeds exactly when entries are declarable, links lead to content and parents are directories; the volume then holds the declarations, else the first failing check is reported |
| `FixtureRoundTrip.EntryShape` | packages/core/src/internal/image.ts:201-215 | every hard link emitted names a path emitted before it |
| `FixtureRoundTrip.WalkLinked` | packages/core/src/internal/fixture.ts:146-166 | the hard links of a walk all resolve |
| `FixtureRoundTrip.WalkRooted` | packages/core/src/internal/fixture.ts:170-177 | the parents of a walk's paths are all directories declared |
| `FixtureRoundTrip.RebuiltAliases` | packages/core/src/internal/fixture.ts:168-180 | two paths of a walk lead to one node exactly when they do in the rebuilt volume |
| `FixtureRoundTrip.Rebuild` | packages/core/src/VirtualFileSystem.ts:2453-2462 | walking any live directory and rebuilding never fails and gives the same paths, metadata, payloads and hard-link partition |
| `SearchVisitor.OpenTourIsWalk` | packages/core/src/internal/search.ts:84-141 | with nothing pruned and every name text, the visit is the snapshot walk without its root |
| `SearchVisitor.QueuedSmall` | packages/core/src/internal/search.ts:72-81 | the queued children are never more than what is still to be met |
| `SearchVisitor.Visitor.Prepare` | packages/core/src/internal/search.ts:69-82 | children are queued sorted, and refused exactly when met, queued and new ones together pass the entry budget |
| `SearchVisitor.Visitor.PrepareDeferred` | packages/core/src/internal/search.ts:86-90 | the directory put off is prepared without changing what is still to be met, unless the whole visit passes the budget |
| `SearchVisitor.Visitor.PopExhausted` | packages/core/src/internal/search.ts:92-97 | dropping exhausted frames changes nothing of what is still to be met |
| `SearchVisitor.Visitor.Meet` | packages/core/src/internal/search.ts:101-139 | takes the next child of the pre-order and fails exactly when it is too deep or its path too long, naming the right one |
| `SearchVisitor.Visitor.Next` | packages/core/src/internal/search.ts:84-141 | one pull emits the next selected child of the pre-order, the end, or the budget the visit exceeds; met and queued never pass the entry budget |
| `SearchVisitor.VisitAll` | packages/core/src/internal/search.ts:65-144 | pulling to the end gives all selected entries in order exactly when the whole eligible tree fits the three budgets, and a prefix of them otherwise |
| `WalkOrder.TourMeans` | packages/core/src/internal/search.ts:84-141 | a search meets exactly the children whose directories on the way are all named in text and not pruned |
| `WalkOrder.TourAscends` | packages/core/src/internal/search.ts:79-141 | it meets them in the order of their names, each directory before what is in it |
| `WalkOrder.PathSizeMeans` | packages/core/src/internal/search.ts:113 | a path is measured as its bytes without the leading slash |
| `Utf8.CharsUnique` | packages/core/src/internal/searchContent.ts:33-34 | well-formed text has one reading as characters, the one the leading bytes show |
| `Utf8.ScanIsGrammar` | packages/core/src/internal/searchContent.ts:46-72 | the checks of the scan accept exactly the characters of section 4 of RFC 3629 |
| `Utf8.Classify` | packages/core/src/internal/searchContent.ts:36-76 | text is exactly well-formed data without NUL, binary exactly well-formed data with one |
| `Utf8.CutAscii` | packages/core/src/internal/searchContent.ts:241-255 | cutting well-formed text at an ASCII byte leaves well-formed text on both sides |
| `Utf8.Offsets` | packages/core/src/internal/searchContent.ts:78-99 | UTF-16 match bounds become the byte bounds of the same characters, empty matches included |
| `Utf8.RangeIsMatch` | packages/core/src/internal/searchContent.ts:78-99 | the byte range holds exactly the matched units |
| `Utf8.ExcerptEnd` | packages/core/src/internal/searchContent.ts:275-287 | the excerpt is the longest run of whole characters from the match within the line and the limit |
| `ContentSearch.LineShape` | packages/core/src/internal/searchContent.ts:237-253 | a line has no feed and ends with LF, CR LF or the data |
| `ContentSearch.PiecesPartition` | packages/core/src/internal/searchContent.ts:237-253 | the lines with their terminators are the data |
| `ContentSearch.LineIsText` | packages/core/src/internal/searchContent.ts:255 | the lines of text are text, so decoding them never fails |
| `ContentSearch.CountsAreTallies` | packages/core/src/internal/searchContent.ts:223-270 | `countLines` reports (path, n) exactly when `lines` reports n rows for the path and n is at least one |
| `ContentSearch.FilesAreCounts` | packages/core/src/internal/searchContent.ts:218-270 | `files` and `countLines` name the same paths in the same order |
| `ContentRows.LineRowsMean` | packages/core/src/internal/searchContent.ts:183-304 | the rows of `lines` tell of exactly the lines that match, in files that are not too large and hold UTF-8 without a NUL, each once, file by file and line by line; a row has the number of the line, the byte range of the match, the longest excerpt of whole characters within the line and the limit, and `truncated` exactly when the excerpt is not the whole line |
| `ContentRows.FileRowsMean` | packages/core/src/internal/searchContent.ts:218-272 | `files` names exactly the searched files that have a matching line, and `countLines` how many each has |
| `ContentRows.FileLinesMean` | packages/core/src/internal/searchContent.ts:205-263 | the lines evaluated in a file are all of a searched file, in `files` up to the first that matches, and none of any other file |
| `ContentRows.RowReserves` | packages/core/src/internal/searchContent.ts:223-291 | a row reserves its path and sixteen bytes and its excerpt, its path, or its path and eight bytes |
| `ContentSearch.CountsAreRows` | packages/core/src/internal/searchContent.ts:218-303 | from any line on, a count is the number of rows still to come plus those counted |
| `ContentSearch.Evaluation.Reserve` | packages/core/src/internal/searchContent.ts:169-178 | a reservation is refused exactly when it passes the result bytes, and the row limit is noted |
| `ContentSearch.Evaluation.OpenNext` | packages/core/src/internal/searchContent.ts:183-216 | skips oversized files and files that are not text, and stops only when the files opened pass the scan budget |
| `ContentSearch.Evaluation.MakeRow` | packages/core/src/internal/searchContent.ts:273-302 | the row of a match: its byte range, excerpt and truncation |
| `ContentSearch.Evaluation.SearchLine` | packages/core/src/internal/searchContent.ts:233-303 | the next line gives the row that is due, nothing, or a budget it exceeds |
| `ContentSearch.Evaluation.CloseFile` | packages/core/src/internal/searchContent.ts:220-231 | a counted file gives its whole count or none |
| `ContentSearch.Evaluation.Next` | packages/core/src/internal/searchContent.ts:180-304 | one pull gives the next row of the mode, the end, or a budget that the files opened, the lines evaluated or the row due really exceed |
| `ContentSearch.Collect` | packages/core/src/internal/searchContent.ts:110-305 | all rows of the mode come out if and only if the budgets hold the whole search, counting the lines the mode evaluates; otherwise a prefix of them and a budget that the whole search exceeds |
| `Overlay.NoDifferences` | packages/core/src/internal/overlayDiff.ts:78-86 | no differences exactly when kind, content and compared metadata agree |
| `Overlay.MovesOnce` | packages/core/src/internal/overlayDiff.ts:116-134 | a path moves to one place and a place is moved to from one path |
| `Overlay.SummaryKeys` | packages/core/src/internal/overlayDiff.ts:72-76 | each pair of source path and tag occurs once, so the sorted order is total |
| `Overlay.EditsExplainPaths` | packages/core/src/internal/overlayDiff.ts:103-174 | read as edits made at once, a summary turns the base paths into the current paths |
| `Overlay.UnmentionedUnchanged` | packages/core/src/internal/overlayDiff.ts:136-162 | a base path that no change starts from keeps its defined lineage and its compared fields |
| `Overlay.EmptyMeansUnchanged` | packages/core/src/internal/overlayDiff.ts:103-174 | a summary is empty exactly when every path keeps its defined lineage and its compared fields |
| `Overlay.SummaryTells` | packages/core/src/internal/overlayDiff.ts:116-170 | a summary tells of a path under each of its tags exactly when the lineages and fields of both observations say so: what moved, what left, what another lineage replaced, what changed in place, what is new |
| `Overlay.DifferencesAre` | packages/core/src/internal/overlayDiff.ts:47-86 | the differences are exactly the compared fields that differ, each once, in the one fixed order |
| `Overlay.ChangeOrder` | packages/core/src/internal/overlayDiff.ts:60-76 | changes are ordered by path and, at one path, as added, removed, replaced, renamed, updated |
| `Overlay.ByPath` | packages/core/src/internal/overlayDiff.ts:108-109 | the table of an observation |
| `Overlay.ByLineage` | packages/core/src/internal/overlayDiff.ts:88-100 | the groups hold every entry with a lineage, under it |
| `Overlay.FindRenames` | packages/core/src/internal/overlayDiff.ts:116-134 | the renames are the lineages that lost one path and gained one |
| `Overlay.CompareBase` | packages/core/src/internal/overlayDiff.ts:136-162 | the pass over the base adds removals, replacements and updates |
| `Overlay.CompareCurrent` | packages/core/src/internal/overlayDiff.ts:164-170 | the pass over the current observation adds what is new |
| `Overlay.CompareOverlay` | packages/core/src/internal/overlayDiff.ts:103-174 | the result is the one sorted listing of the summary |
| `Overlay.OrderIrrelevant` | packages/core/src/internal/overlayDiff.ts:103-174 | the order of the observations does not matter |
| `R2Store.ImageOwner.Validate` | packages/persistence/src/R2LiveImageStore.ts:214-230 | a record is adopted and returned exactly when its digest matches, it is not too large, and it has an ETag and a safe generation; else the owner is left as it was |
| `R2Store.ImageOwner.BeginCommit` | packages/persistence/src/R2LiveImageStore.ts:271-275 | which commits are answered at once, and what the others hold |
| `R2Store.ImageOwner.FinishCommit` | packages/persistence/src/R2LiveImageStore.ts:290-301 | a refused, lost or blank answer freezes; any other adopts the next generation and keeps a freeze set meanwhile |
| `R2Store.ImageOwner.BeginLoad` | packages/persistence/src/R2LiveImageStore.ts:235-239 | which loads are refused at once |
| `R2Store.StepInv` | packages/persistence/src/R2LiveImageStore.ts:211-302 | every step of any owner keeps the invariant of the protocol |
| `R2Store.RunInv` | packages/persistence/src/R2LiveImageStore.ts:211-302 | every run keeps it |
| `R2Store.VersionsFormAChain` | packages/persistence/src/R2LiveImageStore.ts:282-299 | in every run versions form one chain: generations count up by one and tags never repeat |
| `R2Store.CommittedReplacedHeld` | packages/persistence/src/R2LiveImageStore.ts:282-301 | a "committed" answer means that image replaced exactly the version its owner held, at the next generation |
| `R2Store.OneCommitPerGeneration` | packages/persistence/src/R2LiveImageStore.ts:270-302 | at most one commit is acknowledged for a generation |
| `R2Store.LoadSeesAcknowledged` | packages/persistence/src/R2LiveImageStore.ts:234-269 | a load returns the last image acknowledged before it began or a later version |
| `R2Store.LoadedIsTrusted` | packages/persistence/src/R2LiveImageStore.ts:214-269 | in every run a load returns only versions whose digest matches, that are not too large, and that carry an ETag and a safe generation |
| `R2Store.ReadIsJudged` | packages/persistence/src/R2LiveImageStore.ts:214-262 | in every run a version that was read is adopted exactly when its digest, size, ETag and generation are good; any other ends the load as corrupt and leaves the owner and everything else as it was |
| `R2Store.RejectedNeverWritten` | packages/persistence/src/R2LiveImageStore.ts:275-279 | in every run a commit answered "rejected" was never sent, and no version is its work |
| `R2Store.FrozenBeginsNothing` | packages/persistence/src/R2LiveImageStore.ts:235-237 | after an "unknown" for a write, whatever the owner begins is answered without a write |
| `R2Store.SendsExactlyWhen` | packages/persistence/src/R2LiveImageStore.ts:251-288 | a step sends a write for an owner exactly when a commit past the availability check finishes its digest or a load found no object |
| `R2Store.SendsAfterUnknown` | packages/persistence/src/R2LiveImageStore.ts:270-302 | after an "unknown" for a write, the owner sends another write somewhere in some continuation of the run if and only if it then has a commit computing its digest or a load that found no object and whose image fits |
| `R2Store.SerialOwnerStaysSilent` | packages/persistence/src/R2LiveImageStore.ts:290-294 | an owner that runs one operation at a time sends nothing after an "unknown" for a write, whatever follows |
| `R2Store.OverlappingCommitsStillWrite` | packages/persistence/src/R2LiveImageStore.ts:271-294 | overlapping commits of one owner can still write after an "unknown": a concrete run |
| `Xdr.RoundTrip` | packages/nfs/benchmarks/xdr-effect-proposal.ts:389-402 | decoding an encoded value gives it back exactly when the reader's limits admit it, and fails otherwise (RFC 4506, sections 4.1 to 4.14) |
| `Xdr.Canonical` | packages/nfs/benchmarks/xdr-effect-proposal.ts:389-402 | an accepted message is the encoding of the value it decodes to: zero padding, canonical booleans, no trailing bytes |
| `XdrLayout.EncodeLaidOut` | packages/nfs/benchmarks/xdr-effect-proposal.ts:130-207 | the encoding of a value is the one byte string that sections 4.1 to 4.14 of RFC 4506 lay out for it, if there is one: high byte first, two's complement, the high word of a hyper first, 0 and 1 for booleans, counts before data, zero padding, items and fields in order |
| `XdrLayout.DecodeLaidOut` | packages/nfs/benchmarks/xdr-effect-proposal.ts:51-128 | a message decodes to a value exactly when it is laid out for the value and the limits admit it |
| `Xdr.ParseEncode` | packages/nfs/benchmarks/xdr-effect-proposal.ts:220-370 | a written value reads back whatever follows it, using exactly its bytes |
| `Xdr.EncodeParse` | packages/nfs/benchmarks/xdr-effect-proposal.ts:220-370 | writing what was read gives the bytes it was read from |
| `Xdr.EncodeInjective` | packages/nfs/benchmarks/xdr-effect-proposal.ts:220-370 | different values never share an encoding |
| `Xdr.WidestAdmits` | packages/nfs/benchmarks/xdr-effect-proposal.ts:51-60 | the widest limits admit every value that a writer accepts, fixed opaques near the largest safe integer excepted |
| `Xdr.AdmitsWider` | packages/nfs/benchmarks/xdr-effect-proposal.ts:104-106 | wider limits admit what narrower ones do |
| `Xdr.ReadKernel.Read` | packages/nfs/benchmarks/xdr-effect-proposal.ts:51-120 | a codec reads what the format says from the position, and moves past it |
| `Xdr.ReadKernel.ReadItems` | packages/nfs/benchmarks/xdr-effect-proposal.ts:284-292 | items are read in turn and the first failure stands |
| `Xdr.ReadKernel.ReadFields` | packages/nfs/benchmarks/xdr-effect-proposal.ts:349-361 | fields are read in order and the first failure stands |
| `Xdr.ReadKernel.SessionRead` | packages/nfs/benchmarks/xdr-effect-proposal.ts:404-415 | a failed session read leaves the position unchanged |
| `Xdr.ReadKernel.Finish` | packages/nfs/benchmarks/xdr-effect-proposal.ts:122-125 | trailing bytes are refused, and only they |
| `Xdr.DecodeMessage` | packages/nfs/benchmarks/xdr-effect-proposal.ts:389-395 | `decode` is the pure decoding |
| `Xdr.WriteKernel.PutPadded` | packages/nfs/benchmarks/xdr-effect-proposal.ts:168-186 | data is appended behind its prefix with zero padding to a multiple of four |
| `Xdr.WriteKernel.Write` | packages/nfs/benchmarks/xdr-effect-proposal.ts:130-200 | a codec appends the encoding or gives its error |
| `Xdr.WriteKernel.Bytes` | packages/nfs/benchmarks/xdr-effect-proposal.ts:188-197 | the chunks are copied end to end |
| `Xdr.EncodeMessage` | packages/nfs/benchmarks/xdr-effect-proposal.ts:397-402 | `encode` is the pure encoding |
| `HexPaths.BelowIsPrefix` | packages/core/src/internal/callerWatch.ts:61-62 | the string test holds exactly when one path is a prefix of the other, name by name |
| `HexPaths.RebaseIsRest` | packages/core/src/internal/callerWatch.ts:64-65 | rebasing a path below a root gives the rest of it, and the root puts it back |
| `HexPaths.BelowIsEnclosed` | packages/core/src/internal/callerWatch.ts:43-62 | in a well-formed volume the string test holds exactly when the root is the directory or an ancestor of it |
| `HexPaths.EnclosesIsPrefix` | packages/core/src/internal/callerWatch.ts:43-59 | the directories on the way to the root are those whose paths are prefixes |
| `HexPaths.HexPrefix` | packages/core/src/internal/callerWatch.ts:61-62 | prefixes of hex texts are the hex of prefixes; no name starts in the middle of a byte |
| `CallerWatch.DirectoryPath` | packages/core/src/internal/callerWatch.ts:43-59 | the climb gives the one path of a live directory, and nothing for any other |
| `CallerWatch.EntryPath` | packages/core/src/internal/callerWatch.ts:67-71 | the path of a link, when its directory has one |
| `CallerWatch.Paths` | packages/core/src/internal/callerWatch.ts:73-93 | all aliases of a node, in link order |
| `CallerWatch.AliasesAreLookups` | packages/core/src/internal/callerWatch.ts:73-93 | the aliases of a node are exactly the paths that lead to it |
| `CallerWatch.ConfinedMeans` | packages/core/src/internal/callerWatch.ts:95-108 | a chain is confined exactly when every root is live and enclosed by the one before it |
| `CallerWatch.RootPath` | packages/core/src/internal/callerWatch.ts:95-108 | accepts exactly the confined chains, with the innermost path; a refusal is that of the first root at fault |
| `CallerWatch.CallerWatcher.Visible` | packages/core/src/internal/callerWatch.ts:134-146 | the aliases below the root, or the selected one of them, unless a confinement shuts them all out |
| `CallerWatch.CallerWatcher.AdditionalFailure` | packages/core/src/internal/callerWatch.ts:156-164 | no failure exactly when every additional chain is confined |
| `CallerWatch.CallerWatcher.Prepare` | packages/core/src/internal/callerWatch.ts:150-188 | the watch survives exactly when the caller stays confined; roots, selection, terminal removals and the place of a rescan follow the installation |
| `CallerWatch.CallerWatcher.PrepareEnd` | packages/core/src/internal/callerWatch.ts:183-187 | the watch ends exactly when nothing is visible any more, with the old names as removals inside the old root |
| `CallerWatch.CallerWatcher.FollowRenames` | packages/core/src/internal/callerWatch.ts:176-181 | renames of the selected name are followed in order |
| `CallerWatch.CallerWatcher.Replacement` | packages/core/src/internal/callerWatch.ts:193-211 | an incoming object that takes a visible name of the target becomes its removal, and nothing else does |
| `CallerWatch.CallerWatcher.CoveredPath` | packages/core/src/internal/callerWatch.ts:213-241 | the path that an event is told by, exactly when the watch covers it |
| `CallerWatch.CallerWatcher.Project` | packages/core/src/internal/callerWatch.ts:190-252 | what is emitted is the one projection of the event, if and only if it is covered, and names something inside the innermost root |
| `CallerWatch.CallerWatcher.Publish` | packages/core/src/internal/watchHub.ts:63-106 | one installation: everything told is the projections in order and then the final removals, all inside the innermost root; the watch fails exactly when the caller is freed and goes on exactly while it sees the target |
| `CallerWatch.WatchRun` | packages/core/src/internal/engine.ts:2987-3003 | over any run of installations from a confined caller, the caller is confined before every installation the watch sees, so whatever it tells, events and final removals, names something inside the innermost root; it fails exactly at an installation that frees the caller |
| `CallerWatch.CallerWatcher.Settle` | packages/core/src/internal/callerWatch.ts:259-264 | the terminal removals, each inside the innermost root before |
| `WatchScope.VisibleMeans` | packages/core/src/internal/callerWatch.ts:134-146 | the names a watch sees are exactly those of its target inside the innermost root, the selected one if one is, unless another confinement shuts all of them out |
| `WatchScope.LastNameMeans` | packages/core/src/internal/callerWatch.ts:110-116 | an event without a name is about what follows the last slash of its path |
| `WatchScope.ReplacementMeans` | packages/core/src/internal/callerWatch.ts:193-211 | when an incoming object takes a name that the watch saw, the removal of that name is told |
| `WatchScope.ProjectionMeans` | packages/core/src/internal/callerWatch.ts:213-251 | any other event is told exactly when it is the target's own or lies in the scope of a name the watch sees, under a path inside the innermost root, and is not an event of that root itself but an update; it is told as what is left of the path below that root |
| `Coordinator.Variables.ClaimReplacement` | apps/demo-typescript-workbench/src/workbench/coordinator.ts:83-87 | the workspace is claimed exactly when it is open and of the expected generation, which then moves on |
| `Coordinator.Variables.FinishReplacement` | apps/demo-typescript-workbench/src/workbench/coordinator.ts:90-98 | the restored view is shown with its save count; a reset starts the save point over |
| `Coordinator.Variables.ReceiveReply` | apps/demo-typescript-workbench/src/workbench/coordinator.ts:165-183 | an overtaken or failed reply changes nothing; an accepted one is shown, and a save moves the save point and the generation |
| `Coordinator.Variables.ReceiveRun` | apps/demo-typescript-workbench/src/workbench/coordinator.ts:146-160 | an overtaken or failed run changes nothing; an accepted one is shown |
| `Coordinator.StepInv` | apps/demo-typescript-workbench/src/workbench/coordinator.ts:81-187 | every step of commands, stops, restores and workers keeps the invariant |
| `Coordinator.RunInv` | apps/demo-typescript-workbench/src/workbench/coordinator.ts:81-187 | every run keeps it |
| `Coordinator.StaleRepliesChangeNothing` | apps/demo-typescript-workbench/src/workbench/coordinator.ts:146-172 | a reply from a replaced worker changes none of state, saved, saves and generation, in any run |
| `Coordinator.BootingIsLive` | apps/demo-typescript-workbench/src/workbench/coordinator.ts:87-91 | a worker is never replaced while it boots, so no reply to a boot is stale, in any run |
| `Coordinator.GenerationNeverDecreases` | apps/demo-typescript-workbench/src/workbench/coordinator.ts:81-181 | the generation never decreases, in any run |
| `Coordinator.SavePointChanges` | apps/demo-typescript-workbench/src/workbench/coordinator.ts:93-96 | saved and saves change only with an accepted save of the live worker, whose generation the coordinator takes over, or a completed reset |
| `CoordinatorRuns.AdmissionMeans` | apps/demo-typescript-workbench/src/workbench/coordinator.ts:109-168 | a command is sent to the active worker exactly when it is up to date, is no restore or reset, and, if it is a run, edits nothing and runs the source that compiled; restores and resets go on to the replacement, and what is refused changes nothing |
| `CoordinatorRuns.RunsWhatCompiled` | apps/demo-typescript-workbench/src/workbench/workspace.ts:208-304 | a worker that answers a run ran the revision asked for, and that revision compiled |
| `CoordinatorRuns.RestoresSavePoint` | apps/demo-typescript-workbench/src/workbench/coordinator.ts:87-96 | in every run a replaced workspace boots from the last save point, a reset one from the start |
| `CoordinatorRuns.BootsFresh` | apps/demo-typescript-workbench/src/workbench/workspace.ts:97-106 | a new worker starts without a build at revision and checkpoint zero, in the generation it was told |
| `Coordinator.EnterReplacementInv` | apps/demo-typescript-workbench/src/workbench/coordinator.ts:81-88 | claiming the workspace, which gives the live worker up, keeps the invariant |
| `Coordinator.ResumeAwaitingInv` | apps/demo-typescript-workbench/src/workbench/coordinator.ts:165-183 | taking a reply, accepted or stale, keeps the invariant |

## Left out

- Volume representation: names are their bytes, where the source keys entries by lowercase hex (`HexPaths` and
  `CallerWatch` spell the hex out). Directory entries are a map in no particular order, so results hold for every order.
- `assemble`: link counts, sizes, revisions, the inode allocator and the usage counters of a restored volume.
- Operations of the engine other than the state, paths and lookups used here; snapshot deltas, merges and the NFS server.
- `Effect` itself: yields inside codecs, interruption, streams as such, and typed errors beyond code and field.
- MerkleIdentity.IdentityIsNamespace: lengths and counts below two to the sixty-fourth (`Fits`), which every JavaScript array
  keeps; the writer itself wraps at that bound.
- MerkleIdentify.Identify: a directory entry whose inode is missing, which the source skips, does not occur in a
  well-formed volume; of two exceeded budgets, a failure names either, as the source's entry order decides.
- TreeRoundTrip.WriteThenRead: the live image's writer, header and retained nodes; only the reader's live checks are modelled.
  Inode numbers above the largest safe integer and the bounds of stored metadata belong to the schema, which `Faithful` covers.
  A schema that refuses to encode a node is not modelled; symbolic link targets hold no NUL (`Storable`).
- Fixtures.DeclareEntries: `maxPathBytes` of the configuration, metadata defaults and text paths; entries carry byte paths and whole
  metadata. The configuration and identity of the volume a fixture publishes are not modelled.
- GlobExpand.ExpandSource: the byte limits on patterns and the parser of segments, classes and tokens after expansion; `GlobMatch`
  starts from parsed patterns.
- SearchVisitor.Visitor.Next: the selectors are a pure function, so their own budget failures are not modelled.
- ContentSearch.Collect: the visitor is a list of files that may end in a failure; the limit on the pattern's bytes is left out.
- Overlay.CompareOverlay: `Before` orders changes by source path and tag as the source does; freezing and copies of buffers are not modelled.
- R2Store.RunInv: generation texts are numbers or absent; a digest that fails while an object is created; every applied write has a
  fresh ETag or a blank one.
- CallerWatch.WatchRun: the hub's queue, which puts a rescan in the place of events that do not fit, and the text of `rescan`; link
  counts other than whether they are zero. A watch is registered for a caller whose own roots confine it.
- Coordinator.RunInv: what a worker does inside one command, the files it edits and the text of notices; a worker that fails to
  answer, dies or times out is one failed reply.
- Xdr.RoundTrip: the string codec, numbers that are not integers, and fixed opaques whose padded length is no longer a safe
  integer; a structure's fields are matched by position.
- The SQLite store, S3 and HTTP clients, NFS configuration, lock ranges, volume limits, option schemas, the editor and the
  documentation site: input and output, or only easy members.
