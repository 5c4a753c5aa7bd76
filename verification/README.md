# Verified models of the ujson libraries

Dafny models of the parts of this repository where a mistake would be hardest to see, with proofs of what they
promise: the red-black tree, the Go parser, printer and tree operations, the string tree, the node linking of the C
parser, and the growing strings. `dafny verify dfyconfig.toml` checks the whole project. Nothing was executed.

## What is modelled

**The red-black tree** (`TreeShape`, `TreeLinks`, `RedBlackTree`). Nodes are objects with `left`, `right`, `parent`
and `red`, rewritten in place; `nilx` and the header are nodes too. A ghost tree says what the links spell out, and a
position in it (a zipper: the path up and the tree below) says what holds in the middle of a fix-up: "sound except for
a red-red edge here" and "sound except for one missing black here". `Valid` is the whole promise: ordered keys, no
red-red edge, equal black heights, black root and black nil, and every parent link right. Keys are fixed and no
operation writes `info`, so every node keeps its identity, key and info.

**The Go parser** (`GoParse`, `GoParser`, `GoErrors`, `GoTree`). `GoParse` is `ParseFull` as a machine over values, one
step per visit to a label, with the open containers on a stack. `GoParser` is the program itself: the variables are
fields, the nodes are objects that are linked while they are being built, and each label is a method that is proved to do
what the machine does. Errors are results: the line and column of an incomplete input, an unknown word, and the panic in
`GetPosInfo` whose handler makes `ParseFull` return nothing at all. An input that is cut off inside its root is an error,
and so is every word but three.

**Layout and the printer** (`GoSource`, `GoRoundTrip`, `GoStrings`, `GoKeys`, `GoComments`, `GoForms`, `GoLayout`,
`GoPrinter`, `GoPretty`, `GoSaveAndParse`). A source is a tree together with everything a writer may choose: blanks,
commas, comments, quotes, bare or quoted keys, order and repetition of members. The parser reads every good source back.
What `JsonSave` prints is one such source, whatever order the keys of a hash are picked in, so parsing undoes printing.
Which strings survive is settled exactly.

**Overlay and Get** (`GoOverlay`, `GoShape`, `GoOverlayNodes`), on values and on nodes. A shape names the nodes of a tree, and
the heap has the shape when the fields link the nodes as it says, so one node may be in several shapes: on nodes the upper
tree ends up sharing nodes with the lower one. An overlay does what it should whenever every node that it changes has one
place in the lower tree and none in the upper one. Separate trees are such, a tree and itself are, and so is a merged tree
with the tree that has been laid over it; overlays may follow each other. Printing asks for a shape only, so overlaid
trees are saved like any other.

**The string tree** (`Fnv`, `KeyArr`, `StringTree`): the hash, the chains, and the index, used through the red-black
tree above. It stands for a map from keys to lists of values.

**The C parser** (`UjsonScan`, `UjsonSource`, `UjsonRoundTrip`, `UjsonStrings`, `UjsonKeys`, `UjsonComments`,
`UjsonForms`, `UjsonNodes`, `UjsonParser`). `UjsonScan` is the scanner with a plain stack of open containers, and it reads
every good source of this dialect back. `UjsonParser` has only what the program has: `base.parent`, which is the enclosing
container of an open hash and later the next element of an array, and a stack of ten for the containers around open
arrays. The stack is enough exactly for the sources with at most ten arrays inside each other.

**Growing strings** (`SdsDigits`, `SdsGrowth`, `Sds`, `SdsFormat`, `SdsSplit`): headers, growth and its cost, appending,
formatting, digits, split and join.

## What came out

- A string written by `JsonSave` comes back if and only if its backslashes, paired from the left, are each followed by
  something other than the quote (`GoStrings.StringSurvives`). A lone backslash is lost.
- An overlay's scalars and arrays win except exactly where an array meets a different array (`GoOverlay.TopWins`): the code
  acts on the hash there, so the base's array stays (`GoOverlay.ArrayDoesNotWin`).
- Started from a new string, appending moves no more bytes than are allocated in the end, whatever is appended, exactly up
  to a length of one mebibyte and 26 bytes (`SdsGrowth.BoundedExactly`). From one byte more on there is a run that moves
  more: nineteen doublings that each find the string full, and one regrowth behind them.
- Started from 0, the hash does not see a zero byte in front, and sees every other byte there (`Fnv.LeadingZero`). Two
  strings of equal length that differ in one byte never collide.
- In the C parser a closing bracket also closes every hash left open inside the array (`UjsonForms.BracketClosesAll`), and
  members behind the closing brace of the root are members of the root as well (`UjsonForms.RootStaysOpen`).
- The Go parser takes a root hash without its opening brace (`GoForms.BracelessRoot`). Of a good source that is cut off inside
  its root it says that the input is incomplete, except behind the first byte: `{` alone is nothing at all, and no error
  (`GoErrors.CutSource`). It returns nothing, not even an error, only of inputs that end with a quote or a minus sign
  (`GoErrors.PanicsOnly`).

`readme.txt` promises some things that the code does not keep. The code is followed, and each has its exact condition and
an input.

- `readme.txt:20`, comments of both kinds. Behind a block comment in value position both parsers go on in key position
  (`go/ujsonin.go:881-884`, `c/ujson.c:779`), and behind any other gap they do not (`GoRoundTrip.SkipValueGap`,
  `UjsonRoundTrip.SkipGap`). So a number, a word or a hash behind a gap is not read as the value of its key if and only if
  the gap has a block comment (`GoComments.CommentLosesValue`; whole numbers and hashes in `UjsonComments.CommentLosesValue`).
  The inputs are `{a:/**/1}`, where the number is lost, and `{a:/**/{b:1}}`, where the inner member lands in the outer hash.
  Of arrays this is not so: what is in them is read as keys and values, and may happen to give the array
  (`GoComments.RepeatedInComment`).
- `readme.txt:21`, escaped quotes in keys. The Go parser reads a key in quotes as it is written if and only if it is not empty
  and has no such quote behind its first byte (`GoKeys.KeySurvives`); of `{"a\"b":true}` the key is `a\`
  (`GoKeys.EscapedQuoteEndsKey`). The C parser reads one as it is written if and only if it is not empty and, behind its
  first byte, backslashes protect every such quote and leave the closing one alone (`UjsonKeys.QuotedKeySurvives`); the empty
  key is not read (`UjsonKeys.EmptyKeyIsLost`).
- `readme.txt:17`, keys without quotes. The C parser reads one from its first small letter on (`UjsonKeys.BareKeyFromSmall`),
  so as it is written if and only if it begins with one (`UjsonKeys.BareKeySurvives`); `{A:1}` gives the empty hash
  (`UjsonKeys.CapitalKeyIsLost`).
- `readme.txt:16`, strings, and `readme.txt:30`, contents untouched. The Go parser leaves the contents of a string as they are
  if and only if they have no escaped quote (`GoStrings.ContentsUntouched`); of `"\""` the backslash is dropped
  (`GoStrings.BackslashIsDropped`). The C parser finds the end of a string if and only if its first byte is no quote of
  either kind and, behind that byte, backslashes protect every quote of its own kind and leave the closing one alone
  (`UjsonStrings.StringSurvives`). The inputs are `{a:"\"b"}`, where the string ends at its escaped quote
  (`UjsonStrings.EscapedQuoteFirst`), and `{a:"'b"}`, where it is empty (`UjsonStrings.OtherQuoteFirst`).
- `readme.txt:31-32`, garbage between things. A byte there is ignored if and only if it means nothing
  (`GoForms.GarbageIsIgnored`, `UjsonRoundTrip.PassedStep`), and a letter does mean something without any double quote: the
  word in `{a:1 note b:2}` is a key, and takes the value of the next one (`GoForms.GarbageIsKey`).
- `readme.txt:23-24`, arrays and integers. The C parser takes fractions as well, but the byte behind a fraction is lost
  (`c/ujson.c:803-816`): it goes on as if it had passed that byte over, which it would if and only if the byte means nothing
  there (`UjsonRoundTrip.FractionLosesByte`). In `{a:[1.5],b:1}` it is the bracket, so the array does not close, and the
  program ends at the unknown word `b` (`UjsonRoundTrip.FractionEatsBracket`).

## Model

| member | source | states |
|---|---|---|
| RedBlackTree.RBTree.constructor | c/red_black_tree.c:3-27 | a new tree is valid and empty |
| RedBlackTree.RBTree.LeftRotate | c/red_black_tree.c:29-44 | the links spell out the rotated tree in the same place, with the same sequence of nodes |
| RedBlackTree.RBTree.RightRotate | c/red_black_tree.c:46-60 | the mirror image |
| RedBlackTree.RBTree.TreeInsertHelp | c/red_black_tree.c:62-86 | the new node hangs as a leaf at the place behind every key that is at most its own and before every greater one |
| RedBlackTree.RBTree.RepairLeft | c/red_black_tree.c:101-116 | one round of the repair moves the only red-red edge up or removes it, keeps black heights, and keeps the sequence |
| RedBlackTree.RBTree.RepairRight | c/red_black_tree.c:117-133 | the mirror image |
| RedBlackTree.RBTree.RBTreeInsert | c/red_black_tree.c:88-138 | ends, keeps the tree valid, and puts exactly the new node behind all keys at most its own and before all greater ones |
| RedBlackTree.RBTree.TreeSuccessor | c/red_black_tree.c:140-159 | the next node of the in-order sequence, nil behind the last |
| RedBlackTree.RBTree.TreePredecessor | c/red_black_tree.c:161-180 | the node before, nil before the first |
| RedBlackTree.RBTree.StepAndReturn | c/red_black_tree.c:140-180 | a predecessor undoes a successor |
| RedBlackTree.RBTree.StepBackAndReturn | c/red_black_tree.c:140-180 | a successor undoes a predecessor |
| RedBlackTree.RBTree.TreeForEach1p | c/red_black_tree.c:191-198 | the function is called with the info of every node below, once each and in order |
| RedBlackTree.RBTree.RBExactQuery | c/red_black_tree.c:218-234 | a node comparing equal exactly when there is one, duplicates on both sides included; with c comparisons and n nodes, 2 to the c is at most (n+1) squared |
| RedBlackTree.RBTree.RoundLeft | c/red_black_tree.c:241-264 | one round on the left either moves the missing black up or makes the tree sound; the cached root stays right whenever the loop still looks at it |
| RedBlackTree.RBTree.RoundRight | c/red_black_tree.c:265-289 | the mirror image |
| RedBlackTree.RBTree.RBDeleteFixUp | c/red_black_tree.c:236-292 | from one missing black at x to a sound tree, same sequence of nodes |
| RedBlackTree.RBTree.Splice | c/red_black_tree.c:301-310 | y leaves the links, its only child takes its place and knows its parent even if it is nil |
| RedBlackTree.RBTree.Substitute | c/red_black_tree.c:319-328 | y takes over the links and the colour of z |
| RedBlackTree.RBTree.RBDelete | c/red_black_tree.c:294-336 | keeps the tree valid and takes exactly the node z out of the sequence |
| TreeShape.HeightBound | c/red_black_tree.c:218-234 | a sound tree of n nodes is at most twice the binary logarithm of n+1 high |
| TreeShape.RecolouredSound | c/red_black_tree.c:103-107 | recolouring moves the red-red edge two levels up |
| TreeShape.InnerRotatedSound | c/red_black_tree.c:109-112 | the inner rotation turns an inner red-red edge into an outer one |
| TreeShape.OuterRotatedSound | c/red_black_tree.c:113-115 | the outer rotation with its two recolourings ends the repair |
| TreeShape.RedSiblingSound | c/red_black_tree.c:243-248 | a red sibling is turned into a black one, the black still missing at x |
| TreeShape.BlackSiblingSound | c/red_black_tree.c:249-251 | reddening the sibling moves the missing black to the parent |
| TreeShape.NearNephewSound | c/red_black_tree.c:253-258 | the near nephew's rotation makes the far nephew red |
| TreeShape.ClosedSound | c/red_black_tree.c:259-262 | the last rotation supplies the missing black |
| GoParse.Step | go/ujsonin.go:620-981 | every label moves forward or down a ranking of the labels and keeps the registers inside the input, so the parser ends on every input |
| GoParse.Run | go/ujsonin.go:571-990 | the parser stops at an error, an unknown word, or the end |
| GoParser.Parser.Hang | go/ujsonin.go:299-305 | the new node is the one child of the current container that is not finished; nothing else changes |
| GoParser.Parser.AddValue | go/ujsonin.go:893-904 | a scalar joins the current container under the current key |
| GoParser.Parser.OpenContainer | go/ujsonin.go:799-805 | a new container is hung into the current one, knows its parent, and becomes current |
| GoParser.Parser.CloseContainer | go/ujsonin.go:688-694 | the parent link leads back to the enclosing container, which now has the finished one as its child |
| GoParser.Parser.AtUnknownRoot | go/ujsonin.go:620-670 | label UnknownRoot does the machine's step on the nodes |
| GoParser.Parser.AtHash | go/ujsonin.go:671-713 | label Hash, with ascent, callback and end |
| GoParser.Parser.AtLineComment | go/ujsonin.go:714-721 | the line comment labels |
| GoParser.Parser.AtBlockComment | go/ujsonin.go:722-728 | the block comment labels, also those at 737-743 and 876-885 |
| GoParser.Parser.AtQuotedKey | go/ujsonin.go:744-755 | the labels of quoted keys |
| GoParser.Parser.AtBareKey | go/ujsonin.go:756-773 | the labels of unquoted keys |
| GoParser.Parser.AtColon | go/ujsonin.go:774-781 | label Colon |
| GoParser.Parser.AtAfterColon | go/ujsonin.go:782-847 | label AfterColon |
| GoParser.Parser.AtType | go/ujsonin.go:848-867 | label TypeX |
| GoParser.Parser.AtNumber | go/ujsonin.go:886-905 | labels Number1 and NumberX, with push-back |
| GoParser.Parser.AtAfterDot | go/ujsonin.go:906-922 | label AfterDot |
| GoParser.Parser.AtString1 | go/ujsonin.go:923-938 | label String1 |
| GoParser.Parser.AtStringX | go/ujsonin.go:939-954 | label StringX |
| GoParser.Parser.AtEscape | go/ujsonin.go:955-972 | label Escape |
| GoParser.Parser.Go | go/ujsonin.go:620-981 | any label |
| GoParser.GetPosInfo | go/ujsonin.go:554-569 | the line number, and how far the last newline is behind |
| GoErrors.ErrorGiven | go/ujsonin.go:554-569 | an incomplete input is reported with the number of newlines before the place, plus one, and the bytes since the last of them; an unknown word by its name; nothing only beyond the end |
| GoErrors.StateOfError | go/ujsonin.go:620-972 | the state that is reported has the name of the label where the input ended |
| GoErrors.DoneIsClosed | go/ujsonin.go:688-701 | a run that leaves a container open is reported as an error |
| GoErrors.CutOff | go/ujsonin.go:671-987 | whatever is read from inside a container to the end of its root, cut off earlier, is incomplete |
| GoErrors.CutSource | go/ujsonin.go:571-987 | a good source cut off inside its root is incomplete if and only if more than its first byte is left |
| GoErrors.WordIsKnown | go/ujsonin.go:507-535 | of all words true, false and null are values of their kinds, and no other |
| GoErrors.UnknownWord | go/ujsonin.go:848-867 | any other word as a value is an error that names it, with the root so far |
| GoErrors.PanicsOnly | go/ujsonin.go:580-588 | nothing is returned only if the input ends with a quote or a minus sign |
| GoErrors.PanicsThere | go/ujsonin.go:744-749 | and it is so if that byte begins a key or a number |
| GoParser.ParseFull | go/ujsonin.go:571-990 | new nodes, each standing for its tree with parents right, whose root is the tree that the machine builds, partial on an error; remainder, error and the nodes given to the callback likewise |
| GoParser.Parser.AtScalarStart | go/ujsonin.go:787-829 | the first byte of a scalar |
| GoRoundTrip.SkipGap | go/ujsonin.go:714-743 | any run of blanks, commas, line comments and, between members and before a root, block comments is passed over |
| GoRoundTrip.SkipValueGap | go/ujsonin.go:876-885 | any gap in value position is passed over, and the parser is in key position behind it if and only if the gap has a block comment |
| GoComments.NumberIsLost | go/ujsonin.go:876-885 | a number behind a gap with a block comment is passed over, and its key is forgotten |
| GoComments.HashSpills | go/ujsonin.go:876-885 | the members of a hash behind such a gap join the outer hash, which ends with it |
| GoComments.CommentLosesValue | go/ujsonin.go:876-885 | a number, a word or a hash behind a gap is read as the value of its key if and only if the gap has no block comment |
| GoComments.BlockCommentInValue | readme.txt:20 | an input whose value is lost, and one whose value joins the outer hash |
| GoComments.RepeatedInComment | go/ujsonin.go:876-885 | an array behind such a gap that is read as the value of its key all the same |
| GoKeys.KeySurvives | go/ujsonin.go:744-755 | a key in quotes is read as it is written if and only if it is not empty and has no such quote behind its first byte |
| GoKeys.EscapedQuoteEndsKey | readme.txt:21 | a key with an escaped quote is not read; what is before the quote is |
| GoRoundTrip.ReadKey | go/ujsonin.go:744-781 | a key in either kind of quotes or bare is read, with whatever stands before its colon |
| GoRoundTrip.ReadString | go/ujsonin.go:923-972 | a string in any of three quotes, its own quotes escaped, is read as it was |
| GoRoundTrip.ReadFraction | go/ujsonin.go:886-922 | digits, a dot and digits are read as the float they write, and what ends them is left |
| GoRoundTrip.ReadValue | go/ujsonin.go:782-981 | any good source of a value is read as its value, from its first byte to its last |
| GoRoundTrip.ReadsBack | go/ujsonin.go:571-990 | any good source of a hash or array, with a gap before it and any rest behind it, gives its tree, that rest, and no error |
| GoRoundTrip.LayoutIsIrrelevant | go/ujsonin.go:671-728 | two good sources of the same tree are read alike |
| GoRoundTrip.StreamDelivers | go/ujsonin.go:620-701 | a callback gets every root hash of a stream, once each and in order, whatever gap is behind the last; the parser is content exactly if that gap ends with a blank |
| GoForms.GarbageIsIgnored | readme.txt:31-32 | between things exactly the bytes that mean nothing there are passed over |
| GoForms.GarbageIsKey | readme.txt:31-32 | garbage that is not ignored |
| GoForms.BracelessRoot | go/ujsonin.go:639-659 | members and a closing brace are read as a hash |
| GoForms.Everything | readme.txt:15-26 | one text with every kind of key, value, quote, blank and comment, and its tree |
| GoStrings.StringSurvives | go/ujsonin.go:923-972 | a written string is read back if and only if its backslashes pair up, whatever stands around it |
| GoStrings.LoneBackslashIsLost | go/ujsonin.go:482-486 | a string that is one backslash does not come back |
| GoStrings.ContentsUntouched | go/ujsonin.go:955-972 | what is read of a string is what is between its quotes if and only if there is no quote in the string |
| GoStrings.BackslashIsDropped | readme.txt:30 | contents that are touched |
| GoLayout.LaidGood | go/ujsonin.go:346-446 | the printer's layout of a writable tree is a good source |
| GoPrinter.DumpInternalSave | go/ujsonin.go:346-499 | whatever shape the nodes have, the output is the text of a laid out source of the tree, with indentation, separators and quoting pinned down and the keys in any order |
| GoPrinter.DumpHash | go/ujsonin.go:346-386 | the same for a hash |
| GoPrinter.DumpArr | go/ujsonin.go:425-446 | the same for an array |
| GoPrinter.DumpVal | go/ujsonin.go:482-499 | the same for a scalar, and nothing at all for a float |
| GoPrinter.ReplaceQuotes | go/ujsonin.go:485 | a backslash before every quote and nothing else |
| GoPretty.RepeatIsBlank | go/ujsonin.go:376 | two blanks for every level |
| GoPretty.HashLines | go/ujsonin.go:346-386 | a printed hash is a brace, one line for every member with its quoted key, indented by its depth, commas between them, and a brace |
| GoPretty.ArrLines | go/ujsonin.go:425-446 | the same for an array, whose items are not indented further than it |
| GoPretty.OneMemberPrinted | go/ujsonin.go:460-462 | what is printed of a hash with one member |
| GoSaveAndParse.JsonSave | go/ujsonin.go:460-462 | printing starts at depth one |
| GoSaveAndParse.PrintedIsRead | go/ujsonin.go:346-990 | whatever is printed of a writable tree is read back as that tree, with any rest left over |
| GoSaveAndParse.PrintedStreamDelivers | go/ujsonin.go:688-701 | printed hashes one behind the other reach the callback as they were, in order, with any gap behind them |
| GoSaveAndParse.SaveAndParse | go/ujsonin.go:460-990 | the same on nodes: the parsed nodes are new and stand for the tree of the saved ones |
| GoSaveAndParse.OverlayAndSave | go/ujsonin.go:142-990 | an overlaid tree, which shares nodes, is saved and parsed as the merged tree |
| GoOverlay.SplitIsDotFree | go/ujsonin.go:116-117 | a dotted path is split into dot-free names that join to it again |
| GoOverlay.OverlayLookup | go/ujsonin.go:142-175 | what every path finds in the result, from what it finds in both trees |
| GoOverlay.OverlayAt | go/ujsonin.go:142-175 | what every path finds, said of nothing but what is at the path in the two trees: nothing, a scalar, an array, or a hash and its names |
| GoOverlay.BlocksExactly | go/ujsonin.go:155-171 | something is in the way of a path if and only if a part of it finds a scalar or an array |
| GoOverlay.TopWins | go/ujsonin.go:155-171 | the overlay's own scalars and arrays are found, except exactly where different arrays meet |
| GoOverlay.ArrayDoesNotWin | go/ujsonin.go:161-164 | two arrays where the overlay's is not found |
| GoOverlay.BaseShowsThrough | go/ujsonin.go:142-175 | elsewhere the base shows, unless something above was replaced |
| GoOverlay.OverlayTwice | go/ujsonin.go:142-175 | overlaying the same tree twice is overlaying it once |
| GoShape.OneShape | go/ujsonin.go:52-68 | the fields of the nodes determine the whole shape |
| GoShape.ParsedShape | go/ujsonin.go:571-990 | what the parser delivers has a shape in which every container has one place |
| GoOverlayNodes.GetPath | go/ujsonin.go:119-124 | the node at a path of the shape, or none |
| GoOverlayNodes.Get | go/ujsonin.go:115-126 | the node that a dotted path finds, none exactly if there is no value |
| GoOverlayNodes.MergedValue | go/ujsonin.go:142-175 | the merged shape stands for the overlaid value |
| GoOverlayNodes.MergedTwice | go/ujsonin.go:142-175 | merging the same tree again gives the very same shape |
| GoOverlayNodes.MergedSingle | go/ujsonin.go:142-175 | separate trees merge to a tree that may be overlaid again |
| GoOverlayNodes.ClearAgain | go/ujsonin.go:142-175 | in particular with the same tree |
| GoOverlayNodes.Overlay | go/ujsonin.go:142-175 | the links become those of the merged shape, and no field of any other node changes |
| GoOverlayNodes.OverlayKey | go/ujsonin.go:143-174 | the closure for one key |
| GoOverlayNodes.OverlayTree | go/ujsonin.go:142-175 | of separate trees the lower becomes the merged one in place, the upper stays, and both overlays that may follow are licensed |
| GoOverlayNodes.OverlayAgain | go/ujsonin.go:142-175 | the same overlay again changes no field of any node |
| GoOverlayNodes.OverlayItself | go/ujsonin.go:142-175 | nor does a tree laid over itself |
| GoOverlayNodes.OverlayAll | go/ujsonin.go:142-175 | any number of separate trees laid over one, one after the other |
| GoOverlayNodes.OverlayParsed | go/ujsonin.go:142-175 | two trees as the parser delivers them |
| GoOverlayNodes.OverlayGet | go/ujsonin.go:115-175 | what Get finds with any dotted path after Overlay |
| Fnv.Fnv1aLen | c/string-tree.c:16-28 | the loop computes the hash |
| Fnv.OneByteMore | c/string-tree.c:22-23 | a byte more flips the bits of the hash that are set in the byte, and then multiplies by the prime in 32 bits |
| Fnv.OneByte | c/string-tree.c:16-28 | the hash of every string of one byte |
| Fnv.TwoBytes | c/string-tree.c:16-28 | the hash of "ab" |
| Fnv.TimesInjective | c/string-tree.c:23 | multiplying by the prime in 32 bits can be undone |
| Fnv.TimesInverse | c/string-tree.c:23 | every word is a product |
| Fnv.MixInjective | c/string-tree.c:22-23 | for every byte no two states are led to one |
| Fnv.MixSurjective | c/string-tree.c:22-23 | and every state is led to, so the step is a bijection of the state |
| Fnv.MixSeparates | c/string-tree.c:22-23 | different bytes lead a state to different states |
| Fnv.OneByteApart | c/string-tree.c:16-28 | strings that differ in exactly one byte never collide |
| Fnv.LeadingZero | c/string-tree.c:17 | a byte in front is not seen if and only if it is zero |
| KeyArr.KeyArr.Double | c/string-tree.c:302-313 | twice the room, the same beginning |
| KeyArr.KeyArr.Add | c/string-tree.c:354-360 | the key is appended, and count stays below max |
| StringTree.SameText | c/string-tree.c:132 | strncmp of a key without zero bytes tells equality |
| StringTree.StringTree.RawGet | c/string-tree.c:122-143 | the oldest node of exactly the keys that are stored |
| StringTree.StringTree.Get | c/string-tree.c:86-95 | the oldest value and its type |
| StringTree.StringTree.Store | c/string-tree.c:197-213 | the value goes behind those of its key, and no other key changes |
| StringTree.StringTree.DelKey | c/string-tree.c:30-65 | the key's value goes, and no other key changes |
| StringTree.StringTree.GetKeys | c/string-tree.c:334-338 | every live key once, by increasing hash, with its length |
| StringTree.Replay | c/string-tree.c:30-213 | every run of stores, lookups and deletions answers as a map from keys to lists of values does |
| UjsonScan.ScanOnward | c/ujson.c:620-896 | every label moves forward or down a ranking, so the parser ends on every input |
| UjsonRoundTrip.SkipGap | c/ujson.c:629-639 | any run of blanks, commas and comments is passed over, and a block comment leads to key position |
| UjsonRoundTrip.ReadKey | c/ujson.c:640-679 | a key in either kind of quotes that is not empty, quotes behind its first byte escaped, or a bare one that begins with a small letter, is read, with whatever stands before its colon |
| UjsonKeys.QuotedKeySurvives | c/ujson.c:640-661 | those are exactly the quoted keys that are read as they are written |
| UjsonKeys.EmptyKeyIsLost | readme.txt:15 | one that is not |
| UjsonKeys.BareKeyFromSmall | c/ujson.c:624-676 | a bare key is read from its first small letter on, and not at all if it has none |
| UjsonKeys.BareKeySurvives | c/ujson.c:624-676 | so it is read as it is written if and only if it begins with one |
| UjsonKeys.CapitalKeyIsLost | readme.txt:17 | one that is not |
| UjsonRoundTrip.ReadString | c/ujson.c:817-892 | a string whose first byte is no quote ends at the first quote of its kind that no backslash behind the first byte protects, and its text is kept with its backslashes |
| UjsonRoundTrip.ReadWord | c/ujson.c:737-766 | of all words of small letters true, false and null are values of their kinds, and any other ends the program |
| UjsonStrings.StringSurvives | c/ujson.c:817-892 | a string is read as it is written if and only if it is such a one and that quote is its closing quote |
| UjsonStrings.EscapedQuoteFirst | readme.txt:30 | a string that ends at its escaped quote |
| UjsonStrings.OtherQuoteFirst | c/ujson.c:831-844 | a string that is read as the empty one |
| UjsonRoundTrip.ReadValue | c/ujson.c:680-896 | any good source of a value is read as its value, from its first byte to its last |
| UjsonRoundTrip.DeepValue | c/ujson.c:714-725 | a value with too many arrays inside each other opens an eleventh |
| UjsonRoundTrip.SourceIsRead | c/ujson.c:576-899 | a good source with any gap behind it is read as its tree, and the array stack is enough for it if and only if at most ten arrays are inside each other |
| UjsonRoundTrip.PassedStep | readme.txt:31-32 | between things exactly the bytes that mean nothing there are passed over |
| UjsonForms.BracketClosesAll | c/ujson.c:726-735 | a closing bracket makes one value of the innermost open array and all that is open inside it |
| UjsonForms.RootStaysOpen | c/ujson.c:625-628 | members behind the closing brace of the root join it |
| UjsonForms.Everything | readme.txt:15-26 | one text with every kind of key, value, quote and comment, a key twice, and its tree |
| UjsonComments.HashSpills | c/ujson.c:778-780 | the members of a hash behind a gap with a block comment join the outer hash |
| UjsonComments.CommentLosesValue | c/ujson.c:778-780 | a whole number or a hash behind a gap is read as the value of its key if and only if the gap has no block comment |
| UjsonComments.BlockCommentInValue | readme.txt:20 | an input whose value is lost, and one whose value joins the outer hash |
| UjsonRoundTrip.FractionLosesByte | c/ujson.c:803-816 | the parser goes on behind the byte that ends a fraction, as if it had passed it over, which it would if and only if the byte means nothing there |
| UjsonRoundTrip.FractionEatsBracket | c/ujson.c:803-816 | an input whose array does not close |
| UjsonNodes.UNode.ArrAdd | c/ujson.c:182-190 | the new element is behind the others in the list that the parent links spell out |
| UjsonParser.Parser.Hang | c/ujson.c:692-693 | the new child hangs in the current container, and every other array keeps its list |
| UjsonParser.Parser.OpenHash | c/ujson.c:689-696 | as the plain stack opens a hash |
| UjsonParser.Parser.OpenArr | c/ujson.c:714-725 | as the plain stack opens an array |
| UjsonParser.Parser.CloseHash | c/ujson.c:625-628 | the parent link leads where the plain stack leads |
| UjsonParser.Parser.CloseArr | c/ujson.c:726-735 | the stack of ten leads where the plain stack leads |
| UjsonParser.Parser.Recovered | c/ujson.c:625-628 | parent links and array stack lead from the current container through exactly the open ones, and there they end |
| UjsonParser.Parser.Go | c/ujson.c:620-896 | any label does the machine's step on the nodes |
| UjsonParser.UjParse | c/ujson.c:576-899 | the nodes spell out the tree that the machine with the plain stack builds |
| UjsonParser.ParseSource | c/ujson.c:576-899 | the nodes spell out the tree of any good source with at most ten arrays inside each other |
| UjsonParser.Elements | c/ujson.c:342-363 | count steps along the parent links from the head list the elements in order |
| SdsDigits.WriteDigits | c/sds.c:470-474 | the digits are written backwards |
| SdsDigits.ReverseInPlace | c/sds.c:481-489 | the buffer is reversed, the rest untouched |
| SdsDigits.Sdsll2str | c/sds.c:451-491 | the canonical decimal and its length for every 64-bit value, within 21 bytes with the terminator |
| SdsDigits.Sdsull2str | c/sds.c:494-520 | the same for unsigned values |
| SdsDigits.DecimalParsed | c/sds.c:443-450 | the text parses to the value and has no leading zero |
| Sds.Sds.NewLen | c/sds.c:89-146 | the content is the given one, in the smallest header, which for an empty string is the second smallest |
| Sds.HeaderFields | c/sds.h:47-77 | a header is two fields of one width and a byte, and holds lengths of that many bits |
| Sds.SmallestHeader | c/sds.c:60-77 | the header that is asked for is the smallest that holds the length |
| Sds.Sds.MakeRoomFor | c/sds.c:204-248 | room for so many bytes and, if it regrows, as many more as it is then long, up to a mebibyte; the string unchanged, its header, and the bytes moved |
| Sds.Sds.CatLen | c/sds.c:398-407 | the content is appended |
| SdsGrowth.Amortised | c/sds.c:216-220 | below a mebibyte all regrowths together move no more bytes than are allocated |
| SdsGrowth.RoomLasts | c/sds.c:212-220 | behind a regrowth bytes are moved again if and only if the string gets longer by more than its own length, or a mebibyte if that is less |
| Sds.Sds.CatAll | c/sds.c:398-407 | any run of appends to a new string up to that length appends what it should within that bound |
| SdsGrowth.LagGrows | c/sds.c:216-218 | a doubling leaves the bytes moved behind the allocation by at least what the digits of the required size say |
| SdsGrowth.Filled | c/sds.c:216-218 | and there is a run that leaves them behind by no more |
| SdsGrowth.BoundedExactly | c/sds.c:216-220 | from a new string on the bound holds in every run up to a length if and only if the length is at most a mebibyte and 26 bytes |
| SdsFormat.InsertArg | c/sds.c:646-701 | one argument is written as its specifier says, within the allocation |
| SdsFormat.CatFmt | c/sds.c:617-720 | the old content and the format with its arguments filled in |
| SdsFormat.DoubledIsVerbatim | c/sds.c:616 | a text whose percent signs are doubled is appended as it is |
| SdsFormat.Specifiers | c/sds.c:609-616 | what each specifier stands for, and an unknown one, and none |
| SdsFormat.RenderConcat | c/sds.c:631-714 | formats behind each other stand for their texts behind each other, each with its own arguments |
| SdsSplit.SdsSplitLen | c/sds.c:846-883 | the tokens join to the string, none contains the separator, each was cut off at the first one, and there was room for the last |
| SdsSplit.OneSplit | c/sds.c:830-845 | there is only one such list of tokens |
| SdsSplit.SdsJoinSds | c/sds.c:1131-1140 | the tokens with the separator between them |
| SdsSplit.SplitAndJoin | c/sds.c:846-1140 | splitting and joining gives the string back |

## Left out

- Reading files, dumps to standard output, makefile and environment output, and the command-line tools.
- `objc/` and `perl/`: glue, and another copy of the same state machine.
- Destructors, reference counts, freeing, and allocation that fails.
- Resuming a parse in the middle (`beginState`), `JHash.Del`, and the typed accessors of the Go nodes.
- The Go dump without JSON quoting, and the printing of Go float nodes: the printer writes nothing for them, and no promise is made then.
- GoParser.Parser: bytes are characters, and the callback is represented by the list of nodes it is called with.
- RedBlackTree.RBTree.TreeForEach1p: the function is represented by the list of its arguments, and the tree must not be empty, because the code calls the function on the sentinel otherwise.
- RedBlackTree.RBTree.RBDelete: the freed node keeps its stale links, which nothing reads any more.
- GoOverlayNodes.Overlay: no key of the upper tree has a dot, and a node that is changed has one place in the lower tree and none in the upper one; where a node would be changed through another place as well, nothing is said.
- StringTree.StringTree.Store: no other live key may have the same hash, because the code then inserts a second tree node that lookups may miss; keys are not empty and have no zero byte.
- StringTree.StringTree.DelKey: the key is stored at most once, because the code frees the whole chain.
- The key cache, the variants with a precomputed hash, and `string_tree__getkeycount`.
- UjsonParser.UjParse: at most ten arrays are open at a time and no array is closed that is not open, because the array stack is not checked (`UjsonRoundTrip.SourceIsRead` says which sources are such); the text of a string with escapes is kept as it stands, since their decoding is not part of this model; the condition on keys named at `UjsonNodes.UNode` holds here too.
- UjsonNodes.UNode: what the string tree of a hash holds is a map from keys to lists, which is what `StringTree` is proved to be while the keys of that hash are not empty, have no zero byte, and have different hashes; where two of them have the same hash, or one is empty or has a zero byte, nothing is said of the tree.
- UjsonParser.ParseSource: inherits that condition on the keys of every hash.
- SdsFormat.CatFmt: the argument list is a list of typed values that suit the format, as a call without undefined behaviour has them.
- Sds.Sds.MakeRoomFor: every regrowth is counted as moving the string, also where the allocator could grow it in place; sizes stay below the overflow that the code asserts against.
- The other string helpers: trimming, ranges, case mapping, comparison, quoting.
