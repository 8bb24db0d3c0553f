# Verified models of Azure Linux image tools

This project models the algorithms at the core of the Azure Linux image
tools and proves what they promise. `dafny verify dfyconfig.toml` checks all of
it. Code that works by changing things step by step (the tokenizer, the
parsers, the validators, the chain builder, the two managers) is modelled as
methods and classes that are proved equal to a specification on values; the
laws are proved about the specifications. `Wrappers`, `Sequences` and `Words` hold
what the others share.

- **GRUB files.** `FileScanner`, `GrubTokens` (what lexing means, as a function
  of the text still to be read), `GrubTokenizer` (the stateful tokenizer),
  `GrubLossless`, `GrubLocality` (what is read does not depend on what comes
  before, nor on what follows a break), `GrubQuoting`, `GrubWords` (words put
  together from their parts, and what they spell); `DefaultGrub`,
  `GrubAssignments`, `DefaultGrubLaw` and `DefaultGrubUpdate` edit one variable
  of `/etc/default/grub` and read it back, `GrubFiles` says what a file put together
  from lines assigns, `DanglingExample` is a file where reading back fails.
- **Boot Loader Specification entries** (UAPI Boot Loader Specification,
  "Type #1 Boot Loader Specification Entries" and "Sorting"). `KernelVersion`
  compares versions, `KernelOrder` says how by their characters; `BlsLines` parses
  lines, `BlsArgs` lexes and prints kernel arguments, `BlsUpdate` splices options
  lines, `BlsReadBack`, `BlsLaws` and `BlsField` say what an edited entry reads as,
  `BlsText` and `BlsNames` say the same of lines and arguments put together from
  their parts. The printer is the repository's own `GrubArgsToString`.
- **dm-verity sizes.** `Verity` computes the hash tree, `InlineVerity` balances
  data against hashes; both with unsigned 64-bit arithmetic (`Words`).
  `VeritySizes` gives the sizes in plain numbers.
- **Disks and storage.** `DiskLayout` completes a disk layout in place while it
  validates it, `DiskLaws` says what it becomes and `DiskAccept` which layouts are
  accepted; the header and footer reserves are those of the GPT layout of section
  5.3 of the UEFI Specification, rounded up to 1 MiB. `StorageTree` and
  `StorageLaws` build the forest of devices, `StorageForest` says item by item which
  configurations are one.
- **Config inheritance.** `ConfigChain`, `ChainLaws` and `ChainOrder` order the
  base configs, `ConfigMerge` resolves a chain and `ConfigFields` says which config
  each field comes from; `Configs` holds the data.
- **Lifecycles.** `Timestamps` and `TimestampLaws` are the event queue and its
  tree, `TimestampTimes` is what the log of events says of names, times and
  substeps. `Chroots` and `ChrootLaws` are the mounts of chroots, `ChrootCalls` says
  when their operations succeed and what they leave, `ChrootStack` keeps
  chroots that are open inside of one another in order, `ChrootCleanup` and
  `CleanupExample` are the cleanup on a signal, `ChrootRuns` says what every run
  keeps.

## What was found

Each comes with the exact condition for all inputs.

- `verityutils.go:87` accepts a hash block that holds exactly one padded hash;
  the loop of `CalculateHashSizeInBlocks` then never ends for more than one data
  block (`SingleHashLoops`, `LoopEnds`, `AcceptedBlock`). The method is therefore
  modelled for the inputs on which the source returns.
- `disk.go:63` fills in starts after `partition.go:40` compared them with ends: a
  partition with an end and without a start can be accepted with its start
  above its end and a size that wrapped (`InvertedIsAccepted`). Where sums do not
  wrap, an accepted layout is well formed exactly when every start that is filled
  in lies below the given end (`FreshIsWellFormed`); a second validation rejects
  exactly the other ones (`SecondValidationByInput`).
- Quoted kernel arguments with blanks survive an update, as `blsutils.go:409-410`
  says, but dollars, and backslashes in arguments that need quotes, come back
  with one more backslash each time, because the printer escapes and the lexer does
  not unescape (`PrintRoundTrip`, `SplitPrinted`). A removed name can so be there
  after the update (`RemovedComesBack`, `RemovedVanish`).
- `QuoteString` leaves values without metacharacters alone, and the tokenizer
  then drops their backslashes; the empty value is not read back at all
  (`QuoteStringRoundTrip`).
- A new variable is lost behind a lone backslash at the end of the file
  (`NewVariableIsLost`, `GetAfterSet`).
- `setBLSEntryField` with an empty value after a key that ends in a carriage
  return changes the key (`EmptyValueChangesKey`, `SetField`).
- The list of active chroots can hold a chroot twice when it is an existing
  directory that is initialized while it is still active (`SetUpTwice`,
  `OnceExactly`, `RepeatsMeans`); closing it once then leaves it on the list
  (`CloseTwice`).
- The cleanup on a signal goes on after a chroot that it could not unmount, and
  removes the root directory of one that contains it (`RemovedAboveMount`,
  `SafeAtMeans`).

## Model

| member | source | states |
|---|---|---|
| FileScanning.LocMeaning | toolkit/tools/internal/filescanner/filescanner.go:42-82 | the line and column of an index are one plus the number of newlines before it, and its distance from the last of them |
| FileScanning.FileScanner.Next | toolkit/tools/internal/filescanner/filescanner.go:46-58 | advancing over a rune moves to the location of the next index; at the end of the file the index stays and the column still grows by one |
| GrubTokenizing.GrubConfigTokenizer.Tokenize | toolkit/tools/internal/grub/grubtokenizer.go:50-104 | the main loop leaves in `tokens` exactly the tokens of the rest of the file, or reports the fault and the location that lexing it has |
| GrubTokenizing.GrubConfigTokenizer.ParseWord | toolkit/tools/internal/grub/grubtokenizer.go:106-177 | a word is read up to the next unquoted break, with all its sub-words, and appended as one token |
| GrubTokenizing.GrubConfigTokenizer.ParseUnquotedString | toolkit/tools/internal/grub/grubtokenizer.go:222-291 | an unquoted run ends at a metacharacter, quote, dollar or newline; it is a keyword up to its first backslash and only at the start of a word |
| GrubTokenizing.GrubConfigTokenizer.ParseDoubleQuotedString | toolkit/tools/internal/grub/grubtokenizer.go:293-373 | a double-quoted string is split around its expansions and unescapes exactly the escapable runes; without a closing quote the fault is at the end of the file |
| GrubTokenizing.GrubConfigTokenizer.ParseSingleQuotedString | toolkit/tools/internal/grub/grubtokenizer.go:375-409 | a single-quoted string is its runes up to the next single quote, or a fault |
| GrubTokenizing.GrubConfigTokenizer.ParseVariableExpansion | toolkit/tools/internal/grub/grubtokenizer.go:411-475 | an expansion takes the longest name, bare or in braces; a dollar without a name stands for itself; the faults are the end of the file inside braces, a missing closing brace and an empty name in braces |
| GrubTokenizing.TokenizeConfig | toolkit/tools/internal/grub/grubtokenizer.go:30-48 | the tokens of a file are those of its lexical specification with the right locations; there is an error exactly where the specification has a fault, with its kind and place |
| GrubLossless.Lossless | toolkit/tools/internal/grub/grubtokenizer.go:50-509 | every accepted file is gap, token, gap, token, ..., gap: tokens are not empty, lie at their locations, are tiled by their sub-words, and gaps hold only spaces, tabs and a comment |
| GrubLocality.LexAppend | toolkit/tools/internal/grub/grubtokenizer.go:50-104 | a prefix that ends where nothing can go on is lexed by itself: the items of the whole are its items followed by those of the rest |
| GrubLocality.LexSplit | toolkit/tools/internal/grub/grubtokenizer.go:50-104 | behind any number of items that end with a metacharacter, newline or space, the front of the text lexes to those items and the rest of the text to the remaining ones: such a boundary carries no state |
| GrubLocality.WordAgain | toolkit/tools/internal/grub/grubtokenizer.go:106-177 | a word that ends before the end of a text is read unchanged whatever comes after the break that ended it |
| GrubWords.DoubleQuotedMeans | toolkit/tools/internal/grub/grubtokenizer.go:293-373 | for every double-quoted text without expansions: it is one word with one string of that text, in which a backslash goes before a dollar, a double quote or a backslash, goes together with a newline, and stays before any other rune |
| GrubWords.EveryText | toolkit/tools/internal/grub/grubtokenizer.go:293-373 | every text is of that form up to its first quote, its first expansion or a backslash at its very end |
| GrubWords.WordReads | toolkit/tools/internal/grub/grubtokenizer.go:106-177 | every word put together from unquoted runs, quoted strings with escapes and expansions, and bare expansions is read as one word, and spells what its parts mean |
| GrubWords.MetaIs | toolkit/tools/internal/grub/grubtokenizer.go:50-104 | each metacharacter is a token of its own; spaces and tabs are none |
| GrubWords.OpenStringsAreFaults | toolkit/tools/internal/grub/grubtokenizer.go:293-409 | a string that is not closed is a fault at the end of the file, with another kind behind a backslash and for single quotes |
| GrubWords.OpenBracesAreFaults | toolkit/tools/internal/grub/grubtokenizer.go:411-475 | an expansion in braces fails at the end of the file, at the first rune that is no brace behind its name, and without a name |
| GrubQuoting.ForceQuoteString | toolkit/tools/internal/grub/grubutils.go:25-47 | the quoted form escapes exactly dollar, double quote and backslash |
| GrubQuoting.ForceQuoteRoundTrip | toolkit/tools/internal/grub/grubutils.go:25-47 | for every string, tokenizing its quoted form gives one word with one string sub-word of that very value |
| GrubQuoting.QuoteStringRoundTrip | toolkit/tools/internal/grub/grubutils.go:10-23 | the word that the printed form is read as spells the value if and only if the value is not empty and either needs quotes or has no backslash before its last rune |
| GrubQuoting.QuotedWhen | toolkit/tools/internal/grub/grubutils.go:10-23 | a value is printed as it stands if and only if it does not begin with a number sign and has none of the listed metacharacters, blanks, quotes and dollars |
| DefaultGrub.SplitTokensIntoLines | toolkit/tools/internal/grub/commands.go:15-48 | splitting at newlines and semicolons gives the lines of the token list, each with the token that ended it |
| DefaultGrub.FindDefaultGrubFileVarAssigns | toolkit/tools/pkg/imagecustomizerlib/defaultgrubutils.go:47-116 | the assignments found are the one-word lines with a name and an equals sign, in order, with their spelled values and places; a quoted expansion of kernelopts is spelled out, any other expansion in such a word and any fault of the tokenizer is an error |
| GrubAssignments.AssignmentsAreRead | toolkit/tools/pkg/imagecustomizerlib/defaultgrubutils.go:47-116 | names and values of the assignments depend only on kinds and values of the lexed items, not on where they are |
| GrubAssignments.FindAssign | toolkit/tools/pkg/imagecustomizerlib/defaultgrubutils.go:47-116 | the k-th assignment is one token; the tokens before and after it are whole lines or line parts that assign the others |
| GrubFiles.FileIsRead | toolkit/tools/pkg/imagecustomizerlib/defaultgrubutils.go:47-116 | for every file put together from lines of words, comments and separators: read are the one-word lines that begin with an unquoted name and an equals sign, in order, with what the rest of the word spells, a quoted expansion of kernelopts included; another expansion there is an error |
| DefaultGrub.ReplaceDefaultGrubFileVarAssign | toolkit/tools/pkg/imagecustomizerlib/defaultgrubutils.go:283-294 | the text between the offsets of the assignment token is replaced, all else stays |
| DefaultGrub.InsertDefaultGrubFileVarAssign | toolkit/tools/pkg/imagecustomizerlib/defaultgrubutils.go:296-328 | the new line goes to the front, after the separator of the given line, or after a newline at the end of a file without one |
| DefaultGrubUpdate.UpdateDefaultGrubFileVariable | toolkit/tools/pkg/imagecustomizerlib/defaultgrubutils.go:332-362 | the edited file is the one with the first assignment of that name replaced, or the new one inserted after the last line that assigns something, if there are two |
| DefaultGrubUpdate.TextStays | toolkit/tools/pkg/imagecustomizerlib/defaultgrubutils.go:283-362 | the new file is the old one with one word replaced by, or one line inserted with, the name, an equals sign and the value in double quotes; all text around it stays |
| DefaultGrubUpdate.ReplaceLaw | toolkit/tools/pkg/imagecustomizerlib/defaultgrubutils.go:283-294 | replacing the k-th assignment and reading the file again changes the k-th value and nothing else |
| DefaultGrubUpdate.FrontLaw | toolkit/tools/pkg/imagecustomizerlib/defaultgrubutils.go:296-328 | inserting at the front puts the new pair before all others |
| DefaultGrubUpdate.AfterEndLaw | toolkit/tools/pkg/imagecustomizerlib/defaultgrubutils.go:296-328 | inserting behind a newline or semicolon puts the new pair behind that line |
| DefaultGrubUpdate.AtEofLaw | toolkit/tools/pkg/imagecustomizerlib/defaultgrubutils.go:296-328 | inserting at the end of a file without a final newline adds the pair, unless a lone backslash ends the file |
| DefaultGrubUpdate.DanglingLaw | toolkit/tools/pkg/imagecustomizerlib/defaultgrubutils.go:296-328 | behind a lone backslash at the end of the file the new line becomes part of the last word: the assignments before it stay, and at most one follows |
| DefaultGrubUpdate.GetAfterSet | toolkit/tools/pkg/imagecustomizerlib/defaultgrubutils.go:332-362 | setting a variable and reading all assignments back gives the old ones with exactly that change, if and only if the variable was there, or its name is plain and the new line does not follow a lone backslash; for all values |
| DanglingExample.NewVariableIsLost | toolkit/tools/pkg/imagecustomizerlib/defaultgrubutils.go:332-362 | a concrete file that ends in a lone backslash: a new variable of whatever other name and value is not read back |
| DefaultGrubUpdate.LookupAfterSet | toolkit/tools/pkg/imagecustomizerlib/defaultgrubutils.go:332-362 | after that change the variable has the new value and every other variable the value it had |
| KernelVersion.CompareKernelVersions | toolkit/tools/pkg/imagecustomizerlib/blsutils.go:247-336 | the two-index loop returns the sign of comparing the segment lists of both strings lexicographically |
| KernelVersion.VersionsOrder | toolkit/tools/pkg/imagecustomizerlib/blsutils.go:243-336 | the comparison is reflexive, antisymmetric and transitive for all strings, total, and zero exactly when the segment lists (digits as numbers) are equal |
| KernelVersion.SameLength | toolkit/tools/pkg/imagecustomizerlib/blsutils.go:285-320 | digit runs of one length without leading zeros compare as text the way their values compare |
| KernelOrder.SegmentsMean | toolkit/tools/pkg/imagecustomizerlib/blsutils.go:243-336 | separators count for nothing, a run of letters is one word, a run of digits one number |
| KernelOrder.SegmentsAppend | toolkit/tools/pkg/imagecustomizerlib/blsutils.go:243-336 | texts between which no word and no number goes on have their segments one after the other |
| KernelOrder.WordsDecide | toolkit/tools/pkg/imagecustomizerlib/blsutils.go:270-323 | behind equal fronts, two different words decide: the one before the other in the dictionary is the older version |
| KernelOrder.NumbersDecide | toolkit/tools/pkg/imagecustomizerlib/blsutils.go:307-324 | so do two numbers that differ without their leading zeros: the shorter, or the smaller at the first digit that differs, is the older version |
| KernelOrder.NumberIsNewer | toolkit/tools/pkg/imagecustomizerlib/blsutils.go:296-305 | so do a number and a word: the number is newer |
| KernelOrder.FrontIsOlder | toolkit/tools/pkg/imagecustomizerlib/blsutils.go:266-336 | a version is older than one that goes on with a word or a number, and equal to one that only has separators more |
| KernelOrder.StaysEqual | toolkit/tools/pkg/imagecustomizerlib/blsutils.go:247-336 | equal fronts stay equal with the same word, with numbers that differ in leading zeros only, or with any separators |
| BlsLines.ParseLines | toolkit/tools/internal/bls/bls.go:64-115 | the parser with its moving offsets returns, for every line of the text in turn, the key, value and content span that the line has by itself |
| BlsLines.LinesSpread | toolkit/tools/internal/bls/bls.go:64-115 | parsing is lossless: spans are ordered and disjoint, between two of them is whitespace with exactly one newline, before the first and after the last only whitespace, and keys and values are those of the spans |
| BlsLines.EntryParts | toolkit/tools/internal/bls/bls.go:54-115 | the content of an entry line is its key, blanks and its value, verbatim |
| BlsText.LineMeans | toolkit/tools/internal/bls/bls.go:54-115 | a line of blanks, a word, blanks, a value and trailing whitespace is parsed as that key and value, verbatim, with the span from the key to the end of the value |
| BlsText.KeyAlone | toolkit/tools/internal/bls/bls.go:54-115 | a word alone is a key with an empty value |
| BlsText.CommentMeans | toolkit/tools/internal/bls/bls.go:54-115 | comments and blank lines have neither key nor value |
| BlsText.LinesMean | toolkit/tools/internal/bls/bls.go:64-115 | a file put together from lines, the last one with or without its newline, is parsed line by line |
| BlsArgs.ParseBLSOptionsValue | toolkit/tools/pkg/imagecustomizerlib/blsutils.go:29-62 | the lexer yields the arguments of the value in order, each split at its first equals sign |
| BlsNames.NameAndValue | toolkit/tools/pkg/imagecustomizerlib/blsutils.go:39-62 | for every name without an equals sign and every value: the argument of both with an equals sign between has that name and value, and the name alone has an empty value |
| BlsNames.NameMeans | toolkit/tools/pkg/imagecustomizerlib/blsutils.go:39-62 | an argument has the name that it equals or begins with before an equals sign, and no other |
| BlsNames.ValueMeans | toolkit/tools/pkg/imagecustomizerlib/blsutils.go:25-38 | every options value put together from arguments of open and double-quoted chunks, with spaces and tabs between, is lexed to these arguments, without their quotes |
| BlsNames.LeadingBlanks | toolkit/tools/pkg/imagecustomizerlib/blsutils.go:25-38 | spaces and tabs in front of them change nothing |
| BlsArgs.GrubArgsToString | toolkit/tools/pkg/imagecustomizerlib/grubcfgutils.go:616-631 | the printer joins the quoted arguments with single spaces |
| BlsArgs.PrintRoundTrip | toolkit/tools/pkg/imagecustomizerlib/blsutils.go:25-62 | lexing a printed list gives the list back if and only if every argument is not empty, has no double quote and no dollar, and no backslash where it needs quotes |
| BlsArgs.SplitPrinted | toolkit/tools/pkg/imagecustomizerlib/blsutils.go:25-62 | for arguments without double quotes, what comes back is each argument with the backslashes that quoting it added |
| BlsUpdate.UpdateBLSEntryOptions | toolkit/tools/pkg/imagecustomizerlib/blsutils.go:415-465 | the loop that splices options lines from the last to the first returns the simultaneous left-to-right rewrite of all lines, or the text with one options line appended |
| BlsUpdate.SpliceOptions | toolkit/tools/pkg/imagecustomizerlib/blsutils.go:439-464 | splicing at the offsets of the original text, last line first, equals rewriting every line at once |
| BlsUpdate.TextsOfRewrite | toolkit/tools/pkg/imagecustomizerlib/blsutils.go:439-464 | a rewritten text has as many lines as before, each with its new content between its own surrounding whitespace |
| BlsUpdate.BodyOfEdit | toolkit/tools/pkg/imagecustomizerlib/blsutils.go:439-464 | a line given a new content is read as that content, stripped at its end |
| BlsLaws.UpdatedTexts | toolkit/tools/pkg/imagecustomizerlib/blsutils.go:404-465 | every line of the updated entry is the old line, byte for byte outside the content of options lines |
| BlsText.EditMeans | toolkit/tools/pkg/imagecustomizerlib/blsutils.go:439-464 | a line of blanks, content and trailing whitespace that is given a new content keeps the blanks and the whitespace |
| BlsText.OptionsMean | toolkit/tools/pkg/imagecustomizerlib/blsutils.go:427-459 | the new content of an options line is the word options, or that with a space and the printed arguments, one space between two of them |
| BlsReadBack.ArgsReadBack | toolkit/tools/pkg/imagecustomizerlib/blsutils.go:25-62 | for all arguments: an options line with them is read back as the printed form of those that survive the stripping of its end |
| BlsReadBack.ReadsBackMangled | toolkit/tools/pkg/imagecustomizerlib/blsutils.go:25-62 | arguments without double quotes come back one for one, with the backslashes that quoting adds, if and only if the last one is quoted or does not end in a bare carriage return |
| BlsLaws.UpdateKeeps | toolkit/tools/pkg/imagecustomizerlib/blsutils.go:404-465 | number of lines, all keys and all other lines stay; each options line of the updated entry reads back as its arguments without the removed ones, the last one with whatever the new ones print as behind them |
| BlsLaws.UpdateAdds | toolkit/tools/pkg/imagecustomizerlib/blsutils.go:427-437 | an entry without an options line keeps all its lines and gains one that reads back as whatever the new arguments print as |
| BlsLaws.KeptVanish | toolkit/tools/pkg/imagecustomizerlib/blsutils.go:443-450 | dropped are, with all their copies, exactly the arguments that are a removed name or begin with one and an equals sign; all others stay as often as they were there |
| BlsNames.KeptAre | toolkit/tools/pkg/imagecustomizerlib/blsutils.go:443-450 | the arguments that stay are those without a removed name, in their order |
| BlsLaws.RemovedVanish | toolkit/tools/pkg/imagecustomizerlib/blsutils.go:443-463 | no argument of an options line of the updated entry, apart from those added, is a removed name or begins with one and an equals sign, if and only if no surviving argument is given such a name by quoting it |
| BlsLaws.PlainNamesVanish | toolkit/tools/pkg/imagecustomizerlib/blsutils.go:443-463 | that is so where no removed name has a backslash and the last argument keeps its end |
| BlsField.RemovedComesBack | toolkit/tools/pkg/imagecustomizerlib/blsutils.go:404-465 | a concrete entry in which a removed name is there after the update, because quoting spells another argument like it |
| BlsField.SetBLSEntryField | toolkit/tools/pkg/imagecustomizerlib/blsutils.go:520-528 | the first line with the key is given the new field, or there is an error exactly when no line has the key |
| BlsField.SetField | toolkit/tools/pkg/imagecustomizerlib/blsutils.go:517-528 | for every key, also the empty one of blank lines and comments: re-parsing gives the old fields with that one value changed, if and only if the value has no newline and no surrounding whitespace, is not empty after a key that ends in a carriage return, and is empty for the empty key |
| BlsField.EmptyValueChangesKey | toolkit/tools/pkg/imagecustomizerlib/blsutils.go:517-528 | a concrete entry whose key ends in a carriage return and loses it with the empty value |
| Verity.CeilDivTwice | toolkit/tools/internal/verityutils/verityutils.go:131-144 | rounding up twice is rounding up once by the product |
| Verity.CalculateHashSizeInBlocks | toolkit/tools/internal/verityutils/verityutils.go:120-147 | the result is one superblock plus the blocks of the hash tree, modulo 2^64; there is an error exactly for an unknown algorithm or a block size that is no power of two or too small |
| Verity.TreeIsLevelSum | toolkit/tools/internal/verityutils/verityutils.go:131-144 | the loop adds up n / h^k rounded up over the levels, up to the one level that is a single block |
| Verity.LevelsReach | toolkit/tools/internal/verityutils/verityutils.go:131-144 | the number of levels is the least exponent for which h to that power is at least n |
| Verity.TreeMono | toolkit/tools/internal/verityutils/verityutils.go:131-144 | more data blocks never need fewer hash blocks |
| Verity.TreeBound | toolkit/tools/internal/verityutils/verityutils.go:131-144 | (h - 1) * (tree blocks - levels) <= n - 1 |
| Verity.TreeFits | toolkit/tools/internal/verityutils/verityutils.go:131-146 | up to 2^63 data blocks, no sum wraps |
| Verity.LoopEnds | toolkit/tools/internal/verityutils/verityutils.go:133-144 | the loop ends if and only if a block holds two hashes or there is at most one data block |
| Verity.AcceptedBlock | toolkit/tools/internal/verityutils/verityutils.go:81-92 | an accepted block size holds at least one padded hash, and just one exactly when it equals the padded hash size |
| Verity.SingleHashLoops | toolkit/tools/internal/verityutils/verityutils.go:81-144 | a block size of 32 with sha256 is accepted, and for two data blocks every level has two blocks: the loop does not end |
| Verity.RoundUpToPowerOf2 | toolkit/tools/internal/verityutils/verityutils.go:153-159 | the result is the least power of two that is not below n |
| InlineVerity.CalculateInlineVerityDataSize | toolkit/tools/imagecustomizerapi/storage.go:515-552 | the binary search returns the largest multiple of 1 MiB that fits together with its hash tree and superblock, and an error exactly when no positive multiple fits |
| InlineVerity.NeverWraps | toolkit/tools/imagecustomizerapi/storage.go:515-552 | for partitions up to 2^63 bytes no product and no sum of the search wraps |
| InlineVerity.AlignedFits | toolkit/tools/imagecustomizerapi/storage.go:524-548 | an aligned size fits exactly when it is not above the largest number of data blocks that fits |
| VeritySizes.TreeMeans | toolkit/tools/internal/verityutils/verityutils.go:131-144 | the tree over n blocks has, on each of the least number of levels that gets to one block, n / h^k blocks rounded up |
| VeritySizes.HashesMean | toolkit/tools/internal/verityutils/verityutils.go:81-129 | accepted are sha256 with block sizes 2^5 to 2^31 and sha384 and sha512 with 2^6 to 2^31; a hash takes up 32 bytes or 64 |
| VeritySizes.TotalMeans | toolkit/tools/imagecustomizerapi/storage.go:515-552 | what is compared with the partition is 4096 bytes for each data block, each block of the tree with 128 hashes in one, and the superblock |
| DiskLayout.Disk.IsValid | toolkit/tools/imagecustomizerapi/disk.go:40-165 | validation leaves exactly the starts, ends, sizes and disk size that the passes of the specification compute, also those filled in before an error |
| DiskLayout.Disk.FillPartitionStarts | toolkit/tools/imagecustomizerapi/disk.go:63-87 | a missing start becomes 1 MiB or the end of the partition before, in place, up to the first that has none |
| DiskLayout.Disk.FillPartitionEnds | toolkit/tools/imagecustomizerapi/disk.go:90-111 | all partitions but the last are completed in place, up to the first that grows or overlaps the next |
| DiskLayout.Disk.FillDiskSize | toolkit/tools/imagecustomizerapi/disk.go:113-162 | the last partition and the disk size complete each other, or the disk is too small |
| DiskAccept.AcceptedMeans | toolkit/tools/imagecustomizerapi/disk.go:40-165 | for layouts whose sums do not wrap: accepted are exactly those with a GPT, a disk size that is not zero, short ASCII names, known types, no new partition with end and size, given starts below given ends, sizes above zero, BIOS boot partitions at 1 MiB, an own end for all partitions but the last and none above the next start, 1 MiB free in front, and a disk size, if given, that leaves 1 MiB behind the last end or 2 MiB behind the start of a growing last partition |
| DiskAccept.FilledMeans | toolkit/tools/imagecustomizerapi/disk.go:59-163 | such a layout becomes the one that is given: each partition starts where it says or where the one before ends, ends where it says, after its size, or 1 MiB before the end of the disk, and has the size between; the disk ends 1 MiB after the last partition |
| DiskAccept.FirstErrors | toolkit/tools/imagecustomizerapi/disk.go:40-57 | the first errors are the table, then a disk size of zero, then the first partition that does not fit by itself |
| DiskAccept.GivenStays | toolkit/tools/imagecustomizerapi/disk.go:59-165 | accepted or not, whatever was given stays as it is |
| DiskLaws.AcceptedIsFilled | toolkit/tools/imagecustomizerapi/disk.go:59-163 | every accepted layout stands in the relation of the documentation to what it has become: given values stay, missing ones follow from their neighbours |
| DiskLaws.AcceptedIsWellFormed | toolkit/tools/imagecustomizerapi/disk.go:59-163 | an accepted layout in which the given numbers do not wrap is complete, sorted, pairwise disjoint, has size = end - start and lies between GPT header and footer, if and only if each start that is filled in lies below a given end (and a size given with an end agrees with it) |
| DiskLaws.FreshIsWellFormed | toolkit/tools/imagecustomizerapi/disk.go:59-163 | for a layout that is validated for the first time, if and only if each start that is filled in lies below the given end |
| DiskLaws.FilledExtent | toolkit/tools/imagecustomizerapi/partition.go:36-42 | the same for one partition: it has its start below its end exactly when it was not given an end at or below the start that is filled in |
| DiskLaws.InvertedIsAccepted | toolkit/tools/imagecustomizerapi/disk.go:63-87 | a concrete accepted layout whose second partition starts above its end, with a size that wrapped |
| DiskLaws.SecondValidation | toolkit/tools/imagecustomizerapi/disk.go:40-191 | validating an accepted layout once more changes nothing, and accepts it if and only if every filled start is below its end (and the filled disk size did not wrap to zero) |
| DiskLaws.SecondValidationByInput | toolkit/tools/imagecustomizerapi/disk.go:40-191 | without wrapping, it is accepted once more if and only if each start that is filled in lies below the end that was given |
| DiskLaws.SmallNeverWraps | toolkit/tools/imagecustomizerapi/disk.go:168-178 | no sum wraps if all given starts, ends and sizes together stay below 2^64 less the reserves |
| StorageTree.Storage.BuildDeviceMap | toolkit/tools/imagecustomizerapi/storage.go:318-349 | the device map holds every partition and verity item under its id, exactly when all ids differ; labels are counted |
| StorageTree.Storage.AddParentToDevice | toolkit/tools/imagecustomizerapi/storage.go:500-513 | a device gets a parent exactly when it exists and has none |
| StorageTree.Storage.CheckVerityItem | toolkit/tools/imagecustomizerapi/storage.go:377-410 | data and hash device (once, if they are the same) get the item as their parent, exactly when both are unused partitions |
| StorageTree.Storage.CheckFileSystemItem | toolkit/tools/imagecustomizerapi/storage.go:412-498 | a file system is accepted exactly when its device is unused, its mount paths are new and its identifier types fit; on a partition it is resolved to that one, on a verity item to the data device |
| StorageTree.Storage.CheckDeviceTree | toolkit/tools/imagecustomizerapi/storage.go:351-375 | the whole tree is accepted exactly when the declarative conditions hold; then all file systems are resolved to their partitions or the data devices of their verity items, before that some may be |
| StorageTree.Storage.IsValid | toolkit/tools/imagecustomizerapi/storage.go:48-140 | as far as disks, verity items, file systems and their devices are modelled, accepted are exactly the consistent configurations whose devices form a forest; then every file system has its own partition or the data device of its verity item filled in |
| StorageForest.ForestMeans | toolkit/tools/imagecustomizerapi/storage.go:48-513 | accepted are exactly the configurations in which, item by item: there is one disk at most, verity items name both devices by id with a disk and none without, all ids differ, each device is used once, verity items use partitions, file systems use partitions or verity items, no two mount points have one path, a label used for mounting is not empty and no other partition has it, and verity items are mounted by default only |
| StorageTree.AllOnPartitions | toolkit/tools/imagecustomizerapi/storage.go:443-498 | a file system on a partition is resolved to that partition, one on a verity item to the data device of the item, and nothing else of it changes |
| StorageLaws.AddableMeans | toolkit/tools/imagecustomizerapi/storage.go:500-513 | adding parents one after the other succeeds exactly when every use names an existing device and no device is used twice |
| StorageLaws.OneParent | toolkit/tools/imagecustomizerapi/storage.go:351-375 | no device of an accepted configuration has two parents, and the parent map names the one it has |
| StorageLaws.VerityOnPartitions | toolkit/tools/imagecustomizerapi/storage.go:395-410 | data and hash devices of verity items are partitions |
| StorageLaws.DistinctPaths | toolkit/tools/imagecustomizerapi/storage.go:420-441 | no path is mounted on twice if and only if no file system mounts on one path twice and no two of them mount on the same one |
| StorageLaws.DistinctWithin | toolkit/tools/imagecustomizerapi/storage.go:420-441 | within a file system that is so if and only if its own mount point and those of all its subvolumes differ |
| StorageLaws.DistinctPartitions | toolkit/tools/imagecustomizerapi/storage.go:443-473 | distinct file systems resolve to distinct partitions that exist, even through verity devices |
| ConfigChain.ChainBuilder.BuildConfigChainHelper | toolkit/tools/pkg/imagecustomizerlib/baseconfigs.go:30-74 | the recursion over the shared visited set returns the depth-first chain or the first error, and terminates on every finite file set, cyclic or not |
| ConfigChain.BuildConfigChain | toolkit/tools/pkg/imagecustomizerlib/baseconfigs.go:17-28 | the chain of a config is that of a search that starts with nothing visited |
| ChainLaws.AcceptedChain | toolkit/tools/pkg/imagecustomizerlib/baseconfigs.go:17-74 | an accepted chain holds exactly the files that can be reached, each once, after all files it is based on, then the config itself |
| ChainLaws.AcceptsWhen | toolkit/tools/pkg/imagecustomizerlib/baseconfigs.go:17-74 | there is a chain if and only if every file that can be reached loads and is valid and no file is referenced in two places |
| ChainLaws.ErrorIs | toolkit/tools/pkg/imagecustomizerlib/baseconfigs.go:37-64 | and where there is none, the error names a file that can be reached: one that two places refer to, one that cannot be loaded, or one that is not valid |
| ChainOrder.AcceptedInTurn | toolkit/tools/pkg/imagecustomizerlib/baseconfigs.go:34-66 | for every config of an accepted chain: all that its first base config is based on comes before all that its second one is, and so on |
| ChainOrder.RefsMean | toolkit/tools/pkg/imagecustomizerlib/baseconfigs.go:34-61 | a base config is at its path if that is absolute, and else at its path from the directory of the config that names it |
| ChainLaws.Found | toolkit/tools/pkg/imagecustomizerlib/baseconfigs.go:30-74 | the files of a search are counted by their references: each reference leads to one new file |
| ConfigMerge.MergeOutputArtifactTypes | toolkit/tools/pkg/imagecustomizerlib/configvalidation.go:860-882 | merging lists every type once, at its first occurrence in base then current |
| ConfigMerge.MergedTypesAssociate | toolkit/tools/pkg/imagecustomizerlib/configvalidation.go:860-882 | merging artifact types is associative |
| ConfigMerge.MergedTypesAre | toolkit/tools/pkg/imagecustomizerlib/configvalidation.go:860-882 | the merged list extends the base list, has exactly the given types, and none twice |
| ConfigFields.MergedListsOnce | toolkit/tools/pkg/imagecustomizerlib/configvalidation.go:860-882 | every type comes once, in the order in which the types first come in base and then current |
| ConfigMerge.ResolveOutputArtifacts | toolkit/tools/pkg/imagecustomizerlib/configvalidation.go:832-858 | the artifacts of a chain are folded config by config, paths resolved against the config that gives them |
| ConfigMerge.ResolveBootLoaderResetType | toolkit/tools/pkg/imagecustomizerlib/configvalidation.go:912-929 | a hard reset anywhere in the chain wins, nothing else is inherited |
| ConfigMerge.MergeKernelCommandLine | toolkit/tools/pkg/imagecustomizerlib/configvalidation.go:933-944 | arguments of all configs are concatenated in chain order |
| ConfigMerge.MergeAdditionalFiles | toolkit/tools/pkg/imagecustomizerlib/configvalidation.go:948-963 | files of all configs are concatenated, sources resolved against the config that names them |
| ConfigMerge.ResolveCosiCompressionLevel | toolkit/tools/pkg/imagecustomizerlib/configvalidation.go:1086-1100 | the command line overrides the last config that sets a level, which overrides the default |
| ConfigMerge.ResolveStorage | toolkit/tools/pkg/imagecustomizerlib/configvalidation.go:278-303 | storage may be specified in one config of the chain; there is an error if it is in more |
| ConfigMerge.StorageMeans | toolkit/tools/pkg/imagecustomizerlib/configvalidation.go:278-303 | the error is there exactly when two configs of the chain specify storage, and otherwise what is resolved is what the one config says |
| ConfigMerge.ResolveRemovePackageManager | toolkit/tools/pkg/imagecustomizerlib/configvalidation.go:1126-1134 | the last config that says anything about it decides, also against an earlier one |
| ConfigMerge.ResolveConfig | toolkit/tools/pkg/imagecustomizerlib/configvalidation.go:832-1134 | hostname, SELinux, UKI, boot loader reset, kernel arguments, ISO, PXE, output artifacts, compression level, image history, package manager and storage are resolved from the chain together |
| ConfigFields.OsTexts | toolkit/tools/pkg/imagecustomizerlib/configvalidation.go:884-929 | hostname, SELinux mode and image history are those of the last config that does not leave them empty; the boot loader is reset if some config asks for a hard reset |
| ConfigFields.IsoTexts | toolkit/tools/pkg/imagecustomizerlib/configvalidation.go:981-1084 | so are the initramfs types of ISO and PXE, and the two bootstrap URLs |
| ConfigFields.OptionalValues | toolkit/tools/pkg/imagecustomizerlib/configvalidation.go:903-1134 | UKI, kdump boot files, compression level and package manager are those of the last config that has them |
| ConfigFields.KernelArguments | toolkit/tools/pkg/imagecustomizerlib/configvalidation.go:933-979 | the kernel arguments of each config, for the OS, ISO and PXE, are between those of the configs before and those of the configs after it |
| ConfigFields.NoLists | toolkit/tools/pkg/imagecustomizerlib/configvalidation.go:933-979 | an empty chain has no arguments and no files |
| ConfigFields.AdditionalFiles | toolkit/tools/pkg/imagecustomizerlib/configvalidation.go:948-963 | so are its additional files, each the same but for a source that is not absolute, which is joined to the directory of that config |
| ConfigFields.ArtifactsMean | toolkit/tools/pkg/imagecustomizerlib/configvalidation.go:832-882 | there are artifacts if and only if some config has any: all item types of the chain, once each, in the order in which they first come, under the last path that is given |
| ConfigMerge.ArtifactsAppend | toolkit/tools/pkg/imagecustomizerlib/configvalidation.go:832-858 | artifacts of two chains in a row are the merge of the artifacts of each |
| ConfigMerge.ResolveMerges | toolkit/tools/pkg/imagecustomizerlib/configvalidation.go:832-1134 | resolving A + B is merging what A and B resolve to: scalars of B override, lists concatenate, artifact types occur once, storage in both is an error |
| Timestamps.TimeStampManager.UpdateRead | toolkit/tools/internal/timestamp/timestamp_mgr.go:363-400 | one event changes nodes, root and last visited step as the tree specification says |
| TimestampTimes.StepsOfLog | toolkit/tools/internal/timestamp/timestamp_mgr.go:363-400 | over every log of events: a step has the name it was started with, its start is the time of its last start or resume, its end is the time of its last stop or pause since then, and it has none if there was none; an event without a step is about the innermost one |
| TimestampTimes.SubStepsOfLog | toolkit/tools/internal/timestamp/timestamp.go:92-97 | a step is in the substeps of another under a name if and only if it is its newest child of that name |
| TimestampTimes.RootOfLog | toolkit/tools/internal/timestamp/timestamp_mgr.go:363-380 | the root is the newest step without a parent |
| TimestampTimes.RunSteps | toolkit/tools/internal/timestamp/timestamp_mgr.go:219-325 | in every run the names, times and substeps are what the events processed so far say |
| TimestampTimes.LogMeans | toolkit/tools/internal/timestamp/timestamp_mgr.go:219-298 | each request adds one event with its step and time; a start has the number of starts before it for its id, and a name with a slash is refused |
| Timestamps.TimeStampManager.StartEvent | toolkit/tools/internal/timestamp/timestamp_mgr.go:219-232 | a start event with a new id is queued, unless the name has a separator |
| Timestamps.TimeStampManager.StopEvent | toolkit/tools/internal/timestamp/timestamp_mgr.go:251-258 | a stop event for the step, or for none, is queued with its time |
| Timestamps.TimeStampManager.PauseEvent | toolkit/tools/internal/timestamp/timestamp_mgr.go:281-288 | so is a pause event |
| Timestamps.TimeStampManager.ResumeEvent | toolkit/tools/internal/timestamp/timestamp_mgr.go:291-298 | and a resume event |
| Timestamps.TimeStampManager.ProcessEvent | toolkit/tools/internal/timestamp/timestamp_mgr.go:319-325 | the first event of the queue is taken and applied to the tree |
| TimestampLaws.UpdateKeepsTree | toolkit/tools/internal/timestamp/timestamp_mgr.go:363-400 | every event keeps the tree: parents are older and in the table, parent ids agree, substeps are children; only an event without a step and without a last visited one dereferences nil |
| TimestampLaws.RunKeepsTree | toolkit/tools/internal/timestamp/timestamp_mgr.go:300-316 | in every run, however producer and processor interleave, the table is such a tree and every display name is defined |
| TimestampLaws.InterleavingsAgree | toolkit/tools/internal/timestamp/timestamp_mgr.go:314-325 | runs with the same requests that processed as many events are in the same state |
| TimestampLaws.AncestorsDescend | toolkit/tools/internal/timestamp/timestamp.go:38-46 | the parent chain of every step stays in the table, its ids strictly decrease, and it ends at a root |
| TimestampLaws.DisplayNameStays | toolkit/tools/internal/timestamp/timestamp.go:38-46 | once a step is in the table its display name never changes |
| TimestampLaws.PathIsDisplayName | toolkit/tools/internal/timestamp/timestamp.go:79-89 | the step found by a path of names has that path for its display name |
| TimestampLaws.VisitedIsTrail | toolkit/tools/internal/timestamp/timestamp_mgr.go:363-400 | for every sequence of starts, stops, pauses and resumes: the processor dereferences nil exactly when an event names no step and the trail of steps entered and not left is empty, and else the last visited step with its ancestors is that trail |
| TimestampLaws.RunVisitsTrail | toolkit/tools/internal/timestamp/timestamp_mgr.go:219-325 | in every run the tree is where the trail of the events processed so far is |
| Chroots.ChrootManager.InitializeChroot | toolkit/tools/internal/safechroot/safechroot.go:168-266 | initializing prepares the root, fills it, mounts in order (early mount points, default ones, others) and cleans up after a failure, whichever call fails |
| ChrootCalls.InitializeSucceeds | toolkit/tools/internal/safechroot/safechroot.go:168-266 | in any state, an initialization succeeds if and only if an existing root is there, or a new one is not, and none of its calls fails: one for a new root, one for a tar, one for each extra directory, two for each mount point; where the root does not fit nothing changes |
| ChrootCalls.InitializedIs | toolkit/tools/internal/safechroot/safechroot.go:168-266 | then its mounts are on top of those there were, in order, its directories are there and no others, its mount points are flagged, and it is last on the list |
| ChrootCalls.FailedLeavesNothing | toolkit/tools/internal/safechroot/safechroot.go:198-211 | where no second call fails, a failed initialization leaves no mount of the chroot and nothing inside a root that it made |
| Chroots.ChrootManager.CloseChroot | toolkit/tools/internal/safechroot/safechroot.go:382-426 | closing unmounts and removes, tries once more, and takes the chroot off the list only when that succeeded |
| ChrootCalls.CloseSucceeds | toolkit/tools/internal/safechroot/safechroot.go:382-426 | in any state, a close gets over any single failing call; then exactly the root of a chroot that made it is gone, with what was inside |
| ChrootCalls.CloseFails | toolkit/tools/internal/safechroot/safechroot.go:382-426 | a close that fails has had a failing call in each of two attempts |
| Chroots.ChrootManager.UnmountAndRemoveChroot | toolkit/tools/internal/safechroot/safechroot.go:497-563 | mount points are unmounted last first, skipping those that are not there; the first failure stops, otherwise the root directory is removed; a removal that fails leaves the root and any part of what is inside |
| ChrootCalls.AttemptCalls | toolkit/tools/internal/safechroot/safechroot.go:497-563 | in any state, an attempt succeeds if and only if none of the calls it makes fails |
| ChrootCalls.AttemptSparesMount | toolkit/tools/internal/safechroot/safechroot.go:497-563 | in any state, an attempt takes no mount from a path on which the chroot has no mount point that it mounted |
| ChrootCalls.UnmountedIs | toolkit/tools/internal/safechroot/safechroot.go:527-545 | an unmount takes the topmost mount from its path and nothing else |
| Chroots.ChrootManager.CleanupAllChroots | toolkit/tools/internal/safechroot/safechroot.go:449-490 | all active chroots are unmounted, the last one first, whatever fails |
| ChrootLaws.UnmountLaw | toolkit/tools/internal/safechroot/safechroot.go:497-563 | mounts of the chroot go in reverse order and only from the end; all other chroots keep theirs; directories go only when none of its mounts is left, and success means that none is |
| ChrootLaws.MountLaw | toolkit/tools/internal/safechroot/safechroot.go:598-618 | however far mounting gets, what is mounted is a front part of the mount points, in order, and all of them if it succeeds |
| ChrootLaws.MountOrder | toolkit/tools/internal/safechroot/safechroot.go:231-248 | all extra mount points are mounted: those marked as early, then the six default ones if asked for, then the others, the extra ones in the order in which they are given |
| ChrootStack.UnmountKeepsClean | toolkit/tools/internal/safechroot/safechroot.go:497-563 | an attempt at a chroot that contains no mounts of others gets to removing its root directory only when nothing at all is mounted inside, and leaves every chroot with a front part of its mounts and their directories |
| ChrootStack.InitializeKeeps | toolkit/tools/internal/safechroot/safechroot.go:168-266 | a successful initialization has mounted all mount points in order and put the chroot on the list; a failed one cleans up without removing a root above a mount; all chroots, nested or not, stay in order |
| ChrootStack.CloseLaw | toolkit/tools/internal/safechroot/safechroot.go:382-426 | closing an inner chroot undoes only its own mounts, from the end; when it succeeds none is left and the chroot is off the list; neither attempt removes a root above a mount; all chroots stay in order |
| ChrootStack.CloseTwice | toolkit/tools/internal/safechroot/safechroot.go:382-426 | in any state, closing a closed chroot changes nothing if and only if it was on the list at most once |
| ChrootCleanup.CleanupIs | toolkit/tools/internal/safechroot/safechroot.go:476-489 | the cleanup is one attempt at each chroot on the list, from the last to the first, in the states that the other results speak of |
| ChrootCleanup.SafeAtMeans | toolkit/tools/internal/safechroot/safechroot.go:476-489 | in the cleanup on a signal, the attempt at a chroot does not remove its root above a mount if and only if it does not get to removing it, or the attempts at the chroots opened later, and chroots off the list, have left no mount inside |
| ChrootCleanup.CleanupLaw | toolkit/tools/internal/safechroot/safechroot.go:449-490 | last in, first out: if every chroot that lies inside an earlier one can be unmounted, no root directory is removed above a mount |
| ChrootCleanup.MountsAfterCleanup | toolkit/tools/internal/safechroot/safechroot.go:449-490 | at the end an active chroot that could be unmounted has no mounts, of the mounts of the others the first ones are left, and chroots off the list keep theirs |
| CleanupExample.RemovedAboveMount | toolkit/tools/internal/safechroot/safechroot.go:476-489 | a concrete orderly run and a failing unmount of the inner chroot: the outer root is removed with the mount in it |
| ChrootRuns.ActiveCount | toolkit/tools/internal/safechroot/safechroot.go:255-263 | in every run, whatever fails, a chroot is on the list as often as it was initialized and not closed since |
| ChrootRuns.OnceExactly | toolkit/tools/internal/safechroot/safechroot.go:255-263 | in every run from a list without duplicates, no chroot is ever on the list twice if and only if no initialization of a chroot still on the list succeeds |
| ChrootRuns.RepeatsMeans | toolkit/tools/internal/safechroot/safechroot.go:168-186 | such an initialization can succeed only in an existing directory, and there it does whenever nothing fails |
| ChrootRuns.SetUpTwice | toolkit/tools/internal/safechroot/safechroot.go:168-186 | an existing directory can be initialized twice and is then on the list twice: a concrete run |
| ChrootRuns.UnwindLaw | toolkit/tools/internal/safechroot/safechroot.go:382-426 | closing what was opened, the last one first, is always orderly; while the closes succeed, the chroots opened before are left as they were |
| ChrootRuns.UnwindAll | toolkit/tools/internal/safechroot/safechroot.go:382-426 | when all of them are closed, nothing is mounted any more and the list is empty |
| ChrootRuns.RunKeeps | toolkit/tools/internal/safechroot/safechroot.go:168-426 | in every run that opens and closes nested chroots in order: each has a front part of its mount points mounted, no root directory is removed above a mount, and initialized chroots are on the list exactly once until closed |

## Left out

- Strings are sequences of runes of width one: invalid UTF-8 and the difference
  between rune and byte offsets are not modelled.
- Reading and writing files, shell, mount, loopback, tar and chroot calls: file
  contents are strings, the files of a config chain are a finite map, and the
  calls of a chroot are steps of an abstract mount table, each of which may fail.
- Loading and validating a config file: whether it succeeds is given for each
  file. Joining paths is a parameter.
- Error texts: errors are told apart by kind, or only by success where several
  checks fail together (storage, chroots).
- Small helpers that do one step of a source function (`UpdateRune`, `SumLevels`,
  `FillRoot`, `ScanName`, `ScanString` and the like) are methods of their own here; the
  scalar `resolve*` functions, one loop each in the source, share one.
- `findCommandLineInsertAt`, `ParseCommandLineArgs` and the rewriting of grub.cfg.
- `ParseFields` (the parsed lines without those that have no key) and the choice
  of entry files.
- Enumerations (partition types other than bios-grub, file system types, boot
  types), preview features, the checks of `Storage.IsValid` that look at the kind
  of file system or boot type, and the copying of mount points to verity items.
- Btrfs loops between subvolumes, mount options, and everything of a `Verity` item
  but its device references.
- `ResumeTiming` and reading a timestamp file back, writing it, elapsed seconds,
  and concurrent producers, for which the ids are not synchronized. A step that is
  still in the queue is known only by its id; steps refer to each other by id
  where the source has pointers.
- The retries of one unmount count as one call. Parent directories are not
  created along with a directory. Mount point objects that a caller passes to two
  initializations are copies here.
- Preview features, the input and output image and the scripts of a config chain.
- CalculateHashSizeInBlocks: requires that the loop ends, because the source does
  not return otherwise; `LoopEnds` says when that is.
- CalculateInlineVerityDataSize: optimality is stated where the largest size tried
  does not wrap, because sums above 64 bits make totals look small; `NeverWraps`
  covers partitions up to 2^63 bytes.
- RoundUpToPowerOf2: requires n up to 2^31, above which the source does not return.
- AcceptedIsWellFormed: requires that no number given or filled in wraps; what a
  layout whose sums wrap becomes is left to `AcceptedIsFilled`.
- AcceptedMeans: requires the same; `SmallNeverWraps` gives a bound that is enough.
- Storage.IsValid: boot type, partition types other than bios-grub, UUID resets,
  file system kinds and the mount points of verity items are not looked at.
- UpdateKeeps: requires new arguments without newlines, and so do `UpdateAdds` and
  `RemovedVanish`; a newline would break the options line in two.
- RemovedVanish: says nothing of the new arguments themselves, which may have a
  removed name.
- FailedLeavesNothing: requires that at most one call fails, because the cleanup
  does not try again; `InitializeKeeps` covers the rest.
- DanglingLaw: does not say which name the last word gets; `GetAfterSet` covers
  whether the new variable is read back.
- ResolveMerges: requires that joining a path that is not empty gives one that is
  not empty, as the source's path library does.
- RunKeeps: requires that a chroot is opened where no live one is in the way or
  inside, and closed before those that it lies in; without that only `ActiveCount`
  and `OnceExactly` hold.
- CleanupLaw: requires that inner chroots can be unmounted, which no caller can
  check before; `SafeAtMeans` is the exact condition in terms of the mounts left.
