# RMail: a verified model of its protocol and data-migration core

RMail is a mail and collaboration server written in Rust. This project models, in Dafny 4.11, the
parts of it whose correctness is hard to see from the code, and proves what they are for:

* **The request receiver** of IMAP and ManageSieve, a restartable byte-at-a-time machine
  (`ReceiverModel`, `ReceiverGrammar`, `ReceiverReads`, `ReceiverSafety`, `ReceiverRoundTrip`,
  `ReceiverDelivery`, `Receiver`).
* **The cluster migration protocol**, in which nodes race over expiring locks and "done" keys
  (`Migration`, `MigrationListing`, `MigrationProgress`, `MigrationExclusion`, `MigrationOnce`,
  `MigrationRepeats`, `MigrationRecovery`).
* **The template compiler and evaluator**, which flattens nested blocks into code with forward jumps
  (`TemplateModel`, `TemplateCompiler`, `TemplateEval`, `TemplateText`, `Template`).
* **Glob patterns**: a matcher with one backtrack point and the literal/pattern index built on it
  (`GlobModel`, `Glob`).
* **Data migration and codecs**: flattening nested messages (`Flatten`), modified UTF-7
  (`Utf7Model`, `Utf7RoundTrip`, `Utf7`, `Utf7Reference`), base-32 identifiers (`IdCodec`), calendar
  dates (`CivilDate`, `UtcDate`), and the legacy record decoder (`Wire`, `LegacyObject`,
  `LegacyFormat`, `LegacyLocality`, `LegacyRoundTrip`, `LegacyReader`).
* **Small stateful pieces**: dead-property tag lists (`DeadProperty`, `DeadPropertyAny`), change-log
  truncation (`ChangeLog`, `ChangeLogPruning`, `ChangeLogLive`, `ChangeLogStore`), snowflake ids (`Snowflake`).

Each part has the same shape. A specification says what the code computes, on values. Classes and
methods with the source's own loops and fields are proved against it. Lemmas then say what the
specification means without repeating it: an inverse, a declarative meaning, an invariant of every
run, or a simpler algorithm it agrees with. Where the code reads or writes a format, the reference is
written in the format's own bytes and limits: the receiver against a grammar of whole requests,
modified UTF-7 against section 5.1.3 of RFC 3501, legacy records against a relation between bytes and
the values they stand for.

Some findings differ from what one might expect of the code, and are proved as they are:

* The receiver counts a `{0}` literal towards the size of a request, but not an empty quoted string.
  `ReceiverSafety.ReachableSizeIsExact` states the size exactly, with that count as a ledger.
* The literal/pattern index and the compiler read two adjacent backslashes differently.
  `GlobModel.IndexedIffFaithful` gives the exact condition under which they agree.
* A timestamp before 1970 that is not a midnight, or beyond the year 65535, does not survive the
  trip through a date. `UtcDate.TimestampRoundTrip` is an "if and only if" over every integer.
* A migrating node's lock may expire while it still works. `MigrationExclusion.StageIsExclusive`
  proves exclusion as long as no lock expires under a running node, `ExpiryIsUnsafeIff` and
  `CoreExpiryIsUnsafeIff` say exactly when such an expiry can break it, and `ForceIsUnsafeIff` exactly
  when `FORCE_LOCK` can. Completeness (`Migration.StageIsComplete`) needs no such assumption.
* An account can be converted twice, for instance after a node dies between converting it and marking
  it done (`MigrationRepeats.TakeoverConvertsTwice`). What must not expire is the lock of an account
  that is being converted or is converted and not yet marked, and the done key of an account whose
  lock is free or has a running node inside. `MigrationRepeats.RepeatsIffHarmful` proves that exactly
  these expiries can lead to a second conversion, for accounts and for the core data.
* Two concurrent calls to a shared id generator can get the same id although the clock never goes
  back and no millisecond has more than 4096 calls (`Snowflake.StalledCallCollides`).
  `Snowflake.RunIsDistinct` gives the exact condition, for clock reads in any order.
* In a tag list with an end tag that closes nothing, a search goes on as if it were not there, but a
  removal from then on takes away elements one level further down (`DeadPropertyAny.AnyRemovedMeans`).
* A message part of 2^29 bytes or more keeps its place in the flattened message but not its size, and
  beyond 65536 messages the 16-bit references start over. `Flatten.FlattenMessage` says exactly what
  is kept, for every message.

`CommandParser`, UTF-8 validation, variable-name lookup and case folding are parameters of the
models: any function will do. Clocks, shuffles and listings are inputs.

`dafny verify dfyconfig.toml` checks the whole project.

## Model

| member | source | states |
|---|---|---|
| ReceiverModel.RunAppend | crates/imap-proto/src/receiver.rs:145-391 | Reading a stream in two pieces reports, and leaves, what reading it whole does. |
| ReceiverReads.ReadsRequests | crates/imap-proto/src/receiver.rs:101-416 | For every byte stream, the reports of the byte-at-a-time machine are those of a grammar that reads whole tags, names, words, quoted strings, sizes and literals: every request with its tokens in order, every prompt and every error. |
| ReceiverSafety.StepKeeps | crates/imap-proto/src/receiver.rs:101-391 | Whatever the byte, a step keeps the size, tag, command and buffer limits, and after a completed or rejected request the machine is exactly a fresh one. |
| ReceiverSafety.StepArgsKeeps | crates/imap-proto/src/receiver.rs:217-276 | The same for the argument state, with its punctuation and line-end cases. |
| ReceiverSafety.StepQuotedKeeps | crates/imap-proto/src/receiver.rs:277-310 | The same for quoted strings and escapes. |
| ReceiverSafety.StepLiteralKeeps | crates/imap-proto/src/receiver.rs:311-356 | An accepted literal size fits what is left of the maximum, so its data cannot overrun it. |
| ReceiverSafety.StepDataKeeps | crates/imap-proto/src/receiver.rs:374-388 | A byte of literal data is never an error, whatever it is. |
| ReceiverSafety.RunKeeps | crates/imap-proto/src/receiver.rs:145-391 | The limits hold in the state after every byte stream. |
| ReceiverSafety.ReachableSizeIsExact | crates/imap-proto/src/receiver.rs:117-143 | In every reachable state the counted size is at most the maximum and equals the argument bytes kept, plus one for each punctuation token, plus one for each zero-length literal of the request being read. |
| ReceiverSafety.DataIsTaken | crates/imap-proto/src/receiver.rs:374-388 | The remaining bytes of a literal become the rest of one argument, uninterpreted. |
| ReceiverSafety.AcceptedLiteralIsTaken | crates/imap-proto/src/receiver.rs:311-388 | Once a non-empty literal size is accepted, the next that many bytes become exactly one argument, with one prompt for a synchronising literal and no possible size error. |
| ReceiverRoundTrip.ReadAtom | crates/imap-proto/src/receiver.rs:217-276 | An atom is gathered byte for byte. |
| ReceiverRoundTrip.AtomThenPunct | crates/imap-proto/src/receiver.rs:217-276 | Punctuation that touches an atom ends it: the atom is delivered first and the punctuation token after it. |
| ReceiverRoundTrip.ReadQuoted | crates/imap-proto/src/receiver.rs:277-310 | A printed quoted string, with its escapes, reads back as the bytes it was printed from; empty quotes read back as Nil. |
| ReceiverRoundTrip.ReadLiteral | crates/imap-proto/src/receiver.rs:311-388 | A printed literal of either kind reads back as its bytes, with a prompt exactly when it is synchronising. |
| ReceiverRoundTrip.ReadAll | crates/imap-proto/src/receiver.rs:217-276 | A printed list of tokens, with or without the spaces the grammar lets one leave out, and a line end complete the request with exactly those tokens in that order. |
| ReceiverRoundTrip.RoundTrip | crates/imap-proto/src/receiver.rs:145-391 | Printing any request the limits allow, with spaces or with punctuation touching atoms and strings, and feeding it to a fresh receiver gives one prompt for each synchronising literal, then exactly that request, and leaves a fresh receiver. |
| ReceiverDelivery.RunDelivers | crates/imap-proto/src/receiver.rs:145-391 | Whatever bytes are read, every request completed on the way has a tag the reader accepts, a command the parser knows, non-empty arguments a literal can carry, the command's own punctuation, and a weight within the maximum. |
| ReceiverDelivery.DeliversExactly | crates/imap-proto/src/receiver.rs:145-391 | The receiver can deliver a request, from some bytes, if and only if the request is of that kind. |
| ReceiverDelivery.ReadsBack | crates/imap-proto/src/receiver.rs:145-391 | Any request read from any bytes is read again, alone and without a prompt, from its printed form. |
| Receiver.Receiver.ErrorReset | crates/imap-proto/src/receiver.rs:101-115 | Resets every field to the fresh machine and reports the error with the tag read so far. |
| Receiver.Receiver.PushArgument | crates/imap-proto/src/receiver.rs:117-131 | Moves the buffer into the request as one token, counting its bytes, or fails at the size limit. |
| Receiver.Receiver.PushToken | crates/imap-proto/src/receiver.rs:133-143 | Adds a punctuation token, counting one, or fails at the size limit. |
| Receiver.Receiver.PushChecked | crates/imap-proto/src/receiver.rs:408-416 | Adds a byte to the buffer below the given limit, or fails. |
| Receiver.Receiver.ConsumeTag | crates/imap-proto/src/receiver.rs:156-178 | One byte of the tag. |
| Receiver.Receiver.ConsumeCommand | crates/imap-proto/src/receiver.rs:179-216 | One byte of the command name, with the UID prefix. |
| Receiver.Receiver.ConsumeArgs | crates/imap-proto/src/receiver.rs:217-276 | One byte between arguments or of an atom; an atom that ends there is added before the punctuation that ends it. |
| Receiver.Receiver.ConsumeQuoted | crates/imap-proto/src/receiver.rs:277-310 | One byte of a quoted string. |
| Receiver.Receiver.ConsumeLiteral | crates/imap-proto/src/receiver.rs:311-356 | One byte of a literal's size. |
| Receiver.Receiver.ConsumeSeek | crates/imap-proto/src/receiver.rs:357-373 | One byte between a literal's size and its data. |
| Receiver.Receiver.ConsumeData | crates/imap-proto/src/receiver.rs:374-388 | One byte of literal data. |
| Receiver.Receiver.Consume | crates/imap-proto/src/receiver.rs:147-389 | One turn of the loop takes the object's fields where the specification's step takes the machine. |
| Receiver.Receiver.Parse | crates/imap-proto/src/receiver.rs:145-391 | Reads up to the first report or to the end of the bytes; fields and report are those of the specification after exactly the bytes consumed; the limits are kept, and after a completed or rejected request the receiver is a fresh one. |
| Receiver.Receiver.ReadFrames | crates/imap-proto/src/receiver.rs:145-391 | For every stream and every split into frames, the reports and the final state depend on the concatenated bytes alone, and the limits are kept. |
| Migration.ApplyTruthful | crates/migration/src/v011.rs:28-173 | Every action of the cluster keeps "nothing is reported done that was not done". |
| Migration.ApplyRecorded | crates/migration/src/v011.rs:28-93 | Every action of the cluster keeps: a node at core conversion `k` has run those before it, and what is reported done has run all of them. |
| Migration.StageIsComplete | crates/migration/src/v011.rs:28-173 | In every interleaving, with crashes, restarts, expiry and FORCE_LOCK, a finished node, a stamped schema or a core done key means every core conversion was run, in order, and every listed account was converted; no account conversion starts before all core conversions have been run. |
| MigrationListing.ListingIsConverted | crates/migration/src/v011.rs:28-173 | In every interleaving, with crashes, restarts, expiry and FORCE_LOCK, a finished node has worked on exactly the accounts that converting or listing the core data gave it, and all of them are converted; the same for the accounts behind a stamped schema. |
| MigrationListing.QueueKeepsOrder | crates/migration/src/v011.rs:95-170 | A node takes its accounts in the shuffled order; those found locked keep their order in the next pass, and only an account it has unlocked leaves the list. |
| MigrationListing.StepTakesLock | crates/migration/src/v011.rs:28-150 | A step takes a free lock only without FORCE_LOCK and then goes inside; a forced node goes inside with the locks as they are; only the lock a node is inside of is removed. |
| MigrationProgress.HolderMoves | crates/migration/src/v013.rs:24-164 | A node inside a lock never waits for another. |
| MigrationProgress.LocksAreTended | crates/migration/src/v011.rs:28-173 | Without crashes, a lock found taken is one another node is inside of, and that node's next step is enabled. |
| MigrationProgress.StageCanFinish | crates/migration/src/v011.rs:28-173 | From every state reachable without crashes, even with expiry and FORCE_LOCK and whatever the listings return, the nodes' own steps can bring every node to its return, with no lock left. |
| MigrationExclusion.ApplyApart | crates/migration/src/v011.rs:28-153 | Every action but the expiry of a lock under a running node keeps running nodes apart. |
| MigrationExclusion.StageIsExclusive | crates/migration/src/v013.rs:24-144 | Without FORCE_LOCK, and while no lock expires under a running node, no two running nodes are ever inside one lock, however nodes crash, restart and take over expired locks and whatever done keys expire. |
| MigrationExclusion.ExpiryIsUnsafeIff | crates/migration/src/v011.rs:102-153 | From running nodes apart, the expiry of an account's lock can bring two running nodes inside it if and only if a running node is inside it and another can still come: before the stamp any other node, after it a running one that has the account on its list or may yet list it. |
| MigrationExclusion.CoreExpiryIsUnsafeIff | crates/migration/src/v011.rs:28-93 | The same for the core lock, which after the stamp only a running node already trying for it can enter. |
| MigrationExclusion.QuietCannotClash | crates/migration/src/v011.rs:28-153 | After the stamp, when at most one running node is concerned with a lock that expired, no gentle continuation brings two running nodes inside one lock. |
| MigrationExclusion.ForceIsUnsafeIff | crates/migration/src/v011.rs:28-93 | From any start, exclusion can break without a lock expiring under a running node if and only if some node uses FORCE_LOCK and there is another node. |
| MigrationExclusion.ExpiryLetsNextIn | crates/migration/src/v011.rs:102-153 | Also after the stamp: when a lock expires under a running node, one step brings in a node whose worklist is at that account. |
| MigrationExclusion.ExpiryBreaksExclusion | crates/migration/src/v011.rs:28-153 | From a clean start without FORCE_LOCK, a run with a single expiry in which two nodes convert one account at once. |
| MigrationExclusion.ForceBreaksExclusion | crates/migration/src/v011.rs:28-153 | One such run: from a clean start without expiry, a run with one FORCE_LOCK node in which two nodes convert one account at once. |
| MigrationOnce.ApplyOnce | crates/migration/src/v011.rs:28-153 | Every harmless action keeps: what was converted is marked or locked, and a running node is inside a lock that is held or no longer needed. |
| MigrationOnce.StageConvertsOnce | crates/migration/src/v013.rs:24-164 | From a start with nothing converted and without FORCE_LOCK, over every run of harmless actions, the core data and each account are converted at most once, also by takeover, and exactly once when a node that listed it has finished. |
| MigrationRepeats.RepeatsIffHarmful | crates/migration/src/v011.rs:28-153 | In every state reached by such a run, an action can lead to a second conversion if and only if some node can still come and either a lock expires whose account is unmarked and converted or in use, or a done key expires whose lock is free or in use; the same for the core lock and the core key. Crashes, restarts and steps never do. |
| MigrationRepeats.TakeoverConvertsTwice | crates/migration/src/v011.rs:102-150 | A node that dies between converting and marking: its lock expires and the next node converts the account again. |
| MigrationRepeats.DoneExpiryConvertsTwice | crates/migration/src/v011.rs:102-150 | A done key that expires: the next node converts the account again. |
| MigrationRecovery.StageCanRecover | crates/migration/src/v011.rs:28-173 | From every state whatever, with any nodes dead and any locks left behind, restarts and the expiry of locks nobody running is inside of let every node return, with no lock left. |
| TemplateCompiler.TreeCompiles | crates/utils/src/template.rs:36-126 | Compiling the tokens of a tree appends its code and leaves the block stack as it was. |
| TemplateCompiler.EndPatches | crates/utils/src/template.rs:83-105 | Closing the innermost block patches its end and nothing else; any other closer is an error. |
| TemplateCompiler.BuildReachesEnd | crates/utils/src/template.rs:36-126 | If the compiler succeeds, recursive descent over the same tokens reads all of them. |
| TemplateCompiler.TreeIsCompiled | crates/utils/src/template.rs:36-126 | A text that denotes a tree compiles to the code of that tree. |
| TemplateCompiler.CompilesIffTree | crates/utils/src/template.rs:36-126 | A text compiles if and only if it denotes a tree. |
| TemplateCompiler.CompileReportsFirst | crates/utils/src/template.rs:36-126 | A text fails to compile exactly when a token of it is wrong where it stands, and the error is that of the first such token. |
| TemplateCompiler.CodeIsNested | crates/utils/src/template.rs:36-126 | In compiled code every block ends after it begins, within the block around it. |
| TemplateEval.CodeIsRendered | crates/utils/src/template.rs:128-198 | The jumping evaluator, started at the code of a tree, prints what the tree means and goes on after it. |
| TemplateEval.EntryIsRendered | crates/utils/src/template.rs:162-190 | The same inside an `each` block, where variables are those of the entry and an inner `each` is rendered once in the outer entry's scope. |
| TemplateEval.CompiledTemplateMeansItsTree | crates/utils/src/template.rs:128-198 | For every text that compiles, the code's jumps nest and go forward, and evaluation prints exactly the recursive meaning of the template tree. |
| TemplateText.PrintedLexes | crates/utils/src/template.rs:36-126 | The text written for a tree, with any white space around the names in its tags, lexes to the tokens of the tree. |
| TemplateText.PrintedTreeCompiles | crates/utils/src/template.rs:36-126 | Writing a tree as text, with any such white space, and compiling it gives the code of the tree. |
| TemplateText.EscapedHasNoMarkup | crates/utils/src/template.rs:201-212 | Escaped text contains no markup character. |
| TemplateText.EscapeIsInjective | crates/utils/src/template.rs:201-212 | Different texts stay different after escaping. |
| TemplateText.UnescapeEscaped | crates/utils/src/template.rs:201-212 | Reading the HTML character references of an escaped text gives the text back. |
| TemplateText.VariableTagPrints | crates/utils/src/template.rs:36-212 | The text of a variable tag, with any blanks in its braces, compiles and prints the value: escaped, without markup characters and with the value's meaning by the HTML references, or as it is when marked so. |
| TemplateText.UnclosedTagFails | crates/utils/src/template.rs:36-126 | After any plain text, an opening pair of braces without a closing one is the error of an unmatched opening. |
| TemplateText.UnknownBlockFails | crates/utils/src/template.rs:36-126 | A block opener or closer without `each` or `if` after it is the error of an invalid block, whatever blanks stand before the word. |
| Template.CloseBlock | crates/utils/src/template.rs:83-105 | Pops the innermost block and patches its opener, or reports a mismatch; a closer on an empty stack is ignored. |
| Template.ParseTag | crates/utils/src/template.rs:49-111 | Acts on one tag as the specification does. |
| Template.Parse | crates/utils/src/template.rs:36-126 | The single pass over the text computes the specified code or error. |
| Template.WriteEscaped | crates/utils/src/template.rs:201-212 | Appends the escaped text, which reads back by the HTML references (`TemplateText.UnescapeEscaped`). |
| Template.EvalEntry | crates/utils/src/template.rs:164-189 | Renders a block's body for one entry. |
| Template.EvalItem | crates/utils/src/template.rs:136-194 | Renders one item and says where to go on. |
| Template.Eval | crates/utils/src/template.rs:128-198 | The loop over the code terminates within bounds and prints what the specification says. |
| GlobModel.CompiledMeans | crates/utils/src/glob.rs:26-67 | Compiling keeps the declarative meaning of every pattern text. |
| GlobModel.StarRunMeans | crates/utils/src/glob.rs:33-40 | A run of stars means what one star means. |
| GlobModel.LiteralMeansItself | crates/utils/src/glob.rs:69-97 | A text without wildcards and adjacent backslashes means itself, minus its backslashes. |
| GlobModel.AdjacentMeansBackslash | crates/utils/src/glob.rs:69-97 | With adjacent backslashes, everything such a text means contains a backslash. |
| GlobModel.GlobByLast | crates/utils/src/glob.rs:70-86 | A text becomes a glob with a star or question mark exactly when the character before it is no backslash. |
| GlobModel.StripDropsBackslash | crates/utils/src/glob.rs:90-95 | A literal loses every backslash, wherever it stands. |
| GlobModel.IndexedIffFaithful | crates/utils/src/glob.rs:69-97 | The index answers by the meaning of a text, for every key, if and only if the text has an unescaped wildcard or no two adjacent backslashes. |
| Glob.Compile | crates/utils/src/glob.rs:26-67 | The compiling loop produces the specified pattern. |
| Glob.LaterStarIsEnough | crates/utils/src/glob.rs:100-144 | Forgetting all but the last star loses no match. |
| Glob.Matches | crates/utils/src/glob.rs:100-144 | The loop with a single backtrack point terminates and returns true exactly when the pattern matches the value. |
| Glob.TryCompile | crates/utils/src/glob.rs:69-97 | Gives a pattern exactly for texts with an unescaped wildcard, and else the text without its backslashes. |
| Glob.FoundIsIndexed | crates/utils/src/glob.rs:164-178 | Looking a key up in the literals and then the patterns is looking for an inserted text that covers it. |
| Glob.FaithfulMeans | crates/utils/src/glob.rs:164-178 | For faithful texts, that is looking for an inserted text that means the key. |
| Glob.GlobSet.Insert | crates/utils/src/glob.rs:164-173 | Adds the text to the set's history and keeps literals and patterns in step with it. |
| Glob.GlobSet.Contains | crates/utils/src/glob.rs:175-178 | Holds exactly when some inserted text covers the key, and for faithful texts exactly when one means it. |
| Glob.FirstMatchIsEarliest | crates/utils/src/glob.rs:188-206 | Searching the patterns in order finds the earliest inserted one that matches. |
| Glob.GlobMap.Insert | crates/utils/src/glob.rs:188-197 | Adds the entry to the map's history and keeps literals and patterns in step with it. |
| Glob.GlobMap.Get | crates/utils/src/glob.rs:199-206 | Returns the latest literal entry for the key, or else the value of the earliest inserted matching pattern. |
| Glob.LookupFindsMeaning | crates/utils/src/glob.rs:199-206 | For faithful texts a value is found exactly when some inserted text means the key. |
| Glob.LatestLiteralWins | crates/utils/src/glob.rs:188-206 | Of the literals for a key the last one inserted gives the value, whatever patterns there are. |
| Glob.EarliestPatternWins | crates/utils/src/glob.rs:188-206 | Without a literal for the key, the first inserted pattern that means it gives the value. |
| Flatten.FlagsRoundTrip | crates/migration/src/email_v1.rs:384-392 | Encoding, problem flag and the low 29 bits of the size can be read back from the packed flags. |
| Flatten.FlagsAreBits | crates/email/src/message/metadata.rs:70-73 | In the 32-bit word, bits 31, 30 and 29 are base 64, quoted-printable and the problem flag, and the rest is the size. |
| Flatten.ConvertPartsRefs | crates/migration/src/email_v1.rs:368-382 | The references written for a message's parts are consecutive in 16 bits, one for each embedded message. |
| Flatten.ConvertMessageParts | crates/migration/src/email_v1.rs:366-441 | The inner loop converts the parts and queues the embedded messages in order, with a 16-bit index that wraps around. |
| Flatten.MaskedIsSame | crates/migration/src/email_v1.rs:361-449 | Cutting indices to 16 bits and sizes to 29 changes nothing exactly when all of them fit. |
| Flatten.RebuildIsMasked | crates/migration/src/email_v1.rs:361-449 | Following references from a linked array rebuilds the original message tree, cut to what its fields hold. |
| Flatten.FlattenMessage | crates/migration/src/email_v1.rs:361-449 | The queue loop yields as many messages as the tree has, and references 1, 2, 3, ... in order, cut to 16 bits. They all point forward if and only if there are at most 65536 messages; then following them from index 0 rebuilds the nested message with part indices cut to 16 bits and sizes to 29, and exactly that message if and only if they fit. |
| Utf7.CharUnitsMean | crates/imap-proto/src/utf7.rs:72-78 | A character is one code unit below 65536, and else the two surrogates that UTF-16 gives it. |
| Utf7.Utf16RoundTrip | crates/imap-proto/src/utf7.rs:21-118 | Code units decode to the string they were made from. |
| Utf7.Utf16Inverse | crates/imap-proto/src/utf7.rs:21-118 | Code units that decode are the code units of what they decode to. |
| Utf7RoundTrip.CloseSync | crates/imap-proto/src/utf7.rs:110-115 | The padding bits of a closed run never create a code unit. |
| Utf7RoundTrip.UnitSync | crates/imap-proto/src/utf7.rs:72-118 | After each code unit, encoder and decoder hold the same pending bits. |
| Utf7RoundTrip.UnitsRoundTrip | crates/imap-proto/src/utf7.rs:21-118 | Decoding what was encoded for any code units gives them back. |
| Utf7.NameRoundTrip | crates/imap-proto/src/utf7.rs:21-118 | Decoding an encoded name gives the name back, for every string. |
| Utf7Reference.EncodeIsReference | crates/imap-proto/src/utf7.rs:72-118 | For every list of code units, the accumulator loop writes the name of RFC 3501: printable ASCII as itself, the ampersand as `&-`, and each maximal run of other units as its bits in base 64 groups of six, padded with zeros. |
| Utf7Reference.DirectNameIsItself | crates/imap-proto/src/utf7.rs:72-118 | A name of printable ASCII without ampersands is its own encoding. |
| Utf7Reference.DecodeIsReference | crates/imap-proto/src/utf7.rs:21-70 | For every text, the decoding loop gives the code units that reading whole runs of base 64 gives, or fails where that fails. |
| Utf7.EncodedNameIsPrintable | crates/imap-proto/src/utf7.rs:72-118 | An encoded name is printable ASCII and ends outside a shifted run. |
| Utf7.WriteDigits | crates/imap-proto/src/utf7.rs:103-106 | Writes the full digits of the accumulator and keeps the rest. |
| Utf7.EncodeOne | crates/imap-proto/src/utf7.rs:78-108 | One turn of the encoding loop: a direct character as itself, an ampersand escaped, any other in a run, closing or opening the run around it. |
| Utf7.Utf7Encode | crates/imap-proto/src/utf7.rs:72-118 | The encoding loop computes the specified name. |
| Utf7.DecodeInRun | crates/imap-proto/src/utf7.rs:29-50 | One turn of the decoding loop inside a shifted run. |
| Utf7.Utf7Decode | crates/imap-proto/src/utf7.rs:21-70 | The decoding loop computes the specified string, or fails where it does. |
| IdCodec.ShiftOut | crates/types/src/id.rs:93-96 | A turn of the writing loop takes the top digit of what the word holds and keeps the rest above the stop bit. |
| IdCodec.NotStopped | crates/types/src/id.rs:67-96 | The word equals the stop word only when no digit is left. |
| IdCodec.HoldsAfterEating | crates/types/src/id.rs:77-81 | After the leading zeros are shifted out in groups of five, the word holds the id with a non-zero first digit. |
| IdCodec.AsString | crates/types/src/id.rs:52-101 | For every 64-bit id the stop-bit loop terminates and writes the base-32 numeral, most significant digit first, without leading zeros. |
| IdCodec.LetterMeans | crates/utils/src/codec/base32_custom.rs:11 | The digits 0 to 25 are written a to z and the others 7, 9, 2, 0, 1, 3. |
| IdCodec.DigitMeans | crates/utils/src/codec/base32_custom.rs:12-27 | A character is read as a digit exactly when it is that letter, the upper-case letter from K on, or that figure. |
| IdCodec.NumeralIsCanonical | crates/types/src/id.rs:52-101 | A numeral has no leading zero digit except for zero, and its value is the number. |
| IdCodec.CanonicalIsNumeral | crates/types/src/id.rs:52-101 | Every such digit list is the numeral of its value. |
| IdCodec.FromStr | crates/types/src/id.rs:25-38 | Any text over the table is read as its value modulo the word; any other text is refused. |
| IdCodec.IdRoundTrip | crates/types/src/id.rs:25-101 | The text of an id reads back as the id. |
| IdCodec.TextRoundTrip | crates/types/src/id.rs:25-101 | A readable text survives reading and writing if and only if it is the lower-case canonical numeral of a 64-bit number. |
| CivilDate.YearOfEraIsRight | crates/migration/src/object.rs:612-615 | The year formula finds the year whose days contain the day of the era, for every day of the 400 years. |
| CivilDate.StepsStayInRange | crates/migration/src/object.rs:611-618 | Every intermediate value of the date formula stays in its commented range. |
| CivilDate.DaysRoundTrip | crates/migration/src/object.rs:608-650 | Every day number gives a valid Gregorian date, and the other formula maps it back. |
| CivilDate.DateRoundTrip | crates/migration/src/object.rs:608-650 | Every valid date survives the opposite trip. |
| CivilDate.ToDaysCounts | crates/migration/src/object.rs:634-644 | The day number of the next day of the calendar is one more, and that of January 1, 1970 is zero. |
| UtcDate.TimestampRoundTrip | crates/migration/src/object.rs:608-650 | For every integer, a timestamp is recovered from its date if and only if it lies in the years 0 to 65535 and is not negative, or is a midnight. |
| UtcDate.RepresentableIsValid | crates/migration/src/object.rs:608-632 | Such a timestamp gives a valid date and time in UTC. |
| UtcDate.UtcRoundTrip | crates/migration/src/object.rs:608-650 | A valid UTC date is recovered from its timestamp if and only if it is from 1970 on, or a midnight. |
| UtcDate.FieldsOfMoment | crates/migration/src/object.rs:608-632 | What every integer timestamp gives: whole days, hours, minutes and seconds after the epoch as they are, those before it wrapped around in their bytes, and the low 16 bits of the year. |
| UtcDate.OffsetShifts | crates/migration/src/object.rs:645-649 | An offset moves a timestamp back when the local time is ahead of Greenwich and forward when it is behind. |
| Wire.LebRoundTrip | crates/utils/src/codec/leb128.rs:108-173 | Every number that fits the word reads back from its LEB128 bytes and leaves what follows. |
| LegacyFormat.NumberReads | crates/utils/src/codec/leb128.rs:154-173 | At most five septets for a 32-bit word and ten for a 64-bit one, ended by a byte below 128, are read as their number modulo the word. |
| LegacyFormat.NumberShape | crates/utils/src/codec/leb128.rs:154-173 | Nothing else is read as a number. |
| LegacyFormat.KeywordReads | crates/migration/src/object.rs:314-341 | A number below 12 is a system keyword; 12 or more is followed by that many bytes less 12 of a name. |
| LegacyFormat.NamedKeyword | crates/migration/src/object.rs:328-339 | A keyword of fewer than 116 bytes is read from the byte 12 plus its length and its bytes, whatever follows. |
| LegacyFormat.SystemKeyword | crates/migration/src/object.rs:314-327 | A single byte is a system keyword exactly when it is below 12. |
| LegacyFormat.PropertyReads | crates/migration/src/object.rs:343-452 | Codes 0 to 103 but 90 and 97 are properties; 97 is followed by a name. |
| LegacyFormat.BlobIdReads | crates/types/src/blob.rs:130-171 | A marker, 32 bytes of hash, an account, what bit 4 of the marker says and what its low four bits say are read as a blob id. |
| LegacyFormat.LeafReads | crates/migration/src/object.rs:242-277 | The tags 0 to 8, 11 and 12, each followed by the bytes of its kind, are read as that value. |
| LegacyFormat.ValueIsFormat | crates/migration/src/object.rs:242-277 | A value, nested to any depth, is read from a stream if and only if the stream begins with bytes that stand for it. |
| LegacyFormat.ObjectIsFormat | crates/migration/src/object.rs:229-452 | A record is read from a stream if and only if the stream begins with bytes that stand for it; what follows them is what is left. |
| LegacyLocality.ValueLocal | crates/migration/src/object.rs:242-277 | A value decoder, through any nesting, looks only at the bytes it consumes, which are at least one. |
| LegacyLocality.BlobIdLocal | crates/types/src/blob.rs:130-171 | The same for blob ids. |
| LegacyLocality.KeywordLocal | crates/migration/src/object.rs:314-341 | The same for keywords. |
| LegacyLocality.PropertyLocal | crates/migration/src/object.rs:343-452 | The same for property names. |
| LegacyLocality.ObjectLocal | crates/migration/src/object.rs:229-240 | The same for whole records. |
| LegacyLocality.ObjectIgnoresSuffix | crates/migration/src/object.rs:229-341 | Appending any suffix to a record that decodes leaves its value unchanged and that suffix unread. |
| LegacyLocality.TruncatedObjectFails | crates/migration/src/object.rs:229-341 | A record cut short anywhere does not decode. |
| LegacyRoundTrip.BlobIdRoundTrip | crates/types/src/blob.rs:130-210 | A blob id reads back from what the source writes for it, when its encoding fits the shared byte. |
| LegacyRoundTrip.LeafRoundTrip | crates/migration/src/object.rs:242-277 | Every value without nesting reads back from its bytes. |
| LegacyRoundTrip.ValueRoundTrip | crates/migration/src/object.rs:242-277 | Every value, nested to any depth, reads back from its bytes. |
| LegacyRoundTrip.ObjectRoundTrip | crates/migration/src/object.rs:229-240 | Every record the format can hold reads back from its bytes, whatever follows them. |
| LegacyRoundTrip.NumberIsShortest | crates/utils/src/codec/leb128.rs:108-152 | A number is written in as few septets as any that stand for it. |
| LegacyReader.Reader.NextLeb128 | crates/utils/src/codec/leb128.rs:154-173 | The loop over the shift table reads what the specification reads and advances the cursor as far. |
| LegacyReader.Reader.ReadBytes | crates/migration/src/object.rs:297-306 | Reads a length and that many bytes, or fails at the end. |
| LegacyReader.Reader.ReadBlobId | crates/types/src/blob.rs:130-171 | Reads a blob id field by field. |
| LegacyReader.Reader.ReadKeyword | crates/migration/src/object.rs:314-341 | Reads a system keyword below 12, or a name of the number read less 12 bytes; which bytes that is for is `LegacyFormat.KeywordReads`. |
| LegacyReader.Reader.ReadProperty | crates/migration/src/object.rs:343-452 | Reads a property code or a custom name. |
| LegacyReader.Reader.ReadGrant | crates/migration/src/object.rs:214-227 | Reads an account id and eight big-endian bytes. |
| LegacyReader.Reader.ReadAcl | crates/migration/src/object.rs:265-272 | Reads a counted list of grants. |
| LegacyReader.Reader.ReadLeaf | crates/migration/src/object.rs:242-277 | Dispatches on the tag of a value without nesting. |
| LegacyReader.Reader.ReadValue | crates/migration/src/object.rs:242-277 | Terminates on every input and decodes what the specification decodes. |
| LegacyReader.Reader.ReadList | crates/migration/src/object.rs:255-262 | Reads a counted list of values. |
| LegacyReader.Reader.ReadObject | crates/migration/src/object.rs:229-240 | Terminates on every input and decodes what the specification decodes. |
| DeadProperty.BalancedIsFlat | crates/types/src/dead_property.rs:58-130 | Every balanced tag list is the list of some sequence of element trees. |
| DeadProperty.RemovedMeans | crates/types/src/dead_property.rs:101-124 | Removal takes away exactly the top-level elements of the name. |
| DeadProperty.FoundMeans | crates/types/src/dead_property.rs:58-97 | The search returns the contents of the first top-level element of the name. |
| DeadPropertyAny.EveryListHasShape | crates/types/src/dead_property.rs:58-130 | Every tag list whatever is a sequence of element trees cut by end tags that close nothing, and then by start tags that are never closed. |
| DeadPropertyAny.AnyFoundMeans | crates/types/src/dead_property.rs:58-97 | For every tag list: a search passes over end tags that close nothing, and an element left open is found with everything after it. |
| DeadPropertyAny.AnyRemovedMeans | crates/types/src/dead_property.rs:101-124 | For every tag list: a removal takes away the top-level elements of the name, but one level further down after each end tag that closes nothing. |
| DeadProperty.RemoveThenFind | crates/types/src/dead_property.rs:58-124 | After a removal the list is balanced, the name is gone, and every other name is found as before. |
| DeadProperty.AddThenFind | crates/types/src/dead_property.rs:58-130 | After an addition the list is balanced and the new contents are found, unless an earlier element has the name. |
| DeadProperty.SetThenFind | crates/types/src/dead_property.rs:58-130 | Removing and adding makes a search return exactly the new contents, and leaves other names as they were. |
| DeadProperty.RemovedSize | crates/types/src/dead_property.rs:132-148 | A removal frees exactly the bytes of the elements it takes away. |
| DeadPropertyAny.SizeIsOctets | crates/types/src/dead_property.rs:132-148 | The size is the number of octets of the names, attributes and texts in UTF-8, and one for each end tag. |
| DeadProperty.DeadProperty.FindTag | crates/types/src/dead_property.rs:58-97 | The depth-counting loop computes the specified search, on balanced and unbalanced lists. |
| DeadProperty.DeadProperty.RemoveElement | crates/types/src/dead_property.rs:101-124 | The filtering loop computes the specified removal, on balanced and unbalanced lists. |
| DeadProperty.DeadProperty.AddElement | crates/types/src/dead_property.rs:126-130 | Appends the element and its contents. |
| DeadProperty.DeadProperty.TotalSize | crates/types/src/dead_property.rs:132-148 | Sums the sizes of the tags, in UTF-8 bytes. |
| ChangeLogPruning.PruneMeans | crates/common/src/core.rs:743-842 | A log of more than `m` entries is left with its `m` newest entries unchanged and an empty entry at the next-newest id; a shorter one is untouched. |
| ChangeLogPruning.PrunedVanished | crates/common/src/core.rs:802-821 | Of the vanished items of such a log, exactly those older than the marker go. |
| ChangeLogPruning.PrunedKey | crates/types/src/collection.rs:48-70 | What pruning leaves at every key, by the codes in the store: the logs 0 to 8 and the vanished items 251 to 254 of the logs 0, 2, 3 and 4 lose what is below the log's cut, the log has an empty entry at the cut, and every other key is as it was. |
| ChangeLogPruning.PruneIsConfined | crates/common/src/core.rs:743-842 | The logs of other accounts and the account's share notifications are untouched. |
| ChangeLogPruning.PruneIsIdempotent | crates/common/src/core.rs:743-842 | Pruning a second time changes nothing. |
| ChangeLogPruning.Resume | crates/common/src/core.rs:743-842 | Wherever pruning was stopped, even inside a range delete, and whatever newer changes were written since, pruning again leaves what one uninterrupted pruning at the end would have left. |
| ChangeLogPruning.PruneAgain | crates/common/src/core.rs:743-842 | Pruning early, between any two batches of newer changes, never changes what a later pruning leaves. |
| ChangeLogLive.ArrivalInterrupted | crates/common/src/core.rs:743-842 | Newer changes may arrive wherever pruning stands: the cut moves up, and the logs are still on their way to it. |
| ChangeLogLive.LivePruning | crates/common/src/core.rs:743-842 | Whatever newer changes arrive between the scans and the writes, and wherever the run stands or was cut off, only entries below a log's cut are gone, and the next pruning leaves what one pruning of everything ever written would have left. |
| ChangeLogLive.QuietPruning | crates/common/src/core.rs:743-842 | The same steps run to the end with nobody else writing are a pruning of all nine logs. |
| ChangeLogStore.Store.Scan | crates/common/src/core.rs:767-784 | The descending scan stops at the id with exactly `m` newer ones, or finds that there are no more than `m`. |
| ChangeLogStore.Store.DeleteCollection | crates/common/src/core.rs:755-841 | Truncates one log and its vanished items; after each of its writes the log is on its way there and nothing else differs. |
| ChangeLogStore.Store.PruneChanges | crates/common/src/core.rs:743-842 | Truncates the nine logs; after each of its writes the logs are in a state from which pruning can be resumed. |
| ChangeLogStore.Store.DeleteChanges | crates/common/src/core.rs:737-864 | Truncates the nine logs, and clears share notifications before the cutoff; cut off after any earlier write, it leaves a state from which pruning can be resumed. |
| Snowflake.Unpack | crates/utils/src/snowflake.rs:99-110 | An id made before 2 to the 43rd milliseconds unpacks into its time, counter and node. |
| Snowflake.MadeWithin | crates/utils/src/snowflake.rs:99-104 | The millisecond of an id is the one its clock was read in, to the nanosecond; before the epoch it is the first. |
| Snowflake.SameIdIffSameSlot | crates/utils/src/snowflake.rs:99-110 | Two calls to a generator get the same id exactly when they share a millisecond and a counter value modulo 4096. |
| Snowflake.RunIsDistinct | crates/utils/src/snowflake.rs:99-110 | Whatever the order of clock reads, the ids of a run are distinct, through counter wrap-around, if and only if no two calls share a millisecond and a counter value modulo 4096. |
| Snowflake.SequentialIsDistinct | crates/utils/src/snowflake.rs:99-110 | While callers do not overlap, ids are distinct if and only if no millisecond has more than 4096 calls. |
| Snowflake.ConcurrentIsDistinct | crates/utils/src/snowflake.rs:99-110 | In every interleaving of calls that read the clock and later take the counter, and however the clock is set in between, ids are distinct if and only if no two calls share a slot. |
| Snowflake.StalledCallCollides | crates/utils/src/snowflake.rs:99-110 | A run in which a stalled call gets an id already handed out, with a clock that never goes back and at most 4096 calls in every millisecond. |
| Snowflake.LaterIsLarger | crates/utils/src/snowflake.rs:99-110 | An id from a later millisecond is larger, whatever the node and the counter. |
| Snowflake.NodesNeverCollide | crates/utils/src/snowflake.rs:99-110 | Nodes whose ids differ modulo 512 never make the same id. |
| Snowflake.ClusterIsDistinct | crates/utils/src/snowflake.rs:99-110 | In every interleaving of calls to any number of generators whose node ids differ modulo 512, all ids are distinct if and only if no generator has two calls that share a slot. |
| Snowflake.CutoffSeparates | crates/utils/src/snowflake.rs:43-49 | There is a cutoff exactly when the period goes back no further than the epoch, and an id is below it exactly when it was made in an earlier millisecond. |
| Snowflake.TimestampOfId | crates/utils/src/snowflake.rs:73-75 | The timestamp of an id is the second its clock was read in. |
| Snowflake.SnowflakeIdGenerator.Generate | crates/utils/src/snowflake.rs:99-110 | Packs time, counter and node, and advances the counter in its 64-bit word. |
| Snowflake.SnowflakeIdGenerator.GenerateAll | crates/utils/src/snowflake.rs:99-110 | A run of calls, whatever the clock says at each, yields the specified ids, also when the counter's word wraps around. |

## Left out

- HTTP, DAV and POP3 request dispatch: routes requests to handlers and parsers of other crates.
- The v0.12 and v0.14 migration stages and the per-type converters: read each stored record and copy its fields into the new type, without locks.
- Store backends: a store is a map, a scan visits keys in order, a range delete takes a half-open range.
- Caches, semantic versions, and the names behind property, keyword and collection numbers: wrappers and lookup tables.
- Error message texts, trace events, buffer capacities and preallocation, including the failure of an allocation for a huge decoded length.
- Receiver: the counter of request bytes is unbounded, where the source's would overflow beyond the word size.
- Receiver.Receiver.ReadFrames: is about `parse` driven until it needs more data; a session drops the rest of a frame after an error, and this loop does not.
- Migration: is a transition system over values rather than loops over a store client, because its claims are about interleavings of many nodes; sleeping and errors from the store appear only as waiting and as crashes. The dispatch on the stored version, which chooses the stages to run, is reduced to stamped or not; the v0.11 and v0.13 stages are the same machine with four and one core conversions.
- MigrationProgress.StageCanFinish: is about runs without crashes, where no lock is left behind; from every other state `MigrationRecovery.StageCanRecover` needs restarts and expiry as well.
- Template.Parse: does not model the running total of static text, which is only a capacity hint.
- Glob.Compile: does not model Unicode lower-casing itself; any mapping of a character to a text will do.
- Glob.TryCompile: is modelled with case folding off, as the sets and maps of globs use it.
- Flatten.FlattenMessage: header values and offsets are carried along, not interpreted.
- Utf7.Utf7Decode: writes bitwise "or" of disjoint bits as a sum.
- IdCodec: the parts of an id and the singleton id, which are shifts and a constant.
- UtcDate.UtcRoundTrip: is about dates in UTC, since a timestamp never gives an offset; what an offset does to a timestamp is `UtcDate.OffsetShifts`.
- LegacyRoundTrip.ObjectRoundTrip: its writer is a reference for the format, since the source only keeps the reader, except for the writers of LEB128 numbers and blob ids.
- LegacyRoundTrip.BlobIdRoundTrip: covers encodings up to 14, which is all the shared byte has room for.
- DeadProperty.DeadProperty.FindTag: the depth is unbounded, where the source's counter has 32 bits.
- ChangeLogLive.LivePruning: the scan of one log is one read of it, not interleaved with writes.
