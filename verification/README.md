# Verified model of libp-go

libp-go is a Go library over the Peios kernel interfaces. This project models the parts of it where most can go
wrong and proves what they promise:

- **Conditional ACEs** (`sddl/condition.go`, `sddl/decompile.go`, `sd/condition.go`): text is lexed, parsed by recursive
  descent and compiled to postfix bytecode; a stack machine turns bytecode back into text. Every text that compiles
  decompiles, and what it decompiles to compiles to the same bytes.
- **The event ring** (`event/ring.go`, `wire/event.go`): a consumer follows an overwriting producer. Every load and every
  header byte is a step of its own, and the producer may take any number of steps between two of them.
- **The event policy cache** (`event/policy.go`): a cache of registry settings kept coherent by watches, with commits by
  other programs allowed before every call the policy makes.
- **The MessagePack audit context** (`sd/auditcontext.go`): an encoder, two iterative validators and a shape check, all
  against one recursive grammar (the Formats section of the MessagePack specification).
- **Descriptors** (`wire/sid.go`, `sd/ace.go`, `sd/acl.go`, `sd/descriptor.go`, `sd/inherit.go`, `sd/getset.go`,
  `sd/claims.go`): binary round trips, and inheritance over any number of generations and trees of any shape.
- **SDDL text** (`sddl/parse.go`, `sddl/format.go`, `sddl/tables.go`, `sddl/guid.go`): parsing what was rendered.
- **Registry wire parsers** (`registry/watch.go`, `registry/value.go`, `registry/read.go`).

`dafny verify dfyconfig.toml` checks the whole project.

## How the model is built

Each component has a specification written as functions on values, and, where the Go code advances a cursor or updates
fields, methods and classes of the same form proved to compute it: `ConditionParser.CondParser`, `SddlParser.Parser`,
`MessagePack.Cursor`, `Ring.Consumer` over `Mapping.Mapped`, `PolicyView.EventPolicy` over `Registry.Kernel`, and loops over
bytes and arrays elsewhere. The theorems are about the specification.

The codecs and parsers are proved in two ways. Round trips say that what one function writes another reads. Grammars say what
every text or buffer means that nobody here wrote: they are relations between a text and its parts, in the terms of the
standards, and a parser returns a value if and only if the grammar relates its input to that value.

Modules, from the ground up:

- `Wrappers`, `Bytes`, `Numerals`, `Text`, `Utf8`, `Utf16`: options, little-endian integers, strconv and hex, splitting, text;
  `Endian`, `Unicode`: what the integers and the encodings mean.
- `Sid`, `Aliases`: SIDs and their text forms; `SidVocabulary`: what their bytes and texts say.
- `Conditions`, `ConditionLexer`, `ConditionParser`, `Decompiler`, `ConditionRoundTrip`, `ConditionSize`, `ConditionNesting`;
  `ConditionLexemes`, `ConditionGrammar`, `ConditionPrecedence`, `Postfix`: the words, the grammar, its sparing spelling, the bytecode.
- `Events`, `Producer`, `Mapping`, `Ring`, `Wait`.
- `Values`, `Watch`, `Registry`, `Policy`, `PolicyCache`, `PolicyView`; `StoredValues`: what stored bytes say.
- `MessagePack`, `AuditContext`, `AuditEncoding`.
- `Aces`, `Descriptors`, `Inheritance`, `Claims`.
- `SddlTables`, `SddlText`, `SddlControl`, `SddlScanning`, `SddlRoundTrip`, `SddlTheorems`, `SddlDescriptors`, `SddlSize`, `SddlExceptions`,
  `SddlParser`, `SddlFormatter`; `SddlVocabulary`, `SddlGrammar`, `SddlRendering`: what the words mean, the grammar,
  and which of its texts is written.

Two environments stand in for the kernel. `Producer` is a log of events written into a ring: a step advances the tail, writes
one byte, publishes, or resizes, and a write never touches a byte at or after the tail. `Registry` is a tree of keys with one
queue of records per armed watch: a commit changes the tree and tells every watch that covers it; an overflow drops what was
queued but never the deletion of the watched key. In both, `future` holds one burst of steps for every load or call still to
come; it is arbitrary, so what is proved for all futures holds of every interleaving.

## Where the code does not meet a property

Each of these is proved, with the exact condition under which the property does hold.

- `Parse(Format(d)) == d` fails for two families of accepted texts. A SID with no alias, no sub-authorities and an authority of
  2^32 or more is written as a bare hex number, and a `D:` right after it is swallowed by the number scan (`sddl/parse.go:108-121`).
  And the scanner counts parentheses and semicolons inside string literals (`sddl/parse.go:224-248`, `sddl/parse.go:386-406`). `SddlTheorems.Readable`
  is the condition; when it does not hold the text is not parsed at all. `SddlExceptions` has an accepted text of either family.
- A consumer can sleep on an unread event if the event is published after the position check and its counter bump falls
  before the counter is sampled (`event/ring.go:306-311`), or if the 32-bit counter comes all the way round. `Wait.AsleepOnData` is the exact
  condition, `Wait.SleepsOnUnreadEvent` such a run.
- A resize is not proof of a drained buffer: an event published between the load of the write position and the load of the
  generation (`event/ring.go:213-220`) is left unread when the resize is reported. `Ring.ResizeOvertakesEvent` is such a run. Exactly
  when the log has grown since the write position was loaded is there something unread: `Ring.Consumer.Next` promises `at == seen` and
  `readPos == WritePos(base.w.shared) <==> |base.w.shared.log| == seen`.
- The payload of an event is copied after the torn-read check (`event/ring.go:236`, `event/ring.go:270`), so the copy can hold bytes of
  a later event: `Ring.CopyTakesAnother` is a run in which all of its payload is another's. The condition is `Kept(base.w, at)`,
  the tail not having passed the cursor when the copy ends; then the copy is the event. `Ring.Consumer.CopyOut`.
- A policy that watches an ancestor can miss the creation of `Events` (`event/policy.go:343-354`): with nothing waiting and no `Events`,
  every run that makes it can be opened leaves a record if and only if `Generic` is watched or does not exist
  (`PolicyView.CreationNoticed`; `PolicyView.CreationUnseen` is the failing run). `Machine` is watched although `Generic` exists only if
  `Generic` could not be opened, or came, or was deleted, while the policy looked (`PolicyView.EventPolicy.WatchAncestor`).
- With nothing watched, what a policy trusts may be older than a second (`event/policy.go:64-66`): the clock is sampled after the look for
  `Events` (`event/policy.go:358-361`), however long that took. `PolicyView.LookMayBeOld` is such a run. The settings read below a root
  are never older than a second, and the look never by more than establish took: `PolicyView.EventPolicy.InTime` says
  `soughtAt <= seen.clock <= sampledAt <= checked < sampledAt + TTL`, so the look is within the second if `checked < soughtAt + TTL`.
- The two watch parsers differ on a deletion in exactly two cases (`registry/watch.go:144-166`, `event/policy.go:264-269`), one in either
  direction: a path with a depth but without its first component (`Watch.ShortPath`, as in `Watch.ShortPathDisagrees`) is the watched
  key's own deletion to one parser only, and a name longer than its record with a whole component to be read in its place
  (`Watch.LongName`, as in `Watch.LongNameDisagrees`) to the other only. `Watch.DeletionsDiffer` for a record, `Watch.BothParsers` for a buffer.
- An audit context of kind "kind" with any field cannot be encoded: what the encoder writes holds the map key "kind" twice, and its own
  last check refuses it (`sd/auditcontext.go:100-137`). `AuditEncoding.WrittenShape`: the value written has
  the kernel's shape if and only if the kind is not "kind" or there are no fields.

The package comment of `sddl/sddl.go:17-18` says that Parse and Format reject callback ACEs; the code handles them, and so does the model.

## Model

| member | source | states |
|---|---|---|
| ConditionRoundTrip.CompileDecompileCompile | sddl/condition.go:219-437 | every accepted text whose operands fit their 32-bit lengths compiles to bytes that decompile without error, and what they decompile to, in parentheses, compiles to the same bytes |
| ConditionSize.ShortTextRoundTrip | sddl/condition.go:219-437 | the same, with the very tree, for every accepted text of under 2^28 characters or whose code is under 2^32 bytes |
| ConditionSize.CompiledSize | sd/condition.go:78-174 | compiling takes at most 16 bytes for each character of the text |
| ConditionSize.ShortConditionFits | sd/condition.go:121-125 | a condition whose code is under 2^32 bytes has no token whose 32-bit length truncates |
| ConditionRoundTrip.ParsedTextIsPrintable | sddl/condition.go:238-437 | the parser emits only trees the decompiler can spell: names, literals and keywords never clash |
| ConditionRoundTrip.ParseOfGroupedText | sddl/condition.go:219-332 | text printed from such a tree, in parentheses, parses to that tree |
| ConditionRoundTrip.LexOfGroupedText | sddl/condition.go:84-196 | and lexes to exactly the tree's tokens, whatever its literals hold |
| ConditionRoundTrip.ConditionReads | sddl/condition.go:84-196 | a tree's text lexes to its tokens before any delimiter |
| ConditionRoundTrip.ConditionParses | sddl/condition.go:238-332 | a tree's tokens parse to the tree wherever a closing parenthesis follows |
| ConditionRoundTrip.OperandParses | sddl/condition.go:354-437 | an operand's tokens, nested composites included, parse to it and leave what follows |
| ConditionLexer.LexCondition | sddl/condition.go:84-196 | one pass with an offset yields the tokens of the specification, or an error exactly when there is none |
| ConditionLexer.ScanAt | sddl/condition.go:86-191 | the token at an offset is that of the rest of the text |
| ConditionLexer.LexShapes | sddl/condition.go:70-81 | identifier tokens are identifiers, string tokens hold no quote, attribute tokens only attribute characters |
| ConditionParser.CompileConditionText | sddl/condition.go:219-234 | the bytes are the code of the tree the text denotes, and there is an error exactly when it denotes none |
| ConditionParser.CondParser.Or | sddl/condition.go:238-252 | disjunction: the cursor stops where the grammar stops and the code is that of the left-nested tree |
| ConditionParser.CondParser.And | sddl/condition.go:254-268 | conjunction binds tighter than disjunction, likewise |
| ConditionParser.CondParser.Unary | sddl/condition.go:270-280 | negation |
| ConditionParser.CondParser.Term | sddl/condition.go:282-332 | a group, a prefix operator or a relation |
| ConditionParser.CondParser.Operand | sddl/condition.go:354-393 | a literal, attribute or composite |
| ConditionParser.CondParser.Composite | sddl/condition.go:417-437 | the items up to the closing brace, a trailing comma allowed |
| Decompiler.DecodeOfEncoded | sddl/decompile.go:72-84 | an encoded condition, padding included, decodes to its tree's text and nothing else is on the stack |
| Decompiler.RunCondition | sddl/decompile.go:90-186 | running the machine over a tree's code before any bytes, on any stack, is running those bytes with exactly the tree's text pushed |
| Decompiler.RunOperand | sddl/decompile.go:101-129 | the same for an operand, nested composites included |
| Decompiler.RunItems | sddl/decompile.go:201-206 | the same for the items of a composite, one entry each |
| Decompiler.DecodeTokens | sddl/decompile.go:90-186 | the loop over the stack computes the machine's run, error for error |
| Decompiler.DecodeDataToken | sddl/decompile.go:189-218 | the text of one length-prefixed operand |
| Decompiler.Decompile | sddl/decompile.go:72-84 | the method computes DecodeCondition, errors included: a bad magic, a machine error, or a stack of other than one entry |
| ConditionNesting.ParsedTextIsBalanced | sddl/condition.go:282-332 | every accepted text has as many closing parentheses as opening ones |
| ConditionNesting.CutFails | sddl/condition.go:219-234 | rendered text in parentheses, cut before any closing parenthesis, in a literal or not, is no expression |
| ConditionNesting.ExtensionFails | sddl/condition.go:219-234 | with a further closing parenthesis after it, it is none either |
| ConditionGrammar.ParserIsGrammar | sddl/condition.go:205-437 | an expression means a tree if and only if its tokens spell a phrase of that meaning in which a disjunction binds least, a conjunction more, a negation and a group most, and both operators associate to the left; every other text is an error |
| ConditionGrammar.PhraseIsParsed | sddl/condition.go:205-437 | every such phrase is parsed to what it means |
| ConditionGrammar.ParsedIsPhrase | sddl/condition.go:205-437 | whatever is parsed is such a phrase |
| ConditionGrammar.AtomIsSaid | sddl/condition.go:354-413 | a token by itself is the literal of its kind or the attribute of its class, and any other class, or an empty name, is an error |
| ConditionPrecedence.ParseOfBareText | sddl/condition.go:238-268 | a tree written with parentheses only where precedence demands them parses to that tree |
| ConditionPrecedence.ChainsAreAnds | sddl/condition.go:238-268 | in a mixed chain without parentheses, in either order, conjunction binds tighter than disjunction |
| ConditionLexemes.LexerIsCut | sddl/condition.go:84-196 | a text lexes to tokens if and only if it can be cut into white space and the words of those tokens, each as long as it can be |
| Postfix.DecompilerIsGrammar | sddl/decompile.go:72-218 | bytes decompile to a text if and only if they are the prefix, the postfix code of one term of that text, and padding, whoever wrote them; every token is spelled as its number |
| Postfix.RunIsTerms | sddl/decompile.go:90-186 | however far the machine has come, what it has run is the code of terms, and its stack is their texts in order |
| Postfix.CodeIsCanonical | sd/condition.go:78-174 | compiling a tree writes the code of a term with the tree's text, integers in decimal with their sign byte, composites closed |
| Conditions.Encode | sd/condition.go:179-185 | the magic, the code, and zeros to a 4-byte boundary |
| Utf16.DecodeOfEncode | sd/condition.go:188-195 | every text survives UTF-16, surrogate pairs included |
| Utf16.EncodeUtf16le | sd/condition.go:188-195 | the loop appends each unit low byte first |
| Utf16.DecodeUtf16le | sddl/decompile.go:221-227 | the array filled in place holds the units of the bytes, and the text is theirs |
| Unicode.DecodeIsPieces | sddl/decompile.go:221-227 | units decode to a text if and only if they are scalars and surrogates without their other half, each of which reads as U+FFFD |
| Unicode.ValidIsUtf8 | registry/value.go:264-288 | bytes are well-formed UTF-8 if and only if they are those of some text |
| Numerals.ParseIntOfFormat | sddl/decompile.go:107-113 | a rendered 64-bit integer is read back as itself: base detection never mistakes its first digit for a prefix |
| Numerals.HexRoundTrip | sddl/decompile.go:193-194 | hex digits give the bytes back |
| SddlVocabulary.OctetsAreHex | sddl/condition.go:367-373 | hex digits in either case, two to a byte, are exactly those bytes, and anything else is an error |
| SddlVocabulary.ValueIsSum | sddl/condition.go:357-363 | a run of digits in either case denotes their sum by places |
| SddlVocabulary.IntegerIsNumeral | sddl/condition.go:357-363 | an integer token is an integer if and only if it is a sign or none, a prefix or none, and digits of the base the prefix stands for, and 64 bits hold it |
| SddlVocabulary.HexadecimalInteger | sddl/condition.go:357-363 | 0x, in either case, and the hex digits of a number read as that number |
| Sid.ParseOfEncoded | wire/sid.go:44-61 | parsing a SID's encoding, whatever follows it, gives the same 68 bytes, zero tail included |
| Sid.ParseSID | wire/sid.go:44-61 | what is parsed is valid and its encoding is the front of the buffer |
| Sid.ParsedIsFront | wire/sid.go:44-61 | any bytes parse to a SID if and only if its encoding is their front |
| SidVocabulary.SidIsLaidOut | wire/sid.go:37-39 | a SID is its revision, the count, six bytes of authority high byte first, words of sub-authority low byte first, and zeros |
| Sid.MakeOfComponents | wire/sid.go:66-85 | a SID is determined by its authority and sub-authorities |
| Sid.NewSID | wire/sid.go:66-85 | the array written byte by byte is the SID of the components; more than 15 are an error |
| SidVocabulary.MadeOf | wire/sid.go:66-85 | the SID made of an authority and sub-authorities has them, but for what is above 48 bits |
| Sid.Child | wire/sid.go:124-140 | the same authority, one more sub-authority; an error exactly for an invalid or full SID |
| Sid.DenotedOfPrinted | wire/sid.go:92-118 | every valid SID is the one its text denotes, hex authorities included |
| Sid.SIDFromString | wire/sid.go:92-118 | the loop over components computes what the text denotes |
| SidVocabulary.DenotedIsSpelled | wire/sid.go:92-118 | a text denotes a SID if and only if it is S-1, its authority in decimal or in hex behind 0x, and its sub-authorities in decimal, with dashes between |
| Sid.ToText | wire/sid.go:159-187 | the accumulated text is the SID's printed form |
| SidVocabulary.PrintedIsCanonical | wire/sid.go:159-187 | a SID prints as S-1, its authority in decimal below 2^32 and in lower-case hex from there, and its sub-authorities in decimal, without leading zeros |
| Aliases.ParseOfFormat | sddl/tables.go:147-172 | in any resolution context and for any alias table, a valid SID is read back from the text it is rendered as |
| Aliases.AliasResolves | sddl/tables.go:124-186 | an alias chosen for a SID resolves to that SID |
| Aliases.AbsoluteAlias | sddl/tables.go:452-460 | an alias is found for every SID fixed in the table, and it is one of its aliases |
| SidVocabulary.FirstAlias | sddl/tables.go:452-460 | and no other of its aliases comes before it in the alphabet |
| SidVocabulary.AliasIsRow | sddl/tables.go:124-145 | a name resolves to a SID if and only if its row is fixed to that SID, or the SID is the row's RID under the domain or machine given |
| SidVocabulary.AliasIsChosen | sddl/tables.go:157-186 | a SID is shown as an alias exactly when some row stands for it: a fixed one if there is one, else one of the domain, else one of the machine, and as its S-1 text otherwise |
| Aliases.FormatIsSidText | sddl/tables.go:157-172 | a rendered SID holds no delimiter of the text around it |
| Events.ParseOfEncoded | wire/event.go:74-103 | an emitted record is parsed field for field, whatever follows it in the buffer |
| Events.EncodedOfParse | wire/event.go:74-103 | nothing but an emitted record is accepted |
| Events.FieldsOfEncoded | wire/event.go:74-103 | each header scalar lies at its offset |
| Producer.StepKeepsInv | event/ring.go:222-238 | no step of the producer disturbs a byte a consumer may still rely on, and time only moves the log and the tail forward |
| Producer.RunKeepsInv | event/ring.go:222-238 | the same over any run, with at most one eviction a step |
| Producer.EmitPublishes | event/ring.go:213-220 | an idle producer with room can publish any later event that fits |
| Producer.PublishedByte | event/ring.go:229-238 | a byte between the tail and the write position is the log's |
| Mapping.LoadBytes | event/ring.go:229-238 | bytes loaded one at a time are the stream's if the tail has not passed them at the end, whatever happened in between |
| Mapping.LoadField | event/ring.go:229-238 | the same for a field of an event, across the double mapping |
| Ring.MaskIsModulo | event/ring.go:210-233 | masking with capacity - 1 is reduction modulo a power-of-two capacity |
| Ring.ParseShared | event/ring.go:229-238 | an event parsed from memory that is being overwritten is the logged event if the tail has not passed it at the end |
| Ring.Attach | event/ring.go:119-142 | a mapping starts at the oldest surviving event with an empty history |
| Ring.Consumer.TryEvent | event/ring.go:222-247 | one pass: the event at the cursor with the header and extents of the logged one, or a retry that is paid for by a tail advance; the parse-error exit is never taken |
| Ring.Consumer.Account | event/ring.go:249-256 | the event's sequence is taken over and the gap before it is counted as lost |
| Ring.Consumer.Next | event/ring.go:203-258 | in every interleaving the cursor stays an event boundary not above the write position; an event is yielded from at or after where the last one ended; no event means everything published was read; the loop runs at most twice for each tail advance and twice more |
| Ring.Consumer.History | event/ring.go:249-256 | over any run sequence numbers strictly increase, yielded plus lost events span first to last, and a cursor never lapped has yielded the log without a gap |
| Ring.Consumer.ReadRun | event/ring.go:203-258 | a run of calls yields views of logged events in order, all of them if the tail never passed the start |
| Ring.Consumer.CopyOut | event/ring.go:263-276 | the copy of a yielded event is what the loads of its fields find, and the event if the tail has not passed it when the copy ends, whatever the producer did meanwhile |
| Ring.CopyTakesAnother | event/ring.go:263-276 | if it has, the copy may be of another event: a run of the producer between the yield and the copy |
| Ring.ResizeOvertakesEvent | event/ring.go:213-220 | a publish between two loads makes a resize be reported with an event unread |
| Wait.AsleepOnData | event/ring.go:301-314 | a sleeping consumer with an idle producer has something to read if and only if an event was published after the position check with its bump before the counter sample, or the counter has come all the way round |
| Wait.PublishEndsSleep | event/ring.go:301-314 | any event whose handling is not over yet ends the sleep |
| Wait.SleepsOnUnreadEvent | event/ring.go:306-311 | the open case does occur, seven actions after any quiet call |
| Wait.NoSleepOnKnownData | event/ring.go:301-309 | with something published before the position check the call never sleeps |
| Policy.PolicySegments | event/policy.go:167-178 | the segments of an event type, or None when one of them is malformed |
| Policy.SegmentsJoin | event/policy.go:167-178 | an event type is its segments joined by dots, so different types name different keys |
| Policy.SettingOf | event/policy.go:182-194 | exactly a REG_DWORD of 0 is off and of 1 is on |
| Policy.DeepestWins | event/policy.go:209-225 | a walk finds the setting of some key on it and no deeper key on it has one |
| Policy.ResolveSame | event/policy.go:209-225 | a walk sees only what lies below where it starts |
| Registry.StepKeepsInv | event/policy.go:306-308 | every commit, overflow and tick of other programs keeps the registry's invariant |
| Registry.NodeUnchanged | registry/watch.go:91-100 | a change whose path does not pass through a key is invisible below it |
| Registry.PlaceUnchanged | registry/watch.go:91-100 | and leaves it where it is |
| Registry.RunKeepsWatching | registry/watch.go:91-100 | over any run a subtree watch stays good, and an empty queue proves that nothing below the key changed |
| Registry.RunKeepsWaiting | registry/watch.go:91-100 | the same for a watch on the children of an ancestor |
| Registry.CommitKeepsPlace | registry/watch.go:91-100 | after a commit the watched key is where it was or its deletion is queued |
| Registry.EditAges | registry/watch.go:91-100 | a commit leaves every key where it is or deletes it for good |
| Registry.Kernel.Open | event/policy.go:322-361 | opening by path: missing, denied, or a handle on the key the path names at that moment |
| Registry.Kernel.Arm | event/policy.go:306-308 | arming starts an empty queue, and fails exactly on a deleted key |
| Registry.Kernel.Read | event/policy.go:365-394 | a non-blocking read returns the bytes of at least one whole record when any waits |
| PolicyCache.Enabled | event/policy.go:291-297 | the setting of an open key, as the tree has it |
| PolicyCache.Child | event/policy.go:283-289 | the child exactly when it exists and can be opened |
| PolicyCache.Walk | event/policy.go:209-225 | whatever is committed between any two of its reads, a walk finds what the reads saw, each the tree of its own moment during the call; under a watch whose queue is still empty that is what the tree says; and it holds no handle afterwards |
| PolicyCache.VisitsInCalm | event/policy.go:209-225 | reads made at different moments find what one tree says if nothing below the root was committed, or the watch has nothing to tell |
| PolicyCache.Drain | event/policy.go:365-394 | after a drain that did not lose the watch its queue is empty, and if nothing was read nothing has happened since the start |
| PolicyCache.TakenRecords | event/policy.go:248-273 | records read off the queue report the deletion of the watched key or leave it queued |
| PolicyView.SoundLater | event/policy.go:365-425 | the coherence theorem: any commits at all keep every cached setting equal to a fresh walk or leave an unread record, and root nil an empty cache, root and ancestor never both held, the cache within its bound |
| PolicyView.EventPolicy.Look | event/policy.go:327-358 | two looks at Events are enough: what is held afterwards is sound, Events if it can be opened and otherwise, unless it exists, the nearest ancestor; and there was a moment during the look at which Events was the root held, or could not be opened if none is |
| PolicyView.EventPolicy.TryArm | event/policy.go:343-354 | an attempt on one ancestor succeeds if its key could be opened and outlives the attempt; with no commit, exactly if it can be opened |
| PolicyView.EventPolicy.WatchAncestor | event/policy.go:343-354 | with no commit meanwhile Generic is armed if it can be opened, otherwise Machine if that can, otherwise nothing; with any commits Generic is armed if it could be opened at the start and was not deleted; and the watch is blind exactly if it is on Machine while Generic exists |
| PolicyView.EventPolicy.TakeRoot | event/policy.go:331-339 | Events becomes the root, watched unless it was deleted before it could be armed |
| PolicyView.EventPolicy.Establish | event/policy.go:322-361 | afterwards the state is sound and current and the cache empty; with no commit meanwhile Events is held and watched if it can be opened, nothing is if it exists but cannot, and otherwise the nearest ancestor that can be opened is watched; with any commits an ancestor watched is Generic if that could be opened and was not deleted |
| PolicyView.EventPolicy.DrainWatched | event/policy.go:365-394 | a drain that found nothing leaves the state sound and current, and whether an ancestor watch is blind is exact |
| PolicyView.EventPolicy.Refresh | event/policy.go:397-410 | with no commit during the call, a policy that was watching and not blind, or whose second had run out, watches Events afterwards or knows that it cannot be opened; whether an ancestor watch is blind is exact; unwatched, the clock read is less than a TTL after the sample, and it has looked again unless nothing was watched before and the second had not run out |
| PolicyView.EventPolicy.RefreshUnwatched | event/policy.go:397-403 | with nothing watched the registry is looked at again once the second has run out, whatever is committed, and left alone before |
| PolicyView.EventPolicy.Setting | event/policy.go:412-425 | a cached answer is given without a call; otherwise the answer is what reads made during the call found below the root, with no commit what the tree says; a watched, current policy answers in step with the tree |
| PolicyView.EventPolicy.Remember | event/policy.go:416-424 | the cache takes one more answer with the reads behind it, loses others only all at once, and never exceeds its bound |
| PolicyView.EventPolicy.Enabled | event/policy.go:127-142 | the answer is true for an essential tier, else on or off as a setting s says, and with s unset true for the standard tier alone, so too without a registry; with no commit during the call s is that of a fresh walk if the policy was or is watching and not blind, or its second had run out; watching, with any commits, s is that of a fresh walk at one moment of the call or what reads made from then on found below Events; with nothing watched, s is what reads made since a clock sample found below the root, less than a TTL before a clock reading during the call, and the root is what Events was at a moment of the look before that sample; essential events cost no call |
| PolicyView.LookMayBeOld | event/policy.go:358-361 | that look may lie more than a TTL before the sample |
| PolicyView.EventPolicy.Close | event/policy.go:116-122 | nothing is held afterwards |
| PolicyView.EventPolicy.Teardown | event/policy.go:310-319 | every handle is released, the cache emptied, the tree untouched |
| PolicyView.OpenPolicy | event/policy.go:108-112 | a new policy is sound and current |
| PolicyView.CreationNoticed | event/policy.go:343-354 | with nothing waiting and no Events, every run of other programs that lets Events be opened leaves a record if and only if Generic is watched or does not exist |
| PolicyView.CreationTold | event/policy.go:343-354 | a watch that is not blind has a record waiting once Events can be opened, whatever was committed |
| PolicyView.CreationUnseen | event/policy.go:343-354 | with only Machine watched although Generic exists, Events can be created without a record |
| Watch.ParseEvents | registry/watch.go:130-170 | the events of the whole records of a buffer, and whether it stopped before the end |
| Watch.ParseRecord | registry/watch.go:138-166 | one record's type, value name and path |
| Watch.ClassifyRecords | event/policy.go:248-273 | whether there was any record, and whether the watch is lost |
| Watch.ParsersAgree | registry/watch.go:130-170 | on any run of well-formed records one parser returns them all, and the other reports a change exactly when there is one and a loss exactly when one deletes the watched key |
| Watch.BothParsers | event/policy.go:248-273 | on any bytes a change is reported exactly when there is an event, and a loss whenever the other parser stops before the end; otherwise a loss is reported exactly when an event says the watched key is gone, if and only if there is a deletion both parsers see, or records of both cut forms, or of neither |
| Watch.DeletionsDiffer | registry/watch.go:144-166 | on any one record the parsers differ about the deletion of the watched key exactly for a path cut before its first component, and in the other direction for a name longer than the record |
| Watch.ShortPathDisagrees | registry/watch.go:150-165 | a record of the first kind |
| Watch.LongNameDisagrees | registry/watch.go:142-165 | a record of the second kind |
| Watch.ParseOfEncoded | registry/watch.go:138-166 | a well-formed record is parsed as itself |
| Watch.FrameOfEncoded | registry/watch.go:130-138 | a run of records is framed record by record |
| Values.RoundTrip | registry/value.go:166-232 | decoding an encoded value gives it back if and only if it is well-formed |
| Values.MultiSzRoundTrip | registry/value.go:254-288 | a string list survives if and only if every string is non-empty, NUL-free and UTF-8 |
| StoredValues.DecodeIsSaid | registry/value.go:196-303 | any bytes under any type decode to a value if and only if they say it: one NUL more or none, strings between NULs, words of the right width and byte order, UTF-8 throughout |
| StoredValues.StringsAreClosed | registry/value.go:247-261 | a stored string ends in one NUL, and a list in one more |
| Values.AppendMultiSz | registry/value.go:254-261 | the loop writes each string and its terminator, then the last one |
| Values.CollectMultiSz | registry/value.go:276-288 | the loop over the pieces computes the decoding, errors included |
| Values.SplitNul | registry/value.go:292-303 | one pass gives the pieces between NULs |
| Values.BatchOfEntries | registry/read.go:321-352 | a batch of encoded values read with its true count gives exactly those values, whatever follows it |
| StoredValues.BatchIsRead | registry/read.go:321-352 | on any buffer the batch is the entries in front, at most as many as counted, each with what its bytes say, and an error exactly if one of them says nothing |
| Values.ParseBatch | registry/read.go:321-352 | the loop with its bounds checks computes the batch |
| MessagePack.ReadIsGrammar | sd/auditcontext.go:245-402 | whatever a reader accepts is a value of the grammar spelled exactly so |
| MessagePack.GrammarIsRead | sd/auditcontext.go:245-402 | every value of the grammar is read back, whatever follows it |
| MessagePack.Unambiguous | sd/auditcontext.go:245-402 | no value's spelling is the beginning of another's |
| MessagePack.SkipIsRead | sd/auditcontext.go:405-419 | passing over values flat, counting those still due, is reading them as trees |
| MessagePack.NestedIsRead | sd/auditcontext.go:424-445 | passing over them with a depth limit is reading the values within that depth |
| MessagePack.TooManyDue | sd/auditcontext.go:405-419 | more values due than bytes left cannot be met, so the early exit rejects nothing valid |
| MessagePack.Cursor.Take | sd/auditcontext.go:252-259 | the next bytes, or nothing moved |
| MessagePack.Cursor.BeInt | sd/auditcontext.go:261-274 | a big-endian length, refused beyond the int32 range |
| MessagePack.Cursor.Step | sd/auditcontext.go:322-402 | one tag and its data are passed over, and the number of children is right |
| MessagePack.Cursor.SkipValue | sd/auditcontext.go:405-419 | succeeds exactly when a grammar value starts here, and consumes exactly it |
| MessagePack.MpWellFormed | sd/auditcontext.go:424-445 | accepts exactly the buffers that are one value of the grammar, with UTF-8 strings, nested at most so deep |
| AuditContext.IsEventSegment | sd/auditcontext.go:158-171 | exactly the segments of the grammar |
| AuditContext.MapLen | sd/auditcontext.go:276-290 | succeeds exactly on a map header and moves over it |
| AuditContext.StrAt | sd/auditcontext.go:292-318 | succeeds exactly on a whole string and returns it |
| AuditContext.CheckBody | sd/auditcontext.go:490-505 | accepts exactly bodies of the right shape |
| AuditContext.AuditContextShape | sd/auditcontext.go:449-505 | accepts exactly the buffers some grammar value of the kernel's shape fills |
| AuditContext.ValidateAuditContext | sd/auditcontext.go:147-155 | both checks and the size limits together accept exactly one grammar value with the shape, within size and nesting |
| AuditContext.AcceptableHasBoth | sd/auditcontext.go:147-155 | the two checks speak of the same value |
| AuditEncoding.EncodeAuditContext | sd/auditcontext.go:81-138 | succeeds exactly when kind and keys are segments, keys distinct, strings UTF-8, the size fits, and no map key repeats; the bytes are then the context's |
| AuditEncoding.EncodedContextReads | sd/auditcontext.go:81-138 | whatever is encoded is acceptable to the kernel, and a reader recovers the kind and all fields in order |
| AuditEncoding.ContextReads | sd/auditcontext.go:100-129 | the value written says the kind and every field in order |
| AuditEncoding.WrittenShape | sd/auditcontext.go:105-137 | it has the kernel's shape if and only if the kind is not "kind" or there are no fields |
| AuditEncoding.ShortestContext | sd/auditcontext.go:81-138 | no value of the grammar from which a reader gets the same kind and fields takes fewer bytes than the encoder writes |
| AuditEncoding.OutputIsValue | sd/auditcontext.go:175-243 | the bytes are those of that value, three levels deep at most |
| AuditEncoding.OutputAcceptable | sd/auditcontext.go:130-137 | within the size, what was written is acceptable if and only if no map key repeats |
| AuditEncoding.CheckFields | sd/auditcontext.go:85-97 | the first loop accepts exactly distinct segment keys with UTF-8 strings |
| Aces.MarshalParses | sd/ace.go:257-331 | a marshalled ACE is read back as itself if and only if it is in the form a parse gives: nothing set that its type does not use |
| Aces.AceIsRead | sd/ace.go:275-331 | any bytes are read as an ACE if and only if it lies there: type, flags and size in front, and behind them the fields of its type |
| Aces.AppendObjectBody | sd/ace.go:163-180 | mask, presence word, the GUIDs present, SID |
| Aces.FlagsOfByte | sd/ace.go:72-83 | a flags byte says each flag |
| Aces.Marshal | sd/ace.go:257-271 | fails exactly for a raw body that makes it longer than 65535 bytes and for a type with no structured form; otherwise it starts with the type and says its own length |
| Descriptors.BuildAcl | sd/acl.go:28-57 | one pass gives the list's bytes, with the directory-services revision exactly when some ACE needs it |
| Descriptors.ParseEntries | sd/acl.go:60-80 | the loop takes exactly the counted ACEs off the front |
| Descriptors.AclBack | sd/acl.go:60-80 | a marshalled list of canonical ACEs is read back as itself, whatever follows it |
| Descriptors.AclIsRead | sd/acl.go:60-80 | any bytes are read as a list if and only if its counted ACEs lie one after another behind the header, inside the size it says |
| Descriptors.BuildDescriptor | sd/descriptor.go:68-107 | the buffer grown part by part and its header filled in afterwards are the descriptor's bytes |
| Descriptors.FillHeader | sd/descriptor.go:100-106 | the backfill writes the header and nothing else |
| Descriptors.DescriptorBack | sd/descriptor.go:110-163 | a marshalled descriptor of canonical ACEs is read back as itself with the self-relative and present bits added; no length or offset truncates |
| Descriptors.DescriptorIsRead | sd/descriptor.go:110-163 | any bytes are read as a descriptor if and only if it lies there: each part wherever the header's word points, in any order, apart or shared, and absent where the word is 0 or the bit is off |
| Descriptors.BitsOfWire | sd/descriptor.go:68-107 | the control word written says self-relative, and present for each list there is |
| Inheritance.ComputeInheritedAces | sd/inherit.go:13-55 | the loop gives the ACEs the parent passes on, in order |
| Inheritance.InheritedFrom | sd/inherit.go:13-55 | by positions: a file takes exactly the object-inherit ACEs, a container those for containers and, without no-propagate, those for objects, in order, nothing but their flags changed; on a file, or from no-propagate, all four inheritance flags are cleared, and INHERITED is always set |
| Inheritance.GenerationsSettle | sd/inherit.go:13-55 | for every DACL, container inheritance applied two or more times is applying it twice |
| Inheritance.FileUnderContainers | sd/inherit.go:13-55 | a file under any positive number of containers gets exactly the root's object-inherit ACEs without no-propagate, in order, inheritance flags cleared and INHERITED set |
| Inheritance.ContainerUnderContainers | sd/inherit.go:13-55 | a container two or more containers down gets exactly the inheritable ACEs without no-propagate, in order, INHERITED set, inherit-only exactly if they are for files alone |
| Inheritance.FilterInherited | sd/getset.go:180-188 | exactly the ACEs without INHERITED, in order |
| Inheritance.ExplicitFrom | sd/getset.go:180-188 | by positions: the ACEs without INHERITED, all of them, in order and unchanged |
| Inheritance.ReinheritBytes | sd/inherit.go:67-106 | parses both, filters, appends what the parent passes on, and marshals; every error is an error |
| Inheritance.ReinheritedParses | sd/inherit.go:67-106 | the result parses to the child's owner, group, SACL and kept control bits with the derived DACL |
| Inheritance.ReinheritControl | sd/inherit.go:81-104 | the DACL is NULL exactly if the child's was and nothing is passed on, an empty one staying empty; the control word is exactly self-relative, the lists present, and the child's protected and auto-inherited bits |
| Inheritance.ReinheritIdempotent | sd/inherit.go:67-106 | deriving again from the same parent changes not a byte |
| Inheritance.ReinheritKeepsExplicit | sd/inherit.go:67-106 | the child's explicit ACEs come first and unchanged; what follows is exactly what the parent passes on |
| Inheritance.PropagateIdempotent | sd/inherit.go:67-106 | a second top-down pass over a tree of any shape changes nothing |
| Inheritance.StripInheritedAces | sd/getset.go:155-177 | filters the selected lists and keeps the rest |
| Inheritance.StripParses | sd/getset.go:155-177 | the result parses to the same descriptor with the selected lists filtered and the others intact |
| Inheritance.StripIdempotent | sd/getset.go:155-177 | stripping twice is stripping once |
| Inheritance.StripOfReinherit | sd/getset.go:155-177 | stripping what Reinherit made never fails and leaves the child's explicit ACEs |
| Claims.EncodeClaim | sd/claims.go:87-147 | the two-pass layout with its backfills gives exactly header, offsets, name, slots and data; an error exactly for no values or mixed kinds |
| Claims.RoundTrip | sd/claims.go:87-147 | a reader following header, offsets and pointers recovers name, kind, flags and all values in order, for NUL-free text and sizes under 2^32 |
| Claims.ValuesBack | sd/claims.go:87-147 | the values behind an offset table are read back, wherever the three regions lie |
| Claims.LaySlots | sd/claims.go:104-130 | the first loop: a slot per value, and where each is |
| Claims.FillPointers | sd/claims.go:132-136 | the second loop: each indirect value's data goes to the end and its pointer into its own slot |
| Claims.FillOffsets | sd/claims.go:143-145 | the offset table, over the zeros left for it and nothing else |
| SddlDescriptors.ParseFormatParse | sddl/sddl.go:70-82 | Format succeeds on everything Parse accepts, and Parse of what it gives is the very descriptor when the text is readable and an error when it is not |
| SddlSize.ShortTextRoundTrip | sddl/sddl.go:70-82 | the same for every accepted text of under 2^28 characters |
| SddlDescriptors.QuietIsReadable | sddl/parse.go:224-248 | without a parenthesis in any string literal, a text is readable if and only if no hex number swallows a tag |
| SddlGrammar.TextIsGrammar | sddl/parse.go:23-248 | a text parses to a tree if and only if it is components in any order, none twice and no D: right behind a hex number, and the tree is what they say and nothing else; every other text is an error |
| SddlGrammar.TrimmedIsInner | sddl/sddl.go:70-73 | white space around a text means nothing |
| SddlGrammar.BodyIsFields | sddl/parse.go:253-361 | an ACE's body is the type, flags, mask, object type, inherited object type, trustee and condition its fields say, in that order |
| SddlGrammar.CutIsFields | sddl/parse.go:386-406 | the fields are the one cut of a body at every semicolon outside parentheses and nowhere else |
| SddlGrammar.AceCloses | sddl/parse.go:224-248 | an ACE ends where its parentheses match |
| SddlGrammar.WordsAreRead | sddl/parse.go:198-221 | flag words in any order raise what they name, and NO_ACCESS_CONTROL once only |
| SddlGrammar.SidTaken | sddl/parse.go:62-121 | a SID word, an alias or a literal of any numbers, is taken off the front whole |
| SddlDescriptors.BuildFormats | sddl/format.go:14-172 | the rendering of a parsed descriptor says what the parse saw: control bits, NULL or empty lists, ACEs, callback bodies |
| SddlRendering.DescriptorIsShown | sddl/format.go:14-84 | any descriptor has a text if and only if its present bits have their lists and each of its ACEs has a text, and then it is owner, group, DACL and SACL in that order, with P, AR and AI in that order; with none of them it is the NULL DACL |
| SddlRendering.AceIsShown | sddl/format.go:87-172 | any ACE has a text if and only if its type is supported, its flags have codes and, for a callback, its body holds a mask, the GUIDs its presence word announces, a SID and one condition; the text says exactly those |
| SddlDescriptors.HeaderBack | sddl/format.go:121-172 | a callback body gives back mask, GUIDs and SID, and the rest is the encoded condition |
| SddlControl.ControlBits | sddl/format.go:55-73 | the control word says exactly what the two sections said |
| SddlDescriptors.ConditionIsNested | sddl/parse.go:224-248 | without a parenthesis in its literals, a condition's text has matching parentheses only |
| SddlTheorems.TreeReadsBack | sddl/parse.go:23-58 | rendered text is read back as what it says if it is readable, and otherwise not at all |
| SddlTheorems.AclScans | sddl/parse.go:125-195 | a rendered section, flags and NULL or listed ACEs, is taken off the front exactly when its literals are safe |
| SddlTheorems.SwallowFails | sddl/parse.go:108-121 | after a bare hex number a D: section makes the whole text unreadable |
| SddlTheorems.PartsAreTrim | sddl/sddl.go:70-73 | rendered text has no white space at its ends |
| SddlRoundTrip.AceScans | sddl/parse.go:224-248 | a rendered ACE is taken off the front as itself if the scanner can take its condition text whole, and otherwise not at all |
| SddlRoundTrip.BodyParses | sddl/parse.go:253-381 | a rendered body is read back if and only if its condition splits into no further fields |
| SddlRoundTrip.CloseOfCondition | sddl/parse.go:224-248 | the closing parenthesis is found where it was written if and only if the condition text is level where the scanner counts |
| SddlRoundTrip.MiscutFails | sddl/parse.go:224-248 | a condition cut at any other parenthesis is no condition |
| SddlRoundTrip.ScannedPartsAreWritable | sddl/parse.go:253-381 | whatever is parsed can be written: supported types, known flags, valid SIDs, GUIDs only where they belong |
| SddlScanning.SidScans | sddl/parse.go:62-121 | a rendered SID is taken off the front of what follows it, unless a D: continues its hex number |
| SddlScanning.HexSwallows | sddl/parse.go:108-121 | then exactly one character too many is taken |
| SddlScanning.RunScans | sddl/parse.go:125-146 | the flags of a section are read back, whatever ends the run |
| SddlExceptions.HexOwnerLost | sddl/parse.go:108-121 | a family of accepted texts whose rendering is not accepted: a hex owner after D: |
| SddlExceptions.LiteralLost | sddl/parse.go:386-406 | an accepted text whose rendering is not accepted: a semicolon in a string literal |
| SddlTables.MaskBack | sddl/tables.go:251-311 | a mask is read back from its text |
| SddlTables.RightsUnite | sddl/tables.go:262-286 | a run of rights followed by more, or by a hex literal, names the union of what each part names |
| SddlVocabulary.MaskIsGrammar | sddl/tables.go:251-311 | a field is a mask if and only if it is a decimal number of 32 bits, or rights with a hex literal behind them or none, and then it is that number or the union of what they name |
| SddlVocabulary.NumeralMask | sddl/tables.go:258-263 | the decimal numeral of a number is that mask, and beyond 32 bits an error |
| SddlVocabulary.DecimalMask | sddl/tables.go:258-263 | the same for any decimal digits, leading zeros included |
| SddlVocabulary.UnionBits | sddl/tables.go:262-286 | a union has exactly the bits of either mask |
| SddlRendering.MaskInHex | sddl/tables.go:306-311 | a mask is written in lower-case hex without leading zeros |
| SddlVocabulary.StandardRights | sddl/tables.go:219-226 | each generic and standard right is its bit |
| SddlVocabulary.FileRights | sddl/tables.go:192-207 | each file right is the standard and file bits it stands for |
| SddlVocabulary.ServiceRights | sddl/tables.go:232-235 | the directory-service rights are the bits from the lowest, and the label policies the lowest three |
| SddlTables.ReadMask | sddl/tables.go:251-286 | the loop computes the mask, errors included |
| SddlTables.FlagsBack | sddl/tables.go:414-439 | ACE flags that have codes are read back from their text |
| SddlVocabulary.FlagsAreCodes | sddl/tables.go:414-428 | a field is flags if and only if it is a run of known codes, and a flag is set exactly if its code is in the run, in any order and however often |
| SddlRendering.CodesInOrder | sddl/tables.go:431-439 | flags are written as the codes of those set, each once, in the order of the table |
| SddlVocabulary.CodesNameFlags | sddl/tables.go:395-406 | each code is its bit of the flags byte |
| SddlTables.ReadFlags | sddl/tables.go:414-428 | an odd length or an unknown code is an error; otherwise the union of the flags named |
| SddlTables.WriteFlags | sddl/tables.go:431-439 | the loop writes the codes of the flags set, in the table's order |
| SddlTables.TagOfType | sddl/tables.go:328-348 | the tag of a type names that type |
| SddlTables.GuidTextBack | sddl/guid.go:12-40 | a GUID is read back from its text, mixed byte order and all |
| SddlVocabulary.GuidIsRead | sddl/guid.go:12-28 | a text is a GUID if and only if it is groups of 8, 4, 4, 4 and 12 hex digits in either case, the first three fields high byte first |
| SddlVocabulary.GuidFields | sddl/guid.go:31-40 | the text shows the first three fields as numbers and the other bytes in order |
| SddlTables.ReadGuid | sddl/guid.go:12-28 | the array filled in place is the GUID of the text |
| SddlParser.ParseDescriptor | sddl/sddl.go:70-73 | the recogniser computes the parse of the specification |
| SddlParser.Parser.ParseParts | sddl/parse.go:23-58 | the components, each at most once and in any order, accumulated into the descriptor |
| SddlParser.Parser.ParseSid | sddl/parse.go:62-83 | a SID token and where the cursor ends |
| SddlParser.Parser.ScanRawSid | sddl/parse.go:88-104 | an S-1-... literal, structurally |
| SddlParser.Parser.ScanNumber | sddl/parse.go:108-121 | a decimal run, or a hex run after 0x |
| SddlParser.Parser.ParseAcl | sddl/parse.go:125-195 | a section's flags, list and control bits, with NO_ACCESS_CONTROL excluding ACEs |
| SddlParser.Parser.ParseOneAce | sddl/parse.go:224-248 | one parenthesised ACE |
| SddlParser.ParseAclFlags | sddl/parse.go:198-221 | the flag run, with NO_ACCESS_CONTROL at most once |
| SddlParser.ParseAceBody | sddl/parse.go:253-273 | six fields, or seven for callback types; unknown and unsupported types are errors |
| SddlParser.ParseStructuredAce | sddl/parse.go:277-310 | the ACE of six fields |
| SddlParser.ParseCallbackAce | sddl/parse.go:315-361 | the raw body assembled from the compiled condition |
| SddlParser.SplitFields | sddl/parse.go:386-406 | the fields outside parentheses |
| SddlFormatter.FormatDescriptor | sddl/format.go:14-39 | the builder holds the rendering of the specification, and errors are errors |
| SddlFormatter.WriteSection | sddl/format.go:43-52 | a section appended; a NULL list is left out unless it carries flags |
| SddlFormatter.WriteAclFlags | sddl/format.go:55-73 | P, AR and AI in that order |
| SddlFormatter.WriteAces | sddl/format.go:75-84 | each ACE appended in order |
| SddlFormatter.FormatCallbackAce | sddl/format.go:121-172 | the offset advances over mask, header, GUIDs and SID to the condition |

## Left out

- The kernel: system calls, ioctls, mmap, file descriptors, interrupted calls, and what access checks, layer resolution and condition evaluation mean (`internal/sys`, `registry/syscalls.go`, `token`, `files`, `event/emit.go`, `sd/caap.go`, `sd/accesscheck.go`, GetSD and SetSD). The producer, the registry and the futex appear as state machines.
- `registry/transaction.go`, `registry/layers`, `registry/write.go`, `registry/create.go`, `cmd/libp-vet`, `errno`, the String methods other than a SID's, error wording and error offsets.
- The uapi package is not part of this model. Its constants are those of MS-DTYP where the formats follow it, those the tests fix (event header base 77, watch header 8, context limit 4096, emit depth 32), and otherwise named constants (KEY_DELETED is 6, claim type codes as in section 2.4.10.1 of MS-DTYP).
- The alias table of `sddl/tables.go:51-116` is a parameter: results hold for every table of distinct two-letter names with valid fixed SIDs. The table's order stands for Go's unspecified map order.
- Sequential consistency is assumed, positions and sequence numbers do not wrap, and sequence numbers start at 1 or above.
- Text is a sequence of scalar values, as ranging over a Go string gives; a byte that is not UTF-8 is U+FFFD. `strconv.ParseInt` with base 0 is modelled on text without underscores, which no integer token holds.
- Ring.Consumer.Next: the early length check of ParseEvent and its parse-error exit do not appear, since an event that was not torn always parses; the loops of Read and ReadTimeout around Next and wait are not modelled.
- Wait.AsleepOnData: timeouts are one kind of wake-up, not measured time.
- Registry.Kernel.Open: a key's readability is a seal fixed when it is made, and transient failures other than a failed read are not modelled; key names compare exactly, without case folding.
- PolicyView.EventPolicy.Enabled: a closed policy decides by tier and is not dated.
- PolicyView.EventPolicy.Look: a policy left watching Machine although Generic exists stays so until Generic comes or goes; the model has no retry there because the source has none.
- Descriptors.DescriptorBack: for control words of 16 bits and ACEs in the form a parse gives; Aces.MarshalParses shows that other ACEs are not read back.
- Claims.RoundTrip: for text without NUL and encodings under 2^32 bytes, past which offsets truncate. EncodeClaimsArray is not modelled.
- AuditEncoding.EncodeAuditContext: a field's integer is within its Go type.
- SddlDescriptors.ParseFormatParse: for conditions whose operands fit their 32-bit lengths; SddlSize.ShortTextRoundTrip needs only a short input.
- The registry rights mnemonics the source leaves out are left out here too; resource-attribute and exotic system ACE types are recognised and rejected, as in the source.
