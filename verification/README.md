# Salvo, modelled

Salvo compiles one language to Rust and to Kotlin. This project models the parts of the compiler, of
its two runtimes and of its tools that carry an invariant, and proves what they are for. `dafny verify
dfyconfig.toml` checks everything.

| area | modules | what is proved |
|---|---|---|
| Copy plans | `SalvoTypes`, `Immutable`, `CopyValues`, `CopyPlans`, `CopySharing`, `CopySoundness`, `CopyTheorem`, `CopySafety`, `CopyRefusals`, `CopyFunctions`, `CopyEmission`, `CopyLate`, `CopySeed`, `CopyNamesakes`, `CopyMissing`, `CopyGenerics`, `CopyPlanner` | what `immutable` means over any type graph; what any copy shares, exactly; below which types a copy shares no mutable cell, the inputs where one does, which types are refused, which copy functions a compilation generates, and when a copy ends at all |
| The wire | `Utf8`, `Utf8Bytes`, `BigEndian`, `WireFormat`, `WireLayout`, `WireTheorems`, `WireFraming`, `WireRust`, `JvmInt`, `JvmBytes`, `WireKotlin`, `WireChars`, `WireAgreement`, `WireKotlinRuntime` | the encoding is the documented layout and the decoder accepts exactly the encodings; the encoding is prefix-free and canonical; two codecs of one format agree byte for byte, and where they do not, exactly |
| The compiled library's cache | `CacheKeys`, `StdlibCache`, `StdlibProgress`, `StdlibFiles` | no interleaving of builders, dying anywhere, shows half a library, and a builder that nothing goes wrong for can finish from any state; what is written is what is loaded |
| The language server | `LspModel`, `LspServer`, `LspStaleness`, `LspAddresses`, `PositionSpec`, `PositionUnits`, `Positions` | after every burst the client shows what the latest documents have, where they are open; positions and offsets are inverse |
| Data structures and names | `Growth`, `ByteBuffer`, `AbiKeys`, `AbiClosure`, `AbiGroups`, `AbiWritten`, `AbiNamespaces`, `FloatText`, `FloatSpelling`, `Power`, `Names`, `NameSpelling`, `TestRecovery`, `ReplyTokens`, `ReplyAccounts`, `ModuleNames`, `PageAnchors` | refinement, least closed sets, meaning kept, injectivity, conservation of tokens |

Code that works in place is modelled in place (the planner's stacks, both wire runtimes, the server, the
buffer, the worklist, every loop) and tied to a specification function; what the code promises is proved of
that function or state. The cache and the reply tokens are state machines over the steps of concurrent
callers. Everything the source takes from outside is a parameter: the file system and the analysis behind
the language server are functions of a `World`, a test process answers the lines it prints, a floating-point
multiplication is any function.

## Where a promise fails, and exactly when it holds

- **`immutable` and generic structs** (`Immutable`): `visiting` holds names without arguments, so a generic
  struct inside itself is cut: `Box<Box<Mut Str>>` is called immutable. What the answer means over every
  table is `ImmutableMeansUnexposed`; over regular recursion it is exact. A copy of such a box is the value itself
  (`NestedBoxAliases`); a `Box<Box<Int>>` is copied soundly all the same (`NestedIntCopiesSoundly`).
- **The seed of `visiting`** (`copyplan.rs:131`): it is the *written* name, so where that is also the key
  and the struct holds itself behind an immutable spine, the copy shares a mutable cell
  (`PlainKeyedNodeAliases`). `SeedHarmlessIsExact`, `SeedMatters` and, on values, `StructCopyIsSoundExactly` say when;
  a struct keyed by its module and a struct not below itself are never affected.
- **Structs written alike** (`copyplan.rs:102-104`): the structs being copied are searched by written name, so another
  module's struct of the same name, met inside the copy of one, is given the outer one's copy function, which shares
  what it does not know (`NamesakesAlias`; the generated Kotlin passes a `b.Node` to a function declared for an `a.Node`).
  The search is right exactly where the first struct written alike is the struct (`OuterIsItself`), as where no struct
  is written as another one below it is.
- **Copy functions that are not there** (`ir_emit/mod.rs:391-409`): a plan may call the copy function of a struct's `Mut`
  values, which is skipped when those have no plan (`MissingCopyFunction`). And modules are emitted one after another over
  one set of requests, a struct's copy function at the end of the struct's own module only: asked for by a module emitted
  later, it is never generated (`LateRequest`). What is generated is `GeneratedExactly`; a copy ends exactly where
  every function it arrives at is (`CopyEndsExactly`), as where the structs are the copying module's own (`OwnCopyEnds`).
- **A struct met again inside its own copy**: the repository's language and Kotlin backend documents say it is refused.
  The code answers a call of the struct's own copy function when the struct is not generic, and the model
  follows the code.
- **Lists of values that take no bytes**: a count may not exceed the bytes left, so a list of units decodes
  only when it is empty (`UnitListsDoNotRoundTrip`). Every other type round trips while its lengths fit their four bytes.
- **Optionals of optionals on the JVM**: a present optional holding an absent one is the absent one, so the
  two writers differ on exactly those values (`WritersAgreeExactly`).
- **`Char` on the two backends**: Rust takes any scalar value and Kotlin any UTF-16 unit, so a frame is read alike exactly
  where all its `Char`s are of both kinds, or some are not of the one and some not of the other
  (`ReadersAgreeExactly`); a value of Rust's with a wider `Char` is refused by Kotlin (`FramesCrossExactly`).
- **Cache keys**: texts with a NUL, and a compiler identity running into the first path, hash alike
  (`NulTextsCollide`, `IdentityRunsIntoPath`). Over NUL-free texts two entries are named alike exactly where identity
  and first path run together (`EntryNamesExactly`), which two compilers' can exactly where one identity begins with the
  other (`ConfusedExactly`); then a builder is answered with the other's library (`OtherCompilersLibrary`), else never.
- **Half entries** of the cache, which no `prepare` makes, are never repaired (`HalfEntriesStay`).
- **Reusing an analysis** (`lsp.rs:666-675`): the key is the source root and the buffers, so documents of one
  root in different projects, or under a manifest that does not parse, answer for each other
  (`SecondAnswerIsTheFirst`); reuse is right exactly where they belong to one project
  (`ReuseIsRightExactly`).
- **Document events that name no file** drop the kept analyses but publish nothing, so a disk that changes
  behind one is not shown (`StaysRightExactly`). And before the first document event nothing is published.
- **Line ends**: LSP 3.17 counts `\r\n` and `\r` as line ends too; the code, and the model, count `\n` only.
- **Growing past 2^30 bytes**: a buffer of power-of-two capacity never gets room; the loop does not end
  (`RoomIsExact`). `CanGrowExactly` is for every capacity.
- **Namespaces in the platform closure** (`abi.rs:81-86`): a struct is taken for a namespace member when its key begins
  with the other's and a dot, but a key ends with its module. So a project's own members are not brought
  (`OwnMemberIsMissed`), namesakes of the modules below are (`NamesakeIsBrought`), and under a plain key of std's another
  module's dotted names are (`ForeignMemberIsBrought`). `TestExactly` and `TestIsMembershipExactly` say when it is right.
- **Groups in platform signatures** (`abi.rs:155`): the arguments of a parenthesised group's qualifiers are
  not followed (`GroupArgumentIsMissed`, `MissedExactly`).
- **A test process that ends between two tests**: when it exits as if all were well, or one of its tests has
  failed, the tests after it are dropped without a word. Everything else is accounted for (`RunGroup`).
- **A reply handed to the host after its token was taken or exported** leaves an outside source open for
  good (`ExportedThenHosted`), as a reply to another node's token does.
- **Anchors**: a numbered anchor can meet a name with a dash in it (`DashedNamesCollide`), exactly where one base is
  another one numbered (`AnchorsMeetExactly`). Identifiers hold no dash, so no page of declarations has such names.

## Model

| member | source | states |
|---|---|---|
| `Immutable.ImmutableMeansUnexposed` | crates/salvo-core/src/copyplan.rs:150-208 | Over every table, `immutable` answers yes if and only if no walk through the type graph that meets each declaration at one expansion only reaches a mutable leaf: what the cut at a revisit gives up, exactly |
| `Immutable.ImmutableIsExact` | crates/salvo-core/src/copyplan.rs:150-208 | Where recursion is regular, so wherever no struct is generic, `immutable` answers yes if and only if no mutable leaf is reachable at all |
| `Immutable.ImmutableUpToStack` | crates/salvo-core/src/copyplan.rs:166-191 | With any stack of declarations being visited: yes if and only if every walk to a mutable leaf enters a declaration of the stack |
| `Immutable.NoWalkAroundTheStack` | crates/salvo-core/src/copyplan.rs:169-180 | Answering true at a revisit loses nothing: no walk to a mutable leaf that avoids the stack starts at a type called immutable |
| `Immutable.RefusalHasAWitness` | crates/salvo-core/src/copyplan.rs:150-208 | A refusal has a reason: a walk to a mutable leaf that enters nothing on the stack and nothing twice |
| `Immutable.GenericNestingIsMissed` | crates/salvo-core/src/copyplan.rs:178-180 | `Box<Box<Mut Str>>` is called immutable although a `Mut Str` is in it: a generic struct is cut at its own name |
| `CopySoundness.ImmutableHasNoCells` | crates/salvo-core/src/copyplan.rs:146-150 | What `immutable` promises of values: a value of a type it accepts holds no cell an operation can write, wherever what it calls immutable reaches no mutable leaf |
| `CopySharing.CopySharesExactly` | crates/salvo-backend-kotlin/src/ir_emit/mod.rs:2198-2250 | Over every table, plan and value: a run that ends gives an equal value, and the cells it has in common with the original are exactly those of the parts the plan leaves as they are |
| `CopySharing.ShapeKeepsType` | crates/salvo-backend-kotlin/src/ir_emit/mod.rs:2198-2250 | Equal but for identity means of the same types: a copy is a value of the type of the original |
| `CopyTheorem.NothingIsShared` | crates/salvo-core/src/copyplan.rs:57-113 | A plan made for a type that can be trusted, inside any copies already under way, leaves no cell of a value of the type to be shared |
| `CopyTheorem.StructPlanFields` | crates/salvo-core/src/copyplan.rs:121-137 | A struct's plan lists exactly the fields that do not copy as themselves, each with the plan of its own type |
| `CopyTheorem.OuterIsItself` | crates/salvo-core/src/copyplan.rs:102 | The plain-name search answers the struct itself if and only if the first struct being copied that is written like it is that struct |
| `CopyTheorem.RecurReady` | crates/salvo-core/src/copyplan.rs:102-104 | Where no struct being copied is written as another one inside it is, a struct met again inside its own copy is copied by its own copy function, whose plan is for the same values |
| `CopyRefusals.RefusedExactly` | crates/salvo-core/src/copyplan.rs:49-113 | A type has no plan if and only if a walk through what its copy copies (elements, map values, fields not left out), entering no struct twice, ends in a type that refuses: one that can be written, and is no builder, host-copied value, list, map or set of shared keys or array of shared elements, nor a struct, unless a generic one met again |
| `CopyRefusals.SetsAreCopied` | crates/salvo-core/src/copyplan.rs:82-91 | So every set whose members no operation can write has a plan |
| `CopyRefusals.CopiedAsItselfExactly` | crates/salvo-core/src/copyplan.rs:58-60 | Copied as themselves are exactly the types called immutable and the structs without fields |
| `CopyRefusals.TextFieldsExactly` | crates/salvo-core/src/copyplan.rs:127-134 | A `canbe Mut` text is copied as a builder in a `Mut` struct and left to be shared in a plain one |
| `CopyRefusals.TypesOfExactly` | crates/salvo-core/src/copyplan.rs:85 | The type arguments of a collection are its arguments in order, without the identities of functions and values |
| `CopyRefusals.FindOuterExactly` | crates/salvo-core/src/copyplan.rs:102 | A struct is taken for one being copied if and only if one is written like it |
| `CopySafety.CopyIsSound` | crates/salvo-core/src/copyplan.rs:49-55 | `copy` gives an equal value of the same type sharing no mutable cell with the original: no write to a cell of either shows in the other. For every type below which what is called immutable reaches no mutable leaf, no seed changes an answer, and no struct is written as another one below it is |
| `CopySafety.StructCopyIsSoundExactly` | crates/salvo-core/src/copyplan.rs:121-137 | The converse at a struct's own plan, its listed fields being such: the copy is sound if and only if the fields left out hold no cells, every cell of one being in the copy |
| `CopySafety.SeedHarmlessIsExact` | crates/salvo-core/src/copyplan.rs:131-133 | Seeding `visiting` with the struct's written name is safe at a struct if and only if every field its plan leaves out is free of reachable mutable leaves |
| `CopySafety.SeedMatters` | crates/salvo-core/src/copyplan.rs:131 | Over every table, the seed changes a field's answer if and only if walks expose mutable leaves of the field and every one of them enters a declaration keyed by the struct's written name |
| `CopySafety.UnreachedSeedIsHarmless` | crates/salvo-core/src/copyplan.rs:131 | A struct no field of which leads to a declaration keyed by its written name is safe from its seed, whatever the table |
| `CopySafety.AcyclicTypesCopySoundly` | crates/salvo-core/src/copyplan.rs:115-137 | A type below which no struct leads back to a declaration written like it, generic structs included: every copy of every value of it is sound, whatever else the table holds |
| `CopySafety.OwnStructsCopySoundly` | crates/salvo-core/src/copyplan.rs:97-104 | And self-recursion included: where recursion below the type is regular (`NonGenericIsRegular`: no struct below is generic), no struct below is written as another one below it is, and no field of a struct below leads to a declaration keyed by the struct's written name, every copy of every value is sound |
| `CopyFunctions.RunEndsExactly` | crates/salvo-backend-kotlin/src/ir_emit/mod.rs:2239-2247 | Whichever copy functions `fns` are there to be called: a plan made for a type that can be trusted runs to its end on a value of the type if and only if every one it arrives at is of them, with a plan |
| `CopyFunctions.CallsAreNeeded` | crates/salvo-backend-kotlin/src/ir_emit/mod.rs:2239-2247 | Whatever the value, a run arrives only at copy functions a chain of plans leads to, from the plan's own calls to those of the functions called |
| `CopyFunctions.RunSucceeds` | crates/salvo-backend-kotlin/src/ir_emit/mod.rs:2239-2247 | So a plan whose chains lead only to functions of `fns` with plans runs to its end on every value of its type |
| `CopyEmission.Emitter.Render` | crates/salvo-backend-kotlin/src/ir_emit/mod.rs:2198-2250 | Rendering a plan asks for exactly the copy functions it calls, beside those asked for before |
| `CopyEmission.Emitter.EmitDeclarations` | crates/salvo-backend-kotlin/src/ir_emit/mod.rs:112-118 | A module's declarations ask for what each of their copies calls |
| `CopyEmission.Emitter.EmitFunction` | crates/salvo-backend-kotlin/src/ir_emit/mod.rs:396-408 | A requested function is passed over unless it is the module's own and has a plan; else it is generated, and has asked for what it calls |
| `CopyEmission.Emitter.EmitFunctions` | crates/salvo-backend-kotlin/src/ir_emit/mod.rs:391-409 | The loop over the one growing set of requests ends, in whatever order it takes them, having generated the module's own functions asked for by then |
| `CopyEmission.Emitter.EmitModule` | crates/salvo-backend-kotlin/src/ir_emit/mod.rs:112-118 | After `n` modules the requests are those asked for by then, and each module's file holds the functions it generates |
| `CopyEmission.Emit` | crates/salvo-backend-kotlin/src/ir_emit/mod.rs:112-124 | Module by module over one set of requests: a module's file holds a copy function if and only if it is the module's own, has a plan, and was asked for by the end of the module |
| `CopyEmission.AskedExactly` | crates/salvo-backend-kotlin/src/ir_emit/mod.rs:2239-2241 | A function is asked for if and only if a copy in a module emitted by then calls it, or a function generated by then does |
| `CopyEmission.GeneratedExactly` | crates/salvo-backend-kotlin/src/ir_emit/mod.rs:391-409 | A struct's function is generated where its calls go if and only if it has a plan and is asked for no later than the end of the struct's own module |
| `CopyEmission.CopyEndsExactly` | crates/salvo-backend-kotlin/src/ir_emit/mod.rs:391-409 | In an emitted program, a plan made for a type that can be trusted runs to its end on a value of the type if and only if every copy function the run arrives at was generated |
| `CopyEmission.OrderedCopyEnds` | crates/salvo-backend-kotlin/src/ir_emit/mod.rs:112-118 | A copy ends on every value of its type where the homes of the functions it needs are emitted no earlier than its own module and than those of their callers, and these have plans |
| `CopyEmission.OwnCopyEnds` | crates/salvo-backend-kotlin/src/ir_emit/mod.rs:391-409 | So a copy ends wherever its module stands if the structs it needs functions of are its module's own, with plans |
| `CopyLate.LateRequest` | crates/salvo-backend-kotlin/src/ir_emit/mod.rs:391-409 | Module a declares `struct Node canbe Mut { buffer: Mut Str, kids: List<Mut Node> }` and copies none; module z, emitted after it, copies one: the function has a plan and is called, but nobody generates it, every condition of soundness holding |
| `CopyLate.EarlyRequest` | crates/salvo-backend-kotlin/src/ir_emit/mod.rs:391-409 | With z emitted first, every copy of a node ends |
| `CopyMissing.MissingCopyFunction` | crates/salvo-backend-kotlin/src/ir_emit/mod.rs:404 | `struct Team canbe Mut { names: Names canbe Mut, kids: List<Mut Team> }` with `type Names = List<Str>`: a plain team has a plan, which calls the copy function of `Mut Team`; that has no plan, so is skipped wherever it is asked for, and a copy of a team with a kid has nothing to call |
| `CopyNamesakes.NamesakesAlias` | crates/salvo-core/src/copyplan.rs:102-104 | Module a's `Node { buffer: Mut Str, other: List<b.Node> }` over module b's `Node { text: Mut Str }`: the inner node is taken for the outer, and the copy shares its text, every other condition of soundness holding |
| `CopyGenerics.NestedBoxAliases` | crates/salvo-core/src/copyplan.rs:58-60 | A copy of a `Box<Box<Mut Str>>` is the value itself, its text written through both |
| `CopyGenerics.NothingToWriteIsTame` | crates/salvo-core/src/copyplan.rs:146-150 | However its generics recur, a type that reaches no mutable leaf is copied soundly if no struct in it is written as another one below it is |
| `CopyGenerics.NestedIntCopiesSoundly` | crates/salvo-core/src/copyplan.rs:178-180 | So `Box<Box<Int>>`, which re-enters a generic struct at other arguments, is copied soundly |
| `CopySeed.NodePlan` | crates/salvo-core/src/copyplan.rs:115-137 | `struct Node { buffer: Mut Str, next: List<Node> }` keyed by its written name: the plan copies `buffer` and leaves `next` to be shared |
| `CopySeed.PlainKeyedNodeAliases` | crates/salvo-core/src/copyplan.rs:131 | So a copy of a two-node chain shares the second buffer with the original: the seed makes the copy unsound for a struct keyed by its written name |
| `CopySeed.ModuleKeyedNodeCopiesSoundly` | crates/salvo-core/src/copyplan.rs:131 | The same struct keyed by its module: every copy of every value is sound |
| `CopyPlanner.Planner.Immutable` | crates/salvo-core/src/copyplan.rs:150-208 | The recursion over a pushed and popped stack answers the specification and leaves the stack as it was |
| `CopyPlanner.Planner.FieldsImmutable` | crates/salvo-core/src/copyplan.rs:181-191 | The fields of a struct, asked one by one under the pushed name |
| `CopyPlanner.Planner.AllImmutable` | crates/salvo-core/src/copyplan.rs:163-195 | All of some types, left at the first mutable one |
| `CopyPlanner.Planner.ImmutableFrom` | crates/salvo-core/src/copyplan.rs:58 | A question with a stack of its own answers as the specification does from that stack |
| `CopyPlanner.Planner.Plan` | crates/salvo-core/src/copyplan.rs:57-113 | The planner over its own stack of structs answers the specification's plan, or refuses as `RefusedExactly` says, and leaves the stack as it was |
| `CopyPlanner.Planner.KeyedValue` | crates/salvo-core/src/copyplan.rs:78-91 | Where the branches before it are not taken, a keyed collection gets the specification's plan, a set of shared members always one, the stack of structs left as it was |
| `CopyPlanner.Planner.StructValue` | crates/salvo-core/src/copyplan.rs:92-109 | Where the branches before it are not taken, a struct gets the specification's plan, the stack of structs left as it was |
| `CopyPlanner.Planner.StructFields` | crates/salvo-core/src/copyplan.rs:115-137 | The field plans appended in order are those of the specification |
| `WireTheorems.DecodesExactlyEncodings` | crates/salvo-backend-rust/runtime/wire.rs:89-234 | The decoder exactly: it answers a value and leaves a rest if and only if its input is the value's encoding followed by the rest and every length in it can be read back |
| `WireTheorems.FrameRoundTrips` | crates/salvo-backend-rust/runtime/wire.rs:72-87 | A frame decodes to the value it was made from if and only if its lengths can be read back |
| `WireTheorems.FramesAreCanonical` | crates/salvo-backend-rust/runtime/wire.rs:79-87 | A frame that decodes is the encoding of what it decodes to: no two frames decode to one value |
| `WireLayout.LiesExactly` | crates/salvo-core/src/wire.rs:21-33 | The encoding of a value is the documented layout, stated with no encoder: numbers highest byte first in two's complement, text and lists behind a count of four bytes, an optional behind 0 or 1, an arm behind its index, components one behind the other; a value lies in those bytes and no others, and nowhere if a length has no four bytes |
| `WireFraming.RoundTripsWithContinuation` | crates/salvo-backend-rust/runtime/wire.rs:156-234 | Every value of a type without lists of empty elements, its lengths below 2^32, round trips with anything behind it |
| `WireFraming.UnitListsDoNotRoundTrip` | crates/salvo-backend-rust/runtime/wire.rs:54-60 | A list of units decodes if and only if it is empty: a count may not exceed the bytes that follow it |
| `WireFraming.EncodingsArePrefixFree` | crates/salvo-backend-rust/src/emit.rs:223-248 | Encodings of one type are prefix-free, lists of empty elements included: what a stream starts with settles the value and where it ends |
| `Utf8.DecodeEncode` | crates/salvo-backend-rust/runtime/wire.rs:156-166 | A string's bytes decode to the string |
| `Utf8.EncodeDecode` | crates/salvo-backend-rust/runtime/wire.rs:161-165 | Bytes that decode to a string are its encoding |
| `Utf8Bytes.DecodesExactly` | crates/salvo-backend-rust/runtime/wire.rs:156-166 | Bytes decode to a string if and only if they are characters of section 4 of RFC 3629, range by range, one behind the other, each standing for the sum of its six-bit groups |
| `Utf8Bytes.EncodesExactly` | crates/salvo-backend-rust/runtime/wire.rs:156-160 | And a string's bytes are exactly such characters for its scalars |
| `Utf8Bytes.EncodingsAreOrdered` | crates/salvo-backend-rust/runtime/wire.rs:156-160 | Byte by byte, the encodings of two strings stand in the order of the strings' scalars |
| `WireRust.Reader.Take` | crates/salvo-backend-rust/runtime/wire.rs:26-34 | The reader takes `n` bytes or refuses, and its position never passes the end |
| `WireRust.Reader.U8` | crates/salvo-backend-rust/runtime/wire.rs:36-38 | One byte, or a refusal at the end |
| `WireRust.Reader.Fixed` | crates/salvo-backend-rust/runtime/wire.rs:40-50 | Four or eight bytes as a big-endian number |
| `WireRust.Reader.Len` | crates/salvo-backend-rust/runtime/wire.rs:54-60 | A length prefix no longer than what is left |
| `WireRust.Reader.Done` | crates/salvo-backend-rust/runtime/wire.rs:62-64 | Whether everything was read |
| `WireRust.Dec` | crates/salvo-backend-rust/runtime/wire.rs:89-214 | One value read in place: the specification's answer, and the position left at its rest |
| `WireRust.DecOpt` | crates/salvo-backend-rust/runtime/wire.rs:207-213 | A presence byte of 0 or 1, then the value |
| `WireRust.DecUnion` | crates/salvo-backend-rust/src/emit.rs:236-246 | A tag byte that names an arm, then the arm |
| `WireRust.DecSeq` | crates/salvo-backend-rust/runtime/wire.rs:186-193 | The elements of a list or the fields of a tuple, pushed as they are read |
| `WireRust.Decode` | crates/salvo-backend-rust/runtime/wire.rs:79-87 | One frame is exactly one value: the specification's answer, trailing bytes refused |
| `WireRust.Enc` | crates/salvo-backend-rust/runtime/wire.rs:89-228 | Appends exactly the value's encoding to what was written |
| `WireRust.EncOpt` | crates/salvo-backend-rust/runtime/wire.rs:198-206 | Appends a presence byte, then the value if there is one |
| `WireRust.EncUnion` | crates/salvo-backend-rust/src/emit.rs:230-235 | Appends the arm's index, then the arm |
| `WireRust.EncSeq` | crates/salvo-backend-rust/runtime/wire.rs:180-185 | Appends the elements in order |
| `WireRust.Encode` | crates/salvo-backend-rust/runtime/wire.rs:72-77 | The frame is the value's encoding |
| `JvmBytes.WriteI32IsBe` | crates/salvo-backend-kotlin/runtime/wire.kt:28-34 | The bytes of a signed word shifted and masked out are the unsigned word's big-endian bytes |
| `JvmBytes.WriteI64IsBe` | crates/salvo-backend-kotlin/runtime/wire.kt:36-38 | The same for a double word written as two words |
| `JvmBytes.ReadI32IsFromBe` | crates/salvo-backend-kotlin/runtime/wire.kt:57-62 | Four bytes shifted left and or-ed together are the big-endian number, in two's complement |
| `JvmBytes.ReadI64IsFromBe` | crates/salvo-backend-kotlin/runtime/wire.kt:64 | A word shifted up and a masked word or-ed in are the big-endian double word |
| `WireChars.RustReads` | crates/salvo-backend-rust/runtime/wire.rs:89-214 | Rust reads a value if and only if every word read for a `Char` is a scalar value: over every type and input its decoder is the reading that takes any word, cut down to those |
| `WireChars.KotlinReads` | crates/salvo-backend-kotlin/runtime/wire.kt:112-259 | Kotlin reads one, on inputs below 2^31 bytes, if and only if every such word is one UTF-16 unit: the same reading cut down to those |
| `WireChars.ReadersAgreeExactly` | crates/salvo-backend-kotlin/runtime/wire.kt:47-76 | Over every type and every input below 2^31 bytes the two readers accept alike, with the same value and the same rest, if and only if what is read holds only words for `Char` that both take, or one that each refuses |
| `WireChars.FramesAgreeExactly` | crates/salvo-backend-kotlin/runtime/wire.kt:90-110 | Frames are accepted and valued alike on both backends under exactly that condition, asked of frames that leave no rest |
| `WireChars.ReadersAgree` | crates/salvo-backend-kotlin/runtime/wire.kt:47-76 | Over types without `Char`, so always |
| `WireChars.NullMeans` | crates/salvo-backend-kotlin/runtime/wire.kt:90-100 | `salvoDecode` answers `null` for a refused frame and for one that decodes to `null`, and for no other |
| `WireChars.CharsAgreeExactly` | crates/salvo-backend-kotlin/runtime/wire.kt:146-154 | The two `Char` codecs agree on four bytes if and only if they are no surrogate and no code point past one UTF-16 unit |
| `WireAgreement.ToKHasForm` | crates/salvo-backend-kotlin/runtime/wire.kt:146-154 | The JVM holds exactly the values whose `Char`s are one UTF-16 unit each, of the lengths an array can have |
| `WireAgreement.WritersAgreeExactly` | crates/salvo-backend-kotlin/runtime/wire.kt:223-235 | The two writers produce the same bytes for such a value if and only if it holds no present optional that is `null` on the JVM |
| `WireAgreement.NoNestingNoPresentNull` | crates/salvo-backend-kotlin/runtime/wire.kt:223-235 | Which no value does whose type has no optional directly in an optional |
| `WireAgreement.FramesCrossExactly` | crates/salvo-backend-kotlin/runtime/wire.kt:102-110 | Rust's frame of a value is read on the JVM, as that value, if and only if each `Char` of it is one UTF-16 unit; else it is refused |
| `WireAgreement.ValuesCross` | crates/salvo-backend-kotlin/runtime/wire.kt:83-110 | A value both backends hold, written by either, is read by the other as the same value |
| `WireKotlinRuntime.WireIn.U8` | crates/salvo-backend-kotlin/runtime/wire.kt:57-60 | One byte, or an error at the end |
| `WireKotlinRuntime.WireIn.I32` | crates/salvo-backend-kotlin/runtime/wire.kt:62 | A signed word: the specification's, and the position four bytes on |
| `WireKotlinRuntime.WireIn.I64` | crates/salvo-backend-kotlin/runtime/wire.kt:64 | A signed double word from two words |
| `WireKotlinRuntime.WireIn.Len` | crates/salvo-backend-kotlin/runtime/wire.kt:67-71 | A length, refused when negative or past the end |
| `WireKotlinRuntime.WireIn.Raw` | crates/salvo-backend-kotlin/runtime/wire.kt:50-55 | The next bytes, as many as asked, or an error exactly where there are not so many |
| `WireKotlinRuntime.DecScalar` | crates/salvo-backend-kotlin/runtime/wire.kt:112-188 | The scalar and string codecs read in place what the specification answers |
| `WireKotlinRuntime.Dec` | crates/salvo-backend-kotlin/runtime/wire.kt:190-259 | A composed codec reads in place what the specification answers |
| `WireKotlinRuntime.DecSeq` | crates/salvo-backend-kotlin/runtime/wire.kt:201-206 | The list loop and the fields of a composed value |
| `WireKotlinRuntime.SalvoDecodeChecked` | crates/salvo-backend-kotlin/runtime/wire.kt:102-110 | Whether a frame decoded, told apart from a decoded `null` |
| `WireKotlinRuntime.WireOut.U8` | crates/salvo-backend-kotlin/runtime/wire.kt:28-30 | Appends the low eight bits |
| `WireKotlinRuntime.WireOut.I32` | crates/salvo-backend-kotlin/runtime/wire.kt:32-34 | Appends a word's four big-endian bytes |
| `WireKotlinRuntime.WireOut.I64` | crates/salvo-backend-kotlin/runtime/wire.kt:36-38 | Appends a double word's eight big-endian bytes |
| `WireKotlinRuntime.WireOut.Raw` | crates/salvo-backend-kotlin/runtime/wire.kt:40-42 | Appends bytes as they are |
| `WireKotlinRuntime.EncScalar` | crates/salvo-backend-kotlin/runtime/wire.kt:112-154 | Appends a scalar's specified bytes |
| `WireKotlinRuntime.Enc` | crates/salvo-backend-kotlin/runtime/wire.kt:190-259 | Appends a composed value's specified bytes |
| `WireKotlinRuntime.EncSeq` | crates/salvo-backend-kotlin/runtime/wire.kt:197-200 | Appends the elements in order |
| `WireKotlinRuntime.SalvoEncodeK` | crates/salvo-backend-kotlin/runtime/wire.kt:83-88 | The frame is the specified encoding |
| `CacheKeys.KeyTextIsInjective` | crates/salvo-backend-kotlin/src/stdlib.rs:104-116 | Over texts without NUL, what the files feed to the hash determines the files |
| `CacheKeys.EntryNamesExactly` | crates/salvo-backend-kotlin/src/stdlib.rs:104-116 | For all compilers and files without NUL, two entries are hashed from one text if and only if the compiler's identity and first path run together alike and all else is the same |
| `CacheKeys.EntryNameIsInjective` | crates/salvo-backend-kotlin/src/stdlib.rs:104-116 | So for one compiler the text hashed for an entry determines the files |
| `CacheKeys.ConfusedExactly` | crates/salvo-backend-kotlin/src/stdlib.rs:104-106 | Two compilers have files hashed from one text if and only if one's identity begins with the other's |
| `CacheKeys.NulTextsCollide` | crates/salvo-backend-kotlin/src/stdlib.rs:110-113 | With a NUL in a text two different file lists hash the same text |
| `CacheKeys.IdentityRunsIntoPath` | crates/salvo-backend-kotlin/src/stdlib.rs:98-106 | As a compiler stamped 1 and one stamped 12 do |
| `StdlibCache.StepKeepsInv` | crates/salvo-backend-kotlin/src/stdlib.rs:122-175 | Every step of any builder keeps the invariant: staging directories are private, and a new entry is whole |
| `StdlibCache.RunsAreSafe` | crates/salvo-backend-kotlin/src/stdlib.rs:118-175 | In every interleaving of any number of `prepare` calls, each with a compiler of its own, over a root holding entries of any compilers, dying at any step: an entry holding `done` holds all its sources and one compiler's classes of exactly them, and Ok is answered only for such an entry of the caller's own compiler and files, or of those its name cannot tell from them |
| `StdlibCache.OkStands` | crates/salvo-backend-kotlin/src/stdlib.rs:118-175 | The library an Ok stood for is there, unchanged, in every later state; and it is the caller's own compiler's, of the caller's own files, where no compiler's identity begins with another's |
| `StdlibCache.DoneIsReused` | crates/salvo-backend-kotlin/src/stdlib.rs:122-126 | A builder that finds its entry done answers at once and builds nothing |
| `StdlibCache.InstalledIsMoved` | crates/salvo-backend-kotlin/src/stdlib.rs:164-174 | One that answers Ok otherwise has installed its own staging directory, which is no longer staged |
| `StdlibCache.OtherCompilersLibrary` | crates/salvo-backend-kotlin/src/stdlib.rs:118-126 | Where one does, a run answers Ok for another compiler's library of another file |
| `StdlibCache.HalfEntriesStay` | crates/salvo-backend-kotlin/src/stdlib.rs:166-172 | An entry with contents and no `done` is never repaired, and nobody is answered Ok for it |
| `StdlibCache.RacesAlwaysInstall` | crates/salvo-backend-kotlin/src/stdlib.rs:166-172 | Without such entries and without I/O errors in a rename, a lost race never answers that the library could not be installed |
| `StdlibProgress.CanFinish` | crates/salvo-backend-kotlin/src/stdlib.rs:122-175 | From any state of the cache where no half entry stands in its way, a builder that nothing goes wrong for gets to Ok by its own steps alone, whatever others have left half done |
| `StdlibFiles.ListFolder` | crates/salvo-backend-kotlin/src/stdlib.rs:39-49 | One folder listed: its files filed under their paths, its folders left to list, nothing lost |
| `StdlibFiles.ReadSources` | crates/salvo-backend-kotlin/src/stdlib.rs:36-49 | The stack loop ends, having filed every file below the source folder with its text and no other |
| `StdlibFiles.Load` | crates/salvo-backend-kotlin/src/stdlib.rs:31-51 | An answer exactly when `done` and the source folder are there, and then all of its files |
| `StdlibFiles.WriteFileAdds` | crates/salvo-backend-kotlin/src/stdlib.rs:141-148 | Writing a file, its folders made as needed, puts it at its path in place of what was there and changes no other file |
| `StdlibFiles.WrittenIsReadBack` | crates/salvo-backend-kotlin/src/stdlib.rs:139-148 | The files of a tree written one by one are the last text written at each path |
| `StdlibFiles.WriteThenLoad` | crates/salvo-backend-kotlin/src/stdlib.rs:31-51 | A library loaded back is the library as it was prepared |
| `StdlibFiles.OwnFiles` | crates/salvo-backend-kotlin/src/stdlib.rs:183-196 | An answer exactly when every file the library covers is identical to the library's, and then the files it does not cover, in order |
| `StdlibFiles.OwnAndSharedAreAll` | crates/salvo-backend-kotlin/src/stdlib.rs:183-196 | Each file of the program is then the library's or its own, never both and never neither |
| `LspServer.Serve` | crates/salvo-cli/src/lsp.rs:471-511 | Every run, whatever is sent and whenever it arrives: each answer is in its place and is the analysis of the documents as they then were, if of the documents named up to then those of one root belonged to one project; diagnostics go out at quiet periods only; the loop waits at every quiet period, and whenever it waits the client shows, for every URI, what the documents of the last publication have, which no message since has touched, under the same condition at that publication |
| `LspServer.Server.MainLoop` | crates/salvo-cli/src/lsp.rs:471-511 | The loop keeps its invariant and ends when the client is gone or a message stops it, having waited at the end |
| `LspServer.Server.Turn` | crates/salvo-cli/src/lsp.rs:472-509 | One message waited for, the burst it opens, and one publication after it if something changed |
| `LspServer.Server.Settle` | crates/salvo-cli/src/lsp.rs:478-509 | The rest of a burst, and one publication after it if something changed: nothing is left to publish |
| `LspServer.Server.Burst` | crates/salvo-cli/src/lsp.rs:478-504 | Messages are absorbed until a quiet period, or an empty queue with nothing to publish |
| `LspServer.Server.Drain` | crates/salvo-cli/src/lsp.rs:479-483 | Whatever is queued is handled first |
| `LspServer.Server.Dispatch` | crates/salvo-cli/src/lsp.rs:515-537 | One message handled; a shutdown or a malformed one stops the loop |
| `LspServer.Server.HandleNotification` | crates/salvo-cli/src/lsp.rs:596-646 | A document event updates the documents as specified, drops the kept analyses, and marks the server dirty exactly when it touches one |
| `LspServer.Server.UpdateBuffers` | crates/salvo-cli/src/lsp.rs:608-643 | The new documents are those the event makes of the old ones |
| `LspServer.Server.AnalysisWith` | crates/salvo-cli/src/lsp.rs:663-686 | At most four analyses are kept, each of the current disk; a kept one is reused for its tree and buffers, and is the fresh one where documents of one tree belong to one project |
| `LspServer.Server.AnalyzeFor` | crates/salvo-cli/src/lsp.rs:647-661 | The analysis of a document, or the library's own for a copy of a library file |
| `LspServer.Server.HandleRequest` | crates/salvo-cli/src/lsp.rs:539-594 | A request's answers are the analyses of the buffers as they are, and change no document, whatever is sent later |
| `LspServer.Server.ListDocs` | crates/salvo-cli/src/lsp.rs:789-793 | Every open document once, in the map's order, or the workspace when none is open |
| `LspServer.Server.Collect` | crates/salvo-cli/src/lsp.rs:781-859 | The lists gathered by URI are those expected of the documents in that order |
| `LspServer.Server.SendAll` | crates/salvo-cli/src/lsp.rs:861-869 | After clearing what is no longer reported and sending what is, the client shows each gathered list and nothing for any other URI |
| `LspServer.Server.PublishDiagnostics` | crates/salvo-cli/src/lsp.rs:773-871 | After publishing, the client is settled on the current documents, and every open document has been sent a list, if an empty one |
| `LspServer.SecondAnswerIsTheFirst` | crates/salvo-cli/src/lsp.rs:663-686 | Two documents of one tree asked about in turn: the second is answered with the first's analysis, whichever project it belongs to |
| `LspModel.ReuseIsRightExactly` | crates/salvo-cli/src/lsp.rs:666-675 | Two documents the cache cannot tell apart have the same analysis if and only if looking for their project answers the same |
| `LspModel.BuffersAreTheClients` | crates/salvo-cli/src/lsp.rs:605-643 | A document is open exactly when the last message to write or close it wrote it, and holds that message's text and URI |
| `LspModel.DiskIsTheLatest` | crates/salvo-cli/src/lsp.rs:600-607 | The disk is as the last document event found it |
| `LspModel.EveryReportIsShown` | crates/salvo-cli/src/lsp.rs:794-859 | Where documents of one root have one analysis, every diagnostic a document's analysis reports is shown at its URI, and nothing is shown but those and the notes |
| `LspModel.OneProjectOneAnalysis` | crates/salvo-cli/src/lsp.rs:784-800 | Where documents of one tree are of one project, and no project has its sources among the library's copies, documents of one root have one analysis: the condition publishing by root relies on |
| `LspModel.OrderDoesNotMatter` | crates/salvo-cli/src/lsp.rs:789-859 | Where documents of one tree are of one project, and without notes, the order the documents are taken in does not matter to what is shown |
| `LspModel.SettledShowsReports` | crates/salvo-cli/src/lsp.rs:781-869 | A settled client shows everything the open documents' analyses report, at its URI, and nothing else but the notes |
| `LspAddresses.SettledShowsFound` | crates/salvo-cli/src/lsp.rs:833-869 | A settled client shows every diagnostic found for its documents, the library's apart, at the URI its file is open under, or at the file's own where it is not open; whatever it shows is such a diagnostic, or a note on a document open there |
| `LspAddresses.OpenDocumentsShowTheirs` | crates/salvo-cli/src/lsp.rs:843-853 | So what is found in an open document is shown where it is open |
| `LspAddresses.OneProgramShowsOnce` | crates/salvo-cli/src/lsp.rs:786-800 | However many documents of one program are open, its diagnostics are shown once, in their order, behind the notes on the first document |
| `LspAddresses.DiagsInOrder` | crates/salvo-cli/src/lsp.rs:833-859 | The diagnostics of a URI keep the order they were found in |
| `LspStaleness.BlockedShowsLatestBuffers` | crates/salvo-cli/src/lsp.rs:471-511 | Whenever the loop waits, what is shown is of the client's latest buffers, over the disk the last publication saw, the condition being of that disk and the documents named by then |
| `LspStaleness.BlockShowsReports` | crates/salvo-cli/src/lsp.rs:471-511 | So whenever the loop of `Serve` waits after an edit, the client shows at every URI what the analyses of the documents with the latest buffers report, and nothing else but the notes |
| `LspAddresses.BlockShowsFound` | crates/salvo-cli/src/lsp.rs:471-511 | And shows each diagnostic at its address |
| `LspStaleness.EditsArePublished` | crates/salvo-cli/src/lsp.rs:472-509 | Whenever the loop waits, every save and every edit handled has been followed by a publication |
| `LspStaleness.StaysRightExactly` | crates/salvo-cli/src/lsp.rs:600-643 | What was published stays right, for every workspace, if and only if no event since came with another disk: an event that names no file publishes nothing |
| `PositionSpec.IndexOfPosition` | crates/salvo-cli/src/lsp.rs:4185-4236 | A position made from a scalar denotes that scalar |
| `PositionSpec.PositionsAreOrdered` | crates/salvo-cli/src/lsp.rs:4185-4202 | Later scalars stand at later positions |
| `PositionSpec.IndicesAreOrdered` | crates/salvo-cli/src/lsp.rs:4204-4236 | Later positions denote the same scalar or later ones |
| `PositionSpec.PositionOfIndex` | crates/salvo-cli/src/lsp.rs:4204-4236 | Past the last line a position is the end of the text; past its line's end, that end; in the middle of a surrogate pair, the scalar after it; else itself |
| `PositionSpec.ExactPositions` | crates/salvo-cli/src/lsp.rs:4204-4236 | A position comes back as itself if and only if it is some scalar's |
| `PositionUnits.UnitsDecode` | crates/salvo-cli/src/lsp.rs:4195-4202 | The code units counted are those of section 2.1 of RFC 2781: a scalar of the basic plane is one, any other a surrogate pair it can be read back from |
| `PositionUnits.PositionCounts` | crates/salvo-cli/src/lsp.rs:4185-4202 | A position is the count of newlines before it and the count of UTF-16 code units since the last one |
| `Positions.ClampToBoundary` | crates/salvo-cli/src/lsp.rs:4187-4191 | An offset is taken down to the start of the scalar it is in, or to the end of the text |
| `Positions.CountLines` | crates/salvo-cli/src/lsp.rs:4192-4199 | The lines ended before an offset, and where the last of them ended |
| `Positions.LinesByBytes` | crates/salvo-cli/src/lsp.rs:4192-4199 | Counting newline bytes counts newline characters: no other character's bytes hold one |
| `Positions.OffsetToPosition` | crates/salvo-cli/src/lsp.rs:4186-4205 | Any offset gets the position of the scalar it is in |
| `Positions.FindLineStart` | crates/salvo-cli/src/lsp.rs:4210-4227 | Where a line starts, if the text has that many |
| `Positions.PositionToOffset` | crates/salvo-cli/src/lsp.rs:4209-4236 | Any position gets the offset of the scalar it denotes, reduced to 32 bits, wherever that scalar's column has 32 bits: at every column but the last one at least |
| `Positions.ThereAndBack` | crates/salvo-cli/src/lsp.rs:4185-4236 | `position_to_offset(offset_to_position(o))` is `o` at every character boundary, and the start of the character elsewhere |
| `Growth.GrowsUpTo` | crates/salvo-backend-kotlin/runtime/bytes.kt:168-173 | Up to 2^30 bytes the doubling finds room without overflow, short of twice the need |
| `Growth.RoomUpTo` | crates/salvo-backend-kotlin/runtime/bytes.kt:168-173 | So every buffer gets room for any need up to 2^30 |
| `Growth.RoomIsExact` | crates/salvo-backend-kotlin/runtime/bytes.kt:168-173 | A buffer whose capacity is a power of two gets room if and only if the need is at most 2^30: past it the loop never ends |
| `Growth.CanGrowExactly` | crates/salvo-backend-kotlin/runtime/bytes.kt:168-173 | Whatever its size, a buffer gets room for a need beyond it if and only if one of the first 32 doublings of its capacity, reduced to an `Int`, reaches the need |
| `Growth.ThirtyTwoRounds` | crates/salvo-backend-kotlin/runtime/bytes.kt:171 | A doubling loop that has not found room in 32 rounds never does, whatever it started from |
| `ByteBuffer.SalvoBytes.constructor` | crates/salvo-backend-kotlin/runtime/bytes.kt:31-34 | An empty buffer with room for sixteen |
| `ByteBuffer.SalvoBytes.CopyOf` | crates/salvo-backend-kotlin/runtime/bytes.kt:37-40 | A copy has the contents and an array of its own |
| `ByteBuffer.SalvoBytes.Owning` | crates/salvo-backend-kotlin/runtime/bytes.kt:43-46 | The array itself is the buffer, all of it contents |
| `ByteBuffer.SalvoBytes.Ensure` | crates/salvo-backend-kotlin/runtime/bytes.kt:168-173 | Room is found wherever doubling can find it; the contents are kept, and growing copies the old array once |
| `ByteBuffer.SalvoBytes.Add` | crates/salvo-backend-kotlin/runtime/bytes.kt:62-66 | The contents with the byte behind them, until the length overflows |
| `ByteBuffer.SalvoBytes.Append` | crates/salvo-backend-kotlin/runtime/bytes.kt:68-72 | The contents with the other buffer's behind them, the buffer itself included; the other is unchanged |
| `ByteBuffer.SalvoBytes.CopyIn` | crates/salvo-backend-kotlin/runtime/bytes.kt:70 | Bytes copied behind the contents, or nothing changed |
| `ByteBuffer.SalvoBytes.AppendArray` | crates/salvo-backend-kotlin/runtime/bytes.kt:75-79 | The contents with `count` bytes of an array behind them, or nothing changed where the count is not one of the array's |
| `ByteBuffer.SalvoBytes.SetAt` | crates/salvo-backend-kotlin/runtime/bytes.kt:56-60 | One byte replaced if there is one there, and whether there was |
| `ByteBuffer.SalvoBytes.GetOrNull` | crates/salvo-backend-kotlin/runtime/bytes.kt:50-51 | The byte at an index, or nothing |
| `ByteBuffer.SalvoBytes.Clear` | crates/salvo-backend-kotlin/runtime/bytes.kt:82-84 | No contents, the same room |
| `ByteBuffer.SalvoBytes.Slice` | crates/salvo-backend-kotlin/runtime/bytes.kt:86-88 | The contents from start to end in a buffer of their own, exactly when the bounds are in order and within |
| `ByteBuffer.SalvoBytes.IndexOf` | crates/salvo-backend-kotlin/runtime/bytes.kt:90-96 | The first place a byte stands at, or that it stands nowhere |
| `ByteBuffer.SalvoBytes.Equals` | crates/salvo-backend-kotlin/runtime/bytes.kt:135-142 | Equal exactly when the contents are, whatever the spare room holds |
| `ByteBuffer.SalvoBytes.HashCode` | crates/salvo-backend-kotlin/runtime/bytes.kt:144-150 | The hash is a function of the contents |
| `ByteBuffer.HashWrapsOnce` | crates/salvo-backend-kotlin/runtime/bytes.kt:144-150 | Wrapping at every step is wrapping the exact polynomial once |
| `ByteBuffer.Of` | crates/salvo-backend-kotlin/runtime/bytes.kt:183-187 | A buffer of given bytes, growing having copied at most twice as many bytes as it holds |
| `AbiClosure.Closure` | crates/salvo-core/src/abi.rs:51-105 | The closure is exactly the known declarations a chain from a platform signature reaches, each mentioned by the one before or a struct whose key begins with its key and a dot, and the least set that contains the seeds and is closed under both; the worklist ends on every, also cyclic, table |
| `AbiClosure.Walk.See` | crates/salvo-core/src/abi.rs:114-121 | A known name not yet seen is seen and queued, once |
| `AbiClosure.Walk.SeeType` | crates/salvo-core/src/abi.rs:142-171 | What a type mentions is seen and no more: a group's inner type, a name's qualifier arguments and its own |
| `AbiClosure.Walk.SeeSignature` | crates/salvo-core/src/abi.rs:123-130 | The parameters and the result are seen |
| `AbiClosure.Walk.SeeEffectRef` | crates/salvo-core/src/abi.rs:132-140 | A named or claimed effect and its arguments are seen; `use` and `spawn` are none |
| `AbiClosure.Walk.Expand` | crates/salvo-core/src/abi.rs:76-103 | A struct leads to its fields' types and the structs whose keys begin with its key and a dot, an alias to its type and those structs, an effect to its members and prerequisites |
| `AbiKeys.TextIsInjective` | crates/salvo-core/src/typekey.rs:73-80 | Two keys are spelled alike if and only if they are one key |
| `AbiKeys.TestExactly` | crates/salvo-core/src/abi.rs:81-86 | What that test answers: of a plain key, the names dotted under it in whatever module; of a key with a module, the namesakes in the modules below it, and nothing else |
| `AbiKeys.TestIsMembershipExactly` | crates/salvo-core/src/abi.rs:81-86 | It is membership in the namespace if and only if: of a plain key, no other module writes the dotted name; of a key with a module, the module writes none and no module below declares a namesake |
| `AbiNamespaces.LeadsExactly` | crates/salvo-core/src/abi.rs:76-95 | All that a struct or alias leads to: what it mentions and, of a plain key, the structs dotted under it, of a key with a module, its namesakes in the modules below |
| `AbiNamespaces.PlainMembersAreSeen` | crates/salvo-core/src/abi.rs:81-86 | Of std's plain keys every namespace member is in every closed set |
| `AbiNamespaces.OwnMembersAreNotBrought` | crates/salvo-core/src/abi.rs:81-86 | A project's own struct brings a member of its namespace if and only if its fields mention it |
| `AbiNamespaces.OwnMemberIsMissed` | crates/salvo-core/src/abi.rs:81-86 | `struct Outer` beside `namespace Outer { struct Inner }` in one project module, a platform function taking an `Outer`: `Outer.Inner` is not in the closure |
| `AbiNamespaces.NamesakeIsBrought` | crates/salvo-core/src/abi.rs:81-86 | And an `Outer` of a module below is, though nothing mentions it |
| `AbiNamespaces.ForeignMemberIsBrought` | crates/salvo-core/src/abi.rs:81-86 | Under std's `Outer`, a project's own `Outer.Inner` is in the closure |
| `AbiClosure.Walk.SeeSeeds` | crates/salvo-core/src/abi.rs:57-75 | The platform handlers' and functions' types are seen |
| `AbiClosure.Step` | crates/salvo-core/src/abi.rs:76-103 | One name of the queue keeps what the walk knows, and either more is seen or less is queued |
| `AbiClosure.ReachedAreInside` | crates/salvo-core/src/abi.rs:51-105 | A declaration a chain reaches is in every closed set |
| `AbiClosure.WalkEnds` | crates/salvo-core/src/abi.rs:76-105 | With nothing queued, the seen names are the reached ones and the least closed set |
| `AbiWritten.SignatureMissedExactly` | crates/salvo-core/src/abi.rs:123-130 | The keys written in a signature, the result's included, are those its walk sees and those in a group's arguments |
| `AbiWritten.EffectRefMissedExactly` | crates/salvo-core/src/abi.rs:132-140 | So are those written in an effect reference |
| `AbiWritten.SeedMissedExactly` | crates/salvo-core/src/abi.rs:57-73 | And those written in a platform declaration |
| `AbiWritten.DeclMissedExactly` | crates/salvo-core/src/abi.rs:76-103 | And those written in any declaration, which leads to nothing else but keys that begin with its own and a dot |
| `AbiWritten.WrittenAreInside` | crates/salvo-core/src/abi.rs:51-105 | Every closed set, so the closure, holds each declaration written in a platform declaration or in a declaration it holds, elsewhere than in a group's arguments |
| `AbiWritten.InsideAreWritten` | crates/salvo-core/src/abi.rs:51-105 | And the closure holds nothing else, members of namespaces apart |
| `AbiWritten.ResultsAreInside` | crates/salvo-core/src/abi.rs:127-129 | What a platform function returns is in it |
| `AbiGroups.MissedExactly` | crates/salvo-core/src/abi.rs:155 | The keys a type's walk misses are those written in the qualifier arguments of a group and nowhere else in it |
| `AbiGroups.GroupArgumentIsMissed` | crates/salvo-core/src/abi.rs:155 | A struct written only as an argument of a group's qualifier in a platform function's signature is not in the closure |
| `FloatText.MeaningIsKept` | crates/salvo-backend-rust/runtime/strings.rs:41-80 | The text denotes the same rational as the digits and exponent, with the same sign |
| `FloatText.ShapeIsRight` | crates/salvo-backend-rust/runtime/strings.rs:53-79 | There is always a point with digits on both sides, and an exponent exactly when it is outside -3..=6 |
| `FloatText.RearrangeArrange` | crates/salvo-backend-rust/runtime/strings.rs:41-80 | Digits and exponent can be read back from the text |
| `FloatText.ShowDetermines` | crates/salvo-backend-rust/runtime/strings.rs:66-78 | The characters of a text determine its sign, digits and exponent |
| `FloatText.TextsAreDistinct` | crates/salvo-backend-rust/runtime/strings.rs:41-80 | Two canonical numbers have the same text if and only if they are the same |
| `FloatSpelling.TextSpells` | crates/salvo-backend-rust/runtime/strings.rs:41-80 | Read as a decimal number (a sign, digits, a point, digits, an `E` and an integer without needless zeros), the text is the number its digits and exponent are |
| `Power.SquaringIsRepeated` | crates/salvo-backend-kotlin/src/intrinsics.rs:130-146 | Repeated squaring multiplies as often as the exponent says, under any associative multiplication |
| `Power.IntegerPow` | crates/salvo-backend-kotlin/src/intrinsics.rs:130-139 | The JVM's `Int` and `Long` loops answer the exact power reduced to the word, as `wrapping_pow` does, for every base and exponent; a negative exponent is refused by both |
| `Power.JvmDoublePow` | crates/salvo-backend-kotlin/src/intrinsics.rs:140-146 | The JVM's `Double ** Int` is the squaring product of the exponent's magnitude, inverted below zero |
| `Power.RustDoublePow` | crates/salvo-backend-rust/src/intrinsics.rs:209-214 | So is Rust's, of the same multiplications in the same order, the smallest `Int` included |
| `Power.SmallestIntHasNoMagnitude` | crates/salvo-backend-kotlin/src/intrinsics.rs:141 | In 32 bits an exponent's magnitude is right if and only if it is not the smallest `Int`; as a `Long` it always is |
| `Power.CountsAgree` | crates/salvo-backend-rust/src/intrinsics.rs:228-240 | Both backends shift by the count modulo the width, negative counts included |
| `Power.ShiftsAgree` | crates/salvo-backend-rust/src/intrinsics.rs:228-240 | Rust's three shifts, on the bits of a word, answer what the JVM's do, on the number, for every value and count |
| `Names.JoinWords` | crates/salvo-core/src/case.rs:33-45 | The loop over the characters joins the words of a name's head |
| `Names.Camel` | crates/salvo-core/src/case.rs:23-47 | The camel-case spelling, from `__` on verbatim |
| `Names.Snake` | crates/salvo-core/src/abi.rs:288-301 | The snake-case spelling |
| `Names.SnakeOfCamel` | crates/salvo-core/src/case.rs:23-47 | `snake(camel(n))` is `n` for every name that starts lowercase and has no uppercase letter |
| `Names.CamelIsInjective` | crates/salvo-core/src/case.rs:13-22 | So two such names are spelled alike if and only if they are the same |
| `Names.CamelIsIdempotent` | crates/salvo-core/src/case.rs:23-47 | Spelling any name twice changes nothing more |
| `NameSpelling.SnakeByLetters` | crates/salvo-core/src/abi.rs:288-301 | The snake-case spelling, letter by letter: an uppercase letter becomes lowercase, behind an underscore unless it is the first or stands behind one |
| `NameSpelling.SnakeIsIdempotent` | crates/salvo-core/src/abi.rs:288-301 | It has no uppercase letter and is its own spelling |
| `NameSpelling.SnakeExample` | crates/salvo-core/src/abi.rs:287 | `NotFound` is `not_found` |
| `NameSpelling.CamelByLetters` | crates/salvo-core/src/case.rs:23-47 | The camel-case spelling, letter by letter: up to the first `__` an underscore before a lowercase letter is dropped and the letter made uppercase |
| `Names.CamelCollides` | crates/salvo-core/src/case.rs:49-67 | With uppercase letters two names can be spelled alike: `a_b` and `aB` |
| `Names.CamelClash` | crates/salvo-core/src/case.rs:49-67 | A pair is answered if and only if two distinct names share a spelling: the second is the earliest name to clash with any before it, the first the earliest it clashes with |
| `TestRecovery.RunGroup` | crates/salvo-cli/src/main.rs:1710-1792 | Each test of a group is begun once and ends once, in order, as the processes end it, with a verdict in one pass or as the death of one, and the totals count exactly those; the run is all right if and only if its last pass could be run and died, exited well or has a failed test; then all tests have ended, if and only if no process quits between two tests unreported; the budget of passes is never what stops it |
| `TestRecovery.Turn` | crates/salvo-cli/src/main.rs:1725-1788 | One pass and what it leaves to run: the tests after the one that died, or nothing; and whether the run may end with it |
| `TestRecovery.AfterDeath` | crates/salvo-cli/src/main.rs:1757-1764 | With distinct names, the tests after the one in flight |
| `TestRecovery.Render` | crates/salvo-test/src/report.rs:187-307 | The counts of a pass, a test begun and not ended being unfinished |
| `TestRecovery.ReadPass` | crates/salvo-test/src/report.rs:255-307 | Whatever text its tests print, a pass reads as its verdicts and the test it died in |
| `TestRecovery.PassAccounts` | crates/salvo-test/src/report.rs:65-69 | Merging a pass into the totals accounts for each of its tests once |
| `ReplyTokens.TokensAreOneShot` | crates/salvo-backend-rust/runtime/scheduler.rs:212-246 | In every interleaving each local token is answered or exported at most once, and never both |
| `ReplyAccounts.TokensAreConserved` | crates/salvo-backend-rust/runtime/scheduler.rs:212-302 | In every run each minted token is in exactly one place: in a reply that can be answered, in hand, answered, exported, or lost in a reply that was refused or dropped; and no other token is anywhere |
| `ReplyAccounts.SendAnswers` | crates/salvo-backend-rust/runtime/scheduler.rs:234-249 | A send that is not refused, of a reply that holds its token, answers exactly it |
| `ReplyAccounts.HostedSendAnswers` | crates/salvo-backend-rust/runtime/scheduler.rs:257-290 | So does a reply handed to the host and sent by it, its outside source closed at the end |
| `ReplyAccounts.TakenThenAnswered` | crates/salvo-backend-rust/runtime/scheduler.rs:224-232 | And a token taken out first |
| `ReplyTokens.KeepsOnePlace` | crates/salvo-backend-rust/runtime/scheduler.rs:212-302 | Every step keeps every token in one place: in its reply, in hand, answered or exported |
| `ReplyTokens.KeepsSources` | crates/salvo-backend-rust/runtime/scheduler.rs:257-302 | Every step keeps the count of outside sources equal to the replies that have one |
| `ReplyTokens.SourcesAtRest` | crates/salvo-backend-rust/runtime/scheduler.rs:257-302 | Between host sends the open sources are the replies the host still has, those refused as another node's, and those whose token was gone before they reached it |
| `ReplyTokens.StuckWasHandedOverEmpty` | crates/salvo-backend-rust/runtime/scheduler.rs:230-263 | The last kind comes only of handing over a reply whose token was taken or exported before |
| `ReplyTokens.ExportedThenHosted` | crates/salvo-backend-rust/runtime/scheduler.rs:408-427 | Exporting a reply, handing it to the host and sending it leaves a source open |
| `ReplyTokens.StuckForever` | crates/salvo-backend-rust/runtime/scheduler.rs:272-288 | And nothing ever closes it |
| `ModuleNames.Unused` | crates/salvo-backend-rust/src/emit.rs:121-123 | The underscore loop ends, with as few underscores as keep the name clear of those in use |
| `ModuleNames.ModNames` | crates/salvo-backend-rust/src/emit.rs:106-127 | Distinct modules get distinct names, none of them `unions`, each its own parts with as few underscores as the earlier ones leave, and the names in use are those and `unions` |
| `ModuleNames.PartsOfJoined` | crates/salvo-backend-rust/src/emit.rs:113-118 | A path's parts can be read off its joined name where none has an underscore |
| `ModuleNames.JoinedAlike` | crates/salvo-backend-rust/src/emit.rs:113-118 | So two such paths are joined alike only if they are one |
| `PageAnchors.Order` | crates/salvo-cli/src/site.rs:167-173 | One heading per kind and name, sorted by section, those of one section in the order of their first occurrences |
| `PageAnchors.SectionsDetermine` | crates/salvo-cli/src/site.rs:173 | Which leaves no choice: two orders sorted by section with the same sections are one |
| `PageAnchors.PageBySections` | crates/salvo-cli/src/site.rs:76-87 | The headings are those under Types, Effects, Handlers, Qualifiers, Function groups and Functions, title by title |
| `PageAnchors.NumberedDiffer` | crates/salvo-cli/src/site.rs:179-181 | Two numbered anchors are alike if and only if their bases and numbers are, or one's base is the other one numbered |
| `PageAnchors.AnchorsMeetExactly` | crates/salvo-cli/src/site.rs:174-184 | Two anchors of a page meet if and only if some base is another base numbered by a count that one reaches |
| `PageAnchors.PageHeadings` | crates/salvo-cli/src/site.rs:166-185 | In that order every heading's anchor is its base numbered by its earlier namesakes; no two of a page are alike exactly where no base is another one numbered, so always where names have no dash and no space |
| `PageAnchors.EntryAnchor` | crates/salvo-cli/src/site.rs:187-190 | The anchor of the heading asked for, or the plain one where the page has no such heading |
| `PageAnchors.DashedNamesCollide` | crates/salvo-cli/src/site.rs:181 | The headings `fn ok`, `fn Ok` and `fn ok-1` get the anchors `fn-ok`, `fn-ok-1` and `fn-ok-1` |

## Left out

- Copy plans: a field with no written type, which `immutable` takes for mutable and a plan skips; written types that `approx_ty` cannot lower; the arguments of qualifiers; `proj` qualifiers on scalars, which `qualify` erases.
- Copy plans: type keys are a written name and a module; of `typekey::plain` only that two keys are written alike is modelled.
- Copy plans: a request is taken from the ordered set of them in any order here; the declarations a host project's build leaves out, and with them their copies, are left out of the modules to emit.
- Copy plans: platform types' own `copy` is taken to make a new object over the same references; function values hold no cells.
- The wire: recursive struct types (a type here is a finite tree), the codecs of messages and node addresses, the JVM's `Mut` codecs, whose bytes are the plain ones', and arrays of 2^31 bytes and more.
- The wire: union copies written out arm by arm in generated code are one loop over the arm's index here; the JVM's charset decoder is the strict UTF-8 of `Utf8`.
- WireFraming.RoundTripsWithContinuation: strings and lists of 2^32 and more, whose length the code truncates, are outside it; FrameRoundTrips covers them and says they do not round trip.
- The cache: the hash itself, taken to be injective; a compiler replaced while a builder runs; errors of the file system while loading; `kotlinc`, which is a function of the sources it is given.
- StdlibFiles.WriteThenLoad: paths are sequences of names; symbolic links, `..` and case-insensitive file systems are not modelled.
- The language server: request results beyond the analyses they ask for, the check cache behind an analysis, timing and tracing, failures of the connection, and the diagnostics' ranges.
- LspServer.Serve: the hash of the open buffers is taken to be injective, and the disk to change at document events only, which is when the code drops what it knew of it; an answer or publication is promised where, as it is made, documents of one root named by then belong to one project, which `SecondAnswerIsTheFirst` shows is needed.
- Positions.PositionToOffset: at the last 32-bit column, in the middle of a surrogate pair, the code's unit counter overflows; no offset is promised there.
- ByteBuffer: hexadecimal and decimal text, strict UTF-8 text and iteration, which only read; `joined`, a loop of `append`; an array handed to `Owning` is the buffer's alone afterwards.
- AbiClosure: the boundary checks and factory names of the same file; iteration order of the symbol tables, which the least closed set does not depend on.
- FloatText: the shortest digits themselves, and not-a-number and the infinities, which have fixed texts.
- Power: `Double ** Double`, which is the host's; the bitwise folds, which are one operator on both sides.
- Names: names with characters beyond ASCII, whose upper and lower case forms are not modelled; the scopes `module_clashes` asks about.
- TestRecovery: building and starting a pass, the report's text, and output glued to a protocol line.
- ReplyTokens: the scheduler behind `answer` and the routing service behind `export_reply`; a token imported back is a new token. The objects are modelled as one state with atomic steps, so which thread holds a mutex when is not captured.
- PageAnchors: characters beyond ASCII in headings; the standard library's stable sort is a function here, which `SectionsDetermine` shows can be no other.
- ModuleNames: the order modules are taken in is a parameter, as it is a sorted set's.
- Signature rendering, hover, completion, rename, message tables, the grammar and the editor client hold lookups and text, and would add easy members only.
