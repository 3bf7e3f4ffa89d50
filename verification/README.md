# The class linker and the protobuf classes, verified

This project models two parts of the Picodroid repository in Dafny and proves
what they promise.

**The class linker** (`crates/class-link`) takes JVM class files and makes one
section of them that the runtime reads in place. The `Utf8` constants of the
whole set move into one pool; for each class `derive` writes a table of 16-bit
words; String constants are numbered; classes are indexed by the hash of their
name; superclasses are resolved; everything is laid out as bytes. A validator
runs the same `derive` into a sink that compares where the builder's sink
writes. The class file format and the static constraints on bytecode are those
of chapter 4 of the Java Virtual Machine Specification (sections 4.3.3, 4.4,
4.7, 4.9.1), the instruction shapes those of its section 6.5. Two neighbours
belong to it: `terminates`, which keeps the fuzzer's interpreter to code that
ends, and `rewrite_descriptor`, which renames classes inside descriptors.

**The protobuf classes** are what `protoc_gen_picodroid.py` emits for a proto3
schema: `writeTo`, `getSerializedSize`, `toByteArray`, `mergeFrom` and the
accessors of repeated fields, over the stream classes of the SDK. The wire
format is that of the Protocol Buffers encoding specification ("Base 128
Varints", "Message Structure", "Packed Repeated Fields").

## How it is arranged

Each operation is a function that says what it computes, and, where the source
works by changing things step by step, a method in the source's own form (a
class with fields, a loop, an array or buffer patched in place) proved equal to
that function. The theorems are lemmas about the functions, so they hold of the
methods.

| part | specification | methods | theorems |
|---|---|---|---|
| bytecode | `Bytecode`, `Interp` | `Bytecode`, `Interp` | `Bytecode`, `Interp`, `Reachability`, `Boundaries` |
| descriptors | `Descriptor`, `Names` | `Descriptor`, `Names` | `Descriptor`, `Names` |
| class files and tables | `ClassFile`, `LinkTable`, `Sinks`, `Linking` | `Reader`, `Deriver`, `Linker` | `Coverage`, `DeriveFacts`, `Linking`, `LinkTable`, `Slots`, `WalkExact`, `SurveyExact`, `ConstantsExact`, `MethodsExact`, `MembersExact`, `TableExact`, `TableContents`, `AcceptedTable`, `TableComplete`, `DeriveRefusals` |
| the pool | `Utf8Pool`, `Pooling` | `Utf8Pool`, `Linker` | `Utf8Pool`, `Pooling`, `PooledSets`, `OwnNames`, `Repooling`, `DistinctTexts`, `SameTail`, `PooledShows` |
| sections | `Section`, `SectionBuild`, `Regions` | `SectionScan`, `SectionWriter`, `SectionBuilder`, `SuperChains` | `AcceptedSection`, `SuperChains`, `Numbering`, `SectionLayout`, `ExternalWords`, `BuiltSection`, `BuiltIsAccepted`, `NeverInternal`, `SectionExact`, `SectionRefusals`, `BuildExact`, `BuildRefusals`, `BuildExamples` |
| protobuf | `Wire`, `Proto` | `Wire`, `ProtoStreams`, `ProtoOutput` | `Wire`, `Proto`, `ProtoWire`, `ProtoNormal`, `ProtoReads`, `ProtoExact`, `ProtoRoundTrip`, `ProtoEvolution` |

Four modules say what the formats are, from their own specifications and with
their own numbers: `ClassGrammar` (the constant pool and its tiling, sections
4.1 and 4.4), `ClassSpec` (the rest of a class file, what a class needs to link,
and what its table must then say, word by word), `BuildSpec` (what a set of
class files needs to build) and `WireFormat` (records and values of the protobuf
wire format). They share nothing with the functions that model the code but the
reads of `Bytes`; for descriptors and instructions they take the grammars
`Descriptor.Describes` and `Bytecode.Tiles`, against which the methods
`CountArgs` and `CheckCode` are proved.
What the code does is proved against them, both ways: a walk succeeds exactly on
pools that the format tiles, a class links exactly when it is linkable, the
validator accepts exactly the tables that say what the class file says, a set
builds exactly when its files can be read and go together, and what is written
and read of a message is what the wire format spells.

Results are `Result` values with the source's own errors, in the source's order
of checks. `Env` carries what is not computed here: the three hashes, of which
nothing is assumed, and whether bytes are UTF-8. Words and bytes are bounded
integers and every `as u16` is written out.

A derivation (`ClassFile.DeriveTable`) is modelled as what `derive` says to its
sink: the list of puts up to the first refusal, and the outcome. `Sinks` gives
the two readings of such a list, writing and comparing. That is what lets one
derivation serve the builder and the validator, as it does in the source.

## Where the code differs from what is said of it

- The comment on `Link::new` (`crates/class-link/src/layout.rs:329-333`) says
  that it checks the magic and the length and nothing deeper. The code also
  checks that the regions tile the table in order (lines 342-353). The model
  follows the code, and `LinkTable.NewLinkExact` states it.
- The header of `check_code` lists what is not checked, branch targets off
  instruction boundaries among it, and says that none of it can read outside
  `code` (`crates/class-link/src/bytecode.rs:10-14`). That last sentence is
  refuted by `Boundaries.OperandPastTheEnd`: `A7 00 04 10 10` is accepted, and
  its run reaches a `bipush` whose operand is past the end.
  `Boundaries.OperandsStayInsideExactly` says exactly which accepted codes keep
  every operand a run reads inside the code, by what finitely many steps reach.
  What an instruction reads is there its extent by format alone, whatever its
  values are, and a run goes on from operands that no check has passed. A target
  outside `0..|code|`, or at `|code|`, reads nothing: the interpreter leaves the
  method there (`crates/jvm/src/interpreter/mod.rs:888`).
  `Boundaries.RunsStayOnBoundariesExactly` says which codes keep every run on
  boundaries, `Boundaries.LegalityIsKeptExactly` which meet only legal
  instructions; that is strictly more than reading inside the code
  (`Boundaries.SafeButNotLegal`). Targets on boundaries are enough for all three
  (`Boundaries.BoundaryTargetsKeepRuns`, `Boundaries.BoundaryTargetsReadInside`),
  with or without an end (`Boundaries.BoundariesWithoutEnd`); code that
  `terminates` passes also ends.
- `crates/class-link/src/bytecode.rs:131` casts `high - low + 1` to `usize`.
  The model takes `usize` to have at least 64 bits. With 32 the arm also lets
  the full-range table through, as one of no entries, and nothing else:
  `Bytecode.TableArmExact`.
- A negative zero in a `float` or `double` field that is singular and not
  `optional` does not survive: `present` compares with `!=`, to which both zeros
  are equal, so the field is not written
  (`tools/protoc-gen-picodroid/protoc_gen_picodroid.py:459-473`).
  `ProtoRoundTrip.RestoredExactly` shows that this is the only loss,
  `ProtoRoundTrip.NegativeZeroIsLost` that it happens.
- `rewrite_descriptor` leaves what `count_args` reads of every string alone
  exactly when its map sends no name to one with a `;` in it
  (`Names.ArgCountKeptExactly`). A single string may keep its count all the
  same; `Names.SemicolonInTargetBreaksArgCount` is one that does not.

## Model

| member | source | states |
|---|---|---|
| Bytecode.CheckCode | crates/class-link/src/bytecode.rs:84-194 | the loop over `pc` answers the verdict that the lemmas below characterise, error included |
| Bytecode.AcceptsExactlyTiledCode | crates/class-link/src/bytecode.rs:84-194 | a code is accepted if and only if it has 1 to 65535 bytes and whole legal instructions tile it (branch targets inside, complete `tableswitch` with `low <= high`, strictly ascending `lookupswitch`, legal `wide`, invoke and array operands) |
| Bytecode.RefusalNamesFirstIllegal | crates/class-link/src/bytecode.rs:84-194 | a refusal names `pc` if and only if legal instructions tile everything before `pc` and none can start there |
| Bytecode.CheckTableSwitch | crates/class-link/src/bytecode.rs:121-145 | the arm answers the end of the instruction if it is legal and refuses exactly when no end makes it legal |
| Bytecode.TableArmExact | crates/class-link/src/bytecode.rs:124-144 | with a `usize` of `words` values the arm lets a table through if and only if it is legal, or `words` is 2^32 and the table runs from -2^31 to 2^31 - 1 |
| Bytecode.CheckLookupSwitch | crates/class-link/src/bytecode.rs:146-175 | the same for `lookupswitch`, its pair loop included |
| Bytecode.CheckWide | crates/class-link/src/bytecode.rs:176-189 | the same for `wide` |
| Interp.Terminates | crates/fuzz-targets/src/interp.rs:64-154 | the filter, with its `starts` array and `targets` list, says yes if and only if the code scans whole into instructions all of whose targets lie ahead and on instruction starts |
| Interp.DecodersAgree | crates/fuzz-targets/src/interp.rs:64-140 | where both decoders accept an instruction they agree on its end, and every place it may jump to is among the filter's targets |
| Interp.BoundariesCoincide | crates/fuzz-targets/src/interp.rs:64-154 | code that both accept has one set of instruction boundaries |
| Interp.AcceptedRunsHalt | crates/fuzz-targets/src/interp.rs:64-154 | on code that both accept, every run from 0 through any fall-through or branch stays on boundaries, has each instruction whole inside the code, strictly advances, and is no longer than the list of boundaries |
| Interp.CheckAloneLetsRunsLeaveBoundaries | crates/class-link/src/bytecode.rs:10-14 | against the header's claim, `A7 00 04 10 10` is accepted and a run of it reaches a place where no instruction is whole |
| Interp.ScansExactlyTheOthers | crates/fuzz-targets/src/interp.rs:64-140 | the filter reads a legal instruction if and only if it is no `jsr`, `jsr_w`, `ret` or wide `ret` |
| Interp.PassesExactlyForwardCode | crates/fuzz-targets/src/interp.rs:64-154 | code that legal instructions tile passes if and only if none of them is a subroutine's and every place each may jump to is a later boundary inside the code |
| Boundaries.RunsOfCodeStayExactly | crates/class-link/src/bytecode.rs:84-194 | for any set of positions: every run stays in it if and only if no step leaves it from what as many steps through it as it has members reach |
| Boundaries.RunsStayOnBoundariesExactly | crates/class-link/src/bytecode.rs:10-14 | every run of an accepted code stays on its boundaries if and only if each boundary so reached has only boundaries for targets |
| Boundaries.OperandsStayInsideExactly | crates/class-link/src/bytecode.rs:10-14 | any run of an accepted code, on boundaries or off them and past illegal values too, reads only inside the code if and only if no step leads from a position so reached to one in the code with an operand outside it |
| Boundaries.OperandPastTheEnd | crates/class-link/src/bytecode.rs:10-14 | against the header's claim, `A7 00 04 10 10` is accepted and a run of it reaches a `bipush` whose operand is past the end |
| Boundaries.LegalHasExtent | crates/class-link/src/bytecode.rs:97-189 | for each form the bytes of a legal instruction are the extent that its format alone gives |
| Boundaries.StepIsFree | crates/class-link/src/bytecode.rs:97-189 | a step from a legal instruction is one of the free steps that `OperandsStayInsideExactly` follows |
| Boundaries.LegalityIsKeptExactly | crates/class-link/src/bytecode.rs:10-14 | every instruction that any run of an accepted code meets is legal, values and targets included, if and only if no step leads from a reached legal one to a place where none is |
| Boundaries.SafeButNotLegal | crates/class-link/src/bytecode.rs:10-14 | `A7 00 04 11 BC 00 B1` is accepted and all its runs read inside it, though one meets a `newarray` of no type |
| Boundaries.BoundaryTargetsKeepRuns | crates/class-link/src/bytecode.rs:10-14 | accepted code whose every target is a boundary keeps every run on boundaries and every instruction of it whole, backward branches and subroutines included |
| Boundaries.BoundaryTargetsReadInside | crates/class-link/src/bytecode.rs:10-14 | and so its runs read only inside the code, free steps included |
| Boundaries.BoundariesWithoutEnd | crates/fuzz-targets/src/interp.rs:64-154 | `goto` to itself is accepted and keeps its runs on boundaries, and the filter refuses it |
| Descriptor.CountArgs | crates/class-link/src/descriptor.rs:16-61 | the loop answers the function that the next lemma characterises |
| Descriptor.CountsExactlyTheParameters | crates/class-link/src/descriptor.rs:16-61 | the answer is `n` if and only if the string is a descriptor of `n` parameters by the grammar, `n` at most 255 |
| Names.RewriteDescriptor | crates/build_support/names.rs:219-240 | the loop over the rest of the string answers the recursive rewriting |
| Names.ClassRefs | crates/build_support/names.rs:91-107 | the loop answers the references in order |
| Names.EachStringSplits | crates/build_support/names.rs:91-107 | every string is its references, each an `L`, a name and a `;`, with what stands between them, and a rest in which no `;` follows an `L`; `class_refs` lists those names |
| Names.RewrittenExactly | crates/build_support/names.rs:219-240 | rewriting keeps what stands between the references and the rest, in order, and puts between each `L` and `;` what the map answers for the name, or the name where it answers nothing |
| Names.UnnamedUntouched | crates/build_support/names.rs:231-234 | a string none of whose classes the map names is rewritten to itself |
| Names.RefsFollowTheMap | crates/build_support/names.rs:219-240 | under targets without `;` the i-th reference of the result is what the map answers for the i-th name, or that name |
| Names.RefsAreRenamed | crates/build_support/names.rs:219-240 | the references of the rewritten string are those of the original, each sent through the map |
| Names.RewriteComposes | crates/build_support/names.rs:219-240 | rewriting twice is rewriting through the composed map |
| Names.RewriteUndone | crates/build_support/names.rs:219-240 | rewriting back restores the string if and only if the second map takes every class it names back to itself |
| Names.RewriteKeepsArgCount | crates/build_support/names.rs:219-240 | `count_args` reads the same before and after, on every string, well-formed or not |
| Names.ArgCountKeptExactly | crates/build_support/names.rs:219-240 | a map leaves the count of every string as it was if and only if it sends no name to one with a `;` in it |
| Names.SemicolonInTargetBreaksArgCount | crates/build_support/names.rs:219-240 | `(LA;)V` with `A` sent to `;I` counts one parameter before and does not read after |
| Reader.WalkPool | crates/class-link/src/classfile.rs:137-182 | the cursor's walk in either form visits what `WalkCp` says and ends where it says |
| WalkExact.WalksExactly | crates/class-link/src/classfile.rs:137-182 | in either form the walk succeeds if and only if the file has at most 65535 bytes, is headed as section 4.1 says and entries of the formats of section 4.4 tile the pool; it ends where they do |
| WalkExact.VisitsAreEntries | crates/class-link/src/classfile.rs:137-182 | its visits are index 0, each entry at its data, and the second index of each long or double |
| WalkExact.WalkRefusedAt | crates/class-link/src/classfile.rs:137-182 | a refused walk has read entries up to one that none of the formats fits, named by index and tag, or that the file cuts short |
| Reader.SurveyClass | crates/class-link/src/classfile.rs:282-325 | the cursor's survey answers the function the derivation is proved to agree with |
| Linking.WalkVisitsInOrder | crates/class-link/src/classfile.rs:137-182 | the walk visits the indexes from its own on, one after another, without gaps |
| Deriver.Derive | crates/class-link/src/classfile.rs:398-700 | the imperative derivation leaves either sink as feeding it the specified puts would, and stops with the same error |
| TableExact.LinkableDerives | crates/class-link/src/classfile.rs:398-700 | a class file that is linkable by the format (items in place, names UTF-8, methods' code legal, slots and table in bounds) is surveyed, laid out and derived |
| TableExact.DerivesLinkable | crates/class-link/src/classfile.rs:398-700 | and one that is, is linkable |
| TableContents.TableHeld | crates/class-link/src/classfile.rs:398-700 | a table that agrees with the derivation says, word by word, what the class file says: entries and tags, fields with slot and kind, interfaces, methods with their bytecode and first line numbers, Methodrefs with their parameters, Strings, and the header with the last `BootstrapMethods` and `SourceFile` |
| DeriveRefusals.RefusalNamesFault | crates/class-link/src/classfile.rs:398-700 | when the derivation refuses a surveyed class, the class file has the fault that the error names, at the index it names, and no other error occurs |
| Deriver.DeriveFieldRecords | crates/class-link/src/classfile.rs:543-577 | the field loop with its three counters, interleaving instance and static regions |
| Deriver.DeriveConstants | crates/class-link/src/classfile.rs:411-442 | the constant-pool loop with its packed tags |
| Sinks.WritesStay | crates/class-link/src/build.rs:43-54 | puts that never repeat a word all stay in the table, and every other word is untouched |
| Sinks.CheckMeansAgree | crates/class-link/src/validate.rs:24-47 | comparing succeeds if and only if every put that is not the section's matches the table |
| Coverage.DerivesOncePerWord | crates/class-link/src/classfile.rs:392-700 | a derivation that succeeds puts each word of `0..total_words` exactly once and no other, so `puts == total_words` means that every word was compared |
| DeriveFacts.DerivationTyped | crates/class-link/src/classfile.rs:398-700 | after a survey, a derivation, failed or not, puts only words of the table, treats exactly the section's words as external, and never ends in `Internal` |
| DeriveFacts.FieldsEndAlike | crates/class-link/src/classfile.rs:543-577 | the derivation meets the fields the survey counted, instance and static, and ends where it did |
| DeriveFacts.SurveyNotInternal | crates/class-link/src/classfile.rs:282-325 | a survey's counts of Methodrefs and Strings are those of the view |
| LinkTable.NewLinkExact | crates/class-link/src/layout.rs:334-356 | a table is accepted if and only if its header names it and its nine regions tile a prefix of it in order |
| LinkTable.EachWordInOneRegion | crates/class-link/src/layout.rs:532-663 | so each word up to the last descriptor is inside the table and in exactly one accessor's region |
| LinkTable.StringAtWordExact | crates/class-link/src/layout.rs:586-597 | a word leads to a String descriptor if and only if one starts there, and then to that one |
| LinkTable.SuperIdxIs | crates/class-link/src/layout.rs:477-483 | word 22 is the position, 65535 none |
| Linking.ViewShown | crates/class-link/src/validate.rs:8-22 | a table that holds what is derived shows the validator, through its own accessors, the constant pool the builder walked |
| Linking.OffsetShown | crates/class-link/src/layout.rs:573-597 | `cp_offset` finds each entry's data offset, through its descriptor for a Methodref or a String |
| Linking.BuiltHolds | crates/class-link/src/build.rs:120-148 | the table the builder writes holds the derivation |
| Linking.HoldersAgree | crates/class-link/src/validate.rs:61-105 | a table holds what another holds if and only if they differ at most in the section's words |
| Linking.ValidatorSound | crates/class-link/src/validate.rs:61-105 | a table the validator accepts equals, on every word but the section's, the one the builder writes for the same class, refs and pool |
| Linking.ValidatorComplete | crates/class-link/src/validate.rs:61-105 | whatever the section writes into its own words, the validator accepts the builder's table when its refs name pool entries |
| Linking.ValidatorAcceptsExactlyBuilds | crates/class-link/src/validate.rs:61-105 | acceptance is agreement with a build, both ways |
| AcceptedTable.AcceptedSaysTheClass | crates/class-link/src/validate.rs:61-105 | an accepted table's class file is read by the format alone as linkable, and the table says of it, word by word, what the format says |
| TableComplete.AcceptsExactlyWhatTheClassSays | crates/class-link/src/validate.rs:61-105 | the validator accepts a table if and only if its class file is linkable and the table says of it what the class file format says, outside the section's words |
| Linking.BuiltPlaceholders | crates/class-link/src/classfile.rs:489-489 | `link_pooled` leaves 0 in the words for the pool's place and 65535 in every other word of the section |
| Linking.ValidatorNeverInternal | crates/class-link/src/validate.rs:61-105 | validating a table of any words never ends in `Internal` |
| Linking.BuilderNeverInternal | crates/class-link/src/build.rs:120-148 | linking never ends in `Internal` when there is a ref for every `Utf8` |
| Linking.AcceptedNames | crates/class-link/src/layout.rs:700-716 | an accepted table's name and superclass name are in the pool, not empty, and hash to the hashes beside them |
| Linker.ValidateTable | crates/class-link/src/validate.rs:61-105 | the method that walks, compares and counts puts answers the specified verdict |
| Linker.LinkOne | crates/class-link/src/build.rs:120-148 | the method that fills a table through the writing sink answers the specified table |
| PooledShows.LinksExactly | crates/class-link/src/build.rs:120-148 | a class pooled into a set links if and only if its own file, strings in place, is linkable by the format |
| Linker.PoolOne | crates/class-link/src/build.rs:95-116 | spans collected, strings interned into the shared pool and cut out, as specified |
| Linker.Unpool | crates/class-link/src/build.rs:160-183 | the inserts collected and spliced, as specified |
| Slots.SlotsAllocated | crates/class-link/src/classfile.rs:543-577 | in an accepted table the instance records are the instance fields among all the class file's fields, in order, each slot the sum of the slots before it and `own_slots` their sum; statics are numbered from 0 |
| Slots.EachSlotOwnedOnce | crates/class-link/src/layout.rs:95-120 | every slot below the total is owned by exactly one field, two by each long or double |
| Slots.Unpacks | crates/class-link/src/layout.rs:179-192 | `slot()` and `kind()` undo the packing of 12 and 4 bits |
| Utf8Pool.Pool.Intern | crates/class-link/src/build.rs:74-89 | the map and the bytes grow together: the ref answered and the new pool are those of the list of distinct strings with `s` added if new; a refusal changes nothing |
| Utf8Pool.InternedWellFormed | crates/class-link/src/build.rs:74-89 | interning keeps strings distinct, the empty one first and the pool within its bound, and only appends |
| Utf8Pool.InternedReadsBack | crates/class-link/src/classfile.rs:197-206 | every interned string is read back at its ref, from this pool and from all it grows into, and the ref fits 16 bits |
| Utf8Pool.RefStays | crates/class-link/src/build.rs:74-89 | a ref never changes as the pool grows |
| Utf8Pool.RefsAreDistinct | crates/class-link/src/build.rs:74-89 | two strings share a ref if and only if they are equal |
| Utf8Pool.PoolCheckExact | crates/class-link/src/section.rs:367-381 | the validator's pool loop accepts exactly the tilings by zero-padded entries that start with the empty string |
| Pooling.PooledWalksAlike | crates/class-link/src/build.rs:95-116 | the two walks visit the same indexes and tags, each offset and the position after the pool moved by exactly the bytes removed before it, the data there and all that follows the pool the same; there are as many `Utf8`s as strings moved out |
| Pooling.SpliceRestores | crates/class-link/src/build.rs:160-183 | the strings put back after their tags restore the class file byte for byte |
| Pooling.InternAllReadsBack | crates/class-link/src/build.rs:106-115 | interning a class's strings keeps the pool well formed, only grows it, and each ref reads its string |
| PooledSets.TableRestores | crates/class-link/src/build.rs:160-183 | so does unpooling through the class's own table and the finished pool of the whole set |
| OwnNames.NamesCarried | crates/class-link/src/classfile.rs:517-527 | a class's table names it and its superclass as `this_class` and `super_class` of the class file given do, read from that file alone |
| Repooling.UnpooledPoolsBack | crates/class-link/src/build.rs:156-183 | any accepted class unpools, and the class file so made pools back to the same bytes unless it passes 65535 bytes or its strings do not fit the pool |
| SuperChains.CheckSuperChains | crates/class-link/src/section.rs:468-484 | the nested loops, which always end, answer the verdict below |
| SuperChains.PassesExactlyAcyclic | crates/class-link/src/section.rs:463-484 | a set passes if and only if no class is its own ancestor |
| SuperChains.RefusalNamesLeast | crates/class-link/src/section.rs:468-484 | a refusal names the least class whose chain never leaves the set |
| Section.ParseExact | crates/class-link/src/section.rs:197-250 | parsing accepts exactly the aligned bytes whose header describes a layout in which every accessor reads inside them |
| Section.ParseRefusal | crates/class-link/src/section.rs:197-250 | each of its refusals names a fault that the bytes or their address have, and there are no others |
| Section.ClassCheckedExact | crates/class-link/src/section.rs:280-310 | a class is handed out if and only if the directory leads to 4-aligned parts, the class bytes and the little-endian table as long as the table's own words say, the table valid and naming the section's pool |
| Section.CheckedFoundByAddress | crates/class-link/src/section.rs:280-310 | for each class handed out, the table's own length and pool words lead from its address alone to the same words and the same pool |
| SectionScan.ValidateSection | crates/class-link/src/section.rs:366-460 | the deep check with its cursor, loops and marks answers the specified verdict |
| SectionExact.ValidatesExactly | crates/class-link/src/section.rs:366-460 | the deep check passes if and only if the pool is tiled, every row leads to bytes of its hash and flags, every table says what its class file says with each String at a row of its bytes, `super_idx` is the class of the superclass's name, no superclass cycle, and the index ascends strictly by the hash of the name of a different class at each entry |
| SectionScan.CheckEachEntry | crates/class-link/src/section.rs:422-458 | the index loop with a mark for each class met |
| SectionScan.CrossCollisions | crates/class-link/src/section.rs:147-162 | over sorted indexes: none if and only if no hash is shared, else the first shared one |
| SectionRefusals.RefusalNamesFirst | crates/class-link/src/section.rs:366-460 | an unsound section is refused for what is wrong first: `BadPool`, `BadLiteral` of a row, the first class whose record does not read, whose table is not accepted, one of whose Strings has no row (`BadLiteral`) or whose superclass position is wrong (`BadSuperIndex`), `SuperCycle` of the least class that never leaves, or an index entry that does not fit, descends (`BadIndex`) or shares a hash (`DuplicateClass` or `HashCollision`, by the names) |
| AcceptedSection.IndexIsSortedPermutation | crates/class-link/src/section.rs:422-458 | an accepted index is strictly ascending by hash and names every class exactly once |
| AcceptedSection.FindClassExact | crates/class-link/src/section.rs:341-358 | in an accepted section the search for a name finds class `i` if and only if class `i` has that name, for any hash |
| AcceptedSection.NamesDistinct | crates/class-link/src/section.rs:438-457 | no two classes of an accepted section share a name |
| AcceptedSection.SuperIdxExact | crates/class-link/src/section.rs:407-419 | `super_idx` is `j` if and only if class `j` has the name of the superclass |
| AcceptedSection.ChainsLeave | crates/class-link/src/section.rs:421-421 | the superclass positions of an accepted section have no cycle |
| AcceptedSection.StringsNameTheirRows | crates/class-link/src/section.rs:382-406 | every String descriptor names a row that holds its constant's bytes, their hash and their flags |
| AcceptedSection.AcceptedClass | crates/class-link/src/section.rs:395-400 | every class of an accepted section reads, and its name hashes to the hash its table keeps |
| SectionBuild.SortSorts | crates/class-link/src/build.rs:210-210 | the sort orders the entries and keeps the same ones |
| SectionBuild.PatchedSuper | crates/class-link/src/build.rs:327-337 | patching changes no word but the superclass's, which then reads the first class of that name, or none |
| Numbering.NumberAllHolds | crates/class-link/src/build.rs:340-377 | rows stay distinct and point at their bytes in the pool; every descriptor of every class gets the row of its constant, and nothing else of a table changes |
| Numbering.RowsInOrder | crates/class-link/src/build.rs:340-377 | the rows are the constants of the set, each once, in order of first appearance |
| Numbering.EachConstantHasOneRow | crates/class-link/src/build.rs:355-376 | the row a descriptor names is the only one with its constant's bytes |
| SectionBuilder.NumberLiterals | crates/class-link/src/build.rs:340-377 | the nested loops over classes and strings, with their map, answer that numbering |
| SectionBuilder.PoolClasses | crates/class-link/src/build.rs:302-309 | the set pooled class by class through one `Pool` |
| SectionBuilder.IndexClasses | crates/class-link/src/build.rs:197-222 | sorted, then every neighbour compared; the first pair that shares a hash is the error |
| SectionBuilder.PlaceSupers | crates/class-link/src/build.rs:327-337 | the superclass words patched in place, table by table |
| SectionWriter.WriteSection | crates/class-link/src/build.rs:378-437 | appending with blanks and patching header, directory and pool words later gives the bytes laid out at once from offsets known beforehand |
| SectionWriter.WriteRecords | crates/class-link/src/build.rs:380-398 | records appended, each directory entry patched as soon as its offsets are known |
| SectionWriter.PlacePools | crates/class-link/src/build.rs:428-435 | each table's pool words patched inside the buffer, nothing else touched |
| SectionLayout.LaidOutParses | crates/class-link/src/section.rs:197-250 | what is laid out parses at any aligned address |
| SectionLayout.ClassReads | crates/class-link/src/section.rs:280-310 | reading class `i` of a laid-out section gives back its bytes and table |
| SectionLayout.IndexReads | crates/class-link/src/section.rs:319-329 | reading entry `k` of the index gives back the entry written |
| BuiltSection.BuiltIsSized | crates/class-link/src/build.rs:440-444 | no set that builds overflows the 32-bit offsets |
| BuiltSection.TableSame | crates/class-link/src/build.rs:327-377 | the tables of a built section differ from the linked ones in the section's words alone |
| BuiltIsAccepted.SectionPasses | crates/class-link/src/section.rs:366-460 | a built section passes the deep check |
| BuiltIsAccepted.BuiltSectionDelivers | crates/class-link/src/build.rs:297-438 | if building succeeds, its bytes at any 4-aligned address parse and validate, hold exactly the classes given, each restored byte for byte and found, at its place, by the name its class file gives itself, with its superclass named as there, and under the expected name if one was given |
| SectionBuilder.BuildBytes | crates/class-link/src/build.rs:284-438 | the method that runs every step answers the specified bytes; it builds if and only if the set is buildable, and what it builds delivers |
| BuildExact.BuildsExactly | crates/class-link/src/build.rs:297-438 | a set builds if and only if, from the files alone: at most 4096 classes, each read by the format as linkable; the empty string and all their strings, each once, fit 4 * 65535 bytes; the names are those expected if any are; no two names share a hash; no superclass way comes back; at most 0x3000 distinct String constants |
| BuildRefusals.RefusalsExactly | crates/class-link/src/build.rs:297-438 | a set of readable files that does not build is refused with `TooManyClasses`, `PoolTooLarge`, or for the first that fails: `NameMismatch` of the first class not named as expected, `DuplicateClass` or `HashCollision` of two classes whose names share a hash, `SuperCycle` of the first class one can climb from forever, `TooManyLiterals` |
| BuildExamples.ExpectingOwnNames | crates/class-link/src/build.rs:291-296 | a build that expects the names the files have has the verdict of one that expects none |
| BuildExamples.MinimalClassBuilds | crates/class-link/src/build.rs:227-229 | a minimal class of any UTF-8 name but `java/lang/Object` builds |
| NeverInternal.BuildNeverInternal | crates/class-link/src/build.rs:297-438 | building any classes never ends in `Internal` |
| NeverInternal.ValidateNeverInternal | crates/class-link/src/section.rs:366-460 | validating any parsed bytes never ends in `Internal` |
| NeverInternal.LayingOutNeverFails | crates/class-link/src/build.rs:378-438 | once everything is linked and numbered, laying out cannot fail: every `le32_of` succeeds |
| Wire.ReferenceVarint | crates/fuzz-targets/src/protobuf.rs:17-30 | the reference loop reads the varint that `ReadVarint` does |
| Wire.VarintLen | crates/fuzz-targets/src/protobuf.rs:94-101 | the loop answers the length of the encoding, at most 10 |
| Wire.TenBytesAtMost | crates/fuzz-targets/src/protobuf.rs:85-101 | no 64-bit value takes more than ten bytes, and ten exactly when the sign bit is set |
| Wire.VarintReads | crates/fuzz-targets/src/protobuf.rs:17-30 | a varint written is read back, whatever follows it before the limit |
| Proto.TagSizeIsLength | sdk/java/picodroid/protobuf/CodedOutputStream.java:293-295 | a tag measured with wire type 0 is as long as the one written |
| Proto.SizeIsLength | tools/protoc-gen-picodroid/protoc_gen_picodroid.py:361-391 | `getSerializedSize()` is the number of bytes `writeTo` emits, for every schema and message, packed payloads and nested messages included |
| ProtoRoundTrip.ParsesToNormal | tools/protoc-gen-picodroid/protoc_gen_picodroid.py:319-358 | parsing what a message serialises to gives the message with its unsent negative zeros at zero |
| ProtoWire.WritesMessage | tools/protoc-gen-picodroid/protoc_gen_picodroid.py:355-358 | what `writeTo` emits spells the message by the wire format: its fields in order, each a record of tag `8 * number + wire type`, with the wire types 0, 1, 2 and 5, and a payload that spells the value |
| ProtoWire.WritesRecords | tools/protoc-gen-picodroid/protoc_gen_picodroid.py:74-74 | the bytes of any message are records of the encoding specification one after another, each with the payload its wire type dictates |
| ProtoReads.ParsesSpelled | tools/protoc-gen-picodroid/protoc_gen_picodroid.py:319-351 | any bytes that spell a message, whoever wrote them, parse to it, unsent negative zeros at zero |
| ProtoReads.ScalarRecordReads | tools/protoc-gen-picodroid/protoc_gen_picodroid.py:437-456 | a record that spells a scalar of a field is read into that field and no other, stored, flagged or added |
| ProtoReads.LastWins | tools/protoc-gen-picodroid/protoc_gen_picodroid.py:437-456 | of two records of a singular field the last stands |
| ProtoReads.PackedRecordReads | tools/protoc-gen-picodroid/protoc_gen_picodroid.py:333-346 | a packed record adds its elements, in order, to what the field held |
| ProtoReads.MessageRecordReads | tools/protoc-gen-picodroid/protoc_gen_picodroid.py:437-456 | a record of an embedded message gives its field the message that its bytes merge to |
| ProtoReads.KnownExactly | tools/protoc-gen-picodroid/protoc_gen_picodroid.py:327-348 | a tag falls into a field's `case` if and only if it has the field's number and wire type, or wire type 2 where the field packs |
| ProtoReads.UnknownRecordSkipped | tools/protoc-gen-picodroid/protoc_gen_picodroid.py:347-348 | a record whose number the schema lacks is stepped over whole, and fails if its wire type is none of the four |
| ProtoExact.VarintsExactly | crates/fuzz-targets/src/protobuf.rs:17-30 | a varint is read if and only if one of at most ten bytes stands there, to its low 64 bits |
| ProtoExact.TagsExactly | sdk/java/picodroid/protobuf/CodedInputStream.java:57-71 | `readTag` succeeds exactly on a varint whose low 32 bits name a field other than zero |
| ProtoExact.LengthsExactly | sdk/java/picodroid/protobuf/CodedInputStream.java:227-238 | a length is taken exactly when its low 32 bits have no sign bit and stay within the limit |
| ProtoExact.SkipsExactly | sdk/java/picodroid/protobuf/CodedInputStream.java:90-106 | an unknown value is passed over exactly when its wire type lets its bytes stand there |
| ProtoExact.ScalarsExactly | sdk/java/picodroid/protobuf/CodedInputStream.java:108-175 | a scalar is read exactly where its type lets one stand, as the value those bytes mean: an `int` the low 32 bits, a `bool` true unless all 64 are zero, zigzag undone |
| ProtoRoundTrip.RestoredExactly | tools/protoc-gen-picodroid/protoc_gen_picodroid.py:319-358 | a message is restored if and only if no singular `float` or `double` that is not `optional`, at any depth, holds a negative zero |
| ProtoRoundTrip.NegativeZeroIsLost | tools/protoc-gen-picodroid/protoc_gen_picodroid.py:459-473 | such a field is not on the wire and comes back as zero |
| ProtoRoundTrip.PackedOrNot | tools/protoc-gen-picodroid/protoc_gen_picodroid.py:327-346 | the elements of a packable field, sent one record each or packed, are added to the same list |
| ProtoEvolution.NarrowReadsKnown | tools/protoc-gen-picodroid/protoc_gen_picodroid.py:319-351 | under a schema that lacks some fields, any stream that the wider schema accepts gives the part of the wider schema's message that it knows, at every depth: unknown scalars, packed, embedded and repeated fields are all skipped, known ones merged alike |
| ProtoEvolution.OldReaderGetsKnown | tools/protoc-gen-picodroid/protoc_gen_picodroid.py:319-358 | so a message serialised under the wider schema and parsed under the narrower gives its known fields, unsent negative zeros at zero |
| ProtoStreams.Merge | tools/protoc-gen-picodroid/protoc_gen_picodroid.py:321-351 | the emitted loop over a stream with nested limits answers the specified message, or fails where it does, and stops at its limit |
| ProtoStreams.MergeField | tools/protoc-gen-picodroid/protoc_gen_picodroid.py:437-456 | one turn of the `switch`: limits pushed and popped, the field stored, flagged or added |
| ProtoStreams.CodedInput.PushLength | sdk/java/picodroid/protobuf/CodedInputStream.java:227-238 | a length that is negative or passes the limit is refused; otherwise the new limit lies inside the old one |
| ProtoStreams.CodedInput.PackedValues | tools/protoc-gen-picodroid/protoc_gen_picodroid.py:338-343 | the loop up to the pushed limit adds every element of the payload to the growing array, after what it held, or fails |
| ProtoStreams.CodedInput.PackedRecord | tools/protoc-gen-picodroid/protoc_gen_picodroid.py:333-346 | limit pushed, payload read to its end, limit restored |
| ProtoStreams.RepeatedField.Add | tools/protoc-gen-picodroid/protoc_gen_picodroid.py:408-428 | the element is appended and no other changes, whether or not the array had to double |
| ProtoStreams.RepeatedField.Get | tools/protoc-gen-picodroid/protoc_gen_picodroid.py:401-406 | the element at an index in range, none outside |
| ProtoStreams.RepeatedField.Clear | tools/protoc-gen-picodroid/protoc_gen_picodroid.py:430-434 | nothing is left, and the array is dropped with the count |
| ProtoOutput.SerializedSize | tools/protoc-gen-picodroid/protoc_gen_picodroid.py:361-376 | the emitted sums are the number of bytes written |
| ProtoOutput.CodedOutput.Put | sdk/java/picodroid/protobuf/CodedOutputStream.java:245-251 | the bytes are appended inside the window, or do not fit and nothing changes; bytes outside the window never change |
| ProtoOutput.CodedOutput.PutMessage | sdk/java/picodroid/protobuf/CodedOutputStream.java:142-222 | an embedded message behind the size it answers for itself is length-prefixed correctly |
| ProtoOutput.CodedOutput.WriteTo | tools/protoc-gen-picodroid/protoc_gen_picodroid.py:355-358 | the emitted fields append exactly the specified bytes, and it fails exactly when they do not fit |
| ProtoOutput.ToByteArray | tools/protoc-gen-picodroid/protoc_gen_picodroid.py:379-391 | it never runs out of space and `checkNoSpaceLeft` never fails: the array answered is the message's bytes |

## Left out

Of the linker:

- Closures and iterators: `walk_cp`'s visitor is modelled as the list of visits it is called with, up to the refusal of the walk; `super_of` and the class iterators are sequences.
- The two implementations of `Sink` are one class with a flag; the two of `CpView` are one value, which is what `Linking.ViewShown` needs and proves. The link table and the section are sequences that are reassigned or patched, so aliasing between a table and the section it lies in is not modelled.
- `sort_unstable_by_key`, `partition_point` and `BTreeMap` are library code: an insertion sort, a binary search and `map` stand for them.
- The validator's 64-bit words of marks are an array of booleans.
- The three hashes and UTF-8 validity are uninterpreted (`Env`). Hashes that collide are covered; that FNV-1a or `String.hashCode` has a given value is not.
- Raw pointers, alignment casts and lifetimes; an address appears only as the number whose remainder by 4 `parse` checks.
- Allocation failure (`OutOfMemory`), the `Display` of errors, and `debug_assert!`s.
- DeriveRefusals.RefusalNamesFault: says of `Truncated` only that it may occur.
- The refusal of `le32_of` is one test of the whole layout instead of one at each call; `NeverInternal.LayingOutNeverFails` proves that it never refuses.
- Accessors that only read one more field of a table (`method_max_stack`, `cp_member_ref` and the like), `simple_class` with code, `hash_in_sorted`, `link_class`: easy members.
- `read_lines`, `emit_names`, `rust_ident_for` and the other text generation of `crates/build_support/names.rs`.
- The interpreter behind `terminates` (`crates/jvm/src/interpreter`): a run is any sequence of fall-throughs and branches, whatever the values computed, so that it may go on where the interpreter would throw; what calls and exceptions do is not part of this model. A `jsr` may jump or continue after itself, which is where the `ret` of its subroutine returns; a `ret` has no step of its own.
- Interp.AcceptedRunsHalt: like the theorems of `Boundaries`, speaks of runs inside one method's code that start at 0; a handler's entry point is not a step.

Of the protobuf classes:

- The text of the emitted Java: imports, naming, keyword escaping, accessors of singular fields, and the generator's refusals of `map`, `oneof`, groups, extensions and proto2. A field number from 2^28 on makes a `case` label that is no Java `int`; the model treats it as the tag it stands for.
- The native methods behind the stream classes (`crates/pd-protobuf/src`, `crates/picodroid-core/src/native_handler/protobuf`) hand each value to micropb's codec, which is not in the repository, and are not part of this model; fixed and varint reads follow the reference decoder of `crates/fuzz-targets/src/protobuf.rs`. The numbers it keeps for a `float` are `floatToIntBits`, so there is one NaN.
- Strings are their bytes: decoding and encoding a Java `String` is not part of this model.
- ProtoRoundTrip.RestoredExactly: for messages of fewer than 2^31 bytes, the most a Java array holds. Sizes are unbounded naturals otherwise, so that a size that wraps is not modelled.
- `pushLimit` adds its argument to the position in 32 bits; the model compares the true sum with the limit, which differs only in streams close to 2^31 bytes.
- A write that fails has left its earlier pieces in the array; what they are is not stated, as `toByteArray` drops the array.
- Exceptions are an absent result: which of them is thrown is not stated.
