# TinyCC in Dafny

A model of the parts of TinyCC that manipulate data structures with hard invariants: the
one-pass code generator of the C front end and its i386 back end, the ELF linker, the PE
base-relocation writer and the assembler's expression evaluator. Code that the C program
updates in place is a class whose methods follow the C function branch by branch; each such
method is proved to leave exactly the state that a specification function gives, and the
laws are lemmas about those functions.

`dafny verify dfyconfig.toml` checks everything.

## What is modelled

**Statements and conditions** (`JumpCode`, `Control`, `Positions`, `Patching`, `Regions`,
`OnePass`, `Simulation`, `Correct`). The code buffer is a sequence of byte-sized cells; a forward jump
leaves the previous element of its list in its displacement, 0 ends a list, and `gsym_addr`
walks the list. `OnePass.CodeGen` generates code in one pass, as `block` and the expression
parser do, and is proved to leave what a two-pass compiler that knows every address would
emit (`Control.Emit`). `Simulation` proves that code right by running it on a small machine.
The main theorem, `Correct.SamePrograms`, says that for every accepted program and every
oracle for its opaque instructions the machine halts with a history of evaluated atoms
exactly when the source finishes with it. Cases may sit anywhere inside a switch, in the
middle of loops too. The source is given meaning by `Control.Exec`, whose fuel bounds how
often a loop may go round; the theorems quantify over it.

**Values on the stack** (`Spill`, `LongLong`, `LongCompare`, `Words`). Spilling keeps what
every entry means under an exact condition; 64-bit operations on a 32-bit target compute
what they should, and comparisons reach their jump list exactly when they fail.

**Constants, bit-fields, scopes** (`ConstFold`, `Operators`, `BitFields`,
`StructLayout`, `Scopes`). Folding is the operation C means, which `Operators` states by
congruences, single bits and remainders.

**Linking** (`Buffers`, `ElfSymbols`, `Linker`, `Merging`, `MovedSymbols`, `Placement`,
`Archive`, `SortSyms`, `DynRel`, `ElfLayout`). The symbol table with its hash index, the
loading of objects and archives, the final sort of symbols, dynamic relocations, and the
placement of sections.

**PE base relocations** (`PeReloc`; section 6.6 of the Microsoft PE/COFF specification) and
**assembler expressions** (`AsmSyntax`, `AsmExpr`, `AsmLaws`, `AsmParser`).

### Where the code does not do what one would expect

- `ElfSymbols.CommonOrderMatters`: a visible common symbol that comes after a strong
  definition is reported as defined twice; before an ordinary visible one it is not.
  `ElfSymbols.AbsoluteLost` and `ElfSymbols.HiddenLost`: an absolute definition that comes
  after a common symbol is reported and lost, a hidden one is lost without a report.
  `ElfSymbols.CommonOrder` says for every order which definition is kept and how many
  reports there are.
- `Merging.WrongTarget`: a relocation section of an object is merged by its name alone, so its
  entries may come to apply to another section. `Merging.TargetKept` gives the exact
  condition.
- `Merging.MovedTwice`: when one object has two relocation sections of the same name, the
  entries of the second are renumbered and moved twice. `Merging.RelocationsName` says how
  often every entry is, and `Merging.RightlyPassed` when the entry is right nevertheless.
- `Merging.KeptTwice`: the relocations of a link-once section that is dropped are added to
  those of the section that was there. `Merging.RelocationsName` says what they come to name.
- `Archive.DishonestLoops`: an archive whose index promises a wanted symbol that none of its
  members defines is loaded from in every one of any number of passes; `Archive.EmptyLoops`
  is a member for which all of them succeed. `Archive.EndsUnlessStuck` says exactly when the
  loop ends.
- `Operators.Escapes`: an `unsigned int` and all its ones is not simplified, since the constant
  is held without its sign; `Operators.NeutralExactly` says that nothing else escapes.
- `LongLong.OneTwice`: lowering a shift by 0, which constant folding drops, would be wrong.
  `LongLong.ZeroCount` says exactly when.
- `Spill.SharedHalf` and `Spill.PairSpoiled`: a register that is the upper half of one entry
  and the whole of another is not freed, or the pair is lost. `Spill.SavedRight` and
  `Spill.SavedAllRight` give the exact conditions, for one spill and for many.
- `Scopes.Symbols.PushGlobal`: a second file-scope symbol of a name goes behind the first, out
  of step with the stack. No caller adds one.
- `StructLayout.UnnamedOverlaps`: an unnamed bit-field that opens a unit leaves it without
  storage, and a named one that continues the unit is put into the storage before it.
  `StructLayout.LayoutExact` says exactly when members are still in order and within the
  structure, and `StructLayout.StrayOpener` which fields are concerned.
  `StructLayout.NoStorage` is a structure with a member and no storage.
- `ElfLayout.WritableDrifts`: read-only sections without contents that do not fill whole pages
  put every writable section out of step with the file; `ElfLayout.HighAgrees` is exact.
- `ElfLayout.StartDrifts`: a section alignment that the start address is no multiple of puts
  everything out of step; `ElfLayout.StartAgrees` is exact.
- The comment in `gen_opl` that shows the stack after the last exchange of a multiplication
  (tccgen.c:1167) has two entries the wrong way round; the code is what is modelled.

### Assumptions

Alignments and the page size are powers of two. Programs are smaller than 2^31 bytes, so
displacements do not wrap. Right shifts and shift counts of the compiler itself are those of
an x86 host, and its 64-bit arithmetic wraps. `elf_hash` is an arbitrary function. Contents
of object files and archives are given already decoded, and well-formed.

## Model

| member | source | states |
|---|---|---|
| Correct.SamePrograms | tccgen.c:4476-4880 | for every accepted function body and every oracle, the generated code halts after a history of atoms exactly when the source finishes with it, and a returned value is in the register |
| Correct.HaltMeansFinish | tccgen.c:4476-4880 | code that halts after k steps ran a source that finishes within k + 1 loop rounds |
| Correct.Diverges | tccgen.c:4511-4731 | a source that never finishes is matched round for round by code that never halts |
| Correct.NoStray | tccgen.c:4660-4675 | outside loops and switches nothing is left by break or continue |
| JumpCode.Flip | i386-gen.c:676-684 | flipping the low bit of a condition code negates the condition |
| Simulation.ShortExactly | i386-gen.c:663-673 | short jumps and comparisons are taken exactly where a sign-extended byte holds the number |
| OnePass.CodeGen.Psym | i386-gen.c:155-172 | the opcode and displacement are appended, and the returned address heads the list extended by it |
| OnePass.CodeGen.GsymAddr | i386-gen.c:139-148 | every displacement on the list leads to the address, and no other cell changes |
| OnePass.CodeGen.GjmpAddr | i386-gen.c:663-673 | a backward jump, short when it reaches |
| OnePass.CodeGen.Gtst | i386-gen.c:676-718 | the test code for every kind of value, its list on top of the one given |
| OnePass.CodeGen.Merge | i386-gen.c:685-692 | two lists become one by a single write into the last link of the first |
| OnePass.CodeGen.Gexpr | tccgen.c:3656-3670 | negation of constants, flags and jumps; the code and place that the two-pass compiler has |
| OnePass.CodeGen.GexprChain | tccgen.c:4163-4201 | the code of a chain of && or \|\| and the list of all its jumps |
| OnePass.CodeGen.LoadJump | i386-gen.c:276-281 | loading a jump value |
| OnePass.CodeGen.GexprPop | tccgen.c:1034-1049 | a value that is thrown away has its jumps bound here |
| OnePass.CodeGen.Block | tccgen.c:4476-4880 | every statement form leaves its two-pass code, with the lists of break, continue, return and case tests it was handed extended by its own |
| OnePass.CodeGen.BlockIfElse | tccgen.c:4496-4510 | if with else |
| OnePass.CodeGen.BlockWhile | tccgen.c:4511-4524 | while |
| OnePass.CodeGen.BlockFor | tccgen.c:4676-4714 | for, with any of its parts missing |
| OnePass.CodeGen.BlockDo | tccgen.c:4716-4731 | do while |
| OnePass.CodeGen.BlockSwitch | tccgen.c:4733-4753 | switch: the jump to the first case test, and the default or the end for the last one that fails |
| OnePass.CodeGen.BlockCase | tccgen.c:4755-4785 | case and case ranges, with the jump over the test for code that falls in |
| OnePass.CodeGen.BlockDefault | tccgen.c:4787-4796 | default |
| OnePass.CodeGen.GenFunction | tccgen.c:5693-5696 | a whole body, its returns bound to the end |
| Positions.AcceptedExactly | tccgen.c:4660-4792 | a function body is accepted if and only if every break is in a loop or a switch, every continue in a loop, every label in a switch, and no switch has two defaults of its own, by positions in the body |
| Positions.PlacedExactly | tccgen.c:4660-4792 | the same inside other statements, whatever is allowed there |
| Patching.LinkedAppend | i386-gen.c:685-692 | writing one link appends a list |
| Regions.PatchRegion | i386-gen.c:139-153 | patching a list turns exactly its open displacements in a stretch of code into jumps to the address |
| Simulation.RunExpr | tccgen.c:4163-4201 | expression code evaluates the atoms C asks for in order and leaves the value where its place says |
| Simulation.RunTest | i386-gen.c:676-718 | the list is reached exactly when the truth of the value differs from `inv` |
| Simulation.RunReg | i386-gen.c:271-281 | loading a jump or flags value yields 0 or 1 |
| Simulation.SkipCases | tccgen.c:4755-4785 | dispatch finds the first case that matches, else the default, else the end |
| Simulation.RunStmt | tccgen.c:4476-4880 | a statement entered at its start, at a case or at its default takes the machine through the source's history to where its outcome leads |
| Control.OneDefault | tccgen.c:4787-4792 | at most one default in a switch |
| Control.LabelsNeedSwitch | tccgen.c:4755-4790 | labels only inside a switch |
| Spill.SavedRight | tccgen.c:496-556 | spilling a register frees it and keeps what every entry means, for all machine states, if and only if no concerned entry holds a register apart from the pair that is stored |
| Spill.SharedHalf | tccgen.c:506-511 | a concrete stack on which it does not |
| Spill.SinglesUniform | tccgen.c:496-556 | stacks without register pairs meet the condition |
| Spill.ValueStack.SaveReg | tccgen.c:496-556 | the marked entries, the new frame slot and the emitted stores |
| Spill.SlotTight | tccgen.c:513-524 | the slot is as high in the frame as its size and alignment let it |
| Spill.ValueStack.FindFree | tccgen.c:589-600 | the first free integer register, or none is free |
| Spill.ValueStack.GetReg | tccgen.c:584-619 | always finds a register, never -1; if one must be spilled it is that of the lowest entry, and it is free and every entry keeps its meaning if and only if the stack is well paired |
| Spill.ValueStack.SaveRegs | tccgen.c:622-633 | the stack, frame and stores that spilling the lower entries one after another leaves, with none of them in a register, and every entry with its meaning if and only if each spill is well paired |
| Spill.SavedAllRight | tccgen.c:622-633 | over all these spills every entry keeps its meaning, for all machine states, if and only if each of them is well paired |
| Spill.PairSpoiled | tccgen.c:622-633 | a concrete stack on which a pair is lost |
| LongLong.AddHalves | tccgen.c:1175-1185 | the two words with carry are the sum modulo 2^64 |
| LongLong.SubHalves | tccgen.c:1175-1185 | the two words with borrow are the difference modulo 2^64 |
| LongLong.MulHalves | tccgen.c:1155-1174 | the word products add up to the product modulo 2^64 |
| LongLong.BitHalves | tccgen.c:1186-1193 | bitwise operations go by words |
| LongLong.ShiftLowered | tccgen.c:1198-1252 | for every count from 1 to 63 the lowered SHL, SHR and SAR are the 64-bit shifts |
| LongLong.ZeroCount | tccgen.c:1229-1250 | what a count of 0 would leave, and that it is the value if and only if the word that takes in the bits of the other has them already |
| LongLong.OneTwice | tccgen.c:1229-1250 | a value for which it is not |
| LongLong.ValueStack.VRotB | tccgen.c:1000-1009 | one rotation of the top n entries |
| LongLong.ValueStack.LExpand | tccgen.c:946-959 | a pair becomes its two words |
| LongLong.ValueStack.GenOpl | tccgen.c:1135-1197 | the stack ends with the 64-bit result of + - * & \| ^ |
| LongLong.ValueStack.GenShift | tccgen.c:1198-1252 | the stack ends with the two words of the lowered shift |
| LongLong.ValueStack.GroupPairs | tccgen.c:1270-1279 | the operands of a comparison as words, the upper ones on top |
| LongCompare.HighDecides | tccgen.c:1280-1314 | unequal upper words decide every comparison |
| LongCompare.LowDecides | tccgen.c:1315-1329 | equal upper words leave it to an unsigned comparison of the lower words |
| LongCompare.RunLong | tccgen.c:1268-1330 | for all ten comparisons the code reaches its list exactly when the 64-bit comparison fails, looking at the lower words only when it must |
| LongCompare.PairsDenote | tccgen.c:1276-1279 | the words of two values on the stack, read as signed, denote the signed values |
| LongCompare.RunCompare | tccgen.c:1268-1330 | the code for two values on the stack reaches its list exactly when the comparison of their 64 bits fails |
| LongCompare.GenOplCompare | tccgen.c:1268-1330 | the one-pass generator takes both operands off the stack, compares their upper and then their lower words, and leaves that code and the list of its value |
| Words.BitwiseSplit | tccgen.c:1186-1193 | a bitwise operation on a word is the operation on its two parts |
| Words.PowerTest | tccgen.c:1436-1436 | l & (l - 1) is zero exactly for powers of two |
| ConstFold.FoldRefines | tccgen.c:1347-1414 | folding in 64 bits and cutting to the type is the operation on int, unsigned, long long and unsigned long long wherever C defines it, the logical operators included |
| Operators.MachineMeans | tccgen.c:1366-1414 | the word each operator yields is the one word that C determines: by congruence, single bits, quotient and remainder, or truth; no other word is |
| Operators.DefinedExactly | tccgen.c:1375-1389 | apart from shifts and pointer differences, an operation is left undefined exactly when it has no result, a remainder when there is no quotient |
| Operators.ReportedExactly | tccgen.c:1375-1384 | a constant divisor is refused exactly when the operation has no value whatever is divided |
| Operators.NeutralExactly | tccgen.c:1423-1433 | a constant is dropped exactly if it changes no value of the type, all ones of an unsigned int apart |
| Operators.Escapes | tccgen.c:1430-1431 | all ones of an unsigned int changes nothing and is not dropped |
| ConstFold.Neutral | tccgen.c:1423-1433 | dropping a neutral constant keeps the value |
| ConstFold.Commutes | tccgen.c:1416-1422 | exchanged operands give the same value |
| ConstFold.Reduced | tccgen.c:1434-1449 | multiplications, unsigned and exact pointer divisions by 2^n are shifts by n |
| ConstFold.PowerOf | tccgen.c:1436-1442 | the exponent of a positive power of two, counted by shifting |
| ConstFold.AmountRight | tccgen.c:1452-1459 | what is added to the constant of an address is the operation |
| ConstFold.GenOpic | tccgen.c:1337-1472 | whatever the operands turn out to be, the outcome is worth the operation, or where no code is wanted the first operand stands for it; fails exactly on a division by zero where a constant is wanted |
| StructLayout.LayoutExact | tccgen.c:2854-2953 | in every structure members begin at their alignment; they are in order without overlap if and only if none that continues a unit without storage, or follows such a one, begins before the member before it ends; they are within the storage if and only if those are |
| StructLayout.LayoutSound | tccgen.c:2854-2953 | so all is well if no named bit-field continues a unit that an unnamed one opened |
| StructLayout.Packed | tccgen.c:2854-2953 | a member that continues the run of bit-fields before it begins right after the bits taken; any other at the least multiple of its alignment after the storage so far, which it then ends; what makes no member takes nothing |
| StructLayout.NextBits | tccgen.c:2885-2903 | a named bit-field right after one of its type is put right behind it in the same storage exactly if it fits in what is left there |
| StructLayout.AlignLargest | tccgen.c:2904-2920 | the alignment is 1 or that of the most aligned member that takes storage |
| StructLayout.AcceptedExactly | tccgen.c:2830-2884 | bit-fields are accepted exactly if of a scalar type and no wider, with a bit at least if they are named |
| StructLayout.StrayOpener | tccgen.c:2885-2908 | a named bit-field is such a stray if and only if the declarator that opened its unit allocated nothing |
| StructLayout.StrayHarms | tccgen.c:2885-2920 | a stray allocates nothing, and unless the storage before it has bits to spare it begins inside the member before it or ends outside the storage |
| StructLayout.NoStorage | tccgen.c:2888-2920 | a structure in which a stray is all there is, and lies outside the storage |
| StructLayout.UnnamedOverlaps | tccgen.c:2888-2920 | a structure in which a stray lands in the member before it |
| StructLayout.UnionSound | tccgen.c:2904-2920 | members of a union start at its first bit and fit |
| StructLayout.UnionPacked | tccgen.c:2904-2920 | a union is as large as the largest of its members |
| StructLayout.StructDecl | tccgen.c:2854-2953 | the loop over members, its errors, and a size that is the least multiple of the alignment |
| BitFields.StoreExact | tccgen.c:2457-2502 | a store changes the field to the low bits of the source and nothing else in the unit |
| BitFields.OthersKept | tccgen.c:2457-2502 | bit by bit, nothing outside the field changes |
| BitFields.LoadExact | tccgen.c:701-724 | a load yields the field, zero- or sign-extended |
| BitFields.ReadBack | tccgen.c:701-724 | loading what was stored gives the source cut to the width of the field |
| BitFields.LoadLocal | tccgen.c:701-724 | how a narrow unit is extended does not matter |
| Scopes.Symbols.Find | tccgen.c:202-208 | the head of a name's chain is what a search of the local and then the global stack finds |
| Scopes.Symbols.FindByScan | tccgen.c:182-190 | the same by walking the stacks |
| Scopes.Symbols.Redefined | tccgen.c:157-161 | a name bound above the bottom of the innermost scope |
| Scopes.Symbols.PushLocal | tccgen.c:154-178 | pushing keeps stacks and chains in step, and fails exactly on a redefinition |
| Scopes.Symbols.PushFileScope | tccgen.c:211-236 | the same while there is no local stack |
| Scopes.Symbols.PushGlobal | tccgen.c:239-254 | a file-scope symbol goes to the end of its name's chain; stacks and chains stay in step if and only if the name had none |
| Scopes.Symbols.PopLocal | tccgen.c:257-281 | popping to an earlier top |
| Scopes.Symbols.PopGlobal | tccgen.c:257-281 | popping the global stack |
| Scopes.BindingsRestored | tccgen.c:154-281 | over any well-nested run, popping back restores every binding but those newly made at file scope |
| Buffers.Section.Realloc | libtcc.c:370-383 | contents stay, room grows, what is new is zero |
| Buffers.Section.PtrAdd | libtcc.c:388-398 | the contents stay and take in what stands after them, which is zero if nothing was given up before |
| Buffers.Section.Rewind | tccelf.c:63-63 | giving up contents, and when that leaves something else than zeros |
| Buffers.DynArray.Add | libtcc.c:274-292 | growing only at powers of two never writes past the allocation |
| ElfSymbols.SymTab.constructor | tccelf.c:1252-1279 | the first state of the index |
| ElfSymbols.SymTab.RebuildHash | tccelf.c:54-84 | every bucket and link of the new index |
| ElfSymbols.SymTab.Put | tccelf.c:87-132 | appends a symbol; the index stays right and never holds more than two symbols a bucket |
| ElfSymbols.SymTab.Find | tccelf.c:136-157 | terminates with the largest index of a non-local symbol of that name, 0 if none, as a scan would |
| ElfSymbols.NewestBelow | tccelf.c:147-155 | what skipping down a chain leaves out |
| ElfSymbols.ChainsDescend | tccelf.c:54-84 | links lead strictly downwards |
| ElfSymbols.SymTab.Add | tccelf.c:191-265 | the table, index and error count of the resolution rules |
| ElfSymbols.AddAllMonotone | tccelf.c:191-265 | over any requests at most one entry a name, at a fixed index, and defined stays defined |
| ElfSymbols.FoldIsAddAll | tccelf.c:191-265 | however requests for different names are interleaved, the entry and the reports of a name are what its own requests make, one after another, of the entry there was |
| ElfSymbols.ReportsAddUp | tccelf.c:191-265 | the reports of all names add up to the error count |
| ElfSymbols.StrongWins | tccelf.c:202-257 | in whatever order one strong and any weak definitions and references arrive, the strong one is kept and nothing is reported |
| ElfSymbols.FirstStrong | tccelf.c:202-257 | of several strong definitions the first is kept, unless a common symbol keeps it out, and each visible common or strong one after it is reported |
| ElfSymbols.FirstWeak | tccelf.c:229-232 | of weak definitions and references the first definition is kept, and nothing is reported |
| ElfSymbols.WeakInTable | tccelf.c:191-265 | the same of the table, with requests for any other names in between |
| ElfSymbols.LastShared | tccelf.c:226-239 | with common symbols and no strong definition the last visible common one is kept, or the first if no visible one comes after it |
| ElfSymbols.LastReference | tccelf.c:248-256 | of references alone the last is kept |
| ElfSymbols.StrictestHolds | tccelf.c:204-220 | once a name is defined the strictest visibility asked for holds, whatever definition is kept |
| ElfSymbols.CommonOrder | tccelf.c:202-257 | one strong definition among common symbols, weak definitions and references in any order: it is lost exactly if it is hidden or absolute and comes after a common one; and the number of reports in either case |
| ElfSymbols.StrongInTable | tccelf.c:191-265 | the same of the table, with requests for any other names in between |
| ElfSymbols.AbsoluteLost | tccelf.c:235-247 | an absolute definition that is reported and lost |
| ElfSymbols.HiddenLost | tccelf.c:233-234 | a hidden definition that is lost without a report |
| ElfSymbols.CommonOrderMatters | tccelf.c:233-247 | two orders with different reports |
| Linker.LinkState.PlaceSection | tccelf.c:2426-2510 | one section merged at the next aligned offset, in a new or an existing section |
| Placement.PlacedTight | tccelf.c:2426-2510 | contents go to the section of their name, or to a new one like theirs, at the least aligned offset with zeros before them, and nothing else changes |
| Linker.LinkState.constructor | libtcc.c:1000-1013 | the standard sections |
| Linker.LinkState.LinkSections | tccelf.c:2524-2539 | links of new sections, those to the symbol table included, and targets and back links of relocation sections |
| Placement.LinksRight | tccelf.c:2524-2539 | new sections are linked to what their header says has become, older ones as they were |
| Placement.BackLink | tccelf.c:2533-2537 | the link back from a section is to the last new relocation section for it |
| Linker.LinkState.AddSymbols | tccelf.c:2545-2575 | symbols moved, added and renumbered |
| Linker.LinkState.PatchRelocs | tccelf.c:2577-2632 | relocations renumbered and moved, or an invalid one found |
| Linker.LinkState.LoadObject | tccelf.c:2402-2632 | the whole of it, failing exactly on two symbol tables, a section of another type or an invalid relocation |
| Placement.LoadsIf | tccelf.c:2402-2632 | a load succeeds if and only if there are no two symbol tables, sections have the types of those they go to, and every relocation names a symbol that has got a number |
| Placement.FlagIs | tccelf.c:2543-2606 | the last condition is waived if the last symbol that is defined in a section was in a dropped one |
| Merging.LoadPreserves | tccelf.c:2428-2539 | earlier contents, entries and targets stay, every section but link-once ones whose name is taken lands unchanged at an aligned range apart from all others, and the table keeps its order |
| Merging.RunPreserves | tccelf.c:2373-2632 | so over any sequence of objects |
| Merging.StandardOk | libtcc.c:1000-1013 | the standard sections are a table in order |
| Merging.SymbolsDenote | tccelf.c:2545-2575 | a symbol whose definition is kept denotes the byte it denoted in the file |
| MovedSymbols.SymbolsMoved | tccelf.c:2545-2575 | a symbol that is local, or alone in bearing its name, becomes its record in the file with the number of the section its own has become part of and its value moved as that was; or unchanged if it is in none |
| MovedSymbols.AloneDenotes | tccelf.c:2545-2575 | so it denotes the byte it denoted in the file |
| MovedSymbols.StrongMoved | tccelf.c:2545-2575 | a strong definition that meets only weak ones and references defines the name, moved as its section was |
| MovedSymbols.SymsAreRequests | tccelf.c:2545-2575 | loading symbols is adding their moved records one after another |
| Merging.DroppedSymbol | tccelf.c:2547-2560 | a symbol of a dropped section becomes the one of its name that is there, or the null symbol |
| Merging.TargetKept | tccelf.c:2447-2539 | the relocations of a section apply to the section of its target's name if and only if what decides for its own name, a section there already or else the first of the object, applies to a section called as the target |
| Merging.RelocationsName | tccelf.c:2577-2632 | every relocation is renumbered and moved once for each section of its own section's name up to that; if that is the first, and its target is kept, it names the same site, byte for byte, and the image of the same symbol; if its target is dropped it is not moved and applies to the section kept |
| Merging.PassedOnce | tccelf.c:2577-2632 | no earlier section has the name exactly if the section is the first of it |
| Merging.RightlyPassed | tccelf.c:2577-2632 | after earlier passes the entry is right if and only if they did not move it and led to a symbol with the same new index |
| Merging.WrongTarget | tccelf.c:2447-2539 | an object that loads, and whose relocations come to apply to the wrong section |
| Merging.MovedTwice | tccelf.c:2577-2632 | an object that loads, and one of whose relocations is moved twice |
| Merging.KeptTwice | tccelf.c:2447-2632 | an object that loads, and that leaves a word with two relocations |
| Archive.LoadAlacarte | tccelf.c:2676-2698 | where the loop ends, it ends with what its last pass leaves, failing if that fails |
| Archive.HonestEnds | tccelf.c:2676-2698 | the loop ends if every member defines what the index promises of it |
| Archive.EndsSoon | tccelf.c:2676-2698 | for members without link-once sections, a pass that loads nothing is among the first 2n + 1 for an index of n entries, or there is none |
| Archive.EndsUnlessStuck | tccelf.c:2676-2698 | as long as loads succeed, there is one if and only if after none of these passes a name is wanted while the members loaded bring no name of the index further |
| Archive.LoadRank | tccelf.c:2545-2575 | a load brings every name, from absent over wanted to defined, as far as the member does and no further |
| Archive.PassProgress | tccelf.c:2676-2698 | every load of a pass uses up an entry, so none is loaded for twice |
| Archive.ClosureCloses | tccelf.c:2676-2698 | at the end no symbol of the index is present but undefined |
| Archive.LoadDefines | tccelf.c:2545-2575 | a load defines a wanted symbol exactly when the member offers it |
| Archive.DishonestLoops | tccelf.c:2676-2698 | after any number of passes over an index that promises a wanted name no member has, at least as many members were loaded and the name is as wanted as before |
| Archive.EmptyLoops | tccelf.c:2676-2698 | a member under a wanted name that every pass loads with success and without effect |
| SortSyms.Bijection | tccelf.c:350-377 | renumbering is a bijection that fixes 0 |
| SortSyms.OrderKept | tccelf.c:350-377 | locals come first and each part keeps its order |
| SortSyms.SymbolMoved | tccelf.c:350-377 | every record is where its new index says |
| SortSyms.RelocationsFollow | tccelf.c:379-393 | every relocation keeps site and type and names the same record |
| SortSyms.Output.SectionsFollow | tccelf.c:379-393 | in every relocation section of the table, and in no other, entries are rewritten to name the record they named |
| SortSyms.Output.SortSyms | tccelf.c:337-395 | the sorted table, the number of locals, and all relocation sections of the table |
| DynRel.LinkedThenLoaded | tccelf.c:523-570 | wherever the object is loaded, linking and loading add to every word what relocation at that place would |
| DynRel.KeptSites | tccelf.c:538-566 | kept entries are in order and at their sites |
| DynRel.KeptExactly | tccelf.c:523-570 | an entry is kept exactly if linking alone cannot settle its word, with the symbol's dynamic index, and as a relative one if there is none |
| DynRel.Relocator.PrepareDynamicRel | tccelf.c:909-948 | the number reserved is the number kept |
| DynRel.Relocator.RelocateSection | tccelf.c:523-570 | compaction in place: the write cursor stays behind, kept entries first, the rest as it was |
| ElfLayout.OrderPermutes | tccelf.c:1908-1950 | every section is in the order exactly once |
| ElfLayout.OrderSorts | tccelf.c:1916-1950 | the order is by segment, by kind and by number |
| ElfLayout.ListApart | tccelf.c:1952-1986 | within a segment sections are aligned and apart in memory and in the file |
| ElfLayout.SegmentsApart | tccelf.c:1990-2002 | the segments are apart and share no page |
| ElfLayout.ImageTight | tccelf.c:1877-2002 | the image begins at the text address, or behind the headers in the page of the base; every section follows the one before it at the least aligned address, the writable ones moved by a page exactly if the others end inside one; and offsets go with addresses |
| ElfLayout.BeginsOnce | tccelf.c:1877-1895 | there is one such place to begin |
| ElfLayout.StartAgrees | tccelf.c:1877-1895 | address and offset agree at the start if and only if the text address is given or the base is a page |
| ElfLayout.StartDrifts | tccelf.c:1877-1895 | an image that does not |
| ElfLayout.LowAgrees | tccelf.c:1952-1986 | read-only sections with contents agree when the start does |
| ElfLayout.HighAgrees | tccelf.c:1952-2002 | writable ones agree, in an ELF file, exactly when read-only sections without contents fill whole pages |
| ElfLayout.WritableDrifts | tccelf.c:1952-2002 | an image with one that does not |
| ElfLayout.OthersApart | tccelf.c:2149-2161 | the other sections are apart in the file |
| ElfLayout.OthersTight | tccelf.c:2149-2161 | each at the least aligned offset after the one before |
| ElfLayout.Layouter.Layout | tccelf.c:1870-2003 | the loops leave that order and those places |
| PeReloc.Builder.BuildReloc | tccpe.c:976-1029 | terminates; reading the blocks back, all of a size that is a multiple of 4, gives every direct relocation in order |
| PeReloc.DecodeConcat | tccpe.c:976-1029 | blocks are read independently |
| PeReloc.DecodeBlock | tccpe.c:1015-1024 | one block, padding skipped |
| PeReloc.Builder.Store | tccpe.c:993-1005 | an address always fits a new block, so the retry ends |
| AsmSyntax.RoundTrip | tccasm.c:39-247 | the grammar reads back every printed expression |
| AsmSyntax.ParsePrint | tccasm.c:129-247 | at every level, whatever follows |
| AsmLaws.Grouping | tccasm.c:129-247 | products and shifts bind tightest, then bitwise operators, then sums; operators that bind alike group to the left |
| AsmLaws.ArithmeticMeans | tccasm.c:129-198 | each operator computes what C's does on unsigned 32-bit integers, and fails exactly where that has no value |
| AsmExpr.PlacementIndependent | tccasm.c:39-247 | for every accepted expression and every placement, constant plus symbol is its value modulo 2^32 |
| AsmExpr.CombinePlaced | tccasm.c:200-242 | the same for one operator |
| AsmLaws.RefusedExactly | tccasm.c:200-242 | a sum or difference is refused exactly if no constant and symbol are worth it for every placement |
| AsmLaws.ConstantExactly | tccasm.c:107-113 | a label is replaced by its value exactly if that does not depend on the placement |
| AsmExpr.ResolveWithin | tccasm.c:39-117 | references are to known labels, and naming only adds labels |
| AsmExpr.DefineBinds | tccasm.c:260-284 | a definition fails exactly on a second global one, and changes no defined label |
| AsmExpr.ForwardMeetsNext | tccasm.c:53-66 | a forward reference is to the label of that number defined next |
| AsmLaws.BackwardMeetsLast | tccasm.c:39-69 | over any run of definitions and references, one backward is to the label of that number defined last, and refused exactly if there is none |
| AsmLaws.SameLabel | tccasm.c:99-117 | all mentions of an identifier, whatever comes between, are of one label |
| AsmParser.Assembler.AsmExprUnary | tccasm.c:39-127 | reads, names and computes what the grammar, the naming and the evaluation give, failing exactly when they do |
| AsmParser.Assembler.AsmExprProd | tccasm.c:129-169 | the same for products and shifts |
| AsmParser.Assembler.AsmExprLogic | tccasm.c:171-198 | the same for bitwise operators |
| AsmParser.Assembler.AsmExpression | tccasm.c:200-247 | the same for sums |
| AsmParser.NewLabel | tccasm.c:260-284 | a label defined, or refused |

## Left out

- goto and labels, the conditional and comma operators, statement expressions, declarations
  inside functions and variable-length arrays.
- Instructions that only compute: they are opaque atoms whose values come from an oracle. A
  logical operator inside an arithmetic one is outside the modelled expressions.
- x86 encodings beyond opcodes, jumps and displacements. A displacement is one cell that
  holds the number, followed by three that hold nothing.
- Floating point, x86-64, ARM and C67 code generation.
- Aliasing between spilled slots and pointers held by the program: a slot is new, and nothing
  allocated lies at or below it.
- Correct.SamePrograms: does not bound the number of machine steps by the size of the source.
- OnePass.CodeGen.Gtst: long long and floating operands, which are compared with zero first.
- OnePass.CodeGen.Block: goto, labels, declarations and statement expressions.
- OnePass.CodeGen.BlockFor: a declaration in the first part.
- LongLong.ValueStack.GenShift: division, remainder and shifts by a variable count are calls
  into the run-time library.
- StructLayout.StructDecl: flexible arrays; and an anonymous structure is one member here,
  where the code enters each of its members.
- The free list of symbols: popped symbols are not used again.
- String tables: names are strings, not offsets.
- Linker.LinkState.PlaceSection: stab sections, which are merged without alignment.
- Linker.LinkState.LoadObject: the string offsets of stab entries; and relocation sections
  that apply to a symbol table.
- Linker.LinkState.constructor: the contents of the symbol and string tables, which are kept
  apart, and the private dynamic symbol table.
- Merging.LoadPreserves: objects with a new relocation section that applies to a dropped one
  (`Merging.Targeted`); the code would follow a null pointer.
- Placement.LoadsIf: objects two of whose relocation sections share a name.
- Archive.LoadAlacarte: needs that the loop ends, since otherwise it does not return.
- Archive.EndsSoon: members with link-once sections, which do less on a second load.
- DynRel.LinkedThenLoaded: relocation types of the i386 other than the absolute, relative and
  PLT ones do not touch the relocation section; their effect on data is left out.
- DynRel.Relocator.RelocateSection: the same types change no word here.
- ElfLayout.Layouter.Layout: program headers, and their sizes when a segment is empty.
- The hash index after symbols are sorted: it is not rebuilt, and no longer right.
- Reading and writing files, the preprocessor, option handling, error texts and warnings.
- AsmLaws.RefusedExactly: operands that are absolute labels, which the parser has replaced by their values.
- AsmLaws.ArithmeticMeans: shifts by 32 and more, to which C gives no value.
- Operators.DefinedExactly: shifts and pointer differences, for which C asks more than a result.
