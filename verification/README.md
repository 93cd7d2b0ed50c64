# Layout and printing of GTIRB modules, verified

This project models how `gtirb-pprinter` turns a GTIRB module into assembly text, and proves what
the two halves of that pipeline guarantee.

- **Layout.** The byte intervals of a section are fused wherever execution falls from one into
  another; then all intervals are placed end to end from address 0. `Layout.dfy` has the mutable
  objects; `Intervals.dfy` and `LayoutSpec.dfy` say what they compute; `Packings.dfy`,
  `MergeTheorems.dfy`, `Fallthroughs.dfy`, `LayoutTheorems.dfy` and `LayoutSuccess.dfy` prove what that
  means: nothing is lost, blocks keep their bytes, sections are contiguous and disjoint, a layout is
  stable, and it is known when it succeeds and what it leaves if it fails.
- **Printing.** `Printer.dfy` has the printer as a class that appends to a mutable `Emitter`. Its
  output is a sequence of events (`Events.dfy`): an event stands for a line or a few lines of
  assembly. The run-wide theorems are in `Greedy.dfy` (what is printed and what is replaced by a
  warning), `Labels.dfy` and `LabelOrder.dfy` (where labels are), `Notes.dfy`, `Lines.dfy` and
  `SymbolTable.dfy` (what an assembler sees of the lines, and finds defined in them), `Names.dfy`,
  `References.dfy` and `PrintedReferences.dfy` (when references resolve), `Bracketing.dfy` (section
  headers and footers), `DataImage.dfy` (bytes of data),
  `LocationCounter.dfy` and `Placement.dfy` (addresses after assembling), `Annotations.dfy`
  (comments and CFI directives), `SkipCoherence.dfy` (what is suppressed) and `Declarations.dfy`
  (syntax, functions, warnings). `SymbolNames.dfy` and `Renderings.dfy` say what the names and texts
  consist of, by the positions of symbols in their list and the digits of numbers. `Witnesses.dfy` has
  one input for each condition that can fail.
- **Both.** `Pipeline.dfy` and `EndToEnd.dfy` put the two halves together: the layout discharges
  the assumptions of the printer, and the bytes of a data block before the layout come out of the
  assembler at the place the layout gave them.
- **Text.** `Operands.dfy`, `OperandPrinters.dfy` and `OperandProofs.dfy` have the memory operands
  and immediates of the three syntaxes, with strict readers that invert them; `RunOperands.dfy` makes them the
  operands of the instructions in a run; `OperandSplitter.dfy` has the
  bracket-aware search for one operand, `Escapes.dfy` the string literals, `Numerals.dfy`,
  `Texts.dfy` and `Streams.dfy` what they need. `Common.dfy` and `Folds.dfy` have shared vocabulary.

Run-wide statements are folds over the events: a reader that tracks the open section, an assembler
that tracks a location counter, a reader that collects data bytes. The printer's own loops are
methods with invariants, proved against functions on values; theorems are about those functions.

Some findings, each with its proof:

- The merge takes the *last* code block of an interval as the source of a fallthrough, but walks the
  edges of the *first* one. A chain of three one-block intervals is therefore not merged completely,
  although the layout reports success (`Fallthroughs.ChainIsNotMerged`). Which inputs are merged
  completely is stated exactly by `Fallthroughs.MergesAllExactly`, and what success means by
  `MergeTheorems.MergeFixpoint`.
- A layout fails if and only if it leaves an interval that cannot be fused along a fallthrough edge of its
  first block (`LayoutSuccess.LayoutFailsExactly`); it has then placed the sections before that one and
  not touched those behind it (`LayoutSuccess.LayoutStopsAtFirst`). It succeeds if code ends with its
  interval, first blocks fall into their own interval or to the start of another one of the section, and
  no two intervals fall into the same one (`LayoutSuccess.LayableIsLaidOut`).
- The label of a symbol is marked if it is a reserved word (`SymbolNames.Renaming`); the name of a function
  is not, so that a function called `and` is declared under a name that references do not use
  (`SymbolNames.ReservedFunction`).
- An AArch64 operand with an index but neither base nor displacement prints like one with a base
  (`OperandProofs.A64IndexReadAsBase`); in all other cases the operand can be read back, even one
  that consists of a shift after a lone comma.
- A string-encoded data block that does not consist of non-NUL bytes and one final NUL is printed as
  other bytes (`DataImage.DataRestored`, `Witnesses.StringGrows`), except when it is all zero.
- Labels are at strictly increasing addresses if and only if no empty data block is printed: an empty
  block gets its labels twice (`LabelOrder.LabelsIncreaseExactly`, `Witnesses.EmptyDataRepeats`).
- An overlap warning does not end its line, so that the first label printed after it is lost in the
  comment (`Witnesses.WarningHidesLabel`); the lines of a block are not, since a block starts with a line
  end. In debug mode the address column consists of labels: `a0:` defines one, and `1f0:` cannot be read
  (`Witnesses.NoteIsALabel`).
- What an assembler finds defined is stated exactly by `References.RunShown`. A reference by name resolves
  if and only if its label is seen, nothing elsewhere has its name and every line can be read
  (`References.ReferencesResolve`). Outside debug mode and without warnings only a function whose name is
  made up can be in the way (`References.OwnNamesResolve`, `Names.OnlyMadeUpNamesCollide`), and that does
  happen (`Witnesses.MadeUpNameCollides`).
- Section headers and footers alternate if and only if the first item of every section that is not
  skipped is at the start of the section (`Bracketing.BracketedExactly`, `Witnesses.GapAtStart`). What is
  printed of a skipped section, as in debug mode, is in no section at all
  (`Bracketing.PrintedInItsSection`).
- A function header keeps distances if and only if its alignment adds no padding where it is
  (`LocationCounter.ItemAdvances`, `Witnesses.HeaderPads`); in a section at a multiple of 16 it never does
  (`Placement.AlignedIsUnpadded`), but the layout does not align sections.
- The eight no-ops at the beginning of Intel output end up in the text section and move its contents;
  distances inside the section are kept (`Placement.LocationIsAddress`).

Where documentation and code disagree the model follows the code: the comment at
`src/gtirb_layout/gtirb_layout.cpp:94` promises a merge for every fallthrough edge between code
blocks.

Debug assertions of the original are modelled as in a release build: they do nothing.

## Model

| member | source | states |
|---|---|---|
| Layout.ByteInterval.TakeOver | src/gtirb_layout/gtirb_layout.cpp:130-143 | afterwards the interval is the join of the two former ones: blocks and symbolic expressions of the target moved by the former size, sizes added, bytes appended |
| Layout.ByteInterval.TakeOverSymbolicExpressions | src/gtirb_layout/gtirb_layout.cpp:137-140 | all symbolic expressions of the target are added at shifted offsets, in whatever order they are visited |
| Layout.Section.JudgeEdge | src/gtirb_layout/gtirb_layout.cpp:96-126 | which edges are skipped, which make the merge fail, and which lead to a merge |
| Layout.Section.JudgeEdges | src/gtirb_layout/gtirb_layout.cpp:89-155 | the first edge of the first code block that is not skipped decides |
| Layout.Section.Fuse | src/gtirb_layout/gtirb_layout.cpp:129-144 | the source interval absorbs the target, which leaves the section; no other interval changes |
| Layout.Section.FindAndMergeBIs | src/gtirb_layout/gtirb_layout.cpp:86-157 | the mutable merge computes the merge on values, terminates, and only ever removes intervals, as long as what it fuses has all its bytes |
| Layout.Section.AssignAddresses | src/gtirb_layout/gtirb_layout.cpp:173-177 | intervals are placed end to end in 64-bit arithmetic; returns the address behind the last |
| Layout.LayoutModule | src/gtirb_layout/gtirb_layout.cpp:159-181 | sections are merged and placed in turn; the first that cannot be merged ends the loop and leaves later sections untouched |
| Layout.RemoveModuleLayout | src/gtirb_layout/gtirb_layout.cpp:183-193 | every interval of every section loses its address, and nothing else changes, whatever its bytes |
| MergeTheorems.MergeConservesStock | src/gtirb_layout/gtirb_layout.cpp:129-148 | whether or not the merge succeeds, the multisets of code and data blocks and the total size are unchanged |
| MergeTheorems.MergeConservesBlocks | src/gtirb_layout/gtirb_layout.cpp:129-148 | every block keeps its bytes and the symbolic expressions inside it; blocks of one interval stay together at the same distance |
| MergeTheorems.JoinExpressions | src/gtirb_layout/gtirb_layout.cpp:137-140 | the symbolic expressions of the absorbed interval are at their shifted offsets afterwards, whatever was there, and those of the other one stay otherwise |
| MergeTheorems.MergeKeepsIntervalsApart | src/gtirb_layout/gtirb_layout.cpp:129-148 | blocks of different intervals never come to overlap |
| MergeTheorems.MergeFixpoint | src/gtirb_layout/gtirb_layout.cpp:86-156 | the merge succeeds if and only if, in its result, every fallthrough edge of a first block stays inside its interval |
| MergeTheorems.FusedBlocksAreAdjacent | src/gtirb_layout/gtirb_layout.cpp:116-127 | at each fusion the last code block of the source ends exactly where the target of the fallthrough edge now starts |
| MergeTheorems.FailureHasReason | src/gtirb_layout/gtirb_layout.cpp:96-127 | a merge gives up only if it leaves an interval whose first block has a fallthrough edge to a proxy, to a block outside the section, to another interval although the last code block does not end with this one, or to a block that is not at the start of its interval |
| MergeTheorems.MergeStaysTidy | src/gtirb_layout/gtirb_layout.cpp:129-148 | disjoint positive-sized blocks stay disjoint and inside their intervals through any run of merges |
| MergeTheorems.FullPartsAreFusable | src/gtirb_layout/gtirb_layout.cpp:95-143 | the merge is defined if the intervals that fallthrough edges leave or lead to have all their bytes; others may end in uninitialised ones |
| Fallthroughs.ChainIsNotMerged | src/gtirb_layout/gtirb_layout.cpp:91-95 | three blocks that fall into each other: the merge succeeds and yet leaves a fallthrough edge between intervals |
| Fallthroughs.MergeTakesAllFallthroughs | src/gtirb_layout/gtirb_layout.cpp:86-157 | only first blocks fall out of their interval, and never into one further down the list that goes on falling: then a successful merge leaves no fallthrough edge between intervals |
| Fallthroughs.MergesAllExactly | src/gtirb_layout/gtirb_layout.cpp:86-157 | where one fallthrough edge at most leaves each interval and none closes a circle, that condition is necessary as well as sufficient |
| LayoutSuccess.MergeInTurn | src/gtirb_layout/gtirb_layout.cpp:86-148 | the first fallthrough edge, interval after interval, that leads a first block out of its interval decides: if it leads to the start of another interval and code ends with this one, that interval is absorbed and the merge goes on; if not, the merge fails with what there is |
| LayoutSuccess.NothingLeft | src/gtirb_layout/gtirb_layout.cpp:86-157 | without such an edge the merge succeeds and changes nothing |
| LayoutSuccess.FailsExactly | src/gtirb_layout/gtirb_layout.cpp:86-157 | for disjoint blocks that belong to one interval each, it gives up if and only if it leaves such an interval |
| LayoutSuccess.LayableIsMerged | src/gtirb_layout/gtirb_layout.cpp:86-157 | if code ends with its interval, first blocks fall into their own interval or to the start of another one, and no two intervals fall into the same one, the merge succeeds |
| LayoutSuccess.LayoutSucceedsExactly | src/gtirb_layout/gtirb_layout.cpp:159-181 | the layout succeeds if and only if the merge of every section does |
| LayoutSuccess.LayoutFailsExactly | src/gtirb_layout/gtirb_layout.cpp:159-181 | it fails if and only if it leaves a section with an interval that cannot be fused along a fallthrough edge of its first block |
| LayoutSuccess.LayoutStopsAtFirst | src/gtirb_layout/gtirb_layout.cpp:160-181 | a layout that fails has laid out the sections before the first that cannot be merged as if they were the whole module, has merged that one without placing it, and leaves the others as they were |
| LayoutSuccess.LayableIsLaidOut | src/gtirb_layout/gtirb_layout.cpp:159-181 | a module of sections as in `LayableIsMerged` is laid out |
| LayoutSpec.AssignedAddress | src/gtirb_layout/gtirb_layout.cpp:174-177 | the address of an interval is the sum of the sizes before it, modulo 2^64 |
| LayoutTheorems.AddressIsRemainder | src/gtirb_layout/gtirb_layout.cpp:160-178 | over the whole module, the address of each interval is the remainder modulo 2^64 of all sizes before it |
| LayoutTheorems.LayoutIsOnePlacement | src/gtirb_layout/gtirb_layout.cpp:160-178 | a successful layout of all sections is one end-to-end placement, across section boundaries |
| LayoutTheorems.LayoutTiles | src/gtirb_layout/gtirb_layout.cpp:160-178 | the intervals tile the address space from 0 on if and only if their total size is at most 2^64 |
| LayoutTheorems.TilesAreDisjoint | src/gtirb_layout/gtirb_layout.cpp:173-177 | address ranges of different intervals are disjoint and in order |
| LayoutTheorems.SectionIsContiguous | src/gtirb_layout/gtirb_layout.cpp:167-178 | each section occupies one range of addresses, which contains all its intervals |
| LayoutTheorems.LayoutIsIdempotent | src/gtirb_layout/gtirb_layout.cpp:159-181 | laying out again after a success changes no address, offset or byte |
| LayoutTheorems.LayoutAfterRemoval | src/gtirb_layout/gtirb_layout.cpp:159-193 | removing a layout and laying out again restores it |
| LayoutTheorems.LayoutConserves | src/gtirb_layout/gtirb_layout.cpp:159-181 | on either result every section keeps its blocks and bytes, packed without overlap |
| Program.SymbolsAtAddress | src/gtirb_pprinter/PrettyPrinter.cpp:414-414 | the symbols found at an address are exactly those of the module with that address |
| Program.UnambiguousName | src/gtirb_pprinter/PrettyPrinter.cpp:895-899 | a name that is not ambiguous belongs to one symbol |
| Program.FirstContainingFinds | src/gtirb_pprinter/PrettyPrinter.cpp:781-788 | a section around the address is found if and only if there is one |
| Program.FloorIsGreatest | src/gtirb_pprinter/PrettyPrinter.cpp:772-779 | the lookup behind the containing function yields the greatest entry not above the address |
| SymbolNames.SymbolsInOrder | src/gtirb_pprinter/PrettyPrinter.cpp:414-414 | the symbols found at an address are those at the positions of all symbols with that address, in the order of the positions |
| SymbolNames.FoundById | src/gtirb_pprinter/PrettyPrinter.cpp:698-709 | the first symbol with an identifier is found, if there is one |
| SymbolNames.AmbiguousExactly | src/gtirb_pprinter/PrettyPrinter.cpp:895-899 | a name is ambiguous if and only if two positions of the list have it |
| SymbolNames.FunctionNameExactly | src/gtirb_pprinter/PrettyPrinter.cpp:827-853 | a function has the name of the first symbol at its entry, with the address in hexadecimal behind it if another symbol shares it, and a name made from the address if there is no symbol |
| SymbolNames.Renaming | src/gtirb_pprinter/Syntax.cpp:47-62 | a reserved word is marked and any other name kept, so that no label is a reserved word |
| SymbolNames.ReservedFunction | src/gtirb_pprinter/Syntax.cpp:45-49 | a function whose symbol has a reserved word for a name is declared under that word, while its label is marked |
| SymbolNames.LabelExactly | src/gtirb_pprinter/PrettyPrinter.cpp:411-420 | the label of a symbol is its formatted name, or one made from the address if another symbol shares the name |
| SymbolNames.AddressNameExactly | src/gtirb_pprinter/PrettyPrinter.cpp:855-859 | the name of an address is its prefix and the hexadecimal digits of the address |
| Numerals.NumeralIsShown | src/gtirb_pprinter/PrettyPrinter.cpp:855-859 | a number is written in one way, without leading zeros |
| Numerals.DistanceExactly | src/gtirb_pprinter/PrettyPrinter.cpp:795-804 | an addend is nothing for zero, and else a sign and the decimal digits |
| Printer.ElfPrinter.constructor | src/gtirb_pprinter/ElfPrettyPrinter.cpp:22-33 | with CFI directives the frame section is skipped as well; no other section is, and nothing else of the policy changes |
| Printer.ElfPrinter.PrintSymbolReference | src/gtirb_pprinter/PrettyPrinter.cpp:392-409 | appends the text of the reference as `Program.Reference` decides it: forwarded, raw, plain or by address |
| Printer.ElfPrinter.PrintComments | src/gtirb_pprinter/PrettyPrinter.cpp:608-624 | the ordered search emits exactly the comments in the half-open range |
| Printer.ElfPrinter.PrintCFIDirectives | src/gtirb_pprinter/PrettyPrinter.cpp:626-654 | all directives at the offset, in order, with operands separated by commas and the symbol last |
| Printer.ElfPrinter.PrintInstruction | src/gtirb_pprinter/PrettyPrinter.cpp:463-492 | labels, comments, CFI directives and the body of the instruction, in this order: no-ops, or mnemonic and operand list; the stream is left decimal |
| Printer.ElfPrinter.PrintOperandList | src/gtirb_pprinter/PrettyPrinter.cpp:501-512 | the operands in order with commas exactly between them; what each text consists of is stated by `Renderings.OperandExactly` |
| Printer.ElfPrinter.PrintNops | src/gtirb_pprinter/PrettyPrinter.cpp:475-484 | one no-op for each byte, at consecutive 64-bit addresses, and at least one |
| Printer.ElfPrinter.PrintBlock | src/gtirb_pprinter/PrettyPrinter.cpp:295-324 | nothing for a skipped block; else its header, its instructions at increasing offsets, and the directives at its end |
| Printer.ElfPrinter.PrintString | src/gtirb_pprinter/PrettyPrinter.cpp:711-738 | one string directive with the literal of the block |
| Printer.ElfPrinter.PrintNonZeroDataBlock | src/gtirb_pprinter/PrettyPrinter.cpp:575-600 | symbolic data first, then strings, then single bytes in order |
| Printer.ElfPrinter.PrintDataBlock | src/gtirb_pprinter/PrettyPrinter.cpp:548-573 | nothing for a skipped block; else comments, labels and, unless the element is excluded, its content |
| Printer.ElfPrinter.PrintItemOrWarning | src/gtirb_pprinter/PrettyPrinter.cpp:251-293 | below the cursor only a warning and the same cursor; else labels before a gap, footer, header and item, and the cursor behind the item |
| Printer.ElfPrinter.Print | src/gtirb_pprinter/PrettyPrinter.cpp:213-249 | for some list of code blocks in address order, in which each block of this module is as often as in the graph and no other block is, exactly the events of the merged run |
| Printer.CollectBlocks | src/gtirb_pprinter/PrettyPrinter.cpp:220-226 | exactly the code blocks of this module, each as often as in the control flow graph, in its order |
| Printer.SortBlocks | src/gtirb_pprinter/PrettyPrinter.cpp:227-227 | a sorted permutation |
| Greedy.MergeIsSortedPermutation | src/gtirb_pprinter/PrettyPrinter.cpp:228-243 | the two-way merge visits every block exactly once, in address order, code first among equals |
| Greedy.CursorIsMaximalEnd | src/gtirb_pprinter/PrettyPrinter.cpp:230-243 | the cursor never moves back and is the greatest end of what has been printed |
| Greedy.GreedyChoice | src/gtirb_pprinter/PrettyPrinter.cpp:251-285 | a block is replaced by a warning if and only if it starts below the end of one printed before |
| Greedy.PrintedItemsAreDisjoint | src/gtirb_pprinter/PrettyPrinter.cpp:251-285 | printed blocks are pairwise disjoint, whatever the input |
| Labels.LabelsIncrease | src/gtirb_pprinter/PrettyPrinter.cpp:244-285 | over the whole run, overlapping or not, label groups are at strictly increasing addresses if no empty data is printed |
| LabelOrder.LabelsIncreaseExactly | src/gtirb_pprinter/PrettyPrinter.cpp:244-285 | label groups are at strictly increasing addresses if and only if no empty data block is printed |
| Witnesses.EmptyDataRepeats | src/gtirb_pprinter/PrettyPrinter.cpp:244-245 | empty data whose label is printed twice |
| Labels.DefinedAtMostOnce | src/gtirb_pprinter/PrettyPrinter.cpp:411-420 | a symbol is defined by at most one label group |
| Names.LabelTellsAddress | src/gtirb_pprinter/PrettyPrinter.cpp:855-859 | symbols with the same label are at the same address |
| Names.OnlyMadeUpNamesCollide | src/gtirb_pprinter/PrettyPrinter.cpp:827-853 | a function label elsewhere that equals the label of a symbol is a made-up name, which the symbol happens to have |
| References.GroupNames | src/gtirb_pprinter/PrettyPrinter.cpp:411-420 | a label group has the labels of all symbols at its address and no other |
| References.RunIsGenuine | src/gtirb_pprinter/PrettyPrinter.cpp:213-249 | every label of the run is that of a symbol at its address or of a function at its entry |
| Lines.SeenFresh | src/gtirb_pprinter/PrettyPrinter.cpp:287-300 | what starts a line of its own, such as a block or a section bracket, is seen as a whole, even after a warning |
| SymbolTable.DataShown | src/gtirb_pprinter/PrettyPrinter.cpp:548-573 | of data right after a warning the first label is lost, or without labels the address and the content; else all is seen |
| References.RunShown | src/gtirb_pprinter/PrettyPrinter.cpp:213-293 | an assembler sees a name defined at an address, or an address note, if and only if a printed item or the end of the run shows it, warnings and debug mode included |
| References.ReferencesResolve | src/gtirb_pprinter/PrettyPrinter.cpp:392-420 | a reference by name is to a label that is defined at the address of the symbol and nowhere else, if and only if the label is seen, no function or address note elsewhere has the name, and every address note can be read |
| References.OwnNamesResolve | src/gtirb_pprinter/PrettyPrinter.cpp:392-420 | outside debug mode and without overlap, if no made-up function name is the name of the symbol, every reference to a printed place resolves |
| Renderings.ReferenceExactly | src/gtirb_pprinter/PrettyPrinter.cpp:392-409 | a reference is the text the symbol is forwarded to; else the decimal address if that is suppressed; else the label |
| Renderings.GroupInOrder | src/gtirb_pprinter/PrettyPrinter.cpp:411-420 | the labels at an address: one for each symbol there, in their order |
| Renderings.OperandExactly | src/gtirb_pprinter/PrettyPrinter.cpp:697-701 | a symbolic operand is the reference and the distance from it, between what stands around them |
| Renderings.ExpressionExactly | src/gtirb_pprinter/PrettyPrinter.cpp:697-709 | symbolic data is a reference and the distance from it, or two references with a minus between them |
| Renderings.DirectiveFits | src/gtirb_pprinter/PrettyPrinter.cpp:668-695 | the directive for symbolic data is that of the encoding, or the one for as many bytes as the block has |
| Renderings.InsnTextExactly | src/gtirb_pprinter/PrettyPrinter.cpp:489-512 | an instruction is its mnemonic in lower case, a blank, and the operands with commas between them |
| Renderings.MnemonicReads | src/gtirb_pprinter/PrettyPrinter.cpp:489-491 | the mnemonic is found before the first blank and the operands behind it |
| Renderings.BodyExactly | src/gtirb_pprinter/PrettyPrinter.cpp:440-492 | a no-op or endbr64 is one no-op for each byte, at least one, at consecutive addresses; anything else is one line; in debug mode each line begins with its address |
| Renderings.DirectiveTextExactly | src/gtirb_pprinter/PrettyPrinter.cpp:635-652 | a CFI directive is its name, its operands in decimal, and the reference to its symbol if it has one, separated by commas |
| Renderings.DirectivesInOrder | src/gtirb_pprinter/PrettyPrinter.cpp:626-654 | the directives at an offset are printed in their order, one line each, and nothing else |
| Renderings.CommentTextExactly | src/gtirb_pprinter/PrettyPrinter.cpp:608-624 | a comment behind the place where it is printed tells the distance in decimal |
| Renderings.NotesExactly | src/gtirb_pprinter/PrettyPrinter.cpp:494-499 | in debug mode, and only then, the address is in front, in hexadecimal digits |
| Declarations.FunctionsAreDeclared | src/gtirb_pprinter/ElfPrettyPrinter.cpp:86-102 | a name is made global, given the type of a function and defined as the label of one, if and only if a printed block that is not suppressed begins a function of this name |
| Declarations.FunctionLabelIsAligned | src/gtirb_pprinter/ElfPrettyPrinter.cpp:91-98 | the label of a function ends its header, at the first multiple of the alignment |
| Declarations.SyntaxIsDeclared | src/gtirb_pprinter/IntelPrettyPrinter.cpp:27-36 | the output declares Intel syntax if and only if it is in it, in its first line and only there |
| Declarations.WarningsExactly | src/gtirb_pprinter/PrettyPrinter.cpp:251-293 | there is a warning for an address if and only if an item there is not printed |
| Witnesses.MadeUpNameCollides | src/gtirb_pprinter/PrettyPrinter.cpp:843-850 | a module without overlap in which a reference does not resolve, because a function elsewhere is printed under that name |
| Witnesses.WarningHidesLabel | src/gtirb_pprinter/PrettyPrinter.cpp:287-293 | a module in which a reference does not resolve, although nothing else has the name, because the label is in the comment of a warning |
| Witnesses.NoteIsALabel | src/gtirb_pprinter/PrettyPrinter.cpp:494-498 | a module in which a reference does not resolve in debug mode, because an address in the address column has its name |
| PrintedReferences.PrintedReferencesResolve | src/gtirb_pprinter/PrettyPrinter.cpp:626-709 | the references that occur in the run, in symbolic data, CFI directives and operands of instructions, are by the label of their symbol, with the distance from it right behind and then what stands behind the operand, and resolve under the same condition |
| PrintedReferences.PrintedDirectives | src/gtirb_pprinter/PrettyPrinter.cpp:626-654 | every CFI directive of the run is one of the module at that offset |
| Bracketing.MostRecentHeader | src/gtirb_pprinter/PrettyPrinter.cpp:326-382 | what it means for a section to be open: its header is the last header or footer so far |
| Bracketing.VisibleExactly | src/gtirb_pprinter/PrettyPrinter.cpp:326-333 | the section whose header is printed at an address is the first one in the list that starts there |
| Bracketing.SectionsAreBracketed | src/gtirb_pprinter/PrettyPrinter.cpp:246-281 | headers and footers alternate over the run, each footer for the header before it, no prefix has one out of turn, and none is left open; skipped sections have neither |
| Bracketing.BracketedExactly | src/gtirb_pprinter/PrettyPrinter.cpp:246-281 | that is so if and only if the first item of each section that is not skipped is at its start |
| Witnesses.GapAtStart | src/gtirb_pprinter/PrettyPrinter.cpp:326-382 | a section that begins with a gap: its footer comes without a header |
| Bracketing.HeaderOfItem | src/gtirb_pprinter/PrettyPrinter.cpp:326-354 | a header is printed exactly before the item at the start of its section, unless that is skipped, aligned outside array sections |
| Bracketing.FooterOfItem | src/gtirb_pprinter/PrettyPrinter.cpp:356-382 | a footer is printed exactly where the section of the item before is left and not skipped |
| Bracketing.PrintedInItsSection | src/gtirb_pprinter/PrettyPrinter.cpp:258-283 | each block is printed while its own section is open, or while none is open if its section is skipped |
| Escapes.CleanByteEscapesOnce | src/gtirb_pprinter/PrettyPrinter.cpp:713-728 | the nine replacements do not interfere: the nine special bytes become their escape sequences, and any other byte stays itself |
| Escapes.LiteralRoundTrip | src/gtirb_pprinter/PrettyPrinter.cpp:711-738 | for every byte sequence the literal is well formed and decodes to the bytes without NULs |
| Escapes.StringRestores | src/gtirb_pprinter/PrettyPrinter.cpp:730-736 | a string directive restores exactly the sequences of non-NUL bytes and one final NUL |
| DataImage.DataRestored | src/gtirb_pprinter/PrettyPrinter.cpp:548-606 | assembling what is printed for a data block gives its bytes if and only if it is all zero, not a string, or a proper C string, and in debug mode its address can be read as a label |
| Witnesses.StringGrows | src/gtirb_pprinter/PrettyPrinter.cpp:730-738 | a string block without its final NUL becomes one byte longer |
| DataImage.BytesMean | src/gtirb_pprinter/PrettyPrinter.cpp:602-606 | the byte directives, one for each byte, assemble to the bytes in their order |
| LocationCounter.AlignmentIsGreatest | src/gtirb_pprinter/PrettyPrinter.cpp:806-825 | the alignment is the greatest common divisor of the address and 16 |
| LocationCounter.AlignmentAddsNothing | src/gtirb_pprinter/PrettyPrinter.cpp:806-825 | aligning where the counter agrees with the address modulo 16 adds no padding |
| LocationCounter.BodyAdvances | src/gtirb_pprinter/PrettyPrinter.cpp:475-491 | one-byte no-ops take exactly the place of the instruction they stand for |
| LocationCounter.FunctionHeaderAdvances | src/gtirb_pprinter/ElfPrettyPrinter.cpp:86-102 | a function header moves the counter by its padding and by nothing else; without a function there is none |
| LocationCounter.BlockAdvances | src/gtirb_pprinter/PrettyPrinter.cpp:295-324 | a block moves the counter by the padding of its function header and by its size |
| LocationCounter.ItemAdvances | src/gtirb_pprinter/PrettyPrinter.cpp:295-324 | what is printed for an item assembles to as many bytes as the item has, if and only if its function header adds no padding |
| Witnesses.HeaderPads | src/gtirb_pprinter/ElfPrettyPrinter.cpp:86-102 | a function whose header adds padding where it is printed |
| Placement.LocationIsAddress | src/gtirb_pprinter/PrettyPrinter.cpp:258-283 | at every block of a section without gaps the location counter has advanced by the distance of the original addresses, whatever becomes of other sections; in debug mode no address may be unreadable |
| Placement.AlignedIsUnpadded | src/gtirb_pprinter/PrettyPrinter.cpp:806-825 | in a section at a multiple of 16 no function header adds padding |
| Placement.PrologueSpot | src/gtirb_pprinter/IntelPrettyPrinter.cpp:27-36 | the no-ops at the beginning count for the text section and for no other |
| Placement.OneByteOfData | src/gtirb_pprinter/PrettyPrinter.cpp:269-285 | the assumptions of the theorems about addresses can be met, also next to a skipped section |
| Placement.DataIsAssembled | src/gtirb_pprinter/PrettyPrinter.cpp:269-285 | data is assembled at its place and with its own bytes |
| Placement.LabelsAreInPlace | src/gtirb_pprinter/PrettyPrinter.cpp:411-420 | every label group of an item in such a section is printed where the counter has advanced by the distance of its address |
| Placement.InsnIsInPlace | src/gtirb_pprinter/PrettyPrinter.cpp:463-492 | comments and CFI directives are printed right before their instruction, where the counter has advanced by its offset in the block |
| Placement.EndDirectivesAreInPlace | src/gtirb_pprinter/PrettyPrinter.cpp:318-323 | the directives at the end of a block are printed where the counter has advanced by its size |
| Placement.ReferenceIsInPlace | src/gtirb_pprinter/PrettyPrinter.cpp:392-420 | a reference to a symbol in such a section is to the label at its assembled place, and to no other, if and only if nothing elsewhere is printed under its name |
| Annotations.CommentsArePrintedOnce | src/gtirb_pprinter/PrettyPrinter.cpp:608-624 | with a block exactly its own comments are printed, each next to its instruction |
| Annotations.ExpectedExactly | src/gtirb_pprinter/PrettyPrinter.cpp:614-622 | a comment is among them if and only if it is on one of the instructions |
| Annotations.ExpectedAscend | src/gtirb_pprinter/PrettyPrinter.cpp:614-622 | they are in the order of their offsets, none twice |
| Annotations.CfiIsPrintedOnce | src/gtirb_pprinter/PrettyPrinter.cpp:313-322 | the directives at an offset are printed once with the block if the offset is an instruction boundary or its end, else not at all |
| Annotations.CfiOnceInRun | src/gtirb_pprinter/PrettyPrinter.cpp:213-322 | over a whole run the directives at an offset are printed once if it is a boundary of a printed block, else not at all |
| Annotations.CommentsOnceInRun | src/gtirb_pprinter/PrettyPrinter.cpp:213-293 | over a whole run in debug mode each comment is printed once if it is on something printed, else not at all |
| SkipCoherence.ContainerFunction | src/gtirb_pprinter/PrettyPrinter.cpp:772-779 | the function around an address is the one at the greatest entry not above it |
| SkipCoherence.SuppressedExactly | src/gtirb_pprinter/PrettyPrinter.cpp:746-779 | an address is skipped if and only if debug output is off and the first section around it is left out, or the function at the greatest entry not above it, whose name is told by its symbols |
| SkipCoherence.SuppressedItems | src/gtirb_pprinter/PrettyPrinter.cpp:295-299 | nothing is printed for a block if and only if its start is suppressed in this sense |
| SkipCoherence.ContentIsPrinted | src/gtirb_pprinter/ElfPrettyPrinter.cpp:116-129 | the content of a data block is printed if and only if it is not suppressed, and not an entry of an array section that refers to the suppressed address of a symbol |
| SkipCoherence.SkipIsCoherent | src/gtirb_pprinter/PrettyPrinter.cpp:746-762 | the decision to skip is the same for all addresses of a block in one section and one function |
| SkipCoherence.RawExactlyWhenSuppressed | src/gtirb_pprinter/PrettyPrinter.cpp:401-404 | a symbol is referred to as a raw number if and only if the block around it is suppressed |
| SkipCoherence.EntryIsKept | src/gtirb_pprinter/ElfPrettyPrinter.cpp:116-129 | an entry is left out if and only if it is in an array section and the block its symbol points into is suppressed, also when the symbol is forwarded |
| Pipeline.LayoutThenPrint | src/gtirb_pprinter/PrettyPrinter.cpp:213-285 | after a successful layout every block is printed exactly once in strictly increasing address order, without any overlap warning |
| EndToEnd.LayoutSeparatesSections | include/gtirb_pprinter/PrettyPrinter.hpp:303-305 | the layout makes the sections disjoint, as the printer assumes, each around its intervals, up to a total of 2^64 |
| EndToEnd.LayoutIsWellSectioned | src/gtirb_layout/gtirb_layout.cpp:159-181 | a layout in which sections that are not skipped start with a block, if they have any, meets all assumptions about sections |
| EndToEnd.LayoutIsBracketed | src/gtirb_pprinter/PrettyPrinter.cpp:246-281 | what is printed after such a layout has its sections properly bracketed |
| EndToEnd.DataSurvivesLayout | src/gtirb_layout/gtirb_layout.cpp:129-148 | the printer sees each data block with the bytes it had before the layout, at the address the layout gave it |
| EndToEnd.CodeSurvivesLayout | src/gtirb_layout/gtirb_layout.cpp:129-148 | the printer sees each code block with its size and its instructions, at the address the layout gave it |
| EndToEnd.DataSurvivesEverything | src/gtirb_pprinter/PrettyPrinter.cpp:548-606 | the bytes of a data block before the layout are assembled from the output, at the place the layout gave the block in its section; of other sections nothing is assumed but their names |
| OperandPrinters.AttPrinter.PrintOpIndirect | src/gtirb_pprinter/AttPrettyPrinter.cpp:70-117 | appends the operand text; the stream is decimal afterwards |
| OperandPrinters.AttPrinter.PrintOpImmediate | src/gtirb_pprinter/AttPrettyPrinter.cpp:46-68 | appends the immediate, which `OperandProofs.AttImmediateRoundTrip` reads back with its kind; the switch to hexadecimal is undone |
| OperandPrinters.IntelPrinter.PrintOpIndirect | src/gtirb_pprinter/IntelPrettyPrinter.cpp:65-101 | appends the operand text |
| OperandPrinters.A64Printer.PrintOpIndirect | src/gtirb_pprinter/AArch64PrettyPrinter.cpp:157-210 | appends the operand text, with commas exactly between the parts present |
| OperandProofs.AttIndirectReads | src/gtirb_pprinter/AttPrettyPrinter.cpp:70-117 | every part of an AT&T operand is found again, also around a symbolic displacement |
| OperandProofs.AttRegisterIsLower | src/gtirb_pprinter/AttPrettyPrinter.cpp:32-35 | a register is printed in lower case, however its name is written |
| OperandProofs.AttRoundTrip | src/gtirb_pprinter/AttPrettyPrinter.cpp:70-117 | reading a printed AT&T operand gives it back; a zero displacement, a scale of 1 and missing registers are left out |
| OperandProofs.AttImmediateRoundTrip | src/gtirb_pprinter/AttPrettyPrinter.cpp:46-68 | reading a printed AT&T immediate tells a constant, behind its dollar, from a branch target, and gives the number back |
| OperandProofs.AttTargetIsHexadecimal | src/gtirb_pprinter/AttPrettyPrinter.cpp:61-67 | a branch target other than zero is in hexadecimal digits behind 0x |
| OperandProofs.AttSymbolicImmediate | src/gtirb_pprinter/AttPrettyPrinter.cpp:56-60 | a symbolic immediate is the text of the symbol, behind a dollar exactly if it is no branch target |
| OperandProofs.IntelRoundTrip | src/gtirb_pprinter/IntelPrettyPrinter.cpp:65-101 | reading a printed Intel operand gives the operand and its size back |
| OperandProofs.IntelNumberReads | src/gtirb_pprinter/IntelPrettyPrinter.cpp:94-100 | the displacement stands right before the closing bracket, with its sign if anything precedes it, and is left out if it is zero then |
| OperandProofs.IntelSymbolicReads | src/gtirb_pprinter/IntelPrettyPrinter.cpp:94-97 | a symbolic displacement stands behind a plus in the same place |
| OperandProofs.AddendReads | src/gtirb_pprinter/PrettyPrinter.cpp:795-804 | an addend is read back from its sign and digits, and cannot be taken for a register |
| OperandProofs.IntelImmediateRoundTrip | src/gtirb_pprinter/IntelPrettyPrinter.cpp:58-61 | reading a printed Intel immediate gives it back |
| OperandProofs.IntelSymbolicImmediate | src/gtirb_pprinter/IntelPrettyPrinter.cpp:54-58 | a symbolic immediate is the text of the symbol, behind OFFSET exactly if it is no branch target |
| OperandProofs.A64RoundTrip | src/gtirb_pprinter/AArch64PrettyPrinter.cpp:157-210 | reading a printed AArch64 operand, even a lone shift, gives it back if and only if it has a base, no index, or a displacement |
| OperandProofs.ShiftReads | src/gtirb_pprinter/AArch64PrettyPrinter.cpp:370-391 | name and amount of a shift are read back, and its text has neither comma nor bracket |
| OperandProofs.A64IndexReadAsBase | src/gtirb_pprinter/AArch64PrettyPrinter.cpp:167-196 | otherwise its index is read as the base |
| OperandProofs.A64Omits | src/gtirb_pprinter/AArch64PrettyPrinter.cpp:175-203 | a displacement or a shift of zero is left out |
| OperandProofs.A64ImmediateRoundTrip | src/gtirb_pprinter/AArch64PrettyPrinter.cpp:148-154 | reading a printed AArch64 immediate gives value and shift back |
| OperandProofs.A64SymbolicImmediate | src/gtirb_pprinter/AArch64PrettyPrinter.cpp:142-148 | a symbolic immediate is the text of the symbol, behind a blank exactly if it is no branch target |
| RunOperands.AttMemoryText | src/gtirb_pprinter/AttPrettyPrinter.cpp:70-117 | an AT&T memory operand of a run has the text that the operand printer appends, around the reference to its symbol |
| RunOperands.AttConstantText | src/gtirb_pprinter/AttPrettyPrinter.cpp:46-68 | and so has an immediate |
| RunOperands.IntelMemoryText | src/gtirb_pprinter/IntelPrettyPrinter.cpp:65-101 | an Intel memory operand of a run has the text that the operand printer appends, around the reference to its symbol |
| RunOperands.IntelConstantText | src/gtirb_pprinter/IntelPrettyPrinter.cpp:44-63 | and so has an immediate |
| RunOperands.A64MemoryText | src/gtirb_pprinter/AArch64PrettyPrinter.cpp:157-210 | an AArch64 memory operand of a run has the text that the operand printer appends, with a reference only at a displacement |
| RunOperands.A64SymbolicReads | src/gtirb_pprinter/AArch64PrettyPrinter.cpp:175-187 | a symbolic displacement takes the place of the number and its hash, and is not printed where that is zero |
| RunOperands.A64ConstantText | src/gtirb_pprinter/AArch64PrettyPrinter.cpp:133-155 | and so has an immediate |
| OperandSplitter.PrintOpRawValue | src/gtirb_pprinter/AArch64PrettyPrinter.cpp:212-260 | both scans stay inside the string and print the operand at the index |
| OperandSplitter.OperandsAreFound | src/gtirb_pprinter/AArch64PrettyPrinter.cpp:212-260 | for operands joined by commas and blanks, operand i is printed, for every i |

## Left out

- Containers of GTIRB: intervals of a section are a sequence in their order of iteration, blocks of an interval a sequence by offset; loops that move blocks iterate over snapshots.
- Interval sizes are unbounded numbers; addresses are 64-bit. Whatever is fused has as many bytes as its size, so that insertion at the former end is defined; other intervals may end in uninitialised bytes, which read as zero.
- Blocks outside the control flow graph have no edges.
- Capstone: a code block comes with its instructions, and a block that is not disassembled to its end has fewer of them; which operand is symbolic is given, and so is the text around the symbol, which RunOperands has for memory operands and immediates.
- fixupInstruction: only the change of endbr64 into a no-op is modelled; the others change operands.
- Text of section directives and section properties, bars, blank lines and comment rules: not events.
- Names of symbols are taken as they are: whether an assembler accepts them as labels is not modelled.
- The label in a function header comes on top of the label groups: at most one definition is claimed for label groups only.
- A forwarded symbol has a given text: the suffixes that depend on its section, and on whether it is referred to in data, are not modelled.
- The prefixes of symbolic AArch64 operands are part of the given symbolic text.
- An ambiguous symbol without address is undefined in the original; its rendering here is empty text.
- Data outside all sections is undefined in the original; here it is never excluded.
- A symbol of an excluded element without address is undefined in the original; here the element is not excluded.
- The decoder of string literals knows the escapes of C; dialects of single assemblers are not modelled.
- Placement.LocationIsAddress: for one-byte no-ops and the data directives of x86 only; on AArch64 a no-op has four bytes and sizes are not kept.
- printBlockOrWarning and printDataBlockOrWarning are one method on items, since they differ only in the type of the block.
- The unused searches for data blocks at the cursor, the empty function and file footers, temporary files, the compiler driver, option parsing, factories and default policies.
- Barrier, prefetch and extender tables.
