# majai in Dafny

A Dafny model of the core of majai, an ahead-of-time compiler from JVM class
files to RV32 assembly text, together with its bootstrap `java.lang.String`
and the older toy stack interpreter it grew out of. Every operation is a
pure function or a short method over immutable datatypes; the class tables,
allocators and label tables are records threaded from call to call, and
the printed assembly is a sequence of `Asm.Line` values rendered to text.

What is modelled, one module per source component:

- `FieldAllocator`, `VtableAllocator`: the cross generation's field-layout
  bump allocator with one pending halfword hole and one pending byte hole,
  and the compiler generation's vtable allocator, which is only a seal
  state machine whose `allocateMethod()` always answers 0. The resolver
  calls a one-argument `allocateMethod(methodInfo)` that is not defined
  there; the driver takes it as the `allocateMethod` hook of its `Loader`.
- `FieldDescriptor`, `MethodDescriptor`, `CrossMethodDescriptor`: the field
  and method descriptors of section 4.3.2 and 4.3.3 of The Java Virtual
  Machine Specification. The regular expressions of the compiler
  generation are explicit recursive predicates (`.` matches any character
  except a line terminator, so `L.*;` may span `;` and `)`); the cross
  generation's hand-written scanner is modelled loop for loop.
- `NameUtil`, `CrossNameUtil`, `VmMetadata`: name normalizing and mangling,
  `deriveSimpleName`, and the parent-chain walk of `isEqualOrSubclassOf`
  over metadata ids in an acyclic registry.
- `Bytecode`, `Asm`, `CodeTranslator`: ASM instruction nodes as a datatype
  with the opcodes of chapter 6 of the JVM specification, RV32 lines, a
  small machine that executes the `lw`/`sw`/`add`/`addi`/`mv` subset the
  stack templates use, and the compiler generation's translator: prologue,
  argument spill, label naming, every opcode case, field resolution and
  access, array access and allocation, and calls.
- `TranslatorStack`, `TemplateRuns`, `StackShuffles`: the stack discipline
  of those templates. `TranslatorStack` compares each template's net `sp`
  movement with the JVM operand-stack delta of the instruction;
  `TemplateRuns` runs the local, field and frame templates on the machine;
  `StackShuffles` runs the DUP family and SWAP and compares the resulting
  stack with the JVM specification's rule for each instruction.
- `CrossCodeTranslator`, `CrossTranslatorStack`: the cross generation's
  static-methods-only translator and its stack discipline.
- `Compiler`, `CrossCompiler`: both drivers: memoised, superclass-first
  class resolution with the instance/static field split, each class's
  instance fields continuing its superclass's layout, vtable slots and
  metadata objects, sealing before publication, the array metadata a
  method's translation asks for, the closed-resolution error, array metadata names, the
  header size, `compileClass` and the compile-until-nothing-is-left loop.
- `RuntimeObjects`: the `"object" + n` label table and the emit loop that
  writes every labelled object exactly once while serializing labels new
  ones; `null`, `byte[]` and `Object[]` are the serializable shapes.
- `JString`: the char-array algorithms of jboot's `java.lang.String`.
- `ToyVm`, `ToyCompiler`: the toy interpreter (big-endian INT32, ADD, SUB,
  DUP, WRITE, EXIT with 32-bit wrap-around) and its compiler, which checks
  the methods and returns one fixed program; running that program prints
  4 then 3.
- `Text`, `JavaInts`, `Wrappers`: the `java.lang.String` library calls the
  compiler makes, Java integer conversions, and `Result`, whose `Err`
  carries the exception the Java code throws.

Points of the code a reader may not expect:

- `allocateWord` and `allocateDoubleword` return the word count itself, a
  word index, while the halfword and byte holes are byte offsets, recorded
  as offset + 2 and offset + 1 (`FieldAllocator.HoleMeetsLaterWord`).
- As written, the translator asks the descriptor for a load or store
  mnemonic before it tests the field's width, and that fails for `J` and
  `D`, so a long or double field access always fails (see Findings).
- DUP2 has no case in the compiler generation's switch, so it is the
  generic "unknown opcode" error.
- Jump targets of the cross generation are named after the target label's
  bytecode offset, and since its switch has no case for label nodes, a
  method with a jump target never translates.

The compiler generation's translator comes in two editions, chosen by the
`templates` field of its `Env`. `AsPrinted` is what the code prints, every
template as written (`DupX2LinesAsWritten`, `NegLinesAsWritten`, `Store32`
for LSTORE/DSTORE, `FieldAccessAsWritten`, ...). `Intended` is the same
switch with the templates listed under Findings corrected.
`CodeTranslator.EditionsAgree` shows that the editions differ only on
those opcodes, and the stack lemmas of `TranslatorStack` are stated for
both, naming the printed templates that move `sp` wrongly. The cross
generation keeps the templates as printed throughout, and
`CrossTranslatorStack.CrossAsWrittenMovesWrongly` states their effect.

## Model

| member | source | states |
|---|---|---|
| FieldAllocator.New | cross/src/main/java/name/martingeisse/majai/FieldAllocator.java:19-24 | a fresh allocator has word count 0, no halfword or byte hole, and is not sealed |
| FieldAllocator.FromParent | cross/src/main/java/name/martingeisse/majai/FieldAllocator.java:26-34 | an unsealed parent is refused with the IllegalArgumentException message; a sealed parent's word count and both holes are copied into an unsealed child |
| FieldAllocator.AllocateWord | cross/src/main/java/name/martingeisse/majai/FieldAllocator.java:66-71 | refused exactly when sealed; otherwise hands out the old word count (a word index, not a byte offset) and adds one word, holes untouched |
| FieldAllocator.AllocateDoubleword | cross/src/main/java/name/martingeisse/majai/FieldAllocator.java:73-78 | refused exactly when sealed; otherwise hands out the old word count and adds two words, holes untouched |
| FieldAllocator.AllocateHalfword | cross/src/main/java/name/martingeisse/majai/FieldAllocator.java:53-64 | a pending halfword hole is handed out and cleared with the word count unchanged; without one a word w is taken, hole w+2 recorded and w handed out |
| FieldAllocator.AllocateByte | cross/src/main/java/name/martingeisse/majai/FieldAllocator.java:40-51 | a pending byte hole is handed out and cleared; without one a halfword h is taken, byte hole h+1 recorded and h handed out |
| FieldAllocator.Seal | cross/src/main/java/name/martingeisse/majai/FieldAllocator.java:80-89 | sealing an unsealed allocator changes only the sealed flag; sealing twice is the IllegalStateException |
| FieldAllocator.ApplyKeepsWordCount | cross/src/main/java/name/martingeisse/majai/FieldAllocator.java:40-83 | no single call lowers the word count |
| FieldAllocator.WordCountNeverDecreases | cross/src/main/java/name/martingeisse/majai/FieldAllocator.java:40-83 | no sequence of successful calls lowers the word count |
| FieldAllocator.SealedRejectsEveryCall | cross/src/main/java/name/martingeisse/majai/FieldAllocator.java:85-89 | on a sealed allocator every non-empty sequence of calls fails with the "sealed" IllegalStateException |
| FieldAllocator.FreshBytesThenHalfword | cross/src/main/java/name/martingeisse/majai/FieldAllocator.java:40-71 | on a fresh allocator byte, byte, halfword hand out 0, 1, 2 and leave word count 1 with no holes |
| FieldAllocator.FreshByteThenWord | cross/src/main/java/name/martingeisse/majai/FieldAllocator.java:40-71 | on a fresh allocator byte then word hand out 0 then 1, leaving holes 2 and 1 pending |
| FieldAllocator.HoleMeetsLaterWord | cross/src/main/java/name/martingeisse/majai/FieldAllocator.java:53-71 | halfword, word, word, halfword hand out 0, 1, 2, 2: the reused hole and a word index coincide |
| FieldAllocator.ChildContinuesAfterParent | cross/src/main/java/name/martingeisse/majai/FieldAllocator.java:26-34 | a child of a sealed parent continues at the parent's word count |
| VtableAllocator.New | compiler/src/main/java/name/martingeisse/majai/compiler/VtableAllocator.java:16-18 | a fresh vtable allocator is unsealed |
| VtableAllocator.FromParent | compiler/src/main/java/name/martingeisse/majai/compiler/VtableAllocator.java:20-25 | an unsealed parent is the IllegalArgumentException; a sealed parent gives an unsealed child |
| VtableAllocator.AllocateMethod | compiler/src/main/java/name/martingeisse/majai/compiler/VtableAllocator.java:31-34 | refused exactly when sealed; otherwise slot 0 with the allocator unchanged |
| VtableAllocator.Seal | compiler/src/main/java/name/martingeisse/majai/compiler/VtableAllocator.java:36-45 | refused exactly when already sealed; otherwise the allocator is sealed |
| VtableAllocator.RunSucceedsIffSealIsLast | compiler/src/main/java/name/martingeisse/majai/compiler/VtableAllocator.java:31-45 | from an unsealed allocator a run of calls succeeds iff no seal comes before its last call, and every slot handed out is 0 |
| VtableAllocator.SealedRunFails | compiler/src/main/java/name/martingeisse/majai/compiler/VtableAllocator.java:41-45 | a sealed allocator refuses every non-empty run with the IllegalStateException |
| FieldDescriptor.LeadingBrackets | compiler/src/main/java/name/martingeisse/majai/compiler/descriptor/ParsedFieldDescriptor.java:24-30 | the dimension the constructor counts: every character before it is '[' (with LeadingBracketsAreBrackets) and the one at it is not |
| FieldDescriptor.LeadingBracketsAreBrackets | compiler/src/main/java/name/martingeisse/majai/compiler/descriptor/ParsedFieldDescriptor.java:26-29 | every character before the counted dimension is '[' |
| FieldDescriptor.DecomposeRoundTrip | compiler/src/main/java/name/martingeisse/majai/compiler/descriptor/ParsedFieldDescriptor.java:24-33 | the fields the constructor extracts from text the pattern accepts form a valid descriptor whose toString is that text |
| FieldDescriptor.ParseMeaning | compiler/src/main/java/name/martingeisse/majai/compiler/descriptor/ParsedFieldDescriptor.java:13-33 | the constructor succeeds iff the whole input matches `\[*([ZBSCIFJD]\|L.*;)`, fails with "invalid descriptor: " + input otherwise, and on success has dimension = leading '[' count and prints back to the input |
| FieldDescriptor.PatternSplits | compiler/src/main/java/name/martingeisse/majai/compiler/descriptor/ParsedFieldDescriptor.java:13 | the pattern matches iff the text after the leading '[' run matches the leaf alternative |
| FieldDescriptor.BracketsThenLeafMatch | compiler/src/main/java/name/martingeisse/majai/compiler/descriptor/ParsedFieldDescriptor.java:13 | any number of '[' followed by a text that does not start with '[' matches the pattern exactly when that text matches the leaf alternative |
| FieldDescriptor.LeadingBracketsOfRendering | compiler/src/main/java/name/martingeisse/majai/compiler/descriptor/ParsedFieldDescriptor.java:24-30 | n brackets before a leaf not starting with '[' count as dimension n |
| FieldDescriptor.ToStringParses | compiler/src/main/java/name/martingeisse/majai/compiler/descriptor/ParsedFieldDescriptor.java:19-33 | every descriptor prints to text the pattern accepts, and parsing that text gives the descriptor back |
| FieldDescriptor.ToStringInjective | compiler/src/main/java/name/martingeisse/majai/compiler/descriptor/ParsedFieldDescriptor.java:167-178 | two descriptors that print the same are the same |
| FieldDescriptor.EqualsIffSameText | compiler/src/main/java/name/martingeisse/majai/compiler/descriptor/ParsedFieldDescriptor.java:150-160 | equals holds iff dimension, leaf letter and leaf class coincide, which is iff both print the same text |
| FieldDescriptor.SingleLetterText | compiler/src/main/java/name/martingeisse/majai/compiler/descriptor/ParsedFieldDescriptor.java:167-178 | a descriptor prints as one letter c iff it is the non-array, class-less leaf c |
| FieldDescriptor.LeafBytes | compiler/src/main/java/name/martingeisse/majai/compiler/descriptor/ParsedFieldDescriptor.java:84-108 | the leaf size is one of 1, 2, 4, 8 |
| FieldDescriptor.Bytes | compiler/src/main/java/name/martingeisse/majai/compiler/descriptor/ParsedFieldDescriptor.java:60-108 | 8 bytes exactly for "J" and "D", 1 exactly for "Z" and "B", 2 exactly for "S" and "C"; everything else, every array and every class is 4 |
| FieldDescriptor.Words | compiler/src/main/java/name/martingeisse/majai/compiler/descriptor/ParsedFieldDescriptor.java:68-74 | 1 or 2, and 2 exactly for the non-array "J" and "D", which are the 8-byte types |
| FieldDescriptor.IsSigned | compiler/src/main/java/name/martingeisse/majai/compiler/descriptor/ParsedFieldDescriptor.java:76-112 | signed exactly for the texts "B", "S", "I", "D": never for arrays or classes |
| FieldDescriptor.LoadInstruction | compiler/src/main/java/name/martingeisse/majai/compiler/descriptor/ParsedFieldDescriptor.java:114-130 | fails with "no load instruction for " + text exactly for two-word types; "lb" iff "B", "lbu" iff "Z", "lh" iff "S", "lhu" iff "C", "lw" iff 4 bytes |
| FieldDescriptor.StoreInstruction | compiler/src/main/java/name/martingeisse/majai/compiler/descriptor/ParsedFieldDescriptor.java:132-148 | fails with "no store instruction for " + text exactly for two-word types; "sb", "sh", "sw" exactly for 1, 2, 4 bytes |
| FieldDescriptor.LoadStoreAgree | compiler/src/main/java/name/martingeisse/majai/compiler/descriptor/ParsedFieldDescriptor.java:114-148 | a load exists iff a store exists, and both name the same width letter |
| MethodDescriptor.SkipBrackets | compiler/src/main/java/name/martingeisse/majai/compiler/descriptor/ParsedMethodDescriptor.java:38-40 | the scan stops inside the text on a character that is not '[', and everything it passed is '[' (with SkipBracketsSkipsRun); running off the end is the charAt index error |
| MethodDescriptor.SkipBracketsSkipsRun | compiler/src/main/java/name/martingeisse/majai/compiler/descriptor/ParsedMethodDescriptor.java:38-40 | every character the bracket loop passed over is '[' |
| MethodDescriptor.ScanTo | compiler/src/main/java/name/martingeisse/majai/compiler/descriptor/ParsedMethodDescriptor.java:42-44 | the scan stops inside the text on the wanted character and passed over none (with ScanToSkips) |
| MethodDescriptor.ScanToSkips | compiler/src/main/java/name/martingeisse/majai/compiler/descriptor/ParsedMethodDescriptor.java:42-44 | the ';' loop passes over no ';' |
| MethodDescriptor.ScanFieldEnd | compiler/src/main/java/name/martingeisse/majai/compiler/descriptor/ParsedMethodDescriptor.java:36-49 | the field type that starts at `start` ends (exclusive) after it and within the text |
| MethodDescriptor.ParseReturnType | compiler/src/main/java/name/martingeisse/majai/compiler/descriptor/ParsedMethodDescriptor.java:28-33 | a return type is read only inside the text, and `null` only where the character after ')' is 'V' |
| MethodDescriptor.Parse | compiler/src/main/java/name/martingeisse/majai/compiler/descriptor/ParsedMethodDescriptor.java:17-20 | input that does not match `\((FD)*\)(V\|FD)` is refused with "invalid descriptor: " + input, and every accepted input matches it |
| MethodDescriptor.ParameterWords | compiler/src/main/java/name/martingeisse/majai/compiler/descriptor/ParsedMethodDescriptor.java:59-65 | each parameter adds one or two words (see WordsOfParsedText and CrossMethodDescriptor.ParameterWordsAgree for the sum itself) |
| MethodDescriptor.ReturnWords | compiler/src/main/java/name/martingeisse/majai/compiler/descriptor/ParsedMethodDescriptor.java:67-69 | at most 2, and 0 exactly for a void (`null`) return type |
| MethodDescriptor.FieldTextHasNoParen | compiler/src/main/java/name/martingeisse/majai/compiler/descriptor/ParsedMethodDescriptor.java:12 | a descriptor whose class name has no ')' prints without ')' and does not start with 'V' |
| MethodDescriptor.ParameterTextHasNoParen | compiler/src/main/java/name/martingeisse/majai/compiler/descriptor/ParsedMethodDescriptor.java:12-21 | parameters whose class names have no ')' print without ')' |
| MethodDescriptor.ParameterTextMatches | compiler/src/main/java/name/martingeisse/majai/compiler/descriptor/ParsedMethodDescriptor.java:12 | the printed parameters match `(FD)*` |
| MethodDescriptor.ToStringMatches | compiler/src/main/java/name/martingeisse/majai/compiler/descriptor/ParsedMethodDescriptor.java:12-20 | every method type prints to text the validating pattern accepts |
| MethodDescriptor.SkipBracketRun | compiler/src/main/java/name/martingeisse/majai/compiler/descriptor/ParsedMethodDescriptor.java:38-40 | on a run of n brackets followed by something else the bracket loop stops after exactly n |
| MethodDescriptor.ScanToFirst | compiler/src/main/java/name/martingeisse/majai/compiler/descriptor/ParsedMethodDescriptor.java:42-44 | the ';' loop stops at the first ';' at or after its start |
| MethodDescriptor.LayoutOfText | compiler/src/main/java/name/martingeisse/majai/compiler/descriptor/ParsedMethodDescriptor.java:36-49 | where a descriptor's text occurs: its brackets, then its leaf letter, then for a class exactly one ';' at its end |
| MethodDescriptor.ScanFieldEndOfText | compiler/src/main/java/name/martingeisse/majai/compiler/descriptor/ParsedMethodDescriptor.java:36-49 | `parseFieldType` on a descriptor's text (class name without ';') returns the position just after it |
| MethodDescriptor.ScanParametersOfText | compiler/src/main/java/name/martingeisse/majai/compiler/descriptor/ParsedMethodDescriptor.java:21-27 | the parameter loop reads back every parameter list laid out before the ')' position, in order |
| MethodDescriptor.ScanParametersStep | compiler/src/main/java/name/martingeisse/majai/compiler/descriptor/ParsedMethodDescriptor.java:24-26 | one round of the loop over a printed parameter adds that descriptor in front of the rest |
| MethodDescriptor.ScanParametersRound | compiler/src/main/java/name/martingeisse/majai/compiler/descriptor/ParsedMethodDescriptor.java:24-26 | one round of the loop: the descriptor between the start and the scanned end, then the rest |
| MethodDescriptor.FirstParenOfText | compiler/src/main/java/name/martingeisse/majai/compiler/descriptor/ParsedMethodDescriptor.java:21 | in a printed method type (class names without ')') the first ')' closes the parameter list |
| MethodDescriptor.ToStringParsesBack | compiler/src/main/java/name/martingeisse/majai/compiler/descriptor/ParsedMethodDescriptor.java:17-34 | round trip: a method type whose class names hold neither ';' nor ')' prints to a descriptor the constructor reads back to it |
| MethodDescriptor.ParametersOfText | compiler/src/main/java/name/martingeisse/majai/compiler/descriptor/ParsedMethodDescriptor.java:21-27 | the parameter loop over a printed method type yields its parameter list |
| MethodDescriptor.ParametersAt | compiler/src/main/java/name/martingeisse/majai/compiler/descriptor/ParsedMethodDescriptor.java:23 | a printed method type holds its parameter text from index 1 on |
| MethodDescriptor.ReturnTypeOfText | compiler/src/main/java/name/martingeisse/majai/compiler/descriptor/ParsedMethodDescriptor.java:28-33 | the return-type step on a printed method type yields its return type (`null` for void) |
| MethodDescriptor.ParseOfParts | compiler/src/main/java/name/martingeisse/majai/compiler/descriptor/ParsedMethodDescriptor.java:17-34 | on validated text the constructor's result is the parameter loop up to the first ')' plus the return-type step after it |
| MethodDescriptor.ParseIsValidated | compiler/src/main/java/name/martingeisse/majai/compiler/descriptor/ParsedMethodDescriptor.java:17-34 | past the pattern check, the constructor is the hand scanner |
| MethodDescriptor.WordsOfParsedText | compiler/src/main/java/name/martingeisse/majai/compiler/descriptor/ParsedMethodDescriptor.java:59-69 | the parameter and return words read back from a printed method type are those of the method type |
| MethodDescriptor.ParenInClassNameMatches | compiler/src/main/java/name/martingeisse/majai/compiler/descriptor/ParsedMethodDescriptor.java:12 | because `.` also matches ')', the pattern accepts "(LA)B;)V" |
| MethodDescriptor.ParenInClassNameFailsLate | compiler/src/main/java/name/martingeisse/majai/compiler/descriptor/ParsedMethodDescriptor.java:17-33 | that validated input is then refused only while parsing its return type "B;)V" |
| MethodDescriptor.FailureOfParts | compiler/src/main/java/name/martingeisse/majai/compiler/descriptor/ParsedMethodDescriptor.java:17-34 | on validated text, a failing return-type step is the constructor's failure |
| CrossMethodDescriptor.ParseFieldType | cross/src/main/java/name/martingeisse/majai/ParsedMethodDescriptor.java:32-46 | an accepted field type is non-empty text lying at `start` (with ParseFieldTypeIsText) |
| CrossMethodDescriptor.ParseFieldTypeIsText | cross/src/main/java/name/martingeisse/majai/ParsedMethodDescriptor.java:32-46 | the accepted field type is the text starting at `start` |
| CrossMethodDescriptor.ParseFieldTypeOfBase | cross/src/main/java/name/martingeisse/majai/ParsedMethodDescriptor.java:34-41 | a primitive letter after the brackets ends the type there |
| CrossMethodDescriptor.ParseFieldTypeOfClass | cross/src/main/java/name/martingeisse/majai/ParsedMethodDescriptor.java:42-45 | an 'L' after the brackets extends the type to the next ';' |
| CrossMethodDescriptor.ParseFieldTypeRefuses | cross/src/main/java/name/martingeisse/majai/ParsedMethodDescriptor.java:42-45 | any other letter is refused with "invalid field or method descriptor, found field type starting with " + letter; an 'L' with no later ';' fails too |
| CrossMethodDescriptor.ScanParameters | cross/src/main/java/name/martingeisse/majai/ParsedMethodDescriptor.java:21-27 | a loop that starts before the ')' collects at least one parameter |
| CrossMethodDescriptor.ScanParametersConsumes | cross/src/main/java/name/martingeisse/majai/ParsedMethodDescriptor.java:21-27 | the parameters the loop collects are non-empty and, laid end to end from its start, exactly the text it consumed |
| CrossMethodDescriptor.ConsumesStep | cross/src/main/java/name/martingeisse/majai/ParsedMethodDescriptor.java:24-26 | one parameter's text followed by the rest's is their concatenation, laid out from the same position |
| CrossMethodDescriptor.ScanParametersUnfold | cross/src/main/java/name/martingeisse/majai/ParsedMethodDescriptor.java:23-27 | one round of the loop: the field type at the position, then the rest from just after it |
| CrossMethodDescriptor.Parse | cross/src/main/java/name/martingeisse/majai/ParsedMethodDescriptor.java:13-30 | no leading '(' is the "missing opening parenthesis" error; no ')' at all is the "missing closing parenthesis" error; the return type is the raw text after the first ')' |
| CrossMethodDescriptor.ParseConsumes | cross/src/main/java/name/martingeisse/majai/ParsedMethodDescriptor.java:21-29 | the accepted parameters, laid end to end from index 1, fill the text up to the first ')' |
| CrossMethodDescriptor.ParameterWords | cross/src/main/java/name/martingeisse/majai/ParsedMethodDescriptor.java:56-66 | each parameter counts one or two words (ParameterWordsAgree states which) |
| CrossMethodDescriptor.Texts | cross/src/main/java/name/martingeisse/majai/ParsedMethodDescriptor.java:10 | one parameter text per descriptor, in order |
| CrossMethodDescriptor.ParseFieldTypeOfText | cross/src/main/java/name/martingeisse/majai/ParsedMethodDescriptor.java:32-46 | the cross scanner reads a printed descriptor (class name without ';') back as exactly its text |
| CrossMethodDescriptor.ConcatTexts | cross/src/main/java/name/martingeisse/majai/ParsedMethodDescriptor.java:21-27 | the printed parameters laid end to end are the parameter text of the method type |
| CrossMethodDescriptor.ScanParametersOfText | cross/src/main/java/name/martingeisse/majai/ParsedMethodDescriptor.java:21-27 | the cross loop reads back every printed parameter list ending at the ')' position, as texts in order |
| CrossMethodDescriptor.TextAfterHead | cross/src/main/java/name/martingeisse/majai/ParsedMethodDescriptor.java:26 | after the first parameter's text comes the rest of the parameter text |
| CrossMethodDescriptor.ScanParametersStep | cross/src/main/java/name/martingeisse/majai/ParsedMethodDescriptor.java:24-26 | one round of the cross loop over a printed parameter list |
| CrossMethodDescriptor.ScanParametersRound | cross/src/main/java/name/martingeisse/majai/ParsedMethodDescriptor.java:24-26 | one round of the cross loop, put together |
| CrossMethodDescriptor.AgreesWithCompilerParser | cross/src/main/java/name/martingeisse/majai/ParsedMethodDescriptor.java:13-30 | on every descriptor both generations read (class names without ';' and ')'), the cross parser yields the texts of the compiler parser's parameters and return type |
| CrossMethodDescriptor.ReturnTextAt | cross/src/main/java/name/martingeisse/majai/ParsedMethodDescriptor.java:29 | a printed method type ends, after its first ')', with its return type text |
| CrossMethodDescriptor.ParseOfParts | cross/src/main/java/name/martingeisse/majai/ParsedMethodDescriptor.java:13-30 | the constructor is the first ')' position, the loop up to it and the raw rest |
| CrossMethodDescriptor.ParameterWordsAgree | cross/src/main/java/name/martingeisse/majai/ParsedMethodDescriptor.java:56-66 | the cross rule "2 for exactly J or D" counts the same words as the compiler's per-descriptor word count on every printed parameter list, arrays such as "[J" included |
| NameUtil.Normalize | compiler/src/main/java/name/martingeisse/majai/compiler/NameUtil.java:16-18 | same length, no '.' left, and every character other than '.' kept in place while each '.' becomes '/' |
| NameUtil.Denormalize | compiler/src/main/java/name/martingeisse/majai/compiler/NameUtil.java:20-22 | same length, no '/' left, and every '/' becomes '.' with all other characters kept in place |
| NameUtil.NormalizeIdempotent | compiler/src/main/java/name/martingeisse/majai/compiler/NameUtil.java:16-18 | normalizing an already internal name changes nothing |
| NameUtil.NormalizeRoundTrip | compiler/src/main/java/name/martingeisse/majai/compiler/NameUtil.java:16-22 | a name without '/' comes back unchanged from internal form, and one without '.' comes back unchanged from source-level form |
| NameUtil.MangleClassName | compiler/src/main/java/name/martingeisse/majai/compiler/NameUtil.java:24-26 | same length, neither separator left, every '.' and '/' becomes '_' and nothing else changes |
| NameUtil.MangleClassNameCollides | compiler/src/main/java/name/martingeisse/majai/compiler/NameUtil.java:24-26 | mangling is not injective: "a/b", "a.b" and "a_b" all get the label "a_b" |
| NameUtil.MangleDescriptor | compiler/src/main/java/name/martingeisse/majai/compiler/NameUtil.java:33 | the descriptor part of a method label is shorter by the number of '(' and holds none of '(', ')', ';', '/' |
| NameUtil.MangleDescriptorPointwise | compiler/src/main/java/name/martingeisse/majai/compiler/NameUtil.java:33 | once '(' is deleted, each descriptor character maps to '_' if it is ')', ';' or '/' and to itself otherwise |
| NameUtil.MangleMethodName | compiler/src/main/java/name/martingeisse/majai/compiler/NameUtil.java:32-34 | the label is the class label, '_', the method name verbatim, '_', then the mangled descriptor, at the stated offsets |
| NameUtil.CallNameMatchesMethodName | compiler/src/main/java/name/martingeisse/majai/compiler/NameUtil.java:36-38 | the label a call site uses for owner, name and descriptor equals the label the callee's own definition gets |
| NameUtil.MangleFieldName | compiler/src/main/java/name/martingeisse/majai/compiler/NameUtil.java:40-42 | the label is the class label, '_', then the field name verbatim |
| CrossNameUtil.Normalize | cross/src/main/java/name/martingeisse/majai/NameUtil.java:14-16 | same length, no '.' left, every '.' becomes '/' and nothing else changes |
| CrossNameUtil.Denormalize | cross/src/main/java/name/martingeisse/majai/NameUtil.java:18-20 | same length, no '/' left, every '/' becomes '.' and nothing else changes |
| CrossNameUtil.MangleClassName | cross/src/main/java/name/martingeisse/majai/NameUtil.java:22-24 | same length with neither separator left |
| CrossNameUtil.AgreesWithCompiler | cross/src/main/java/name/martingeisse/majai/NameUtil.java:14-28 | normalizing, denormalizing, class mangling and method mangling give exactly the compiler generation's text for every input |
| VmMetadata.DeriveSimpleName | vm/src/main/java/name/martingeisse/majai/vm/VmObjectMetadataContributor.java:16-19 | the simple name holds no '/', is the whole name when there is no '/', and is otherwise a suffix that starts right after a '/' |
| VmMetadata.NewContributor | vm/src/main/java/name/martingeisse/majai/vm/VmObjectMetadataContributor.java:11-19 | the contributor keeps the given name and its simple name has no '/' (the whole name when there is none) |
| VmMetadata.Register | vm/src/main/java/name/martingeisse/majai/vm/VmObjectMetadata.java:20-24 | a new metadata object gets the next id, keeps the name, parent and vtable it is given, leaves existing entries alone and keeps every parent older than its child |
| VmMetadata.Chain | vm/src/main/java/name/martingeisse/majai/vm/VmObjectMetadata.java:49-53 | a class's ancestor chain starts at the class itself and only ever moves to older (smaller) ids |
| VmMetadata.SubclassIffOnChain | vm/src/main/java/name/martingeisse/majai/vm/VmObjectMetadata.java:45-54 | isEqualOrSubclassOf(x, y) holds exactly when y is x itself or one of x's ancestors |
| VmMetadata.SubclassTransitive | vm/src/main/java/name/martingeisse/majai/vm/VmObjectMetadata.java:45-54 | if x is y or a subclass of y, and y is z or a subclass of z, then x is z or a subclass of z |
| VmMetadata.SubclassAntisymmetric | vm/src/main/java/name/martingeisse/majai/vm/VmObjectMetadata.java:45-54 | two classes that are each equal to or a subclass of the other are the same class |
| VmMetadata.RootHasNoProperAncestor | vm/src/main/java/name/martingeisse/majai/vm/VmObjectMetadata.java:49-52 | a class without a parent is equal to or a subclass of nothing but itself |
| VmMetadata.ObjectIsInstanceOf | vm/src/main/java/name/martingeisse/majai/vm/VmObjectMetadata.java:34-36 | the stub answers false for every object and every metadata |
| VmMetadata.CastReference | vm/src/main/java/name/martingeisse/majai/vm/VmObjectMetadata.java:38-40 | the stub answers null for every object and every metadata |
| Bytecode.AsVar | compiler/src/main/java/name/martingeisse/majai/compiler/CodeTranslator.java:151 | the VarInsnNode cast succeeds exactly on a variable instruction and is a cast failure otherwise |
| Bytecode.AsIntOperand | compiler/src/main/java/name/martingeisse/majai/compiler/CodeTranslator.java:122 | the IntInsnNode cast succeeds exactly on an int-operand instruction |
| Bytecode.AsJump | compiler/src/main/java/name/martingeisse/majai/compiler/CodeTranslator.java:424 | the JumpInsnNode cast succeeds exactly on a jump |
| Bytecode.LabelsOf | compiler/src/main/java/name/martingeisse/majai/compiler/CodeTranslator.java:55-60 | the label pre-pass collects no more labels than there are nodes, each from a label node of the method, and a method that starts with a label has that label first |
| Bytecode.LabelsOfAppend | compiler/src/main/java/name/martingeisse/majai/compiler/CodeTranslator.java:55-60 | collecting the labels of two instruction lists in turn gives the first list's labels followed by the second's, so the labels (and so their indices) follow the order of their nodes |
| Bytecode.LabelNodeCollected | compiler/src/main/java/name/martingeisse/majai/compiler/CodeTranslator.java:55-60 | every label node of the method has its label collected by the pre-pass |
| Bytecode.FirstIndex | compiler/src/main/java/name/martingeisse/majai/compiler/CodeTranslator.java:718-724 | List.indexOf: -1 exactly when the label is absent, otherwise a position holding it with no earlier occurrence |
| CodeTranslator.ResolveClass | compiler/src/main/java/name/martingeisse/majai/compiler/CodeTranslator.java:939-941 | the context answers a class exactly for the names it holds; any other name fails with the context's own error |
| CodeTranslator.Spill | compiler/src/main/java/name/martingeisse/majai/compiler/CodeTranslator.java:46-52 | the spill is one line per argument word |
| CodeTranslator.SpillLines | compiler/src/main/java/name/martingeisse/majai/compiler/CodeTranslator.java:46-52 | line i of the spill stores argument register a_i at byte 4·i from s0 |
| CodeTranslator.LabelName | compiler/src/main/java/name/martingeisse/majai/compiler/CodeTranslator.java:718-736 | a label of the method gets the method's label, '_' and its first position among the method's label nodes; any other label fails with "referring to unknown internal label" |
| CodeTranslator.LabelNamesInjective | compiler/src/main/java/name/martingeisse/majai/compiler/CodeTranslator.java:718-736 | two labels of the method whose names agree are the same label |
| CodeTranslator.FieldWords | compiler/src/main/java/name/martingeisse/majai/compiler/CodeTranslator.java:761-763 | a field is one or two words wide |
| CodeTranslator.FindField | compiler/src/main/java/name/martingeisse/majai/compiler/CodeTranslator.java:748-754 | a found field is in the class and carries the name, and is not private unless private fields are allowed; nothing is found exactly when no field of the class qualifies |
| CodeTranslator.ResolveFieldIn | compiler/src/main/java/name/martingeisse/majai/compiler/CodeTranslator.java:747-759 | a field of the class itself wins; without one and without a superclass the lookup fails with "could not resolve field N in class C"; a field found further up is never private |
| CodeTranslator.WideFieldAsWrittenFails | compiler/src/main/java/name/martingeisse/majai/compiler/CodeTranslator.java:765-842 | for a long or double field, all four field instructions as printed fail with UnsupportedOperationException |
| CodeTranslator.WideFieldAccessPrintsTwoWords | compiler/src/main/java/name/martingeisse/majai/compiler/CodeTranslator.java:769-842 | (corrected) for a long or double field, each field instruction prints its two-word template with plain word loads and stores |
| CodeTranslator.NewarrayType | compiler/src/main/java/name/martingeisse/majai/compiler/CodeTranslator.java:554-611 | NEWARRAY knows exactly the element type codes 4 to 11; each names a one-dimensional array of a base type, "[" and its letter, and its shift amount scales the length to the element's byte size |
| CodeTranslator.NewarrayTypeParses | compiler/src/main/java/name/martingeisse/majai/compiler/CodeTranslator.java:554-611 | the array name NEWARRAY resolves is a field descriptor that parses to a one-dimensional array of its element letter, and different type codes name different arrays |
| CodeTranslator.LoadArguments | compiler/src/main/java/name/martingeisse/majai/compiler/CodeTranslator.java:888-894 | argument word i is loaded into a_i from the stack slot 4·(words-1-i), the deepest word into a0, and then sp is raised past all of them |
| CodeTranslator.NonvirtualCall | compiler/src/main/java/name/martingeisse/majai/compiler/CodeTranslator.java:888-904 | a static or special call is printed exactly when its descriptor parses |
| CodeTranslator.VirtualCall | compiler/src/main/java/name/martingeisse/majai/compiler/CodeTranslator.java:906-935 | a virtual call is printed only when its descriptor parses |
| CodeTranslator.Translate | compiler/src/main/java/name/martingeisse/majai/compiler/CodeTranslator.java:34-74 | a native method yields no lines; otherwise the method translates exactly when its instruction list does, in the method's own label table, and the lines are the prologue, those instructions' lines, then the epilogue |
| CodeTranslator.TranslateNode | compiler/src/main/java/name/martingeisse/majai/compiler/CodeTranslator.java:76-650 | no contract of its own; its stack effect is stated by TranslatorStack.NodeMatchesJvmStack and its two editions are compared by CodeTranslator.EditionsAgree |
| CodeTranslator.TranslateAll | compiler/src/main/java/name/martingeisse/majai/compiler/CodeTranslator.java:61-63 | no contract of its own; its stack effect is stated by TranslatorStack.BodyMatchesJvmStack and its success by CodeTranslator.TranslateAllIsEachNode |
| CodeTranslator.TranslateAllIsEachNode | compiler/src/main/java/name/martingeisse/majai/compiler/CodeTranslator.java:61-63 | a method body translates exactly when each of its instructions does, and a failing body fails with the error of its first failing instruction |
| CodeTranslator.EditionsAgree | compiler/src/main/java/name/martingeisse/majai/compiler/CodeTranslator.java:76-650 | the printed and the intended switch give the same result on every opcode other than the corrected DUP_X2, DUP2_X1, DUP2_X2, INEG, LSTORE, DSTORE and the four field instructions |
| CodeTranslator.LowEditionsAgree | compiler/src/main/java/name/martingeisse/majai/compiler/CodeTranslator.java:90-214 | the two editions agree on the constants, loads, stores and array accesses other than LSTORE and DSTORE |
| CodeTranslator.StackEditionsAgree | compiler/src/main/java/name/martingeisse/majai/compiler/CodeTranslator.java:216-385 | the two editions agree on the stack and arithmetic instructions other than DUP_X2, DUP2_X1, DUP2_X2 and INEG |
| CodeTranslator.HighEditionsAgree | compiler/src/main/java/name/martingeisse/majai/compiler/CodeTranslator.java:387-650 | the two editions agree on the conversions, branches, returns, calls and allocations |
| TemplateRuns.RunStore32 | compiler/src/main/java/name/martingeisse/majai/compiler/CodeTranslator.java:669-672 | store32 pops the top word into local index and changes no other memory word |
| TemplateRuns.RunLoad32 | compiler/src/main/java/name/martingeisse/majai/compiler/CodeTranslator.java:664-667 | load32 pushes local index and changes no other memory word |
| TemplateRuns.RunBoth | compiler/src/main/java/name/martingeisse/majai/compiler/CodeTranslator.java:76-78 | running two templates in a row is running the second on the first's result |
| TemplateRuns.RunStore64 | compiler/src/main/java/name/martingeisse/majai/compiler/CodeTranslator.java:679-682 | store64 pops the two top words into locals index and index + 1 and changes no other memory word |
| TemplateRuns.RunLoad64 | compiler/src/main/java/name/martingeisse/majai/compiler/CodeTranslator.java:674-677 | load64 pushes locals index + 1 and index, local index on top, and changes no other memory word |
| TemplateRuns.Store64ThenLoad64 | compiler/src/main/java/name/martingeisse/majai/compiler/CodeTranslator.java:674-682 | store64 and then load64 of the same local give back the stack they started from, with the two words left in the locals |
| TemplateRuns.PutfieldAsWrittenStoresStaleT0 | compiler/src/main/java/name/martingeisse/majai/compiler/CodeTranslator.java:824-829 | PUTFIELD of a one-word field as printed stores whatever t0 held into the field: the field gets the stack's value exactly when t0 happened to hold it |
| TemplateRuns.PutfieldStoresValue | compiler/src/main/java/name/martingeisse/majai/compiler/CodeTranslator.java:824-829 | (corrected) PUTFIELD stores the top word into the field of the object below it, pops both, and changes no other memory word |
| TemplateRuns.GetfieldLoadsValue | compiler/src/main/java/name/martingeisse/majai/compiler/CodeTranslator.java:805-809 | GETFIELD of a one-word field replaces the object reference on top by the field's word and changes no other memory word |
| TemplateRuns.PutfieldThenGetfield | compiler/src/main/java/name/martingeisse/majai/compiler/CodeTranslator.java:805-829 | a GETFIELD of the field a PUTFIELD just wrote on the same object reads back the stored value |
| TemplateRuns.ArgRegDistinct | compiler/src/main/java/name/martingeisse/majai/compiler/CodeTranslator.java:46-52 | argument registers are distinct from sp, s0, ra and x0, and different indexes name different registers |
| TemplateRuns.RunFrameSetup | compiler/src/main/java/name/martingeisse/majai/compiler/CodeTranslator.java:40-45 | the prologue moves sp down over the locals and two saved words, saves ra and s0 there, and points s0 at the frame |
| TemplateRuns.RunSpill | compiler/src/main/java/name/martingeisse/majai/compiler/CodeTranslator.java:46-52 | the spill stores each argument register a_i at local i and changes no register |
| TemplateRuns.FrameTeardownRestores | compiler/src/main/java/name/martingeisse/majai/compiler/CodeTranslator.java:66-71 | the epilogue reloads s0 and ra from where the prologue saved them and releases the frame |
| TemplateRuns.SetupAndSpill | compiler/src/main/java/name/martingeisse/majai/compiler/CodeTranslator.java:40-52 | after the prologue and spill the frame lies just below the caller's sp, and every argument that fits in the locals is in its local |
| TemplateRuns.FrameRoundTrip | compiler/src/main/java/name/martingeisse/majai/compiler/CodeTranslator.java:40-71 | prologue, spill and epilogue give the caller back its sp, s0 and ra |
| StackShuffles.StackFrom | compiler/src/main/java/name/martingeisse/majai/compiler/CodeTranslator.java:224-281 | a machine whose top words are given and whose words below repeat another machine's stack has exactly that stack |
| StackShuffles.RunLoadLines | compiler/src/main/java/name/martingeisse/majai/compiler/CodeTranslator.java:224-281 | a run of loads always completes, leaves memory and sp alone and gives each loaded register the word of the last load naming it |
| StackShuffles.RunStoreLines | compiler/src/main/java/name/martingeisse/majai/compiler/CodeTranslator.java:224-281 | a run of stores always completes, leaves every register alone and gives each word the register of the last store to it |
| StackShuffles.RunShuffle | compiler/src/main/java/name/martingeisse/majai/compiler/CodeTranslator.java:224-281 | a load-move-store template always completes; sp moves by the given amount and each word holds the register loaded last for the last store to it, or keeps its old value if nothing is stored there |
| StackShuffles.PicturedWord | compiler/src/main/java/name/martingeisse/majai/compiler/CodeTranslator.java:224-281 | when every new top word's store traces back to a load of old word k, that new word equals old word k |
| StackShuffles.KeptWord | compiler/src/main/java/name/martingeisse/majai/compiler/CodeTranslator.java:224-281 | a word no store touches keeps its value |
| StackShuffles.ShuffleStack | compiler/src/main/java/name/martingeisse/majai/compiler/CodeTranslator.java:224-281 | a template whose stores picture the top words and keep the rest yields the picked words followed by the untouched rest of the old stack |
| StackShuffles.RunTemplate | compiler/src/main/java/name/martingeisse/majai/compiler/CodeTranslator.java:224-281 | any template of the load-move-store form, run on a deep enough stack, gives the picked words on top of the old stack minus the consumed words |
| StackShuffles.DupMatchesJvm | compiler/src/main/java/name/martingeisse/majai/compiler/CodeTranslator.java:224-228 | the DUP template leaves a copy of the top word on top of the unchanged stack, exactly as the JVM rule says |
| StackShuffles.DupX1MatchesJvm | compiler/src/main/java/name/martingeisse/majai/compiler/CodeTranslator.java:230-237 | the DUP_X1 template inserts a copy of the top word below the second word, exactly as the JVM rule says |
| StackShuffles.DupX2AsWrittenDiffers | compiler/src/main/java/name/martingeisse/majai/compiler/CodeTranslator.java:239-248 | DUP_X2 as printed produces top, second, third, third: it agrees with the JVM rule exactly when the top and third words are equal |
| StackShuffles.DupX2MatchesJvm | compiler/src/main/java/name/martingeisse/majai/compiler/CodeTranslator.java:239-248 | (corrected) the DUP_X2 template inserts a copy of the top word below the third word, exactly as the JVM rule says |
| StackShuffles.Dup2X1AsWrittenDiffers | compiler/src/main/java/name/martingeisse/majai/compiler/CodeTranslator.java:250-260 | DUP2_X1 as printed grows the stack by one word and loses the JVM result's sixth word |
| StackShuffles.Dup2X1MatchesJvm | compiler/src/main/java/name/martingeisse/majai/compiler/CodeTranslator.java:250-260 | (corrected) the DUP2_X1 template inserts a copy of the top two words below the third word, exactly as the JVM rule says |
| StackShuffles.Dup2X2AsWrittenDiffers | compiler/src/main/java/name/martingeisse/majai/compiler/CodeTranslator.java:262-274 | DUP2_X2 as printed writes the third word twice and loses the fourth: it agrees with the JVM rule exactly when the third and fourth words are equal |
| StackShuffles.Dup2X2MatchesJvm | compiler/src/main/java/name/martingeisse/majai/compiler/CodeTranslator.java:262-274 | (corrected) the DUP2_X2 template inserts a copy of the top two words below the fourth word, exactly as the JVM rule says |
| StackShuffles.SwapMatchesJvm | compiler/src/main/java/name/martingeisse/majai/compiler/CodeTranslator.java:276-281 | the SWAP template exchanges the top two words and keeps the rest, exactly as the JVM rule says |
| TranslatorStack.PushPopMoves | compiler/src/main/java/name/martingeisse/majai/compiler/CodeTranslator.java:684-692 | push moves sp down by one word and pop moves it up by one word |
| TranslatorStack.PushIntMoves | compiler/src/main/java/name/martingeisse/majai/compiler/CodeTranslator.java:654-657 | pushing an int constant grows the machine stack by one word |
| TranslatorStack.PushLongMoves | compiler/src/main/java/name/martingeisse/majai/compiler/CodeTranslator.java:659-662 | pushing a long constant grows the machine stack by two words |
| TranslatorStack.LocalsMove | compiler/src/main/java/name/martingeisse/majai/compiler/CodeTranslator.java:664-682 | load32 pushes one word, store32 pops one, load64 pushes two and store64 pops two |
| TranslatorStack.WordOpMoves | compiler/src/main/java/name/martingeisse/majai/compiler/CodeTranslator.java:698-706 | a two-operand word operation leaves one word where there were two |
| TranslatorStack.ShufflesMove | compiler/src/main/java/name/martingeisse/majai/compiler/CodeTranslator.java:216-281 | the DUP family grows the machine stack by one word, DUP2_X2 by two, SWAP keeps its height, and the corrected DUP2_X1 and INEG move sp as the JVM instructions do |
| TranslatorStack.InPlaceMove | compiler/src/main/java/name/martingeisse/majai/compiler/CodeTranslator.java:379-414 | IINC and the narrowing conversions keep the stack height |
| TranslatorStack.BranchMoves | compiler/src/main/java/name/martingeisse/majai/compiler/CodeTranslator.java:710-716 | a comparison with zero pops one word and a two-operand comparison pops two |
| TranslatorStack.ReturnsMove | compiler/src/main/java/name/martingeisse/majai/compiler/CodeTranslator.java:489-506 | a one-word return pops one word, a two-word return pops two, a void return none |
| TranslatorStack.FieldTemplatesMove | compiler/src/main/java/name/martingeisse/majai/compiler/CodeTranslator.java:765-842 | for one- and two-word fields, each of the four field templates moves sp by -4 per word the JVM instruction leaves on the stack (the as-written one-word PUTFIELD included) |
| TranslatorStack.ArrayTemplatesMove | compiler/src/main/java/name/martingeisse/majai/compiler/CodeTranslator.java:844-886 | an array load replaces reference and index by the element (one word fewer, or the same height for two-word elements); an array store pops reference, index and value (three words, or four for two-word elements); array allocation keeps the height |
| TranslatorStack.NewMoves | compiler/src/main/java/name/martingeisse/majai/compiler/CodeTranslator.java:543-552 | NEW pushes exactly one word, the new object's address |
| TranslatorStack.CallsMove | compiler/src/main/java/name/martingeisse/majai/compiler/CodeTranslator.java:888-935 | both call templates pop the argument words and push the one or two result words |
| TranslatorStack.ConstantMoves | compiler/src/main/java/name/martingeisse/majai/compiler/CodeTranslator.java:90-145 | every successfully lowered constant instruction moves sp by -4 per word the JVM instruction pushes |
| TranslatorStack.LocalOrArrayMoves | compiler/src/main/java/name/martingeisse/majai/compiler/CodeTranslator.java:147-214 | every successfully lowered local or array access moves sp by -4 per word the JVM instruction gains, in the intended edition always and in the printed one except for LSTORE and DSTORE |
| TranslatorStack.ArrayLoadMoves | compiler/src/main/java/name/martingeisse/majai/compiler/CodeTranslator.java:160-181 | every successfully lowered array load moves sp as the JVM instruction does |
| TranslatorStack.ArrayStoreMoves | compiler/src/main/java/name/martingeisse/majai/compiler/CodeTranslator.java:196-214 | every successfully lowered array store moves sp as the JVM instruction does |
| TranslatorStack.StackOrArithmeticMoves | compiler/src/main/java/name/martingeisse/majai/compiler/CodeTranslator.java:216-385 | every successfully lowered stack or arithmetic instruction moves sp as the JVM instruction does, in the intended edition always and in the printed one except for INEG and DUP2_X1 |
| TranslatorStack.ControlMoves | compiler/src/main/java/name/martingeisse/majai/compiler/CodeTranslator.java:387-506 | every successfully lowered conversion, comparison, branch or return moves sp as the JVM instruction does |
| TranslatorStack.NarrowMoves | compiler/src/main/java/name/martingeisse/majai/compiler/CodeTranslator.java:401-414 | I2B, I2C and I2S are always lowered and keep the stack height, as the JVM instructions do |
| TranslatorStack.ConditionalMoves | compiler/src/main/java/name/martingeisse/majai/compiler/CodeTranslator.java:423-482 | every successfully lowered conditional branch or GOTO pops the words the JVM instruction pops |
| TranslatorStack.ReturnMoves | compiler/src/main/java/name/martingeisse/majai/compiler/CodeTranslator.java:489-506 | every successfully lowered return pops the words the JVM instruction pops |
| TranslatorStack.ObjectMoves | compiler/src/main/java/name/martingeisse/majai/compiler/CodeTranslator.java:527-645 | every successfully lowered object, call or allocation instruction, other than the field instructions, moves sp as the JVM instruction does |
| TranslatorStack.AllocationMoves | compiler/src/main/java/name/martingeisse/majai/compiler/CodeTranslator.java:543-645 | NEW, NEWARRAY, ANEWARRAY, ARRAYLENGTH, IFNULL and IFNONNULL move sp as the JVM instructions do |
| TranslatorStack.InvokeDelta | compiler/src/main/java/name/martingeisse/majai/compiler/CodeTranslator.java:527-538 | the JVM stack effect of a call instruction is the one its descriptor gives: minus the parameter words and the receiver, plus the return words |
| TranslatorStack.NonvirtualCallMoves | compiler/src/main/java/name/martingeisse/majai/compiler/CodeTranslator.java:888-904 | a successfully lowered static or special call moves sp as the JVM call instruction does |
| TranslatorStack.VirtualCallMoves | compiler/src/main/java/name/martingeisse/majai/compiler/CodeTranslator.java:906-935 | a successfully lowered virtual call moves sp as the JVM call instruction does |
| TranslatorStack.InvokeIsCall | compiler/src/main/java/name/martingeisse/majai/compiler/CodeTranslator.java:527-538 | a call opcode on a node that is not a method instruction fails with a class-cast error |
| TranslatorStack.InvokeMoves | compiler/src/main/java/name/martingeisse/majai/compiler/CodeTranslator.java:527-538 | every successfully lowered call moves sp as the JVM instruction does |
| TranslatorStack.TranslateNodeMatchesJvmStack | compiler/src/main/java/name/martingeisse/majai/compiler/CodeTranslator.java:76-650 | every instruction the intended edition lowers successfully, other than the four field instructions, moves sp by exactly -4 per word the JVM instruction adds to the operand stack; so does the printed edition on every such instruction except INEG, DUP2_X1, LSTORE and DSTORE |
| TranslatorStack.FieldAccessMatchesJvmStack | compiler/src/main/java/name/martingeisse/majai/compiler/CodeTranslator.java:507-526 | a successfully lowered field instruction, in either edition, resolved its field and moves sp by -4 per word gained, for the field's own width; the printed one is always a one-word access with the descriptor's own mnemonic |
| TranslatorStack.NodeMatchesJvmStack | compiler/src/main/java/name/martingeisse/majai/compiler/CodeTranslator.java:76-650 | every lowered instruction, field instructions included, moves sp by -4 per word of its JVM stack effect, in the intended edition always and in the printed one except for INEG, DUP2_X1, LSTORE and DSTORE |
| TranslatorStack.BodyMatchesJvmStack | compiler/src/main/java/name/martingeisse/majai/compiler/CodeTranslator.java:61-63 | a translated instruction list moves sp by -4 times the sum of its instructions' JVM stack effects, under the same exclusions |
| TranslatorStack.AsPrintedMovesWrongly | compiler/src/main/java/name/martingeisse/majai/compiler/CodeTranslator.java:190-331 | as printed, INEG and DUP2_X1 leave sp one word above where the JVM stack effect puts it, and LSTORE and DSTORE one word below |
| TranslatorStack.LongStoreAsPrintedMoves | compiler/src/main/java/name/martingeisse/majai/compiler/CodeTranslator.java:190-194 | the printed LSTORE and DSTORE are store32 of the local index and pop one word |
| TranslatorStack.StackAsPrintedMoves | compiler/src/main/java/name/martingeisse/majai/compiler/CodeTranslator.java:250-331 | the printed INEG pops a word and the printed DUP2_X1 pushes only one |
| TranslatorStack.IntPushMoves | compiler/src/main/java/name/martingeisse/majai/compiler/CodeTranslator.java:119-123 | BIPUSH and SIPUSH push one word |
| TranslatorStack.LdcMoves | compiler/src/main/java/name/martingeisse/majai/compiler/CodeTranslator.java:125-145 | a lowered LDC, of an int or of a string, pushes one word |
| TranslatorStack.NegAsWrittenPops | compiler/src/main/java/name/martingeisse/majai/compiler/CodeTranslator.java:328-331 | INEG as printed pops one word although the JVM instruction keeps the stack height; the corrected template keeps it |
| TranslatorStack.LongStoreAsWrittenPopsOneWord | compiler/src/main/java/name/martingeisse/majai/compiler/CodeTranslator.java:190-194 | LSTORE and DSTORE as printed pop one word of the two the JVM instruction pops; store64 pops both |
| TranslatorStack.Dup2X1AsWrittenGrowsByOne | compiler/src/main/java/name/martingeisse/majai/compiler/CodeTranslator.java:250-261 | DUP2_X1 as printed grows the stack by one word instead of two; the corrected template grows it by two |
| CrossCodeTranslator.TargetLabel | cross/src/main/java/name/martingeisse/majai/CodeTranslator.java:569-571 | a jump is named by the method's mangled name, '_' and the decimal bytecode offset of its target label; any other node is a cast failure |
| CrossCodeTranslator.TargetLabelsAgreeIffSameOffset | cross/src/main/java/name/martingeisse/majai/CodeTranslator.java:569-571 | two jumps of one method print the same target label if and only if their targets sit at the same bytecode offset |
| CrossCodeTranslator.StaticCall | cross/src/main/java/name/martingeisse/majai/CodeTranslator.java:462-479 | INVOKESTATIC lowers exactly when the callee's descriptor parses; a descriptor the parser refuses is the call's error |
| CrossCodeTranslator.Translate | cross/src/main/java/name/martingeisse/majai/CodeTranslator.java:27-68 | constructors and native methods print nothing, a static initializer and an instance method are refused with their messages; any other method prints exactly when its descriptor parses and its instruction list translates, and then the lines are the prologue with the parameter words spilled, the instructions' lines, and the epilogue |
| CrossCodeTranslator.OpcodeLessNodeFails | cross/src/main/java/name/martingeisse/majai/CodeTranslator.java:503-504 | label, frame and line-number nodes (opcode -1) reach the default case and fail as unknown opcode -1 |
| CrossCodeTranslator.TranslatedBodyHasNoLabels | cross/src/main/java/name/martingeisse/majai/CodeTranslator.java:56-58 | an instruction list translates only if none of its nodes is opcode-less |
| CrossCodeTranslator.TranslatedMethodHasNoLabels | cross/src/main/java/name/martingeisse/majai/CodeTranslator.java:27-68 | a static method that prints holds no label node at all, so none of its jumps can land inside it |
| CrossCodeTranslator.FallThroughsFail | cross/src/main/java/name/martingeisse/majai/CodeTranslator.java:109-138 | LDC and LLOAD/DLOAD never lower: an integer LDC falls into the ILOAD case and fails the VarInsnNode cast, and LLOAD/DLOAD fall into the unimplemented array loads |
| CrossCodeTranslator.TranslateAllAppend | cross/src/main/java/name/martingeisse/majai/CodeTranslator.java:56-58 | translating two instruction lists in turn succeeds exactly when both do and prints their outputs one after the other |
| CrossCodeTranslator.TranslateNode | cross/src/main/java/name/martingeisse/majai/CodeTranslator.java:70-506 | no contract of its own; its stack effect is stated by CrossTranslatorStack.CrossNodeMatchesJvmStack |
| CrossCodeTranslator.TranslateAll | cross/src/main/java/name/martingeisse/majai/CodeTranslator.java:56-58 | no contract of its own; its stack effect is stated by CrossTranslatorStack.CrossBodyMatchesJvmStack and its success by CrossCodeTranslator.TranslateAllIsEachNode |
| CrossCodeTranslator.TranslateAllIsEachNode | cross/src/main/java/name/martingeisse/majai/CodeTranslator.java:56-58 | a method body translates exactly when each of its instructions does, and a failing body fails with the error of its first failing instruction |
| CrossCodeTranslator.InvokeStatic | cross/src/main/java/name/martingeisse/majai/CodeTranslator.java:462-479 | no contract of its own; a non-call node is the cast failure, and the call's effect is stated by CrossTranslatorStack.StaticCallMoves |
| CrossCodeTranslator.CrossBranch | cross/src/main/java/name/martingeisse/majai/CodeTranslator.java:561-567 | no contract of its own; the branches' pops are stated by CrossTranslatorStack.ConditionalMoves and BranchOnNullMoves |
| CrossTranslatorStack.SameFrameAsCompiler | cross/src/main/java/name/martingeisse/majai/CodeTranslator.java:42-65 | for a descriptor both parsers accept, a printed static method is the compiler generation's prologue, the cross translation of its instruction list, and the compiler generation's epilogue |
| CrossTranslatorStack.ConstantMoves | cross/src/main/java/name/martingeisse/majai/CodeTranslator.java:74-107 | every constant-pushing instruction that lowers moves sp down by 4 bytes per word it pushes on the JVM operand stack |
| CrossTranslatorStack.LocalMoves | cross/src/main/java/name/martingeisse/majai/CodeTranslator.java:118-161 | every load and one-word store that lowers moves sp by -4 times the JVM stack delta |
| CrossTranslatorStack.StackMoves | cross/src/main/java/name/martingeisse/majai/CodeTranslator.java:163-332 | POP through IINC, other than INEG and DUP2_X1, move sp by -4 times the JVM stack delta |
| CrossTranslatorStack.ControlMoves | cross/src/main/java/name/martingeisse/majai/CodeTranslator.java:348-452 | narrowing, conditional branches, GOTO and the returns move sp by -4 times the JVM stack delta |
| CrossTranslatorStack.NarrowMoves | cross/src/main/java/name/martingeisse/majai/CodeTranslator.java:348-361 | I2B, I2C and I2S always lower and leave sp where it was, as the JVM leaves the stack depth |
| CrossTranslatorStack.ConditionalMoves | cross/src/main/java/name/martingeisse/majai/CodeTranslator.java:370-424 | a conditional branch pops one word for a comparison with zero and two for a comparison of two values |
| CrossTranslatorStack.ReturnMoves | cross/src/main/java/name/martingeisse/majai/CodeTranslator.java:436-452 | the returns pop the words of the returned value |
| CrossTranslatorStack.BranchOnNullMoves | cross/src/main/java/name/martingeisse/majai/CodeTranslator.java:495-501 | IFNULL and IFNONNULL pop the tested reference |
| CrossTranslatorStack.CrossNodeMatchesJvmStack | cross/src/main/java/name/martingeisse/majai/CodeTranslator.java:70-505 | every instruction that lowers, other than INEG, DUP2_X1, LSTORE, DSTORE and INVOKESTATIC, moves sp by -4 times its JVM operand-stack delta |
| CrossTranslatorStack.CrossNodeMoves | cross/src/main/java/name/martingeisse/majai/CodeTranslator.java:70-505 | every instruction that lowers, INVOKESTATIC included and INEG, DUP2_X1, LSTORE and DSTORE excluded, moves sp by -4 times its JVM stack effect, when the return-word hook counts the return type's words |
| CrossTranslatorStack.CrossBodyMatchesJvmStack | cross/src/main/java/name/martingeisse/majai/CodeTranslator.java:56-58 | a translated instruction list without those four opcodes moves sp by -4 times the sum of its instructions' JVM stack effects |
| CrossTranslatorStack.CrossAsWrittenMovesWrongly | cross/src/main/java/name/martingeisse/majai/CodeTranslator.java:147-277 | as printed, INEG and DUP2_X1 leave sp 4 bytes too high and LSTORE/DSTORE leave it 4 bytes too low against the JVM stack |
| CrossTranslatorStack.StaticCallMoves | cross/src/main/java/name/martingeisse/majai/CodeTranslator.java:462-479 | INVOKESTATIC pops the parameter words and pushes the return words when those are 0, 1 or 2 |
| CrossTranslatorStack.StaticCallMatchesJvmStack | cross/src/main/java/name/martingeisse/majai/CodeTranslator.java:462-479 | for a descriptor both parsers accept and a return-word count that agrees with the compiler generation, INVOKESTATIC moves sp by -4 times the JVM stack delta of the call |
| Compiler.PlaceFields | compiler/src/main/java/name/martingeisse/majai/compiler/Compiler.java:151-175 | every field gets an offset, and neither allocator loses words or changes its sealed flag |
| Compiler.PlacementSplits | compiler/src/main/java/name/martingeisse/majai/compiler/Compiler.java:151-175 | interleaving static and instance fields is invisible: placement succeeds exactly when each allocator accepts its own fields' calls alone, and each ends where, and hands out what, it would on those calls alone |
| Compiler.AllocateSlots | compiler/src/main/java/name/martingeisse/majai/compiler/Compiler.java:179-184 | a slot goes to exactly the non-static methods other than constructors, each the index `allocateMethod(methodInfo)` answers; with no such method nothing is allocated; the allocator's exception on a method ends the loop |
| Compiler.SlotsOfZeroAllocator | compiler/src/main/java/name/martingeisse/majai/compiler/VtableAllocator.java:31-34 | with the zero-argument `allocateMethod()`, the loop fails exactly when the allocator is sealed and some method gets a slot, and otherwise every such method gets slot 0 |
| Compiler.ResolveClass | compiler/src/main/java/name/martingeisse/majai/compiler/Compiler.java:119-198 | array names are refused with the IllegalArgumentException, a published class is returned unchanged, a closed resolution refuses new classes with the IllegalStateException message, and a success publishes the class under its internal name keeping every earlier class and the well-formedness of the table, which includes the layout of `Compiler.Laid`; the shared static allocator never loses words |
| Compiler.Build | compiler/src/main/java/name/martingeisse/majai/compiler/Compiler.java:138-195 | the class is published alongside the existing classes with the offsets `PlaceFields` hands out, the slots `AllocateSlots` hands out, and an interface or class metadata object naming its superclass, and the static allocator is left where `PlaceFields` leaves it; it fails exactly when placement or the slot hook fails, with that failure, when the hook leaves the vtable allocator sealed, with the sealed message, or when a class extends an interface, with the ClassCastException of the `(VmClass)` cast |
| Compiler.PublishKeepsWf | compiler/src/main/java/name/martingeisse/majai/compiler/Compiler.java:195 | publishing a sealed class whose superclass is already published, and whose fields, slots and metadata are laid out from it (`Publishable`), keeps every class well formed |
| Compiler.ResolvedClassIsComplete | compiler/src/main/java/name/martingeisse/majai/compiler/Compiler.java:119-198 | a resolved class has the asked-for internal name, sealed field and vtable layouts, one offset per field, a vtable slot for exactly the non-static non-constructor methods, its interface or class metadata object, and instance fields laid out, after a superclass published earlier, exactly as allocating them alone from the superclass's allocator would (`Compiler.Laid`) |
| Compiler.ResolveIsMemoised | compiler/src/main/java/name/martingeisse/majai/compiler/Compiler.java:124-125 | resolving the same name again returns the same class and changes nothing |
| Compiler.ResolveAll | compiler/src/main/java/name/martingeisse/majai/compiler/Compiler.java:119-198 | resolving several names publishes every one of them |
| Compiler.ElementName | compiler/src/main/java/name/martingeisse/majai/compiler/Compiler.java:209-217 | the element name of an array class name is strictly shorter, so the recursion in resolveObjectMetadataContributor ends |
| Compiler.ElementNameRoundTrip | compiler/src/main/java/name/martingeisse/majai/compiler/Compiler.java:209-217 | the element name of "[" + an array name, and of "[L" + name + ";", is that name |
| Compiler.ResolveMetadata | compiler/src/main/java/name/martingeisse/majai/compiler/Compiler.java:200-225 | memoised; a closed resolution refuses new names; a bad array name is the "invalid array class name" error; an array's metadata wraps its element's, a class's is its resolved class's, and every earlier entry is kept |
| Compiler.ResolveRequests | compiler/src/main/java/name/martingeisse/majai/compiler/CodeTranslator.java:543-620 | answering a translation's `resolveClass` and `resolveObjectMetadata` calls in order only adds classes and metadata objects, and afterwards every name asked for is resolved |
| Compiler.TranslateMethods | compiler/src/main/java/name/martingeisse/majai/compiler/Compiler.java:266-268 | translating a class's methods, with the resolutions they ask for, keeps the class table well formed and only adds classes and metadata objects |
| Compiler.ClassText | compiler/src/main/java/name/martingeisse/majai/compiler/Compiler.java:263-271 | the class banner names the class in its dotted form and frames the method code with five fixed lines |
| Compiler.CompiledOnceAppend | compiler/src/main/java/name/martingeisse/majai/compiler/Compiler.java:254 | two runs that each compile classes at most once compose into one that does |
| Compiler.CompileClass | compiler/src/main/java/name/martingeisse/majai/compiler/Compiler.java:251-276 | a compiled class prints nothing again; every failure except the stack overflow of a cyclic superclass chain (an `Error`, not caught) is wrapped as "error compiling class" + the name; a success compiles the class once, after its superclass, keeping the tables well formed |
| Compiler.CompileMarked | compiler/src/main/java/name/martingeisse/majai/compiler/Compiler.java:254-272 | once marked, a class compiles its superclass first and its own code last |
| Compiler.CompileSuper | compiler/src/main/java/name/martingeisse/majai/compiler/Compiler.java:257-260 | compiling the superclass keeps the class tables and compiles each class at most once, and a superclass not compiled before appears in the output |
| Compiler.CompiledLast | compiler/src/main/java/name/martingeisse/majai/compiler/Compiler.java:263-271 | adding the marked class's own code after its dependencies keeps every class compiled at most once |
| Compiler.CompileAllResolved | compiler/src/main/java/name/martingeisse/majai/compiler/Compiler.java:235-246 | on success every resolved class, including those resolved while compiling, is compiled exactly once; failures are the wrapped compile errors or an unwrapped stack overflow |
| Compiler.CompiledInFiles | compiler/src/main/java/name/martingeisse/majai/compiler/Compiler.java:251-276 | only classes the loader provides are ever compiled |
| Compiler.AddPrimitiveArrays | compiler/src/main/java/name/martingeisse/majai/compiler/Compiler.java:78-85 | all eight primitive array types get their metadata, no other metadata name appears or disappears, and the class tables are untouched |
| Compiler.StaticFieldsText | compiler/src/main/java/name/martingeisse/majai/compiler/Compiler.java:283-293 | the static area is reserved with one ".fill words, 4, 0" line in the data section |
| Compiler.Bootstrap | compiler/src/main/java/name/martingeisse/majai/compiler/Compiler.java:74-87 | Object and String are resolved, the eight primitive arrays and Object[] have metadata, and nothing is compiled yet |
| Compiler.BootstrapArrays | compiler/src/main/java/name/martingeisse/majai/compiler/Compiler.java:78-87 | on a state with no metadata yet, the eight primitive arrays get their entries and Object[] an object-array entry, keeping every class and the well-formedness of the table |
| Compiler.Compile | compiler/src/main/java/name/martingeisse/majai/compiler/Compiler.java:67-92 | a successful compilation closes resolution, seals the static area, and prints each resolved class exactly once, including Object, String and the main class |
| CrossCompiler.ResolveClass | cross/src/main/java/name/martingeisse/majai/Compiler.java:63-118 | memoised by internal name; a missing class file is the loader's failure; a success publishes the class, keeping every earlier class and the table's well-formedness, which includes the field layout of `Compiler.FieldsLaid`; the shared static allocator never loses words |
| CrossCompiler.NormalizeIdempotent | cross/src/main/java/name/martingeisse/majai/Compiler.java:64 | normalizing an already normalized name changes nothing |
| CrossCompiler.Build | cross/src/main/java/name/martingeisse/majai/Compiler.java:77-114 | the class is published with the offsets `Compiler.PlaceFields` hands out and its sealed instance allocator, the shared static allocator is left where placement leaves it, and it fails exactly when placement fails, with that failure |
| CrossCompiler.PublishKeepsWf | cross/src/main/java/name/martingeisse/majai/Compiler.java:113-114 | publishing a sealed class whose superclass is already published, and whose fields are laid out after that superclass's (`Publishable`), keeps every class well formed |
| CrossCompiler.ResolvedClassIsComplete | cross/src/main/java/name/martingeisse/majai/Compiler.java:63-118 | a resolved class has the asked-for internal name, a sealed field allocator, one offset per field, and instance fields laid out, after a superclass published earlier, exactly as allocating them alone from the superclass's allocator would |
| CrossCompiler.HeaderSizesAgree | cross/src/main/java/name/martingeisse/majai/Compiler.java:148-150 | with jboot's Array (a direct subclass of Object holding only the int length), the cross header size equals the compiler generation's, Object's words plus the length word |
| CrossCompiler.TranslateMethods | cross/src/main/java/name/martingeisse/majai/Compiler.java:136-138 | a class's methods translate exactly when each one does, and the class's code starts with the first method's |
| CrossCompiler.CompileClass | cross/src/main/java/name/martingeisse/majai/Compiler.java:120-145 | a compiled class prints nothing again; every failure except the uncaught stack overflow of a cyclic superclass chain is wrapped as "error compiling class" + the name; a success compiles the class once with its code last |
| CrossCompiler.CompileMarked | cross/src/main/java/name/martingeisse/majai/Compiler.java:123-141 | once marked, a class is compiled at most once with its own code last, after whatever its superclass printed |
| CrossCompiler.CompileSuper | cross/src/main/java/name/martingeisse/majai/Compiler.java:126-129 | compiling the superclass keeps the class tables and compiles each class at most once |
| CrossCompiler.Compile | cross/src/main/java/name/martingeisse/majai/Compiler.java:50-61 | a successful compilation seals the static area, compiles the main class, each class at most once and every superclass of a compiled class too, and has Object and Array resolved |
| RuntimeObjects.Label | compiler/src/main/java/name/martingeisse/majai/compiler/RuntimeObjects.java:17 | every generated label starts with "object" and has a number after it |
| RuntimeObjects.LabelsInjective | compiler/src/main/java/name/martingeisse/majai/compiler/RuntimeObjects.java:16-18 | two different objects of the table never share a label |
| RuntimeObjects.LabelStable | compiler/src/main/java/name/martingeisse/majai/compiler/RuntimeObjects.java:16-18 | a label, once handed out, is kept by every later growth of the table |
| RuntimeObjects.GetLabel | compiler/src/main/java/name/martingeisse/majai/compiler/RuntimeObjects.java:16-18 | a known object gets its label and the table stays as it was; an unknown one is appended and gets "object" followed by the table's old size; the table never holds an object twice |
| RuntimeObjects.GetLabelIdempotent | compiler/src/main/java/name/martingeisse/majai/compiler/RuntimeObjects.java:16-18 | asking twice for the same object gives the same label and the same table as asking once |
| RuntimeObjects.GetLabelKeepsLabels | compiler/src/main/java/name/martingeisse/majai/compiler/RuntimeObjects.java:16-18 | labelling one object never changes the label of another already in the table |
| RuntimeObjects.LabelAll | compiler/src/main/java/name/martingeisse/majai/compiler/RuntimeObjectSerializer.java:40-46 | labelling the elements of an array in order labels every element, adds nothing else, keeps old labels, and answers each element's own label |
| RuntimeObjects.ByteTextsInRange | compiler/src/main/java/name/martingeisse/majai/compiler/RuntimeObjectSerializer.java:24-30 | every byte is printed as a number from 0 to 255: the byte itself, plus 256 for a negative one |
| RuntimeObjects.RenderStable | compiler/src/main/java/name/martingeisse/majai/compiler/RuntimeObjectSerializer.java:15-52 | an object's lines do not change when the table grows later |
| RuntimeObjects.Serialize | compiler/src/main/java/name/martingeisse/majai/compiler/RuntimeObjectSerializer.java:15-52 | fails exactly on an object that is not null, byte[] or Object[], with "cannot serialize for runtime: " and its text; otherwise the table only grows, by the array's elements only, and the lines are the object's three-line (one-line for null) layout with the labels the final table gives |
| RuntimeObjects.SerializeNull | compiler/src/main/java/name/martingeisse/majai/compiler/RuntimeObjectSerializer.java:16-17 | null is the single line ".word 0" and labels nothing |
| RuntimeObjects.ObjectArrayEntryCount | compiler/src/main/java/name/martingeisse/majai/compiler/RuntimeObjectSerializer.java:33-48 | a non-empty Object[] gives three lines whose last one lists the element labels separated by exactly one comma fewer than there are elements |
| RuntimeObjects.LabelHasNoComma | compiler/src/main/java/name/martingeisse/majai/compiler/RuntimeObjects.java:17 | no label contains a comma |
| RuntimeObjects.JoinCommaCount | compiler/src/main/java/name/martingeisse/majai/compiler/RuntimeObjectSerializer.java:39-46 | comma-free items joined with ", " contain one comma fewer than there are items |
| RuntimeObjects.BlocksStable | compiler/src/main/java/name/martingeisse/majai/compiler/RuntimeObjects.java:36-42 | the lines written for a list of objects do not change when the table grows later |
| RuntimeObjects.WriteObjectConsistent | compiler/src/main/java/name/martingeisse/majai/compiler/RuntimeObjects.java:37-41 | writing one unwritten object (label line, then its serialization) keeps the emit invariant |
| RuntimeObjects.WriteObject | compiler/src/main/java/name/martingeisse/majai/compiler/RuntimeObjects.java:37-41 | writing an unwritten object fails exactly when the serializer refuses it, with that object's error; otherwise it is added to the written list and the emit invariant is kept |
| RuntimeObjects.WrittenObjectsReached | compiler/src/main/java/name/martingeisse/majai/compiler/RuntimeObjects.java:36-42 | every object in the grown table was either labelled before emit started or is an element of a written object |
| RuntimeObjects.WrittenLines | compiler/src/main/java/name/martingeisse/majai/compiler/RuntimeObjects.java:36-42 | after writing one more object, every written object has its elements labelled and the output is exactly the written objects' blocks in writing order |
| RuntimeObjects.WriteBatch | compiler/src/main/java/name/martingeisse/majai/compiler/RuntimeObjects.java:35-42 | the inner loop writes every object of the snapshot that was not written yet, keeps what was written before, and fails only with the serializer error of an object of the snapshot |
| RuntimeObjects.Round | compiler/src/main/java/name/martingeisse/majai/compiler/RuntimeObjects.java:34-43 | one outer round writes at least one more object and keeps the invariant, or fails with the error of an unserializable object reachable from the starting table |
| RuntimeObjects.WriteAll | compiler/src/main/java/name/martingeisse/majai/compiler/RuntimeObjects.java:34-43 | the outer loop ends with every labelled object written and the invariant kept, or fails with the error of an unserializable object reachable from the starting table |
| RuntimeObjects.ChildReachable | compiler/src/main/java/name/martingeisse/majai/compiler/RuntimeObjectSerializer.java:40-46 | an element of an object emit may have to write is one too |
| RuntimeObjects.ClosedTableHoldsReachable | compiler/src/main/java/name/martingeisse/majai/compiler/RuntimeObjects.java:34-43 | a table that holds the starting objects and the elements of each of its objects holds every object reachable from the start |
| RuntimeObjects.FailureReachable | compiler/src/main/java/name/martingeisse/majai/compiler/RuntimeObjects.java:34-43 | a serializer failure on an object of the table is the failure of an object reachable from the starting table |
| RuntimeObjects.InitialConsistent | compiler/src/main/java/name/martingeisse/majai/compiler/RuntimeObjects.java:33-34 | before anything is written, the starting table satisfies the emit invariant |
| RuntimeObjects.Emit | compiler/src/main/java/name/martingeisse/majai/compiler/RuntimeObjects.java:20-46 | emit always terminates; it fails exactly when some object reachable from the starting table by following array elements cannot be serialized, and then with that object's error; on success every labelled object (including those labelled while serializing) is written exactly once, the table holds every reachable object, and only objects labelled before or reached as elements of table objects, and the output is the header, one block per object, then an empty line |
| RuntimeObjects.Finished | compiler/src/main/java/name/martingeisse/majai/compiler/RuntimeObjects.java:34 | when the loop condition fails, the written objects are exactly the labelled ones, and every object reachable from the starting table is among them |
| RuntimeObjects.UnemittedWitness | compiler/src/main/java/name/martingeisse/majai/compiler/RuntimeObjects.java:34 | while fewer objects were written than labelled, some labelled object is still unwritten, so each outer round makes progress |
| JString.FromRange | jboot/src/main/java/java/lang/String.java:25-30 | succeeds exactly for a zero length or a range inside the array, and then holds the slice from start to start+length; a negative length is the NegativeArraySizeException, and otherwise the error names the first index read outside the array (start itself, or the array length) |
| JString.FromChars | jboot/src/main/java/java/lang/String.java:21-23 | copying a whole array gives back exactly its characters |
| JString.FromStringRange | jboot/src/main/java/java/lang/String.java:32-34 | the same copy from another string: succeeds exactly for a zero length or an in-range window, character i taken from position start+i, and fails on allocation exactly for a negative length |
| JString.IsEmpty | jboot/src/main/java/java/lang/String.java:44-46 | true exactly for the string with no characters |
| JString.Equals | jboot/src/main/java/java/lang/String.java:52-69 | false for every argument, including an identical string (the comparison is disabled) |
| JString.HashCode | jboot/src/main/java/java/lang/String.java:71-73 | fails with the index error exactly on the empty string; otherwise the hash is at least the length |
| JString.HashCodeCollides | jboot/src/main/java/java/lang/String.java:71-73 | strings of equal length that share the first character have the same hash, whatever follows |
| JString.StartsWith | jboot/src/main/java/java/lang/String.java:83-93 | true exactly when the prefix is no longer than the string and equals its first characters |
| JString.EndsWithAsWritten | jboot/src/main/java/java/lang/String.java:95-105 | a suffix longer than the string is refused with false |
| JString.EndsWithLoopNeverConfirms | jboot/src/main/java/java/lang/String.java:99-104 | for a suffix shorter than the string, the loop as written never ends with true |
| JString.EndsWithAsWrittenMissesSuffix | jboot/src/main/java/java/lang/String.java:95-105 | a proper non-empty suffix is never confirmed; "ab".endsWith("b") fails with index 1 out of bounds for length 1 |
| JString.EndsWith | jboot/src/main/java/java/lang/String.java:95-105 | (corrected) true exactly when the suffix is no longer than the string and equals its last characters |
| JString.IndexOfChar | jboot/src/main/java/java/lang/String.java:111-119 | a negative "from" is the index error of the first read; otherwise -1 exactly when no position from "from" on holds c, else the least such position |
| JString.IndexOf | jboot/src/main/java/java/lang/String.java:107-109 | the search from 0 answers the first occurrence, or -1 when there is none |
| JString.LastIndexOfAsWritten | jboot/src/main/java/java/lang/String.java:125-133 | the loop as written can only answer -1, and it answers at all only when from is below the length; at or past the end it fails reading past the array |
| JString.LastIndexOfAsWrittenMisses | jboot/src/main/java/java/lang/String.java:121-123 | lastIndexOf(c) as written answers -1 for every string and character; "a".lastIndexOf('a') gives -1 where the last occurrence is 0 |
| JString.LastIndexOfChar | jboot/src/main/java/java/lang/String.java:125-133 | (corrected) a "from" at or past the end is the index error on the first read; otherwise -1 exactly when no position from 0 to "from" holds c, else the greatest such position |
| JString.LastIndexOf | jboot/src/main/java/java/lang/String.java:121-123 | (corrected) the last occurrence of c, or -1 when there is none |
| JString.IndexOfStringFrom | jboot/src/main/java/java/lang/String.java:139-147 | can never report a match, because equals never agrees |
| JString.IndexOfStringFromTail | jboot/src/main/java/java/lang/String.java:139-147 | from a start inside the string, the search fails reading past the end exactly when the pattern has two or more characters, and otherwise answers -1 |
| JString.IndexOfString | jboot/src/main/java/java/lang/String.java:135-137 | -1, or the index error exactly when the string is non-empty and the pattern has two or more characters |
| JString.LastIndexOfStringFrom | jboot/src/main/java/java/lang/String.java:153-161 | never a match; fails exactly when from is at or past the end and the pattern is non-empty |
| JString.LastIndexOfString | jboot/src/main/java/java/lang/String.java:149-151 | always -1, for every string and pattern |
| JString.Contains | jboot/src/main/java/java/lang/String.java:163-165 | never true; fails exactly when indexOf(String) fails |
| JString.SubstringFrom | jboot/src/main/java/java/lang/String.java:171-173 | succeeds exactly when begin lies within 0..length, giving the characters from begin to the end; a larger begin is a negative-size error, a negative one an index error at begin |
| JString.Substring | jboot/src/main/java/java/lang/String.java:175-177 | equal bounds give the empty string wherever they lie; otherwise succeeds exactly for 0 <= begin < end <= length with the slice begin..end; reversed bounds are a negative-size error and out-of-range bounds the index error at the first bad read |
| JString.Concat | jboot/src/main/java/java/lang/String.java:179-188 | the receiver's characters followed by the argument's, nothing else |
| JString.Replace | jboot/src/main/java/java/lang/String.java:190-196 | same length; every occurrence of what becomes with, every other character stays; agrees with the library's character replacement |
| JString.ReplaceString | jboot/src/main/java/java/lang/String.java:198-204 | the receiver comes back unchanged, or the search fails exactly as indexOf(String) does |
| JString.CharAt | jboot/src/main/java/java/lang/String.java:48-50 | the character at a valid index; any index outside 0..length-1, negative ones included, is the index error naming it |
| ToyVm.Init | src/main/java/name/martingeisse/majai/VirtualMachine.java:25-27 | a new machine holds the program, starts at pc 0 with an empty stack, has printed nothing and is not finished |
| ToyVm.FetchSigned | src/main/java/name/martingeisse/majai/VirtualMachine.java:88-92 | succeeds exactly while pc is inside the program, answering the byte at pc and advancing pc by one |
| ToyVm.FetchUnsigned | src/main/java/name/martingeisse/majai/VirtualMachine.java:82-86 | succeeds exactly while pc is inside the program, answering the byte at pc read as 0..255 and advancing pc by one |
| ToyVm.Push | src/main/java/name/martingeisse/majai/VirtualMachine.java:94-97 | succeeds exactly while the 1024 * 1024-entry stack has room, and then appends the value and changes nothing else |
| ToyVm.Pop | src/main/java/name/martingeisse/majai/VirtualMachine.java:99-102 | succeeds exactly on a non-empty stack; the popped value and the remaining stack make up the old stack, nothing else changes |
| ToyVm.EncodeInt32 | src/main/java/name/martingeisse/majai/VirtualMachine.java:44-51 | a 32-bit value is laid out as four immediate bytes |
| ToyVm.DecodeIsBigEndian | src/main/java/name/martingeisse/majai/VirtualMachine.java:45-48 | the shift-and-add assembly of an INT32 immediate never wraps: it is the big-endian number whose first byte is sign-extended |
| ToyVm.DecodeSmall | src/main/java/name/martingeisse/majai/VirtualMachine.java:45-48 | an immediate with three zero bytes followed by a non-negative byte decodes to that byte |
| ToyVm.DecodeEncode | src/main/java/name/martingeisse/majai/VirtualMachine.java:44-51 | decoding the four bytes of any 32-bit value gives the value back |
| ToyVm.PushImmediate | src/main/java/name/martingeisse/majai/VirtualMachine.java:44-51 | a successful INT32 consumes exactly four immediate bytes |
| ToyVm.Add | src/main/java/name/martingeisse/majai/VirtualMachine.java:53-56 | fails on a stack of fewer than two values, succeeds on any other; replaces the top two values by their 32-bit wrapped sum |
| ToyVm.Sub | src/main/java/name/martingeisse/majai/VirtualMachine.java:58-61 | fails on a stack of fewer than two values, succeeds on any other; replaces the top two values by the lower minus the upper, wrapped to 32 bits |
| ToyVm.WrapAddNegated | src/main/java/name/martingeisse/majai/VirtualMachine.java:58-61 | negating the top value and adding the lower one in 32-bit arithmetic is the 32-bit difference |
| ToyVm.Dup | src/main/java/name/martingeisse/majai/VirtualMachine.java:63-68 | succeeds exactly when the stack is non-empty and not full, and then the top value appears twice |
| ToyVm.Write | src/main/java/name/martingeisse/majai/VirtualMachine.java:71-74 | succeeds exactly on a non-empty stack; the top value is removed and appended to the output |
| ToyVm.Execute | src/main/java/name/martingeisse/majai/VirtualMachine.java:37-78 | a successful opcode keeps the program, never moves pc back or past the end, and finishes the machine exactly on EXIT; an opcode above WRITE fails with "illegal opcode N at P", P the opcode's own address |
| ToyVm.Step | src/main/java/name/martingeisse/majai/VirtualMachine.java:35-80 | a successful step strictly advances pc within the program and finishes the machine exactly on EXIT; an opcode byte above 5 fails with the illegal-opcode message naming that byte and its address |
| ToyVm.StepInt32 | src/main/java/name/martingeisse/majai/VirtualMachine.java:44-51 | with room on the stack, an INT32 with all four bytes present pushes the decoded immediate and moves pc past five bytes |
| ToyVm.StepSimple | src/main/java/name/martingeisse/majai/VirtualMachine.java:39-74 | EXIT, ADD, SUB, DUP and WRITE each take one byte and do exactly their stack and output change when the stack allows it |
| ToyVm.RunTrace | src/main/java/name/martingeisse/majai/VirtualMachine.java:29-33 | if each machine in a sequence steps to the next and only the last is finished, running the first ends in the last |
| ToyVm.Run | src/main/java/name/martingeisse/majai/VirtualMachine.java:29-33 | a successful run ends in a finished machine with the same program |
| ToyCompiler.ClassMap | src/main/java/name/martingeisse/majai/Compiler.java:19-25 | every node's name is a key, every key maps to some node of that name, and each name maps to its last node, a later node replacing an earlier one |
| ToyCompiler.CheckMethod | src/main/java/name/martingeisse/majai/Compiler.java:34-45 | accepts exactly constructors and, other than the static initializer, static methods |
| ToyCompiler.CheckMethods | src/main/java/name/martingeisse/majai/Compiler.java:33-44 | succeeds exactly when every method of the class is acceptable; a refusal is an UnsupportedOperationException |
| ToyCompiler.CheckClasses | src/main/java/name/martingeisse/majai/Compiler.java:32-45 | succeeds exactly when every method of every visited class is acceptable; a refusal is an UnsupportedOperationException |
| ToyCompiler.Compile | src/main/java/name/martingeisse/majai/Compiler.java:31-69 | whatever the order of the classes, compilation succeeds exactly when every method of every class is acceptable, and then yields the fixed 21-byte program |
| ToyCompiler.ImmediateStep | src/main/java/name/martingeisse/majai/Compiler.java:46-68 | an INT32 with a small non-negative immediate in the compiled program pushes that byte and moves pc by five |
| ToyCompiler.SimpleStep | src/main/java/name/martingeisse/majai/Compiler.java:46-68 | one ADD, SUB, DUP, WRITE or EXIT of the compiled program does exactly its stack and output change |
| ToyCompiler.Trace | src/main/java/name/martingeisse/majai/Compiler.java:46-68 | the states the compiled program goes through all keep the program |
| ToyCompiler.TraceStep | src/main/java/name/martingeisse/majai/Compiler.java:46-68 | each of the first nine states is unfinished and steps to the next one |
| ToyCompiler.ProgramRuns | src/main/java/name/martingeisse/majai/Compiler.java:46-68 | run from its start, the compiled program prints 4 then 3 and stops at pc 21 with an empty stack |
| ToyCompiler.TraceEnds | src/main/java/name/martingeisse/majai/Compiler.java:46-68 | the trace starts at the initial machine and ends, after nine steps, in the finished machine that printed 4 and 3 |
| ToyCompiler.CompiledProgramRuns | src/main/java/name/martingeisse/majai/Compiler.java:31-69 | whatever the input classes, a successful compilation yields a program that runs to completion printing 4 then 3 |

## Left out

- Class-file reading: the ASM `ClassReader`, `ClassNode`, `MethodNode`, instruction nodes and `Label`, and the `ClassFileLoader` variants, are replaced by plain datatypes and a `Loader` map from internal names to class files; the loader's failure for a missing file is a parameter.
- Output: `PrintWriter` lines become returned sequences of lines; the lines a run prints before an exception are not kept, an `Err` replaces the whole output. The `start.S` resource copy, `flush`, the alias labels of `emitRuntimeObjectsAliasLabels` and the closing `.data`/`dynamicHeap:` lines of `compile()` are file I/O or formatting around the modelled parts; `Compiler.Compile` stops once the static area is sealed, and `RuntimeObjects.Emit` models `runtimeObjects.emit` on its own.
- Calls into code that is not part of this model: `mangleMethodName(MethodInfo)`, `buildVtable` and `findByName` are fields of a `Hooks` record (or a `translate` parameter for the driver), and `VtableAllocator.allocateMethod(methodInfo)` is the `allocateMethod` field of the compiler driver's `Loader`; no semantics are invented for them.
- Calls the cross generation makes to methods it does not define: cross/src/main/java/name/martingeisse/majai/CodeTranslator.java:469-473 calls `parsedMethodDescriptor.getReturnWords()` and a one-argument `NameUtil.mangleMethodName(call)`, but the cross `ParsedMethodDescriptor` (ParsedMethodDescriptor.java:8-66) defines no `getReturnWords`, and the cross `NameUtil` defines only `mangleMethodName(ClassInfo, MethodNode)` (NameUtil.java:26), so that source does not compile as given. Both calls are fields of the cross `Hooks` record, as the vtable allocator's missing `allocateMethod(methodInfo)` is a hook above. `Compiler.SlotsOfZeroAllocator` states what the slots would be if the call went to the zero-argument `allocateMethod()`.
- Compiler.ArrayHeaderSize: `FieldAllocator.getWordCount()` is defined by neither generation's field allocator that is part of this model (the compiler generation's `FieldAllocator` is not part of this model at all); the model reads the cross allocator's `wordCount` field for it, which is an assumption, not a promise of the source. The same reading is used by `Compiler.Compile` for the static area size and by the cross driver.
- `HashMap` and `HashSet` iteration order (`RuntimeObjects.emit`, `compileAllResolvedClasses`, the toy compiler's class map) is unspecified: the model picks with `:|` or takes the order as a parameter, and the stated properties hold for every order.
- Metadata objects (`VmClass`, `VmInterface`, `VmPrimitiveArrayMetadata`, `VmObjectArrayMetadata`, `VmField`) are datatype values; their vtables are opaque.
- Machine execution covers only `lw`, `sw`, `add`, `addi` and `mv`; branches, calls, `neg`, `lb`/`lh` and the other arithmetic are not executed, and their stack effect is counted from the `add`/`addi sp` lines.
- Java `int` overflow in the printed offsets (`index * 4`, `4 * (maxLocals + 2)` and the like) is not modelled: the model computes with unbounded integers. The 32-bit wrap-around is modelled where it changes results, in the toy interpreter's ADD, SUB and INT32.
- A cyclic superclass chain makes the Java resolver recurse until `StackOverflowError`; the model detects the revisit and returns `StackOverflow` at once.
- RuntimeObjects.GetLabel: objects are told apart by identity. `HashMap` does that for arrays, but for any other object it calls `equals`, so two distinct but equal objects (two equal `String`s, say) share one label in the source and get two labels here. Such objects are exactly the ones `serialize` refuses, so the difference only shows in runs that fail.
- `ParsedFieldDescriptor.hashCode` (`HashCodeBuilder`) is left out; `equals` is modelled.
- The unused heap array of the toy interpreter and its `System.out` printing: printed values are collected in the machine's `output`.
- Preconditions that stand for invariants of the surrounding Java objects: the class tables are well formed (`Wf`), the runtime-object table is duplicate-free, metadata ids exist in the registry, and the toy interpreter's `Execute` runs after an opcode was fetched.
- MethodDescriptor.ToStringParsesBack: stated only for descriptors whose class names contain neither ';' nor ')': the regular expression `L.*;` accepts such names and the scanners then cut the text elsewhere (`MethodDescriptor.ParenInClassNameMatches` and `MethodDescriptor.ParenInClassNameFailsLate` show one such input).
- MethodDescriptor.WordsOfParsedText: stated only for descriptors whose class names contain neither ';' nor ')', for the reason given under MethodDescriptor.ToStringParsesBack.
- MethodDescriptor.LayoutOfText: stated only for descriptors whose class names contain neither ';' nor ')', for the reason given under MethodDescriptor.ToStringParsesBack.
- MethodDescriptor.FirstParenOfText: stated only for descriptors whose class names contain neither ';' nor ')', for the reason given under MethodDescriptor.ToStringParsesBack.
- MethodDescriptor.ParametersOfText: stated only for descriptors whose class names contain neither ';' nor ')', for the reason given under MethodDescriptor.ToStringParsesBack.
- MethodDescriptor.ReturnTypeOfText: stated only for descriptors whose class names contain neither ';' nor ')', for the reason given under MethodDescriptor.ToStringParsesBack.
- MethodDescriptor.ScanFieldEndOfText: stated only for descriptors whose class names contain neither ';' nor ')', for the reason given under MethodDescriptor.ToStringParsesBack.
- MethodDescriptor.ScanParametersStep: stated only for descriptors whose class names contain neither ';' nor ')', for the reason given under MethodDescriptor.ToStringParsesBack.
- MethodDescriptor.ScanParametersOfText: stated only for descriptors whose class names contain neither ';' nor ')', for the reason given under MethodDescriptor.ToStringParsesBack.
- MethodDescriptor.FieldTextHasNoParen: stated only for descriptors whose class names contain neither ';' nor ')', for the reason given under MethodDescriptor.ToStringParsesBack.
- MethodDescriptor.ParameterTextHasNoParen: stated only for descriptors whose class names contain neither ';' nor ')', for the reason given under MethodDescriptor.ToStringParsesBack.
- CrossMethodDescriptor.AgreesWithCompilerParser: stated only for descriptors whose class names contain neither ';' nor ')', for the reason given under MethodDescriptor.ToStringParsesBack.
- CrossMethodDescriptor.ParseFieldTypeOfText: stated only for descriptors whose class names contain neither ';' nor ')', for the reason given under MethodDescriptor.ToStringParsesBack.
- CrossMethodDescriptor.ScanParametersStep: stated only for descriptors whose class names contain neither ';' nor ')', for the reason given under MethodDescriptor.ToStringParsesBack.
- CrossMethodDescriptor.ScanParametersOfText: stated only for descriptors whose class names contain neither ';' nor ')', for the reason given under MethodDescriptor.ToStringParsesBack.
- CrossTranslatorStack.SameFrameAsCompiler: stated only for descriptors whose class names contain neither ';' nor ')', for the reason given under MethodDescriptor.ToStringParsesBack.
- CrossTranslatorStack.StaticCallMatchesJvmStack: stated only for descriptors whose class names contain neither ';' nor ')', for the reason given under MethodDescriptor.ToStringParsesBack.
- TemplateRuns.SetupAndSpill: stated for methods whose argument words fit in `maxLocals`, which every verified class file guarantees; the spill of other methods writes into the saved-register slots.
- TemplateRuns.FrameRoundTrip: stated for methods whose argument words fit in `maxLocals`, which every verified class file guarantees; the spill of other methods writes into the saved-register slots.
- TranslatorStack.TranslateNodeMatchesJvmStack: for the printed edition it excludes INEG, DUP2_X1, LSTORE and DSTORE, whose printed templates move `sp` by the wrong amount; `TranslatorStack.AsPrintedMovesWrongly` states by how much.
- TranslatorStack.NodeMatchesJvmStack: the same exclusions for the printed edition, for the same reason.
- TranslatorStack.BodyMatchesJvmStack: the same exclusions for the printed edition, for the same reason.
- TranslatorStack.LocalOrArrayMoves: for the printed edition it excludes LSTORE and DSTORE, which pop one word where the JVM pops two.
- TranslatorStack.StackOrArithmeticMoves: for the printed edition it excludes INEG and DUP2_X1, which leave `sp` a word too high.
- CrossTranslatorStack.CrossNodeMoves: assumes the `getReturnWords` hook answers the return type's word count (`CountsReturnWords`), since the cross generation calls `getReturnWords` without defining it; the assumption fills that gap in the source. CrossTranslatorStack.CrossBodyMatchesJvmStack rests on the same assumption.
- CrossTranslatorStack.CrossBodyMatchesJvmStack: assumes the same of `getReturnWords`, and excludes INEG, DUP2_X1, LSTORE and DSTORE, as `CrossTranslatorStack.CrossAsWrittenMovesWrongly` states.
- CrossTranslatorStack.CrossNodeMatchesJvmStack: excludes INEG, DUP2_X1, LSTORE and DSTORE, whose printed templates move `sp` by the wrong amount (stated by `CrossAsWrittenMovesWrongly`), and INVOKESTATIC, which `StaticCallMatchesJvmStack` covers; the cross DUP_X2 and DUP2_X2 templates keep the compiler generation's misplaced stores.

## Findings

| source | as written | input that shows it | evidently intended | confidence | as-written member | corrected member |
|---|---|---|---|---|---|---|
| compiler/src/main/java/name/martingeisse/majai/compiler/CodeTranslator.java:239-248 | DUP_X2 stores the copied top word back at 0(sp), leaving the third word where the copy belongs | top words 1, 2, 3: the stack becomes 1, 2, 3, 3 instead of 1, 2, 3, 1 | the last store goes to 12(sp) | not executed | StackShuffles.DupX2AsWrittenDiffers | StackShuffles.DupX2MatchesJvm |
| compiler/src/main/java/name/martingeisse/majai/compiler/CodeTranslator.java:250-260 | DUP2_X1 lowers sp by 4 bytes although it adds two words | top words 1, 2, 3, 4: the stack becomes 1, 2, 3, 1, 2 followed by the fifth word, so 4 is overwritten | addi sp, sp, -8 | not executed | StackShuffles.Dup2X1AsWrittenDiffers | StackShuffles.Dup2X1MatchesJvm |
| compiler/src/main/java/name/martingeisse/majai/compiler/CodeTranslator.java:262-274 | DUP2_X2 loads t3 from 8(sp), the third word, instead of the fourth | top words 1, 2, 3, 4: the stack becomes 1, 2, 3, 3, 1, 2 instead of 1, 2, 3, 4, 1, 2 | lw t3, 12(sp) | not executed | StackShuffles.Dup2X2AsWrittenDiffers | StackShuffles.Dup2X2MatchesJvm |
| compiler/src/main/java/name/martingeisse/majai/compiler/CodeTranslator.java:328-331 | INEG uses the two-operand wordOp, which pops a word | any INEG: sp rises by 4 bytes while the JVM stack keeps its depth | negate the top word in place | not executed | TranslatorStack.NegAsWrittenPops | TranslatorStack.TranslateNodeMatchesJvmStack |
| compiler/src/main/java/name/martingeisse/majai/compiler/CodeTranslator.java:190-194 | LSTORE and DSTORE call store32, popping one word of two | any LSTORE: sp rises by 4 bytes where the JVM pops two words, and the high word is left on the stack | store64, which pops both words into index and index + 1 | not executed | TranslatorStack.LongStoreAsWrittenPopsOneWord | TemplateRuns.Store64ThenLoad64 |
| compiler/src/main/java/name/martingeisse/majai/compiler/CodeTranslator.java:824-829 | a one-word PUTFIELD prints the store mnemonic against 0(sp) where the value should be loaded | PUTFIELD with t0 holding 7 and value 5 on top: the field receives 7 and the stack word is overwritten with 7 | lw t0, 0(sp) before storing to the field | not executed | TemplateRuns.PutfieldAsWrittenStoresStaleT0 | TemplateRuns.PutfieldStoresValue |
| compiler/src/main/java/name/martingeisse/majai/compiler/CodeTranslator.java:765-822 | the load or store mnemonic is asked of the field's descriptor before the word count is checked, and J and D have none | GETSTATIC of a long field: UnsupportedOperationException, the two-word branch is never reached | ask for the mnemonic only in the one-word branch | not executed | CodeTranslator.WideFieldAsWrittenFails | CodeTranslator.WideFieldAccessPrintsTwoWords |
| jboot/src/main/java/java/lang/String.java:95-105 | endsWith indexes the suffix with the receiver's index | "ab".endsWith("b") reads index 1 of "b" and fails | compare suffix[i - (length - suffix.length)] | not executed | JString.EndsWithAsWrittenMissesSuffix | JString.EndsWith |
| jboot/src/main/java/java/lang/String.java:121-133 | lastIndexOf loops while from >= length | "a".lastIndexOf('a') answers -1 | loop while from >= 0 | not executed | JString.LastIndexOfAsWrittenMisses | JString.LastIndexOf |
