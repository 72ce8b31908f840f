# UVM: a verified model

A Dafny 4.11 model of the hard parts of the UVM smart-contract virtual machine and its native contracts,
with proofs of what each part is for.  `dafny verify dfyconfig.toml` checks the whole project.

The source changes state step by step, so each part is a class or methods in the source's own form, tied by
their contracts to functions on values; the theorems are about these functions, and so about every run.

**The code generator** (`src/uvm/lcode.cpp`): `Opcodes` (instruction words), `LuaMachine` (the machine and the
value of an expression), `JumpLists`, `CodeSem`, `ExpSem`, `FinishSem`, `CondSem`, `CondLists` (what emitted code
means), `FuncState`, `CodeGen`, `Operators`, `Compiler` (the generator itself), `MachineCode` (short programs as
words). Pending jumps are linked lists threaded through the offset fields of the emitted instructions. A descriptor
is given a meaning in code whose exits still dangle: `Sem` speaks of every run that reaches the end of the code or
one of the exits, from any earlier jump target and with any register contents. Each operation of the generator
keeps this meaning, so that `Compiler.ReturnStat` needs no assumption about the code around it. Comparisons are a
function of the two values that may throw.

**Numbers** (`src/safenumber/safenumber.cpp`): `Uint128`, `Multi128`, `Div128`, `Digits`, `Uint256`, `Shift256`,
`Multi256`, `Div256` (integers of two limbs), `Limbs` (schoolbook multiplication in any base), `Decimal`,
`SafeNumbers`, `SafeArith`, `SafeText` (sign, magnitude and decimal exponent).  Where the code is right on part
of its inputs, the contract says on which: the 256-bit division past 2^255, the product whose integer part
passes 2^128, the conversion to 64 bits past 2^62.

**CBOR** (`src/cborcpp`): `CborBytes`, `CborEncoder`, `CborDecoder` (the decoder as a function on its fields),
`CborMachine` (the same as the source's loop), `CborHeads`, `CborRoundTrip`, `CborWhole`, `CborStuck`, `CborStack`,
`CborMaps`, `CborFloats`, `CborExamples`. Objects shared by reference in the source are indices into a list of
nodes. Sections 3.1 and 4.2.1 of RFC 8949 give the heads.

**Contracts** (`src/native_contract`): `ExchangeLedger`, `TokenLedger` (each call as a transaction on maps),
`ExchangeContract`, `TokenContract` (the calls as they read and write storage), `ExchangeCalls`, `TokenCalls` (when
a call goes through and what it does, from the caller's side). A call that throws is rolled back. The exchange's
price check and fee go through `SafeArith`. Its amounts are 64-bit integers whose sums wrap around (`Signed64`),
and nothing stops them: `ExchangeModulo` says what is true of every run modulo 2^64, `ExchangeOrders` what is
recorded of the orders in every run and exactly when their prices hold, `ExchangeTheorems` what is true of the
balances while they fit, `ExchangeRoom` what to check before a call so that they do, `ExchangeRuns` how runs go
wrong otherwise, and `ExchangeCancel` is about cancellation.

**Upvalues** (`src/uvm/lfunc.cpp`, `src/uvm/ldo.cpp`): `Variables` gives every local a cell that never moves;
`OpenUpvalues` proves that the sorted list of pointers into a stack that is closed and relocated means just that.
A pointer is a block and an offset, so one that relocation forgot would dangle.

**Keccak and the hash map** (`uvm_single/Keccak.cpp`, `src/uvm/lhashmap.cpp`): `Sponge` and `KeccakHash`,
`Buckets` and `HashMaps`.  The permutation of Keccak is any function of the state and a block.

**ScopeRunner** (`simplechain/include/utility.hpp`): a state machine whose steps are the atomic operations of
any number of threads.

`Arith` holds the arithmetic, `Options` the type of a value that may be missing.

Three idioms recur.  Facts that only have to be handed on are shut (`Locks`), and predicates held together by
`true == (...)`.  `ghost` parameters named `s0`, `x`, `n` give the code before an expression, the expression
and its first register.  Where the code departs from its comments or from the intended arithmetic, the model
follows the code, and a lemma, an if-and-only-if, or a line under "Left out" says where the two part.

## Model

| member | source | states |
|---|---|---|
| Compiler.ReturnStat | src/uvm/lcode.cpp:515-558 | For every expression built from locals, nil, true, false, integer and floating-point numerals, strings, comparisons, `not`, `and` and `or`: running the emitted function body from its first instruction, whatever the registers hold, reaches its RETURN with the expression's value in the returned register and the locals unchanged, or throws exactly when a comparison in the expression throws |
| Compiler.Compile | src/uvm/lcode.cpp:860-920 | Whatever surrounds it, the code appended for an expression computes its value: from every jump target before it, every run that used to reach the end of the code now leaves the value where the descriptor says (register, constant, pending jump, exit lists), in registers from the first free one up |
| Compiler.CompileLogic | src/uvm/lcode.cpp:874-920 | `and` and `or` evaluate the second operand exactly when the first one does not decide, and yield the deciding operand's own value |
| Compiler.CompileCmp | src/uvm/lcode.cpp:889-950 | A comparison yields the truth of the two operands' values compared in the right order |
| Compiler.CompileNot | src/uvm/lcode.cpp:860-872 | `not` yields the negated truth of the operand |
| Compiler.StoreLocal | src/uvm/lcode.cpp:611-617 | Assigning to a local builds the value in the local's register and nowhere else, even when the expression reads that local |
| Compiler.NextInstruction | src/uvm/lcode.cpp:229-254 | The instruction emitted after a finished expression is executed by every run of the expression, with the value in place; no other run changes |
| Compiler.FromTheStart | src/uvm/lcode.cpp:229-254 | The same for a whole function body run from its first instruction, in any registers |
| CodeGen.Exp2Reg | src/uvm/lcode.cpp:515-536 | exp2reg puts the value in the target register and leaves no exits: every exit lands on the value it stands for, a bool where the jump carries none |
| CodeGen.PrepareExits | src/uvm/lcode.cpp:515-529 | The two bool loads are emitted exactly when some exit carries no value, and the jump past them joins the exits |
| CodeGen.CloseExits | src/uvm/lcode.cpp:530-535 | Patching both exit lists keeps the meaning of the code: value exits go to the end, others to the bool they stand for |
| CodeGen.Discharge2Reg | src/uvm/lcode.cpp:464-505 | The value is put in the register from every kind of descriptor, no other register changes |
| CodeGen.DischargeVars | src/uvm/lcode.cpp:426-456 | A local becomes the register it lives in, with no code |
| Operators.Discharge2AnyReg | src/uvm/lcode.cpp:507-512 | A value that is nowhere yet is put in the next free register |
| Operators.Exp2NextReg | src/uvm/lcode.cpp:539-544 | The value ends in the next free register, which is reserved |
| Operators.Exp2AnyReg | src/uvm/lcode.cpp:547-558 | The value ends in some register, the one it is in already when no exits remain |
| Operators.Exp2Val | src/uvm/lcode.cpp:567-572 | No exits are left; a constant stays a constant |
| Operators.Exp2RK | src/uvm/lcode.cpp:575-608 | The operand is a constant in reach of an RK field or a register, and decodes to the value |
| Operators.FreeExp | src/uvm/lcode.cpp:316-320 | Freeing a temporary gives its register back |
| Operators.InvertJump | src/uvm/lcode.cpp:651-656 | The comparison before the jump gets the opposite condition, nothing else changes |
| Operators.JumpOnCond | src/uvm/lcode.cpp:659-671 | Control goes on exactly when the value's truth is the one wanted and leaves by the new jump otherwise, carrying the value when it may |
| Operators.GoIfTrue | src/uvm/lcode.cpp:674-695 | Control goes on exactly when the value is true; the false exits carry the value or its falsehood |
| Operators.GoIfFalse | src/uvm/lcode.cpp:698-718 | Control goes on exactly when the value is false; the true exits carry the value or its truth |
| Operators.Join | src/uvm/lcode.cpp:907-920 | The exits of both operands merge into one list per truth value and the pair means `and` or `or` |
| Operators.CodeNot | src/uvm/lcode.cpp:721-753 | The descriptor means the negation: the exit lists change places and no longer carry values |
| Operators.CodeComp | src/uvm/lcode.cpp:844-857 | The emitted test and jump decide the comparison, swapping operands for > and >= |
| FuncStates.FuncState.Concat | src/uvm/lcode.cpp:215-226 | For disjoint well-formed lists: the first list followed by the second, nothing outside the first list touched |
| FuncStates.FuncState.NeedValue | src/uvm/lcode.cpp:139-145 | True exactly when some jump of the list is not controlled by a TESTSET |
| FuncStates.FuncState.PatchTestReg | src/uvm/lcode.cpp:148-158 | Only the controlling TESTSET changes: its register, or into a TEST; the result says whether there was one |
| FuncStates.FuncState.RemoveValues | src/uvm/lcode.cpp:161-164 | Every TESTSET that controls a jump of the list becomes the TEST of the same truth, and no other instruction changes |
| FuncStates.FuncState.PatchListAux | src/uvm/lcode.cpp:167-177 | Every jump of the list leads to vtarget or dtarget as its control is a TESTSET or not, every such TESTSET gets the register or becomes a TEST, and no other instruction changes; it fails exactly when a target is out of range |
| FuncStates.PatchAllAt | src/uvm/lcode.cpp:167-177 | The same of the function that the theorems about runs speak of, instruction by instruction |
| FuncStates.RemoveAllAt | src/uvm/lcode.cpp:161-164 | Likewise for removing values |
| FuncStates.FuncState.FixJump | src/uvm/lcode.cpp:97-104 | The jump leads to the destination if the offset fits the field, and the error case is exactly the other one |
| FuncStates.FuncState.Jump | src/uvm/lcode.cpp:76-83 | The new jump takes over the jumps that were waiting for here |
| FuncStates.FuncState.CondJump | src/uvm/lcode.cpp:91-94 | A test and its jump, waiting jumps sent to the test |
| FuncStates.FuncState.Emit | src/uvm/lcode.cpp:229-254 | Waiting jumps are sent to the new instruction, which is appended |
| FuncStates.FuncState.PatchToHere | src/uvm/lcode.cpp:209-212 | The list joins the jumps that wait for the next instruction |
| FuncStates.FuncState.LoadNil | src/uvm/lcode.cpp:54-73 | Clearing registers merges with a LOADNIL just before only when no jump leads between them |
| FuncStates.FuncState.CodeK | src/uvm/lcode.cpp:280-288 | A constant is loaded by LOADK, or LOADKX with its extra argument when the index is too wide |
| FuncStates.FuncState.AddK | src/uvm/lcode.cpp:326-356 | The index denotes the value; a constant that the scanner's table leads to is reused, otherwise one is added and the table leads to it |
| FuncStates.FuncState.ReserveReg | src/uvm/lcode.cpp:291-305 | One register more, the frame growing only when it has to, or the error at the limit |
| FuncStates.FuncState.FreeReg | src/uvm/lcode.cpp:308-313 | Only a temporary is freed, and only the last one; locals and constants are left alone |
| JumpLists.ConcatLists | src/uvm/lcode.cpp:215-226 | Linking the last member of a list to another list makes one list of the two |
| JumpLists.PatchAllRun | src/uvm/lcode.cpp:167-177 | Patching a list changes a run only in what happens at its members: an exit goes to its target with the value stored or not |
| JumpLists.RemoveAllRun | src/uvm/lcode.cpp:161-164 | Removing values changes a run only in the register a TESTSET would have stored |
| JumpLists.MergeRun | src/uvm/lcode.cpp:54-73 | Growing the LOADNIL before the end changes only the registers it clears |
| JumpLists.InvertRun | src/uvm/lcode.cpp:651-656 | Inverting the last comparison exchanges falling through and jumping |
| CodeSem.DischargeSem | src/uvm/lcode.cpp:180-183 | Sending the waiting jumps to the next position keeps what every descriptor means |
| CodeSem.NilSem | src/uvm/lcode.cpp:54-73 | Merged or not, LOADNIL keeps the meaning of the code before it |
| CondSem.JoinSem | src/uvm/lcode.cpp:907-920 | Second operand after first: the joined code has the value of `and` or `or` |
| CondSem.NegateReg | src/uvm/lcode.cpp:735-749 | NOT on a register yields the negated truth |
| CondSem.SwapSem | src/uvm/lcode.cpp:750-752 | Exchanging the exit lists after removing their values is negation |
| CondSem.CompareSem | src/uvm/lcode.cpp:844-857 | The test codecomp emits has the truth of the comparison |
| FinishSem.FinishAll | src/uvm/lcode.cpp:515-536 | After patching, every exit of the expression arrives at the end with its value in the target register |
| Opcodes.PackUnpack | include/uvm/lopcodes.h:89-126 | The fields of an instruction word are recovered exactly from the packed word |
| Opcodes.SetArgIsUpdate | include/uvm/lopcodes.h:89-126 | Setting a field changes that field and no other |
| Opcodes.WithSBx | include/uvm/lopcodes.h:120-126 | The signed offset reads back, and neither opcode nor A change |
| MachineCode.Conjunction | src/uvm/lvm.cpp:1535-1551 | The words of TESTSET, JMP and MOVE that code `and`, and what running them leaves |
| MachineCode.Disjunction | src/uvm/lvm.cpp:1501-1541 | The words of TEST, JMP and MOVE that code `or`, likewise |
| MachineCode.Comparison | src/uvm/lvm.cpp:1506-1534 | The words of EQ, LT or LE, JMP and two LOADBOOLs that code a comparison, likewise |
| MachineCode.Clearing | include/uvm/lopcodes.h:150-160 | LOADNIL as a word, and the registers it clears |
| MachineCode.Loading | include/uvm/lopcodes.h:150-160 | LOADK as a word, and the constant it loads |
| MachineCode.LoadingFar | src/uvm/lvm.cpp:1161-1185 | LOADKX and EXTRAARG as words, and the constant they load |
| MachineCode.Negating | src/uvm/lvm.cpp:1478-1483 | NOT as a word, and the truth it leaves |
| MachineCode.IntegersCompared | src/uvm/lvm.cpp:1506-1534 | The six comparisons of integers |
| MachineCode.ConnectivesAre | src/uvm/lvm.cpp:1478-1551 | `not`, `and` and `or` by the truth of the operands, nil and false alone being false |
| Uint128.Add | src/safenumber/safenumber.cpp:67-73 | Addition modulo 2^128 |
| Uint128.Minus | src/safenumber/safenumber.cpp:75-77 | Subtraction modulo 2^128 |
| Uint128.ShiftLeftVal | src/safenumber/safenumber.cpp:147-167 | Shifting left by any amount is multiplying by a power of two, modulo 2^128 |
| Uint128.ShiftRightVal | src/safenumber/safenumber.cpp:169-189 | Shifting right by any amount is dividing by a power of two |
| Limbs.Schoolbook | src/safenumber/safenumber.cpp:86-132 | Cutting, summing by columns and carrying gives the last four digits of the product, in any base |
| Multi128.Multi | src/safenumber/safenumber.cpp:86-132 | The product modulo 2^128 |
| Multi128.Power | src/safenumber/safenumber.cpp:138-145 | The power modulo 2^128 |
| Div128.Bits | src/safenumber/safenumber.cpp:245-263 | The bit length, for every number |
| Div128.DivMod | src/safenumber/safenumber.cpp:213-243 | a = q b + r with r < b for every b other than 0, nothing overflowing; the error exactly for 0 |
| Digits.ToString | src/safenumber/safenumber.cpp:265-285 | The right digits in every base from 2 to 16, padded with zeros; the error exactly outside these bases |
| Digits.NumberOfDigits | src/safenumber/safenumber.cpp:265-285 | The digits denote the number |
| Uint256.MinusWideIs | src/safenumber/safenumber.cpp:324-328 | For any operands, the difference modulo 2^256, with 2^192 too much when the low halves borrow |
| Shift256.ShiftLeftWideVal | src/safenumber/safenumber.cpp:386-406 | Shifting left is multiplying by a power of two, modulo 2^256 |
| Shift256.ShiftRightWideVal | src/safenumber/safenumber.cpp:408-428 | Shifting right is dividing by a power of two |
| Multi256.MultiWide | src/safenumber/safenumber.cpp:337-384 | The product modulo 2^256 |
| Div256.BitsWide | src/safenumber/safenumber.cpp:480-498 | The bit length kept in 8 bits: 256 reads as 0 |
| Div256.DivModWide | src/safenumber/safenumber.cpp:448-478 | For divisors up to 2^127: quotient and remainder are right if and only if the dividend is below 2^255 or the divisor is 1; for larger divisors below 2^128 they are right where no partial remainder reaches 2^128, and wrong on the dividend 2^128 |
| SafeNumbers.Compress | src/safenumber/safenumber.cpp:554-593 | Canonical, and the value truncated toward zero |
| SafeNumbers.CompressCanonical | src/safenumber/safenumber.cpp:554-593 | Compressing leaves a canonical number alone, so compressing twice is compressing once |
| SafeNumbers.CompressUnique | src/safenumber/safenumber.cpp:554-593 | The specification of compression leaves one result only |
| SafeNumbers.PlacesMost | src/safenumber/safenumber.cpp:554-593 | The places that compression keeps are as many as there may be: at most 16, and so few that at most 32 digits, or 10^32, remain unless none is kept |
| SafeNumbers.EqIsEqual | src/safenumber/safenumber.cpp:921-926 | On canonical numbers eq is equality of values, except that zeros are compared by sign and places; an invalid number equals none |
| SafeNumbers.ZerosDiffer | src/safenumber/safenumber.cpp:921-926 | Two zeros that eq tells apart |
| SafeArith.Create | src/safenumber/safenumber.cpp:595-602 | The number given, compressed |
| SafeArith.Multiply | src/safenumber/safenumber.cpp:730-750 | The exact product truncated toward zero at some number of places up to 16, if and only if the product's integer part is below 2^128; otherwise that integer part modulo 2^128 |
| SafeArith.ProductPlacesMost | src/safenumber/safenumber.cpp:730-750 | The places kept of a product are those that compression keeps of the exact product |
| SafeArith.ProductBound | src/safenumber/safenumber.cpp:736-742 | The divide-by-ten loop only meets dividends below 2^255 |
| SafeArith.LongQuotient | src/safenumber/safenumber.cpp:770-777 | For divisors up to 2^127, and larger ones while no partial remainder reaches 2^128, the loop stops at the first number n of digits that is 32, makes the quotient 10^32 or more, or leaves no remainder, with the quotient and remainder of a.x 10^n by b.x, nothing overflowing |
| SafeArith.DigitsLeast | src/safenumber/safenumber.cpp:770-777 | That number of digits is the least one at which a.x 10^n is a multiple of b.x, or at least 10^32 b.x, or 32 |
| SafeArith.Divide | src/safenumber/safenumber.cpp:753-786 | On the same inputs: the exact quotient truncated toward zero, if and only if the digits of the loop, a number determined by a.x and b.x, reach the decimal point, or zeros are all that is missing and the quotient fits |
| SafeArith.WrongQuotient | src/safenumber/safenumber.cpp:753-786 | 10^33 / 0.3 is not the truncated quotient at any number of places |
| SafeArith.GreaterThan | src/safenumber/safenumber.cpp:935-965 | The order of values, except that a positive zero counts above a negative one |
| SafeArith.Sum | src/safenumber/safenumber.cpp:674-706 | Of nonzero operands: the exact sum, compressed, if and only if they fit 128 bits once aligned, and so does their sum; in general the sum of the aligned operands cut to 128 bits, cut once more |
| SafeArith.WrongSum | src/safenumber/safenumber.cpp:674-706 | 10^38 + 0.1 is not the exact sum |
| SafeArith.OfInt | src/safenumber/safenumber.cpp:608-616 | Every 64-bit integer, exactly |
| SafeArith.ToInt64 | src/safenumber/safenumber.cpp:871-891 | The integer part toward zero, if and only if it is below 2^62; in general the lower 64 bits of it, narrowed as the code does |
| SafeText.NumberToString | src/safenumber/safenumber.cpp:845-869 | The decimal text of the number |
| SafeText.OfString | src/safenumber/safenumber.cpp:631-671 | What the text denotes, compressed; NaN for the texts the code rejects |
| SafeText.ReadBack | src/safenumber/safenumber.cpp:631-671 | The text of every number fits the 40-character limit and is read back: a nonzero number's to the same digits and exponent, every zero's to 0, an invalid number's, and no other, as NaN |
| SafeText.RoundTrip | src/safenumber/safenumber.cpp:845-869 | Parsing undoes printing for every number but for the form of zeros, which all become the positive one without places |
| SafeText.TextForm | src/safenumber/safenumber.cpp:845-869 | A minus sign for a negative number, the integer part without needless zeros, and after a point exactly as many digits as the number has places; "0" for every zero and "NaN" for what is invalid |
| SafeText.ParsedDigits | src/safenumber/safenumber.cpp:631-671 | An optional sign, digits, and optionally a point and digits are read as the number the digits denote modulo 2^128, with a place for each digit after the point |
| SafeText.ParsedNone | src/safenumber/safenumber.cpp:631-671 | NaN is read exactly from the empty text, a text of more than 40 characters, "NaN", and a text with two points |
| CborBytes.BigEndianBack | src/cborcpp/input.cpp:42-66 | Reading big-endian bytes undoes writing them |
| CborBytes.Output.PutByte | src/cborcpp/output_dynamic.cpp:52-60 | The byte is appended to the contents, whatever the buffer had to grow |
| CborBytes.Output.PutBytes | src/cborcpp/output_dynamic.cpp:62-69 | The bytes are appended to the contents |
| CborEncoder.Encoder.WriteTypeValue | src/cborcpp/encoder.cpp:34-82 | The shortest head of its major type and argument |
| CborEncoder.Encoder.WriteInt | src/cborcpp/encoder.cpp:110-116 | The head of a 64-bit integer is appended, of major type 1 and -(v + 1) for a negative one |
| CborEncoder.Encoder.WriteObject | src/cborcpp/encoder.cpp:179-242 | The encoding of an object is appended, and nothing else |
| CborExamples.Dictionary | src/cborcpp/encoder.cpp:179-242 | {"a": 1, "b": [2, 3]} is encoded as in appendix A of RFC 8949 |
| CborExamples.SimpleValues | src/cborcpp/encoder.cpp:126-242 | Special values, a tag, strings and empty containers are encoded as there |
| CborExamples.SmallIntegers | src/cborcpp/encoder.cpp:34-82 | 0, 23, 24, -1 and -100 are encoded as there |
| CborExamples.ShortIntegers | src/cborcpp/encoder.cpp:34-82 | So are 1000 and -1000 |
| CborExamples.LongerInteger | src/cborcpp/encoder.cpp:34-82 | So is 1000000 |
| CborExamples.LongInteger | src/cborcpp/encoder.cpp:54-82 | So is 1000000000000 |
| CborMachine.Decoder.Run | src/cborcpp/decoder.cpp:103-629 | The decoder's loop over its fields ends as the state machine does on every input, texts of floats being accepted as they are |
| CborMachine.Decoder.PutDecodedValue | src/cborcpp/decoder.cpp:44-101 | A decoded value goes to the result, into the array, or becomes a key or the value of the last key; full containers leave the stack |
| CborDecoder.StepSound | src/cborcpp/decoder.cpp:103-629 | Every step moves forward in the input, and stack, key and result refer to objects that exist |
| CborMaps.InsertIs | src/cborcpp/decoder.cpp:76-90 | Setting a key of a map in order keeps the order, gives the key its new object and leaves every other key its own |
| CborMaps.LessIs | src/cborcpp/decoder.cpp:76-90 | Keys are in the order of std::string: a proper prefix first, otherwise by the first byte that differs |
| CborMaps.AnyOrder | src/cborcpp/decoder.cpp:44-101 | The head of a map of n keys followed by pairs in any order, with keys repeated or not, decodes if and only if the n-th key comes with the last pair, and then to the map in which the last value of each key wins; otherwise the decoder throws |
| CborExamples.AnyWidth | src/cborcpp/decoder.cpp:103-510 | A head with an argument of 1, 2, 4 or 8 bytes, on its own, is read as the number or tag, or an empty string or container; lengths of 8 bytes, and contents that are missing, make the decoder throw; -2^32 and -2^64 are read as 0 |
| CborStack.ReachableNeat | src/cborcpp/decoder.cpp:44-101 | In every run on any input, only unfinished containers are on the stack, and the key flag is down exactly when the object read last is the text key of the map on top of the stack or a key that is no text was read and its map is still open |
| CborStack.DoomedThrows | src/cborcpp/decoder.cpp:44-101 | Once a key that is no text is read, the decoder throws, whatever follows |
| CborStack.DecodedFlag | src/cborcpp/decoder.cpp:44-101 | So in every run on an input that decodes, the flag is down exactly when a value is awaited: the text key of the map on top was read last |
| CborStack.EncodingFlag | src/cborcpp/decoder.cpp:44-101 | The same on every encoding |
| CborStack.ArrayAsKey | src/cborcpp/decoder.cpp:44-101 | An input, a map whose key is an array, on which two turns lead to a state with the flag down and the array on top; it throws |
| CborHeads.ArgBack | src/cborcpp/encoder.cpp:54-82 | The head's argument is read back from its shortest form |
| CborRoundTrip.Consume | src/cborcpp/decoder.cpp:103-629 | Wherever an object is expected, the decoder reads exactly its encoding and places it |
| CborRoundTrip.RoundTrip | src/cborcpp/decoder.cpp:103-629 | decode(encode(o)) is o, integers compared by value, for every finite nesting of the objects described, floats among them unless their text has 20 to 23 characters |
| CborWhole.PrefixFails | src/cborcpp/input.cpp:34-36 | Every proper prefix of an encoding without floats makes the decoder throw |
| CborWhole.ConcatenationFails | src/cborcpp/decoder.cpp:44-48 | Two encodings one after the other make the decoder throw |
| CborWhole.IntRoundTrip | src/cborcpp/decoder.cpp:392-421 | A 64-bit integer on its own comes back if and only if it is not -2^32 |
| CborWhole.MinusTwo32 | src/cborcpp/decoder.cpp:392-421 | -2^32 comes back as 0 |
| CborFloats.FloatRoundTrip | src/cborcpp/encoder.cpp:84-97 | A float on its own comes back if and only if its text does not have 20 to 23 characters; the others, from 10 to below 100000 and negative above -10000, are taken for special values and the decoder throws |
| CborFloats.PaddingUnread | src/cborcpp/decoder.cpp:510-522 | The zeros that fill up a float need not be there |
| CborExamples.ExtraNegativeFails | src/cborcpp/encoder.cpp:193-200 | A negative extra integer -n is encoded as -1-n, so none comes back |
| CborExamples.ExtraTagFails | src/cborcpp/encoder.cpp:214-219 | A 64-bit tag comes back as its lower 32 bits |
| CborStuck.NotReset | src/cborcpp/decoder.cpp:392-421 | An array whose first item is an integer below -2^32 decodes if and only if the items after it take as many times 8 bytes as there are, and less than 8 more; otherwise the decoder throws |
| CborStuck.WholeWhen | src/cborcpp/decoder.cpp:392-421 | It comes back whole if and only if, moreover, each of the other items is the negative number that its 8 bytes are taken for |
| CborStuck.RightByChance | src/cborcpp/decoder.cpp:392-421 | One that does: its second item is encoded in nine equal bytes |
| ExchangeTheorems.RunSane | src/native_contract/native_exchange_contract.cpp:166-397 | In every run in which no balance and no price plus fee passes 64 bits: no balance is negative, and replaying the emitted changes gives the balance map |
| ExchangeTheorems.FillExact | src/native_contract/native_exchange_contract.cpp:319-338 | A fill that goes through in a state with no negative balance moves exactly its amounts and leaves none negative if and only if every balance with all that moves on it is at least 0 and below 2^63, whichever of payer and receivers coincide |
| ExchangeOrders.RunSpent | src/native_contract/native_exchange_contract.cpp:166-397 | In every run, whatever wraps around: the fills that went through add up to what is recorded of each order, exactly for what it has spent, which is at most payNum, and in 64 bits for what it has got; and their exact sums are within its price |
| ExchangeOrders.RunPrice | src/native_contract/native_exchange_contract.cpp:166-397 | In every run an order's record is within its price after each of its fills if and only if what it has got altogether is below 2^63 |
| ExchangeOrders.RunRoom | src/native_contract/native_exchange_contract.cpp:166-503 | The prices of all orders hold throughout a run if and only if each call that goes through finds, when it is made, that what is recorded as got leaves room for its fills |
| ExchangeOrders.RunWithin | src/native_contract/native_exchange_contract.cpp:166-503 | After a run with this room every stored order is within payNum and its price |
| ExchangeOrders.FillWithin | src/native_contract/native_exchange_contract.cpp:242-310 | One fill that goes through leaves all orders within payNum and price if and only if what its order has got then fits in 64 bits |
| ExchangeTheorems.RunConserves | src/native_contract/native_exchange_contract.cpp:652-747 | In every run of RunSane in which the totals of the makers fit as well, the balances of each asset sum to its deposits less its withdrawals |
| ExchangeTheorems.RunFits | src/native_contract/native_exchange_contract.cpp:652-747 | In every such run an account holds between 0 and all deposits of the asset less all withdrawals |
| ExchangeModulo.RunModulo | src/native_contract/native_exchange_contract.cpp:166-749 | In every run, whatever wraps around: each balance is the 64-bit integer that its events add up to, and modulo 2^64 the balances of an asset sum to its deposits less its withdrawals |
| ExchangeRoom.RoomyFits | src/native_contract/native_exchange_contract.cpp:166-503 | No balance, no price plus fee and no total of a call passes 64 bits if there is room for its amounts: a comparison, before the call, of what it names with the amounts in circulation and the minimum fees |
| ExchangeRoom.RoomyRunFits | src/native_contract/native_exchange_contract.cpp:166-749 | So a run in which each call has room when it is made is one of those above |
| ExchangeRuns.TotalsWrap | src/native_contract/native_exchange_contract.cpp:480-495 | A run from the empty contract in which no balance wraps around and of an asset 1 becomes 2^64 + 1: the total the makers get reads as the 1 that the taker pays |
| ExchangeRuns.FeeWraps | src/native_contract/native_exchange_contract.cpp:242-250 | A run after which a balance is negative: price and fee are -2^63 together |
| ExchangeRuns.GotWraps | src/native_contract/native_exchange_contract.cpp:302-306 | A run after which an order is recorded to have got -2 for the 2 it spent, while all balances, prices with fees, and totals fit |
| ExchangeTheorems.MatchConserves | src/native_contract/native_exchange_contract.cpp:402-503 | A match whose sums fit keeps the total of the asset the taker pays if and only if the makers' total of it is below 2^63, and likewise the asset he purchases, and that of every other asset, whichever of payer, receiver, taker and makers coincide; if he pays what he purchases, when both totals lose the same |
| ExchangeTheorems.CheckOrderKeeps | src/native_contract/native_exchange_contract.cpp:166-397 | One fill whose sums fit keeps balances non-negative and is told by its events |
| ExchangeCalls.CheckOrderIs | src/native_contract/native_exchange_contract.cpp:166-397 | An order is filled if and only if it is signed, unexpired, of positive amounts, of a known kind, without a relayer or with a valid one, its fee numeric, not negative and below spentNum or the minimum, its price kept, its payer able to pay price and fee, and enough of it left; then price and fee, the larger of the minimum and the share, leave the payer, the purchase is credited to him and the fee to the relayer, or without one to the contract's receiver, all in 64 bits, and no other balance changes; the record and the events are written out likewise |
| ExchangeCalls.MatchIs | src/native_contract/native_exchange_contract.cpp:402-503 | A match goes through if and only if the taker's order and then each maker's is filled so, each maker sells what the taker buys and buys what he sells, and the 64-bit totals are what the taker spends and gets |
| ExchangeCalls.FillIs | src/native_contract/native_exchange_contract.cpp:583-597 | A call of fillOrder has the effect of its match, or none |
| ExchangeCalls.MatchMoves | src/native_contract/native_exchange_contract.cpp:402-503 | Every account has after a match, in 64 bits, what it had and all that its fills move on it |
| ExchangeCalls.DepositIs | src/native_contract/native_exchange_contract.cpp:652-690 | A positive deposit is added to the balance of the account it is for, and nothing else changes; another one has no effect |
| ExchangeCalls.WithdrawIs | src/native_contract/native_exchange_contract.cpp:692-749 | A positive amount of a named asset is taken from the caller's balance exactly if there is enough, an account of 0 being removed |
| ExchangeCalls.SetMinFeeIs | src/native_contract/native_exchange_contract.cpp:554-580 | The minimum fee of a named asset is set to an amount that is not negative, and no other changes |
| ExchangeCancel.CancelledForGood | src/native_contract/native_exchange_contract.cpp:253-262 | Once cancelled, an order's record never changes, whatever calls follow |
| ExchangeCancel.ExecKeepsCancelled | src/native_contract/native_exchange_contract.cpp:253-262 | A fill that names a cancelled order has no effect at all |
| ExchangeCancel.CancelWorks | src/native_contract/native_exchange_contract.cpp:615-641 | A call on any list of ids cancels an order, not cancelled before, exactly if it names it, the order is signed and the caller's, and nothing is stored of it |
| ExchangeCancel.CancelNamed | src/native_contract/native_exchange_contract.cpp:615-641 | What the call leaves of a signed order of the caller that it names: cancelled if nothing was stored, and otherwise as it was |
| ExchangeCancel.CancelledUnfilled | src/native_contract/native_exchange_contract.cpp:253-262 | Once its owner's call names a signed order of which nothing is stored, no later call in any run fills it: a fill that names it has no effect |
| ExchangeCancel.ReportedIs | src/native_contract/native_exchange_contract.cpp:615-650 | The call reports exactly the signed orders of the caller, among those named, that were not cancelled yet, so also the partly filled ones that it does not cancel |
| ExchangeRuns.FilledAfterCancel | src/native_contract/native_exchange_contract.cpp:615-641 | A run from the empty contract, two deposits, a fill, and the owner's cancellation, after which the same order is filled further |
| ExchangeContract.PriceTooHigh | src/native_contract/native_exchange_contract.cpp:233-240 | The decimal price check is the integer comparison spentNum purchaseNum > getNum payNum |
| ExchangeContract.RawFee | src/native_contract/native_exchange_contract.cpp:208-211 | The fee asked for is FeeShare of the amount and the percentage's text, whatever the text says |
| ExchangeContract.FeeShareIs | src/native_contract/native_exchange_contract.cpp:208-211 | This is spentNum times the number of the percentage, compressed, rounded toward zero, and all of spentNum for a text read as NaN, if and only if that is below 2^62 in magnitude |
| ExchangeContract.WholeShareIs | src/native_contract/native_exchange_contract.cpp:208-211 | For a percentage of at most 32 digits, 16 of them after the point, this is spentNum times it, rounded down |
| ExchangeContract.Exchange.CheckOrder | src/native_contract/native_exchange_contract.cpp:166-397 | The imperative check does what the ledger's step does with the fee that the order's own text asks for, on the same conditions |
| ExchangeContract.Exchange.CheckMatchedOrders | src/native_contract/native_exchange_contract.cpp:402-503 | The same for a taker and its makers, each with its own fee, the totals compared as 64-bit sums |
| ExchangeContract.Exchange.FillOrder | src/native_contract/native_exchange_contract.cpp:583-597 | The call is the ledger's, with the fees the orders ask for; one that throws leaves the storage as it was |
| ExchangeContract.Exchange.CancelOrders | src/native_contract/native_exchange_contract.cpp:599-650 | The call is the ledger's on every list of ids, and returns the list that is reported |
| ExchangeContract.Exchange.OnDepositAsset | src/native_contract/native_exchange_contract.cpp:652-690 | A deposit adds to one balance, in 64 bits, and is told |
| ExchangeContract.Exchange.Withdraw | src/native_contract/native_exchange_contract.cpp:692-749 | A withdrawal of at most the balance takes from it and is told |
| TokenLedger.RunSound | src/native_contract/native_token_contract.cpp:123-371 | In every run after creation: balances non-negative and summing to the supply, allowances positive, at most 1000 spenders an owner |
| TokenLedger.InitOnce | src/native_contract/native_token_contract.cpp:123-163 | A token is created once |
| TokenLedger.MoveKeeps | src/native_contract/native_token_contract.cpp:250-287 | A transfer keeps the sum and does not wrap 64 bits, even to oneself |
| TokenLedger.GrantsAreKept | src/native_contract/native_token_contract.cpp:289-371 | For every owner and spender, what was moved since the last approval and what is left of the allowance make the amount approved |
| TokenCalls.TransferIs | src/native_contract/native_token_contract.cpp:250-287 | A transfer goes through if and only if the token is created, the amount positive and the caller's balance sufficient; then the caller pays, the recipient is credited, and nothing else changes, nor does anything if they are one |
| TokenCalls.TransferFromIs | src/native_contract/native_token_contract.cpp:320-371 | The same for transferFrom: the owner pays if he has enough and the caller's allowance suffices, which becomes that much less |
| TokenCalls.ApproveIs | src/native_contract/native_token_contract.cpp:289-318 | An approval goes through if and only if the amount is positive and the owner then has at most 1000 spenders; it sets this one allowance |
| TokenCalls.InitIs | src/native_contract/native_token_contract.cpp:123-163 | The admin, and nobody else, creates the token, once, with a name, a symbol, a positive supply that he holds, and a precision of 1 to 10^8 |
| TokenContract.Contract.InitToken | src/native_contract/native_token_contract.cpp:123-163 | The imperative call is the ledger's, error cases included |
| TokenContract.Contract.Transfer | src/native_contract/native_token_contract.cpp:250-287 | The same for transfer |
| TokenContract.Contract.Approve | src/native_contract/native_token_contract.cpp:289-318 | The same for approve |
| TokenContract.Contract.TransferFrom | src/native_contract/native_token_contract.cpp:320-371 | The same for transferFrom, the allowance entry removed when used up |
| OpenUpvalues.LuaState.FindUpval | src/uvm/lfunc.cpp:59-83 | Shares the slot's upvalue if there is one and otherwise links a new one so that the list stays strictly descending |
| OpenUpvalues.LuaState.Close | src/uvm/lfunc.cpp:86-100 | Exactly the upvalues of slots from the level on leave the list; unreferenced ones are freed, the others own their values; the slots from there on become new variables |
| OpenUpvalues.CloseKeepsYields | src/uvm/lfunc.cpp:86-100 | Closing changes what no surviving upvalue yields |
| OpenUpvalues.ClosingKeeps | src/uvm/lfunc.cpp:86-100 | Ending scopes leaves every variable a surviving upvalue stands for with its value |
| OpenUpvalues.LuaState.GetUpval | src/uvm/lvm.cpp:1186-1191 | Reading an upvalue yields the value of the variable it captured |
| OpenUpvalues.LuaState.SetUpval | src/uvm/lvm.cpp:1233-1240 | Writing an upvalue writes that variable, in the slot while the slot holds it |
| OpenUpvalues.LuaState.Capture | src/uvm/lvm.cpp:695-722 | A captured slot's upvalue stands for the variable in the slot |
| OpenUpvalues.LuaState.Release | src/uvm/lgc.cpp:128-133 | A closed upvalue without references is freed; an open one waits for its scope |
| OpenUpvalues.LuaState.CorrectStack | src/uvm/ldo.cpp:181-193 | Top, open upvalues and call records point into the new block at the old offsets |
| OpenUpvalues.LuaState.ReallocStack | src/uvm/ldo.cpp:200-214 | A growing reallocation keeps every slot, clears the new ones and changes what no upvalue stands for |
| OpenUpvalues.LuaState.GrowStack | src/uvm/ldo.cpp:217-233 | Below the limit the size is doubled, as far as the limit allows, or what is needed if that is more; the error area and an error beyond it; an error in the error area |
| OpenUpvalues.InsertedDone | src/uvm/lfunc.cpp:64-76 | Linking between the right neighbours keeps the list descending and one upvalue a slot |
| OpenUpvalues.ExtendDone | src/uvm/ldo.cpp:200-214 | A longer stack keeps what every upvalue stands for |
| OpenUpvalues.GrowKeepsYields | src/uvm/ldo.cpp:200-233 | Reallocating to a larger stack changes what no upvalue yields |
| Variables.LeftAlone | src/uvm/lfunc.cpp:86-100 | Once no slot holds a variable, in every run its value is the last one a closure gave it |
| Sponge.CutAnywhere | uvm_single/Keccak.cpp:176-217 | However a message is cut into pieces, adding them one by one reaches the state of adding it whole |
| Sponge.FeedJoins | uvm_single/Keccak.cpp:176-217 | Adding two pieces is adding them joined |
| Sponge.PaddingIsTenStarOne | uvm_single/Keccak.cpp:220-237 | The bytes appended are the bits of pad10*1 (section 5.1 of FIPS 202), for every rate and length |
| Sponge.PaddedWhole | uvm_single/Keccak.cpp:220-237 | A padded message is a whole number of blocks |
| Sponge.SqueezedDigits | uvm_single/Keccak.cpp:240-275 | The digest's hexadecimal digits give back the bytes of the state, lanes low byte first |
| Sponge.DigestIs | uvm_single/Keccak.cpp:18-30 | A digest of b bits: the padded message is absorbed in blocks of 1600 - 2 b bits into a state of zeros, and the first b / 8 bytes of the state are written in lower-case hexadecimal |
| Sponge.LaneBytes | uvm_single/Keccak.cpp:240-275 | The bytes taken off a lane, the least significant first, make up the lane |
| Sponge.ByteBitsAre | uvm_single/Keccak.cpp:220-237 | The bits of a byte, the least significant first, make up the byte |
| KeccakHash.Keccak.Add | uvm_single/Keccak.cpp:176-217 | The object ends as if the whole message so far had been absorbed at once, with less than a block buffered |
| KeccakHash.Keccak.ProcessBuffer | uvm_single/Keccak.cpp:220-237 | The state is that of the padded message |
| KeccakHash.Keccak.GetHash | uvm_single/Keccak.cpp:240-275 | The digest of everything added since the last reset |
| KeccakHash.Keccak.Hash | uvm_single/Keccak.cpp:279-293 | The digest of the data, whatever was added before |
| Buckets.RunsAsMap | src/uvm/lhashmap.cpp:261-348 | In every run that puts a key only while it is absent, every answer is the finite map's |
| Buckets.RunsFromEmpty | src/uvm/lhashmap.cpp:261-348 | So every such run from the empty table |
| Buckets.PutShows | src/uvm/lhashmap.cpp:261-278 | Putting an absent key adds it to the map the table stands for |
| Buckets.PutPlaces | src/uvm/lhashmap.cpp:261-278 | An entry goes behind those whose hashes are the same modulo 96 |
| Buckets.DeleteShows | src/uvm/lhashmap.cpp:327-348 | Deleting removes that key and no other, in spite of the last entry taking its place |
| Buckets.PutThenGet | src/uvm/lhashmap.cpp:261-309 | A put is seen by the next get if and only if the key was absent or had that value |
| Buckets.PutTwice | src/uvm/lhashmap.cpp:261-348 | A key put twice keeps its first value, and deleting it brings the second to light |
| HashMaps.ArrayList.Append | src/uvm/lhashmap.cpp:105-126 | The item is appended; growing the block loses nothing |
| HashMaps.ArrayList.Pop | src/uvm/lhashmap.cpp:154-163 | The last item is removed and returned |
| HashMaps.ArrayList.Set | src/uvm/lhashmap.cpp:165-171 | One item is replaced; out of range nothing changes |
| HashMaps.HashMap.Put | src/uvm/lhashmap.cpp:261-278 | The table's put, on the arrays |
| HashMaps.HashMap.Get | src/uvm/lhashmap.cpp:280-309 | The table's get |
| HashMaps.HashMap.Delete | src/uvm/lhashmap.cpp:327-348 | The table's delete, pop and swap |
| ScopeRunner.RunSane | simplechain/include/utility.hpp:319-361 | Under every interleaving the counter is the number of live locks, or -1 with no live lock |
| ScopeRunner.StepSane | simplechain/include/utility.hpp:319-361 | Every atomic step keeps this; once -1, always -1; a lock is granted only before that |
| ScopeRunner.StopIsFinal | simplechain/include/utility.hpp:352-360 | When a stop has returned, no lock is live and none is granted ever after |
| ScopeRunner.StopGetsThrough | simplechain/include/utility.hpp:352-360 | stop's compare-and-swap goes through exactly when no lock is live, unless it fails for no reason |
| ScopeRunner.GrantedWhen | simplechain/include/utility.hpp:340-349 | A lock is granted exactly to a thread whose expectation is the number of live locks, before any stop |
| ScopeRunner.FailedSwap | simplechain/include/utility.hpp:340-349 | A failed compare-and-swap reads the counter back: the next one, undisturbed, is granted before a stop, and the thread refused after it |
| ScopeRunner.ContinueAlone | simplechain/include/utility.hpp:340-349 | A thread that is not disturbed gets a lock, one more than there were, or is refused after a stop |
| ScopeRunner.StopAlone | simplechain/include/utility.hpp:352-360 | A stop that is not disturbed returns if no lock is live or after another stop, and otherwise tries again |
| ScopeRunner.DestroyIs | simplechain/include/utility.hpp:330-334 | Giving a lock back makes the counter one less, and nothing else changes |

## Left out

- Register 255 and above: a frame has fewer than 255 registers, and a write to register 255 does nothing.
- Expression kinds of the code generator other than locals, literals, comparisons, `not`, `and` and `or`: calls, indexing, upvalues, arithmetic and constant folding, concatenation.
- JMP instructions that close upvalues (luaK_patchclose), loops and backward jumps: runs go forward.
- FuncStates.FuncState.AddK: promises less than that equal constants are never added twice, because the source does not: the scanner's table is shared with nested functions, which may have overwritten an entry.  The error of too many constants is as in luaK_codek only.
- Metamethods of comparisons: a comparison is a function of its two values that may throw.
- CodeGen.DischargeVars: of the variables only locals; upvalues, indexed variables, calls and varargs are not descriptor kinds.
- Floating-point numerals are given by their bits, and how the scanner reads one is not modelled.  None is negative or NaN, so in the scanner's table they are told apart as their bits are.
- Compiler.StoreLocal: of the targets of luaK_storevar only locals, for the same reason.
- safe_number_idiv, safe_number_mod, safe_number_abs and safe_number_to_int64_floor, which are short combinations of the operations above, and safe_number_div_old, the division of older versions.
- SafeArith.Divide: nothing is claimed of a division in which some partial remainder reaches 2^128, which takes a divisor with a magnitude above 2^127; SafeArith.LongQuotient likewise.
- Div256.DivModWide: a divisor between 2^127 and 2^128 for which some partial remainder reaches 2^128 is described only for the dividend 2^128, and divisors from 2^128 on only where a branch before the loop answers.
- SafeArith.Multiply: an invalid right operand is not propagated any further than the code does.
- uint64_pow is the exact power for the exponents that occur, although the source computes some through floating point.
- CborMachine.Decoder.Run: accepts every text of a float, where fc::to_double (src/cborcpp/decoder.cpp:520) can throw on one that is no number.
- CborEncoder.Encoder.WriteFloat: the text of a float is given; printing and parsing floats are not modelled.
- CborRoundTrip.RoundTrip: leaves out negative extra integers, 64-bit tags, floats with texts of 20 to 23 characters and integers from -2^32 down, which the source does not round-trip; CborExamples, CborFloats, CborWhole and CborStuck say how they fail.
- CborWhole.PrefixFails: leaves out objects with floats, of which PaddingUnread says that the end may be missing.
- CborStuck.NotReset: such an integer as the first item of an array that is decoded on its own; elsewhere in an object the decoder comes into the same state, but what it then makes of the rest is not stated.
- CborBytes.Output.PutByte: its capacity and offset are unbounded, where the source counts in 32 bits, so the doubling never wraps; likewise the decoder's offset.
- CborBytes.Output.PutBytes: as PutByte.
- Shared pointers of CBOR objects are indices; lifetime and reference counts are not modelled.
- Signatures, addresses from public keys, JSON, gas and the storage proxy of the contracts: the owner, the id and the signature's validity are part of the order, one order information for each id; balances, minimum fees and order records are three maps, init and init_config one constructor.
- Signed overflow, undefined in C++, is taken to wrap around, as it does on the machines the node runs on.
- ExchangeContract.Exchange.SetMinFee and ExchangeCalls.SetMinFeeIs: calls of the admin only; the check that the caller is the admin is left out.
- Event texts other than UserBalanceChange, such as the remaining amounts of an order.
- The token contract's arguments are taken as parsed.
- OpenUpvalues.LuaState.ReallocStack: growing or equal sizes only; for a smaller block the source's memcpy copies more than the block holds, which is undefined behaviour.
- The list of threads with upvalues (twups), the touched mark's use, write barriers and the garbage collector: `live` upvalues are those not freed.
- The old stack block is not freed, as in the source.
- KeccakHash: the permutation is not modelled, nor big-endian machines; after getHash the object is meant to be reset, as operator() does.
- HashMaps.HashMap.Delete: compares entries by value where the source compares addresses; equal entries are interchangeable, so the lists are the same.
- LHashmap_traverse, LHashmap_destroy, failed allocations and a key comparison other than equality.
- ScopeRunner: the counter is unbounded, a stop may wait for ever while locks are held, and memory orders weaker than sequential consistency are not modelled.
- The VM loop beyond the opcodes used, the table library, the parser, coroutines, hooks, HTTP, the demo chain, json_reader.cpp, and lgc.cpp beyond the release of upvalues: no theorem above depends on them.
