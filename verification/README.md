# jni2hook, the class-file half, in Dafny

jni2hook rewrites compiled Java methods inside a running VM. It parses a class
file, splices code into a method body, repairs every offset that refers into
that body, and writes the file back; a registry keeps what the VM runs in step
with the hooks that are installed. This project models the part of it that needs
no VM (chapters 4 and 6 of the Java Virtual Machine Specification, "the JVMS"
below) and the two protocols around it, and proves what they promise.

The main results, each for every input, every run or every reachable state:

- **Insertion preserves meaning.** `Simulation.InsertionSimulates`: after
  splicing in a straight-line block that leaves the state as it found it, every
  run of the original (fall-through, branches, both switches, handlers) is
  matched by the edited body, with an exact step count: one pass through the
  block for each time control stood at the insertion point.
- **Rebuilding weaves.** `Weaving.RebuildWeaves`, `Weaving.RebuildSimulates`:
  whatever list of inserts is registered, sorting them and applying them one
  after the other puts each callback directly in front of the original
  instruction at its original offset.
- **The registry tracks the VM.** `HookRuns.Serve` and `HookRuns.RunningBody`:
  over every sequence of installs and uninstalls, with the VM refusing any
  definition it likes, each class runs the rebuild of its original under its
  registered hooks, as long as the VM binds the natives of what it has taken.
  What an unbound native does is stated exactly, call by call
  (`HookRegistry.Hooks.Install`, `HookRegistry.Hooks.Uninstall`), and so is when
  the order of tied inserts survives a refusal (`Partition.RefusedOrder`).
- **The constructor analysis is sound.** `ConstructorSoundness.InitialisationPoint`:
  FOUND names the end of the first initialising call of every run, MISSING means
  there is none. The worklist itself terminates and computes the least solution
  (`ConstructorInit.ConstructorInitOffset`).
- **A guarded call preserves meaning.** `GuardedRuns.GuardedCallSimulates`: as
  long as the guard says no, wherever it is asked, loops back to the start
  included, n original steps are matched by n steps and one pass through the
  guard per arrival; `GuardedRuns.FirstYesReturns`: its first yes is an early
  return. `GuardedTransform.InsertGuardedCall` is the transform that puts it there,
  from descriptor to frame.
- **Remapping resolves to the image.** `ClassRemap.Remapper.RemapIn`: in
  whatever order the four passes run, every reference, class and own member
  answers with the mapping's image of its original names;
  `RuntimeOwners.RuntimeOwnerReached` says exactly when a runtime owner is reached.
- **Codecs round-trip.** Instructions, StackMapTable, class file, Code
  attribute, type annotations; `StoreAfterInsert.LoadAfterInsert` says that an
  edited method that can be stored loads back as it was edited.
- **A watch resolves.** `WatchProtocol.WatchResolves`: in every interleaving of
  class loading with setting up the watch.

Where the code falls short of a property, the exact condition is proved for all
inputs, and beside it a concrete input that fails:

| property | holds if and only if | an input for which it does not |
|---|---|---|
| a code array comes back as it was | its switch padding is zero (`InstructionRoundTrip.EncodeOfParse`) | `InstructionRoundTrip.PaddingIsLost` |
| a Code payload comes back as it was | it goes on as far as both its counts (`CodeParsed.CodeOfParse`) | `CodeParsed.CutPayloadIsAccepted` |
| argument slots are counted right | no array of long or double (`Descriptors.SlotsExact`) | `Descriptors.LongArrayIsMiscounted` |
| a guard loads its arguments right | no array of primitives (`GuardParameters.LoadsExact`) | `GuardParameters.LongArrayIsMisloaded` |
| a guard returns by the method's result type | no parameter's class has a parenthesis in its name (`GuardedTransform.ResultIsRead`) | `GuardedTransform.ParenthesisInName` |
| a guard's nodes fit their array | parameters and value instructions are at most 66 (`GuardedCall.NodesFit`) | `GuardedCall.NodesOverflow` |
| frames behind one at offset 0 keep their types | the first of them builds on nothing it changed (`GuardTransform.GuardFrameBetween`) | `GuardTransform.DroppedLocalReturns` |
| a moved reference ends at its runtime owner | no original class goes by that name, or the mapping leaves it alone, or classes go first (`RuntimeOwners.RuntimeOwnerReached`) | `RuntimeOwners.RuntimeOwnerMissed` |
| a refused uninstall keeps the order inserts are applied in | its swaps exchange no tie (`Partition.RefusedOrder`); it keeps the whole list if what matches stands last (`Partition.ArrangedSame`) | `Partition.TwoTiesExchanged`, `Partition.PartitionReorders` |
| a failed install leaves every class on its registered hooks | the natives were bound or never asked for, or the old hooks went through again (`HookRegistry.Hooks.Install`) | `UnboundHook.FirstHookUnbound` |
| a failed watch stays failed | no scan finds it (`WatchProtocol.LeavingFailed`) | `WatchProtocol.FailedIsNotTerminal` |

## How the files fit together

`Bytes` and `Status` are the byte layer and the status codes. `Instructions`,
`InstructionCodec`, `InstructionRoundTrip` and `InstructionStreams` hold the
instruction list: layout, bytes, round trips, and the loops that parse and
encode. Files that end in `Meaning` say what a format says by the numbers of the
JVMS alone, with `BigEndian` beneath them, so that the codecs are not compared
with each other only; `OpcodeTypes` does the same for the instructions. `References`, `AnnotationFlush`, `CodeEditor` and `Insertion` are the
editor and what one insertion does to every reference; `Simulation` is what that
means for runs. `Rebuild`, `TiedInserts` and `Weaving` are many insertions;
`HookedClasses`, `Partition`, `Registry`, `HookRegistry` and `HookRuns` the
classes and hooks. `Descriptors`,
`ConstantPool`, `OpcodeTypes`, `OpcodeAgreement`, `StackShapes`, `TraceWork`, `InitFlow`, `ConstructorInit` and
`ConstructorSoundness` are the constructor analysis. `GuardParameters`,
`EntryFrame`, `GuardedBody`, `GuardedRuns`, `GuardedCall`, `GuardedTypes`, `GuardTransform` and
`GuardedTransform` are the guarded call, `NativeTransform` is make-native and restore. `Remapping`,
`RemapProgress`, `RemapOwners`, `ClassRemap` and `RuntimeOwners` are the remapper. `StackMapCodec`,
`StackMapRoundTrip`, `TypeAnnotations`, `AnnotationGrammar`, `AnnotationRoundTrip`, `ClassFileCodec`,
`ClassFileStreams`, `ClassFileRoundTrip`, `ClassFileWritten`, `CodeStore`,
`CodeParsed`, `CodeStreams`, `CodeStoreRoundTrip` and `StoreAfterInsert` are the
codecs. `ClassWatch` and `WatchProtocol` are the watches. `Witnesses` shows methods
that meet what the main theorems ask for, `UnboundHook` a run of the registry that
goes wrong.

Code that the original runs as a loop over mutable state is a method here, held
to a function of its input or of the old state; the theorems are about those
functions. What the outside decides (whether the VM accepts a redefinition and
which natives it then binds, whether an allocation or a lookup succeeds, whether the list could be grown) is
a parameter of the step that depends on it.

## Model

| member | source | states |
|---|---|---|
| Bytes.ByteCursor.U2 | src/byte_stream.c:44-51 | reads two big-endian bytes, or latches ok off and yields zero once the data is short |
| Bytes.ByteBuffer.U4 | src/byte_stream.c:123-132 | appends exactly the four big-endian bytes of the value |
| Bytes.StandingU4IsRead | src/byte_stream.c:53-60 | what was written as a u4 is read back as that u4, and the cursor stands behind it |
| BigEndian.WrittenHighFirst | src/byte_stream.c:112-132 | two- and four-byte numbers are written highest byte first, as sums of bytes say |
| Instructions.OffsetsIncrease | src/visitors/instruction.c:130-155 | in a list of parsed shape every later instruction starts at a strictly larger offset |
| Instructions.BoundaryLookup | src/visitors/code_editor.c:361-383 | on a laid-out list offset-to-index and index-to-offset are inverse, the end of the code included |
| Instructions.InstructionList.IndexAt | src/visitors/instruction.c:576-584 | the first instruction stored at the offset, or none |
| Instructions.InstructionList.RecomputeOffsets | src/visitors/instruction.c:397-418 | ends after at most two passes, after one exactly if nothing had moved, with each offset the prefix sum of position-dependent lengths |
| InstructionRoundTrip.EncodedLength | src/visitors/instruction.c:130-155 | the length computed for an instruction at an offset is the number of bytes it encodes to there |
| InstructionRoundTrip.NodeParsed | src/visitors/instruction.c:212-395 | a parsed instruction consumed exactly that length and, zero padding given, encodes to the bytes it was read from |
| InstructionMeaning.ParseMeans | src/visitors/instruction.c:10-395 | the nodes of an accepted code array are what its bytes say, from the first to the last: each operand, immediate and target is told by the opcode numbers and formats of the JVMS alone |
| TargetMeaning.NodeGoes | src/visitors/instruction.c:212-395 | a branch has the one target its two bytes name, a wide one that of its four, a switch its default and offsets, anything else none |
| InstructionRoundTrip.EncodeOfParse | src/visitors/instruction.c:212-395 | an accepted code array of at most 65535 bytes is laid out by its lengths and encodes back to itself if and only if all switch padding was zero |
| InstructionRoundTrip.PaddingIsLost | src/visitors/instruction.c:212-395 | counterexample: a table switch with a padding byte of one is accepted and encodes to other bytes |
| InstructionRoundTrip.ParseOfEncode | src/visitors/instruction.c:420-574 | a well-formed, laid-out list that encodes parses back to the same list, wide forms and both switches included |
| InstructionStreams.ParseList | src/visitors/instruction.c:212-395 | the parsing loop computes Parse, error cases included; what Parse reads is InstructionMeaning.ParseMeans |
| InstructionStreams.EncodeList | src/visitors/instruction.c:420-574 | the encoding loop computes Encode, the branch-range and code-too-large refusals included |
| AnnotationFlush.Flush | src/visitors/type_annotation.c:281-308 | the loop writes back value after value and stops at the first that is out of range, with what was written so far in place |
| CodeEditor.CodeEditor.MapAllReferences | src/visitors/code_editor.c:412-500 | with apply set every reference of every table goes through the map, without it only whether all of them have an image is reported and nothing changes; where each ends is Insertion.CommittedTables |
| CodeEditor.CodeEditor.InsertAt | src/visitors/code_editor.c:518-648 | the whole in-place insertion ends in the state Insert describes, for every outcome |
| Insertion.CommittedTables | src/visitors/code_editor.c:586-635 | entry by entry, as long as the code stays legal: ranges, handlers, lines, scopes, frames and annotated spans follow the position shift, objects under construction and annotated instructions the identity shift, nothing else in an entry changes, and no cast to two bytes cut anything |
| Insertion.CommittedNode | src/visitors/code_editor.c:546-584 | each original instruction keeps its operation, follows the identity shift, and its targets follow the position shift |
| Insertion.CommittedBlock | src/visitors/code_editor.c:546-550 | each inserted instruction stands, in order, at the insertion point |
| Insertion.CommittedIsConsistent | src/visitors/code_editor.c:637-639 | after the commit every reference is the offset of an instruction or the end, never an index |
| Insertion.RehearsalSuffices | src/visitors/code_editor.c:526-544 | once the rehearsal has passed, neither of the two real mappings can meet a reference without an image |
| Insertion.AllOrNothing | src/visitors/code_editor.c:518-545 | BAD_OFFSET, LIMIT_EXCEEDED and OUT_OF_MEMORY leave the editor unchanged; any legal outcome is consistent; BAD_OFFSET exactly when the offset is no boundary |
| Insertion.InsertKeepsFrameOrder | src/visitors/code_editor.c:611-621 | frame offsets that were strictly increasing stay so and stay inside the code |
| Simulation.CoverageKept | src/visitors/code_editor.c:505-508 | an original instruction is covered by a handler after the insertion if and only if it was before |
| Simulation.BlockCoverage | src/visitors/code_editor.c:505-508 | the inserted block is covered by a handler if and only if the instruction at the insertion point was |
| Simulation.OriginalStep | src/visitors/code_editor.c:505-516 | executing an original instruction where it now stands goes from matching state to matching configuration, whatever it does next |
| Simulation.InsertionSimulates | src/visitors/code_editor.c:518-648 | n steps of the original are matched by n steps of the edited body plus one pass through the block per arrival at the insertion point |
| Witnesses.BodyIsInsertable | src/visitors/code_editor.c:518-648 | witness: a body of one instruction meets what the simulation theorems ask for |
| Rebuild.CompareIsOrder | src/jni2hook.c:318-333 | the comparison is a total preorder that ties exactly for inserts at one place of one method |
| Rebuild.SortInserts | src/jni2hook.c:405-415 | the insertion sort orders the inserts and keeps those at one place in the order they were listed |
| TiedInserts.SortedIsUnique | src/jni2hook.c:405-415 | no other sorted list has the ties of the given one, so what the sort gives is decided by the list |
| TiedInserts.StableIffNotExchanged | src/jni2hook.c:318-333 | two orders of the same inserts agree at every place if and only if no two tied inserts have changed places |
| Weaving.InsertsWeave | src/jni2hook.c:417-430 | inserts applied in descending offset order put every callback directly in front of the original instruction at its original offset |
| Weaving.MethodsAreIndependent | src/jni2hook.c:417-430 | a method sees only its own inserts, in the order the class saw them |
| Weaving.RebuildWeaves | src/jni2hook.c:366-430 | for any listed order, the rebuilt body is the original with the callbacks woven in, those at one offset in reverse list order |
| Weaving.RebuildMakesRoom | src/class_transform.c:1080-1080 | a rebuilt method has one more stack slot for each of its inserts |
| Weaving.RebuildSimulates | src/jni2hook.c:336-510 | every run of an original method is followed by the rebuilt method through all inserts |
| HookedClasses.RebuiltMethod | src/jni2hook.c:336-440 | in a rebuilt class every method that is not replaced has its original body with its callbacks woven in |
| HookedClasses.RebuiltReplacement | src/jni2hook.c:384-403 | a replaced method is native and its original body stands under the added name |
| Partition.Partition | src/jni2hook.c:1023-1035 | the swaps in the array compute Arranged and count the kept |
| Partition.ArrangedParts | src/jni2hook.c:1023-1035 | at every point of the partition the kept entries come first in order, those moved aside match, and nothing is lost |
| Partition.ArrangedIs | src/jni2hook.c:1026-1033 | the partition in closed form: the kept in order, then those set aside, which each later kept entry turns by one, then the rest |
| Partition.ArrangedSame | src/jni2hook.c:1026-1033 | the partition leaves a list as it was if and only if everything that matches already stood behind everything that does not |
| Partition.RefusedOrder | src/jni2hook.c:1043-1047 | after a refused uninstall a rebuild applies the same sorted inserts as before if and only if the swaps exchanged no two inserts that the comparison ties |
| Partition.TwoTiesExchanged | src/jni2hook.c:1026-1033 | counterexample: of two tied inserts the first is to go, and the refusal puts it behind the second |
| Partition.PartitionReorders | src/jni2hook.c:1026-1033 | counterexample: four entries, two of them matching, after which the matching ones stand in reverse order |
| HookRegistry.Build | src/jni2hook.c:353-440 | the loops over replacements and sorted inserts give a rebuild of the original under the hooks, and none exactly if there is no such definition |
| HookRegistry.Hooks.Reapply | src/jni2hook.c:336-510 | its status is decided by whether a rebuild exists, whether the VM takes it and whether every native is then bound; taken, the VM runs the rebuild even if a native was refused; otherwise it runs what it ran |
| HookRegistry.Hooks.MethodConflicts | src/jni2hook.c:174-187 | true exactly if some registered entry of the method rules the new kind out |
| HookRegistry.Hooks.Install | src/jni2hook.c:638-825 | every outcome: success adds one entry at the end of its class's list and the VM runs exactly the rebuild; a failure leaves every list as it was; from a state in which every class runs its hooks, all still do if and only if the natives were not what failed or the class had hooks that went through again |
| UnboundHook.FirstHookUnbound | src/jni2hook.c:468-500 | counterexample: a first hook whose native is not bound is reported as failed and its class dropped, while the VM runs the hooked code |
| HookRegistry.Hooks.Uninstall | src/jni2hook.c:1010-1062 | success keeps exactly the entries that do not match, in order, and the VM runs their rebuild; a refusal keeps all in the order the partition left and the VM on what it ran, or, natives unbound, on the rest, which exactly then is not what is registered; NOT_HOOKED exactly if nothing matches |
| HookRegistry.Hooks.IsInstalled | src/jni2hook.c:1099-1107 | whether some registered entry names the method |
| HookRegistry.Hooks.Shutdown | src/jni2hook.c:1109-1130 | OK exactly if every class was taken back, and then every class has its original if each ran its hooks before; in any case exactly the refused ones run what they ran |
| HookRuns.Handle | src/jni2hook.c:638-1062 | one call: a success sets its class right whatever was wrong before, unbound natives are all that can set it wrong, and an exchanged tie all that can upset the order of one that is right |
| HookRuns.Serve | src/jni2hook.c:638-1062 | any sequence of calls and answers: a class runs its registered hooks if it did to begin with or a call on it went through, and no later one left natives unbound; in their order if besides no refused uninstall since exchanged a tie |
| HookRuns.RunningBody | src/jni2hook.c:336-510 | in every class the VM keeps in order, a method that is not replaced runs its original body with the callbacks of its registered inserts woven in, tied ones in reverse list order |
| HookRuns.RunningBodyTracked | src/jni2hook.c:336-510 | in every class the VM keeps track of, the same for some order of the registered inserts |
| HookMeaning.RunningBodyIs | src/jni2hook.c:336-510 | the same by the entries' fields: in front of the instruction at each offset stand the calls of the registered entries for that offset of that method, the last one listed first |
| HookMeaning.LeftInPlace | src/jni2hook.c:1064-1097 | what an uninstall leaves are the entries it does not name by method, or by method, offset and callback, each once and in their order |
| HookMeaning.ConflictIs | src/jni2hook.c:174-187 | an install conflicts exactly with an entry of the same method, unless both are inserts |
| Descriptors.CountSlots | src/visitors/constructor_init.c:61-121 | the scan over a descriptor computes DescriptorSlots |
| Descriptors.SlotsExact | src/visitors/constructor_init.c:76-116 | the slots counted for a valid method descriptor are the JVM's if and only if it holds no array of long or double |
| Descriptors.LongArrayIsMiscounted | src/visitors/constructor_init.c:76-95 | counterexample: a descriptor with one argument slot that is counted as two |
| TraceWork.TraceWork.Execute | src/visitors/constructor_init.c:207-424 | the case analysis over all opcodes has the slot effect of the table, fails when the table says so, and knows what ends a method |
| OpcodeAgreement.OpcodesAgree | src/visitors/constructor_init.c:207-424 | opcode by opcode the table takes, gives and moves what the instruction takes, gives and moves by the operand and result types of chapter 6 of the JVMS, and gives up exactly on jsr and ret |
| InitFlow.ApplyMonotone | src/visitors/constructor_init.c:207-424 | the effect of an instruction is monotone in what is known, and succeeds on the one if and only if on the other |
| InitFlow.MergeIsBelow | src/visitors/constructor_init.c:437-469 | merging two facts gives nothing beyond any bound of both |
| ConstructorInit.MergeFalls | src/visitors/constructor_init.c:437-469 | a merge that changes a state strictly lowers its remaining height |
| ConstructorInit.Worklist.Take | src/visitors/constructor_init.c:541-547 | the head of the circular queue, which holds exactly the flagged instructions, each once |
| ConstructorInit.Worklist.Propagate | src/visitors/constructor_init.c:483-496 | the target's state is merged and it is queued exactly if that changed anything and it was not waiting; the total height falls or nothing changes |
| ConstructorInit.ConstructorInitOffset | src/visitors/constructor_init.c:498-636 | terminates; the states are the least solution of the flow equations, every reached initialising call is accounted for, and reported offsets end such calls |
| ConstructorSoundness.ActionIsSeen | src/visitors/constructor_init.c:207-424 | the slot effect looked up for an instruction, fields and calls by their descriptors included, is that of what the instruction does by type |
| ConstructorSoundness.SuccessorsAreNext | src/visitors/constructor_init.c:548-625 | facts are passed on along the normal flow and nowhere else |
| ConstructorSoundness.ActionMoves | src/visitors/constructor_init.c:164-199 | whatever an instruction does to a frame by type, the slot effect allows |
| ConstructorSoundness.MovesAreFollowed | src/visitors/constructor_init.c:164-199 | what the analysis computes from the facts about a frame are the facts about the frame such an effect makes of it |
| ConstructorSoundness.InitCallsAreSeen | src/visitors/constructor_init.c:144-162 | an instruction is recognised as initialising, with its argument slots, if and only if it calls a constructor of the class or its superclass |
| ConstructorSoundness.RunIsCovered | src/visitors/constructor_init.c:539-622 | at every point of every uninitialised run the facts about the frame are covered by the states |
| ConstructorSoundness.InitialisationPoint | src/visitors/constructor_init.c:498-636 | FOUND: the first initialising call on this of every normal-flow run ends at the reported offset; MISSING: no run has one |
| Witnesses.ConstructorIsTyped | src/visitors/constructor_init.c:498-636 | witness: the shortest constructor has a typing, so the soundness theorem applies to it |
| GuardParameters.DescribeParameters | src/class_transform.c:211-303 | the walk over a descriptor computes Describe, refusals included |
| GuardParameters.DescribeReads | src/class_transform.c:211-303 | a valid descriptor is described parameter by parameter, receiver first, unless there are more than fit |
| GuardParameters.LoadsExact | src/class_transform.c:243-293 | every load has the right opcode and slot if and only if no parameter is an array of primitives |
| GuardParameters.LongArrayIsMisloaded | src/class_transform.c:243-293 | counterexample: of ([JI)V the array is loaded as a long and the int from one local too far |
| EntryFrame.BuildEntryFrame | src/class_transform.c:354-461 | the walk interns the class names it meets and builds a full frame with an empty stack |
| EntryFrame.EntryFrameIsEntry | src/class_transform.c:343-461 | for a valid descriptor the frame's locals name exactly the types a method starts with |
| EntryFrame.EntryTags | src/class_transform.c:420-443 | primitive types go by the tags of the JVMS, 1 for the int types, 2, 3 and 4 for float, double and long |
| EntryFrame.InsertFrame | src/class_transform.c:463-503 | the table stays sorted, the frame is taken exactly if its offset was not described, nothing else changes |
| EntryFrame.EntryFrameKeepsOthers | src/class_transform.c:463-503 | put first, the frame leaves every other one with the types it had |
| EntryFrame.EntryFrameBetween | src/class_transform.c:463-503 | put behind a frame at offset 0, it leaves the rest with the types they had if and only if the first of them says the same from the entry state |
| GuardedCall.BuildGuardDescriptor | src/class_transform.c:306-340 | the callee's descriptor takes the id and every forwarded argument and returns a boolean, refused exactly if it does not fit 1024 bytes |
| GuardedCall.BuildGuard | src/class_transform.c:766-908 | the nodes are the prologue, the branch and the return, the branch is where it is said to be, and the stack asked for covers both parts |
| GuardedCall.NodesFit | src/class_transform.c:766-770 | the node array is large enough if and only if parameters and value instructions together are at most 66 |
| GuardedCall.NodesOverflow | src/class_transform.c:734-908 | counterexample: 64 ints and a reference answered by a callee pass every check and need 71 nodes of 70 |
| GuardedCall.PrologueFits | src/class_transform.c:772-799 | from an empty stack the prologue and the branch never go past what was asked for, and leave the stack empty and the locals alone |
| GuardedCall.ValueFits | src/class_transform.c:801-908 | two slots are enough for the value returned instead, and the return takes all of it |
| GuardedCall.ParametersFit | src/class_transform.c:211-303 | without arrays of primitives each parameter is loaded from inside the locals and forwarded slot for slot |
| GuardedTypes.PrologueByType | src/class_transform.c:766-799 | from the entry state of a method without arrays of primitives each argument is loaded by the instruction for its type, the guard called with the id and just those types, and its int branched on |
| GuardedTypes.FalseIsTaken | src/class_transform.c:794-799 | the branch is taken on 0, the guard's false |
| GuardedTypes.DefaultIsZero | src/class_transform.c:525-540 | without a value callee, what is pushed is 0 or null of the method's result type |
| GuardedTypes.ReturnIsOfType | src/class_transform.c:505-523 | the return is one of exactly the method's result type |
| GuardedTypes.ValueByType | src/class_transform.c:801-908 | the value instructions leave one value of the result type, or none, and the return takes it |
| GuardedBody.GuardFalse | src/class_transform.c:790-799 | a guard that answers no arrives at the body with the state the branch leaves |
| GuardedBody.GuardTrue | src/class_transform.c:801-908 | a guard that answers yes leaves the method with the value computed behind the branch |
| GuardedRuns.GuardedCallSimulates | src/class_transform.c:910-928 | as long as the guard says no at each arrival, n original steps are matched by n steps and one pass through the guard for each time control stood at offset 0 |
| GuardedRuns.FirstYesReturns | src/class_transform.c:801-928 | when the guard, asked again after any number of steps, says yes, the method leaves with the value computed behind the branch |
| GuardedRuns.NoOrFirstYes | src/class_transform.c:790-928 | a guard that always answers lets all n steps pass, or there is a first arrival at which it says yes |
| GuardedRuns.AskedOnce | src/class_transform.c:910-928 | a method that never comes back to its start asks once, and one no lets every run pass |
| GuardedBody.FramesBehindBody | src/class_transform.c:927-942 | no frame can stand where the body has moved to: one at offset 0 stays there, all others lie behind it |
| GuardTransform.InsertGuard | src/class_transform.c:910-968 | when it succeeds the body is the guarded one, the stack has grown by what was asked for, the table of frames has its name, and the entry frame stands first in it or behind a frame at offset 0 |
| GuardTransform.GuardKeepsFrames | src/class_transform.c:354-503 | without a frame at offset 0, the new frame decodes to the entry state and every other frame to the types it had, moved with the code |
| GuardTransform.GuardFrameBetween | src/class_transform.c:354-503 | with a frame at offset 0, that one and the new one say what they should, and the rest what it said if and only if its first frame builds on nothing the one at offset 0 had changed |
| GuardTransform.DroppedLocalReturns | src/class_transform.c:354-503 | counterexample: a frame at offset 0 that drops the receiver, and one behind it that says the same |
| GuardedTransform.NameAnswer | src/class_transform.c:801-895 | the value callee and the cast are named in the pool as the result's descriptor wants them, or refused, also where the copy of the descriptor is too long and not used |
| GuardedTransform.InsertGuardedCall | src/class_transform.c:682-968 | the whole transform: on success the pool names the guard and the value callee with their descriptors, the nodes in front of the body are the planned ones, stack and frames are as they should be; a refused argument, descriptor or name is told by the outcome |
| GuardedTransform.PlanFits | src/class_transform.c:734-799 | of a valid descriptor without arrays of primitives, the planned loads and the call stay inside the locals and within the stack that was added |
| GuardedTransform.PlanByType | src/class_transform.c:734-908 | the planned nodes find operands of their types throughout, from the entry state to the return |
| GuardedTransform.AnswerDescriptorIs | src/class_transform.c:801-860 | a value callee is declared to take an int and to return the method's type, a reference as Object |
| GuardedTransform.CastNameIs | src/class_transform.c:862-893 | the cast is to the class by its name or to the array by its descriptor |
| GuardedTransform.ResultIsRead | src/class_transform.c:725-728 | the result is read off behind the first closing parenthesis, rightly if and only if no parameter names a class with one in its name |
| GuardedTransform.ParenthesisInName | src/class_transform.c:725-728 | counterexample: (La)b;)V is taken to return a b, and returns an int |
| NativeTransform.CopyKeepsBody | src/class_transform.c:51-62 | the copy is private and final, keeps every flag that describes its body and gains no other |
| NativeTransform.MethodTable.MakeMethodNative | src/class_transform.c:71-133 | the in-place transform has exactly the outcome and result of MakeNative |
| NativeTransform.MethodTable.RestoreMethod | src/class_transform.c:135-191 | the in-place transform has exactly the outcome and result of Restore |
| NativeTransform.HookedMethod | src/class_transform.c:109-130 | in between the copy carries the original attributes, Code included, the method is native, and no other method has changed |
| NativeTransform.RestoreOfMakeNative | src/class_transform.c:71-191 | afterwards the methods are as they were, in order, but for the Code attribute standing last; the pool has only grown |
| ConstantPool.InternKeeps | src/visitors/class_file.c:109-184 | interning never changes an entry, and the index it gives answers with the interned entry |
| ConstantPool.InternNameAndTypeKeeps | src/visitors/class_file.c:195-206 | the index answers with the name and descriptor, and only texts and NameAndType entries were added |
| Remapping.RemapDescriptor | src/class_remap.c:129-182 | the scan maps every class name in the text and reports whether one was found |
| Remapping.RemapMethodDescriptor | src/class_remap.c:127-182 | rewriting the text of a valid method descriptor maps the types it denotes |
| Remapping.FindMember | src/class_remap.c:202-221 | the first entry whose owner and name match, and whose descriptor matches if it has one |
| ClassRemap.SnapshotClassNames | src/class_remap.c:224-247 | the name of every class entry, or a failure exactly if one has none |
| ClassRemap.Remapper.FindInherited | src/class_remap.c:266-290 | by the owner, and for the class itself by its super class and then its interfaces |
| ClassRemap.Remapper.RemapNameAndType | src/class_remap.c:295-355 | the index given answers with the mapped name and descriptor, and the pool has only grown |
| ClassRemap.Remapper.RemapReferences | src/class_remap.c:360-438 | every original reference is done, every class as it was, although the pool grows under the loop; what done means is RemapMeaning.ReferenceMeaning |
| RemapMeaning.ReferenceMeaning | src/class_remap.c:266-438 | a Fieldref is subject to a field mapping, a Methodref or InterfaceMethodref to a method mapping: the first in the table that suits, under the owner and for the class itself then under its superclass and each interface; name, descriptor and owner end as that entry says |
| RemapMeaning.OwnMemberMeaning | src/class_remap.c:481-561 | the same for the fields and methods of the class itself |
| RemapMeaning.DynamicMeaning | src/class_remap.c:400-421 | of a dynamic reference only the descriptor is mapped |
| RemapMeaning.ClassMeaning | src/class_remap.c:183-199 | a class entry ends as the first mapping that has a target for its name says, an array class with its element's name mapped |
| ClassRemap.Remapper.RemapClassEntries | src/class_remap.c:443-476 | every original class entry has its mapped name, and no reference that was done is undone, whichever pass came first |
| ClassRemap.Remapper.RemapOwnMembers | src/class_remap.c:481-561 | every field or method of the class answers with its mapped name and descriptor |
| RemapProgress.RenameClass | src/class_remap.c:443-476 | renaming a class entry keeps every finished reference, runtime owners included: one that shares the entry is renamed with it |
| ClassRemap.Remapper.RemapIn | src/class_remap.c:616-624 | in any order of the four passes and for any mapping every reference, class and own member answers with its image, runtime owners as the order of classes and references decides, and no text or NameAndType entry has changed |
| ClassRemap.OwnerIsMapped | src/class_remap.c:360-438 | a reference that keeps its owner leads to the class its original owner is mapped to |
| RemapOwners.OwnerFoundEarly | src/class_remap.c:423-434 | interning a runtime owner before the classes are renamed finds an original entry exactly if the original pool has a class under that text |
| RuntimeOwners.RuntimeOwnerReached | src/class_remap.c:423-434 | a reference with a runtime owner ends at it if and only if the classes went first, no original class went by that name, or the mapping leaves that class alone |
| RuntimeOwners.ReusedIsNamed | src/class_remap.c:423-434 | in a pool without duplicate texts, an original class goes by the name if and only if some class entry has it |
| RuntimeOwners.RuntimeOwnerMissed | src/class_remap.c:616-624 | counterexample: a call whose runtime owner is B, in a pool with a class B that becomes C, is led to C |
| RuntimeOwners.MisledIsRemapped | src/class_remap.c:616-624 | witness: the pool that remap leaves |
| ClassRemap.RemapClass | src/class_remap.c:587-649 | the remap as it is run, references first, and an empty mapping changes nothing |
| RuntimeOwners.RemapFile | src/class_remap.c:587-649 | on a class file, only pool and member names change, and an empty mapping gives back the bytes the file was parsed from |
| StackMapCodec.ParseTable | src/visitors/stack_map_table.c:87-199 | the parsing loop computes Parse, refusals included |
| StackMapCodec.WriteTable | src/visitors/stack_map_table.c:201-288 | the writing loop computes Write, and refuses exactly a delta that is negative or too large |
| StackMapMeaning.ParseMeans | src/visitors/stack_map_table.c:44-199 | the frames of an accepted payload are what its bytes say, by the tag ranges and type tags of the JVMS, from the count to the last byte |
| StackMapRoundTrip.WriteOfParse | src/visitors/stack_map_table.c:87-288 | every accepted payload is written back byte for byte |
| StackMapRoundTrip.ParseOfWrite | src/visitors/stack_map_table.c:87-288 | a written table reads back as the same frames, up to compact or long form |
| StackMapRoundTrip.IncreasingIsWritten | src/visitors/stack_map_table.c:213-224 | a table whose offsets increase inside a legal code array is never refused |
| TypeAnnotations.SkipElementAt | src/visitors/type_annotation.c:85-137 | the mutual recursion terminates and steps over an element value exactly as SkipElement says |
| TypeAnnotations.CollectAttribute | src/visitors/type_annotation.c:237-273 | the walk over a payload computes Collect, refusals included |
| AnnotationGrammar.CollectReads | src/visitors/type_annotation.c:142-273 | of a type annotation attribute given by its grammar, collecting gives the offsets its targets hold, in order and where they stand, and no others |
| AnnotationGrammar.ElementSkipped | src/visitors/type_annotation.c:64-140 | an element value given by its grammar is stepped over to its end, unless it is nested deeper than 32 |
| AnnotationGrammar.OthersRefused | src/visitors/type_annotation.c:85-229 | a target_type of no table and a tag of no element are refused |
| AnnotationRoundTrip.CollectAgain | src/visitors/type_annotation.c:142-273 | the recorded values lie inside the payload and apart from each other, and a payload that differs only in them is collected alike |
| AnnotationRoundTrip.FlushThenCollect | src/visitors/type_annotation.c:237-308 | whatever in-range values are written back are found again at the same places, and no other byte has changed |
| ClassFileStreams.ParsePool | src/visitors/cp_info.c:159-255 | the loop computes ReadPool: a Long or Double takes two slots, and one in the last slot is refused |
| ClassFileStreams.ParseClassFile | src/class_file_parser.c:90-166 | the parser computes Parse, every refusal included |
| ClassFileStreams.SerializeClassFile | src/class_file_writer.c:94-134 | the writer computes Serialize, leaving no bytes for empty slots |
| ClassFileMeaning.ParseMeans | src/class_file_parser.c:7-166 | an accepted class file is parsed to what its bytes say, each pool entry by its tag and each field where the format has it |
| ClassFileRoundTrip.SerializeOfParse | src/class_file_parser.c:90-166 | every accepted byte string is serialized back to itself |
| ClassFileWritten.EntriesWritten | src/class_file_writer.c:5-69 | a pool in which exactly the slots behind a Long or Double are empty is read back entry for entry |
| ClassFileWritten.ParseOfSerialize | src/class_file_writer.c:94-134 | every well-formed tree parses back to itself |
| CodeStore.ParseCodeAttribute | src/visitors/code_attribute.c:91-174 | the parser computes ParseCode, in which neither count has to be there |
| CodeMeaning.CodeMeans | src/visitors/code_attribute.c:114-168 | an accepted Code attribute is parsed to what its bytes say, field by field |
| CodeStreams.WriteCodeAttribute | src/visitors/code_attribute.c:176-219 | the writer computes CodeBytes |
| CodeStoreRoundTrip.CodeParsedBack | src/visitors/code_attribute.c:91-219 | a written Code attribute parses back to itself |
| CodeParsed.CodeOfParse | src/visitors/code_attribute.c:114-168 | an accepted payload is written back with zeros for the counts it ended before, so byte for byte if and only if it went on as far as both counts |
| CodeParsed.CutPayloadIsAccepted | src/visitors/code_attribute.c:114-168 | counterexample: nine bytes that come back as thirteen |
| CodeStreams.LoadEditor | src/visitors/code_editor.c:131-219 | loading computes Load: tables of one kind are joined, a second StackMapTable is refused |
| CodeMeaning.LoadMeans | src/visitors/code_editor.c:60-219 | an attribute inside Code is taken for the table its name says and read entry by entry, and kept as it is under any other name |
| CodeStreams.StoreEditor | src/visitors/code_editor.c:270-359 | storing computes Store, with the tables in their fixed order |
| CodeStoreRoundTrip.LoadOfStore | src/visitors/code_editor.c:131-359 | whenever an editor can be stored, loading the result gives it back, up to compact or long frames |
| StoreAfterInsert.FlushAllThenCollect | src/visitors/code_editor.c:641-643 | values written back into all carriers are all found again |
| StoreAfterInsert.LoadAfterInsert | src/visitors/code_editor.c:518-648 | after one insertion whatever can be stored loads back as the edited method, and code past 65535 bytes is always refused |
| ClassWatch.Watches.OnClassFileLoad | src/hook/class_watch.c:318-388 | each waiting watch whose pattern occurs captures the class, or fails if it cannot be copied; no other watch changes |
| ClassWatch.Watches.OnClassPrepare | src/hook/class_watch.c:390-512 | waiting watches scan the class, those that captured it resolve; no other watch changes |
| ClassWatch.Watches.ResolveLoaded | src/hook/class_watch.c:222-262 | a registered watch that is not ready becomes ready or failed, one that is ready stays |
| ClassWatch.Watches.Get | src/hook/class_watch.c:264-288 | the method and offset exactly if the watch is ready, and otherwise the status of its state |
| ClassWatch.Watches.Clear | src/hook/class_watch.c:514-530 | every watch is cancelled and the list is empty |
| WatchProtocol.RunKeeps | src/jni2hook.c:914-931 | over every interleaving: a captured class is still to be prepared, a missed class still to be scanned, a found method was found in a prepared class |
| WatchProtocol.WatchResolves | src/jni2hook.c:914-931 | once the scan is over, a matching class has been prepared and any captured class too, the watch is ready |
| WatchProtocol.ReadyIsFinal | src/hook/class_watch.c:222-262 | a ready watch keeps its method and offset until it is cancelled |
| WatchProtocol.LeavingFailed | src/hook/class_watch.c:222-262 | a failed watch becomes ready if and only if the scan resolves it |
| WatchProtocol.FailedIsNotTerminal | src/hook/class_watch.c:22-24 | counterexample: a run on which a failed watch becomes ready |
## Left out

- Foreign VM: JNI and JVMTI calls, thread suspension, references and capabilities (src/hook/jvm.c, most of src/jni2hook.c) are a map from class to definition and flags that say whether a request was granted.
- src/hook/vm_structs.c and src/hook/trampoline.c: VM memory and machine code.
- src/hook/class_cache.c: the originals are a map that does not change; initialising again after a shutdown is not modelled.
- src/hook/bytecode_scan.c, src/hook/field_scan.c, src/class_layout.c: pattern matching is a function given to the watch model; by-name watches are not modelled.
- Allocation failure inside buffers and containers is not modelled, except where the code rolls something back because of it (insertion, watches).
- Width of counts: indices, counts and branch targets are unbounded integers; every cast to one or two bytes is written out, the overflow of four-byte values is not. Texts are taken to hold no zero byte (section 4.4.7 of the JVMS).
- jsr and ret have no meaning as operations, because their meaning is an address; the constructor analysis gives up on them as the code does.
- HookRegistry.Build: hooks on a constructor are taken with their offset already raised to the initialisation point. The code sorts by the offsets as they were given, so callbacks given below that point keep descending order of those offsets there, while equal raised offsets come out in reverse list order here. An insert carries the call it adds, so the pool index of the callback is not computed; a class is its methods with and without bodies.
- HookRegistry.Hooks.Install: the original of a class is cached; the second status, of the old hooks handed over again, is not kept, as in the code.
- Simulation.InsertionSimulates: is about blocks that leave the state as they found it, up to a relation every operation respects; what a callback does to the outside is not described.
- ConstructorSoundness.InitialisationPoint: exception edges are not followed, as in the code, and the class and its superclass are named by one pool entry each.
- GuardedTransform.InsertGuardedCall: the look-up of the method and the refusal of initialisers, abstract and native methods come before it; nodes are a list, so a call that needs more than 70 of them succeeds here (GuardedCall.NodesFit says when), and a result that is a lone L is not a descriptor of any method.
- class_transform_insert_static_call and class_transform_insert_call: the same straight-line insertion with other blocks, covered by the insertion theorems; their lookups and error codes are not modelled.
- ClassRemap.Remapper.RemapIn: asks for a pool in which every reference and class resolves; the code fails on the first that does not.
- HookedClasses.MakeNative: stands beside NativeTransform.MakeNative, which is the same transform on the method list of the class file.
- StackMapRoundTrip.ParseOfWrite: up to the raw tag of a frame, which only records the form it was read in.
- Documentation that differs from the code: src/hook/class_watch.c:22-24 calls FAILED terminal; the model follows the code.
- Examples, vendored headers, build scripts and status messages.
