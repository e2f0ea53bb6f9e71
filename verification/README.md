# FaustLive: models and proofs

FaustLive compiles Faust programs while they play. These Dafny modules model the parts of it that are
algorithms or protocols of their own, and prove what they are for.

| module | models |
|---|---|
| `Sha1Spec`, `Sha1` | the streaming SHA-1 (context, buffer, counter, padding), against FIPS 180-4 |
| `OptionWords`, `OptionCanon`, `OptionForm`, `OptionFlags`, `FactoryArgv` | the words of compilation options, their canonical order, the argument vector of the compiler |
| `Decimal`, `BitcodeCache` | the key of a cached compilation and the cache over time |
| `Fader`, `Crossfade` | the gains of a fade, and the change from one audio stream to the next by three threads |
| `DspLifecycle` | who owns DSPs and factories while windows are opened, updated, reset and closed |
| `FaustCode`, `FaustReading`, `LayoutTree`, `ComponentProgram` | the layout optimiser of the component creator, the program that it writes and the text of that program |
| `SmartPointer` | the reference counts behind its trees |
| `KeyOrder`, `WindowIndexes`, `Connections` | indexes of windows, snapshots, and the connection files that follow them |
| `CText`, `TargetsParser`, `InterfaceList` | the parser of target lists, and the list of interfaces that the server prints in the same format |
| `HttpPost` | the handshake between the server thread and the GUI thread for a POST request |

Code that updates objects or arrays step by step is a class or a method with its loop, proved equal to
a function; the lemmas are about these functions. Protocols with several threads are functions from a
state and an event to a state, one event for each access to shared memory (two flags are read, or
written, in one event where the order cannot be seen), and the results hold for every sequence of events. Calls into libraries (libfaust, LLVM, the audio drivers, the HTTP daemon, the
toolkit) are answers chosen freely: parameters named `chance`, `initialized` or `outcome`, or functions
of a `Library`.

Some results that a reader of the code may not expect; the models follow the code:

- The answer of `start` is not looked at, so that `fClientOpen` is also set for a stream that did not
  start (`ClientOpenIffRunning` says in which runs it tells the truth).
- A failed audio reset leaves a window whose close may delete a DSP in use (`FailedResetThenClose`);
  `NeverUsedExactly` says in which runs this happens.
- A port whose rest holds the name of another window may be renamed for that window
  (`RenamesPortExactly`), and an import may make one port of two (`ImportMergesPorts`).
- The order of options matters to the canonical form, but for the flags that are looked for and given
  once (`MayMoveExactly`).
- The key of a cached file does not hold the folder of the source (`ReadsFreshExactly`).
- The length given to SHA-1 is a 32-bit integer, so that longer texts are cut (`GenerateSha1`).
- A fade that the timeout cancels before its first callback begins at full volume (`LateFirstSample`).
- A list of no interface, or with a quote in a name, is not read back (`InterfaceList.RoundTrip`), and
  neither is a connection whose name has a quote (`Connections.RoundTrip`).

## Model

| member | source | states |
|---|---|---|
| `Sha1.GenerateSha1` | src/Utilities/utilities.cpp:568-589 | the key of a text is the hexadecimal text, in upper case, of its SHA-1 digest as FIPS 180-4 defines it, for every text shorter than 2^32 bytes; a longer text is cut, because its length is passed as a 32-bit integer, and the key is that of its first (length mod 2^32) bytes |
| `Sha1.Context.Init` | src/Utilities/utilities.cpp:493-507 | a new context has received the empty message and satisfies the invariant: blocks hashed, then buffered bytes, are the message, and the two counter words hold 8 bits for each hashed byte, modulo 2^64 |
| `Sha1.Context.Update` | src/Utilities/utilities.cpp:509-522 | appends the first `len` bytes to the message received so far and keeps the invariant, so that any split of a message over several calls is the same as one call |
| `Sha1.Context.UpdateByte` | src/Utilities/utilities.cpp:513-521 | one round of that loop, with the flush of a buffer that becomes full |
| `Sha1.Context.FlushBuffer` | src/Utilities/utilities.cpp:516-520 | a full buffer is compressed, the counter advances by 512 and the buffer is empty, with the same message |
| `Sha1.Context.CountBits` | src/Utilities/utilities.cpp:425 | the manual carry between two 32-bit words adds modulo 2^64 |
| `Sha1.Context.Transform` | src/Utilities/utilities.cpp:435-491 | the state becomes the compression of section 6.1.2 applied to the buffer |
| `Sha1.Expand` | src/Utilities/utilities.cpp:439-445 | the array of 80 words is the message schedule of the block |
| `Sha1.RunRounds` | src/Utilities/utilities.cpp:447-484 | the four loops compute the 80 rounds, with the function and the constant of each group of 20 |
| `Sha1.RotLeft5` | src/Utilities/utilities.cpp:424 | the shifts of the macro rotate a 32-bit word by 5 |
| `Sha1.RotLeft30` | src/Utilities/utilities.cpp:424 | the shifts of the macro rotate a 32-bit word by 30 |
| `Sha1.RotLeft1` | src/Utilities/utilities.cpp:442-445 | the two shifts of the schedule rotate a 32-bit word by 1 |
| `Sha1.Context.FillBuffer` | src/Utilities/utilities.cpp:528-543 | both branches of the padding: the byte 0x80 and zeros up to byte 56, after a compression of the buffer if it has no room for the length |
| `Sha1.Context.AppendLength` | src/Utilities/utilities.cpp:546-554 | the last eight bytes are the two counter words, most significant byte first |
| `Sha1.Context.Output` | src/Utilities/utilities.cpp:559-565 | the 20 bytes of the five state words, most significant byte first |
| `Sha1.Context.Final` | src/Utilities/utilities.cpp:524-566 | the output is the SHA-1 digest of the whole message received |
| `Sha1.PaddedByOneBlock` | src/Utilities/utilities.cpp:531-535 | with less than 56 buffered bytes, the padded message of section 5.1.1 is the hashed blocks and one more block |
| `Sha1.PaddedByTwoBlocks` | src/Utilities/utilities.cpp:536-543 | with 56 buffered bytes or more, it is the hashed blocks and two more blocks |
| `Sha1.PaddingRoom` | src/Utilities/utilities.cpp:531-543 | the least number of zero bytes of section 5.1.1 is the number that each branch writes |
| `Sha1.AppendBlock` | src/Utilities/utilities.cpp:516-519 | hashing whole blocks and then one more is hashing them all |
| `Sha1.CounterOctets` | src/Utilities/utilities.cpp:546-554 | the two counter words give the 64-bit big-endian length, also beyond 2^64 bits |
| `Sha1.HexText` | src/Utilities/utilities.cpp:578-586 | two digits for each of the 20 bytes |
| `Sha1.HashHex` | src/Utilities/utilities.cpp:578-586 | these are the eight digits of each of the five words |
| `SmartPointer.Heap.AddReference` | src/Utilities/smartpointer.h:43 | one more reference is counted, and it is owed to a SMARTP |
| `SmartPointer.NewObjectAcyclic` | src/MainStructure/FLNodes.h:16-22 | a new object with its members makes no cycle |
| `SmartPointer.Heap.RemoveReference` | src/Utilities/smartpointer.h:45 | the cascade of deletions ends; every count is again the number of SMARTP on its object; the object is deleted exactly when its count was 1, before its members, and then its right member before the left one; nothing else changes but what is deleted |
| `SmartPointer.Heap.DestroyMember` | src/Utilities/smartpointer.h:86 | the destructor of a member pays the reference that it owed |
| `SmartPointer.Heap.Construct` | src/Utilities/smartpointer.h:76-83 | a new SMARTP on an object adds one to its count and nothing else |
| `SmartPointer.Heap.Create` | src/MainStructure/FLNodes.h:16-22 | a new object has count zero, and its two members count as references to their objects |
| `SmartPointer.Heap.Assign` | src/Utilities/smartpointer.h:106-121 | the variable, or the member of a live object, leads to the new object, which is alive; no other SMARTP changes but those of deleted objects; the owner of an assigned member survives; assigning the same pointer changes nothing; the old object is deleted exactly when this was its last reference. A member may be assigned whenever no cycle is made |
| `SmartPointer.Heap.AssignLeft` | src/Utilities/smartpointer.h:106-125 | `p = p->left` leaves `p` on the former left member, alive, even when the owner is deleted by the assignment |
| `SmartPointer.Heap.Destroy` | src/Utilities/smartpointer.h:86 | the variable is gone, no other variable changes, and its object is deleted exactly when it was the last reference |
| `SmartPointer.DeletedConsistent` | src/Utilities/smartpointer.h:45 | when a count falls to zero no SMARTP leads to the object, and after its deletion the counts are right once its two members have paid their references |
| `SmartPointer.UnreferencedConsistent` | src/Utilities/smartpointer.h:45 | a removed reference was counted, so that the count never falls below zero, and the counts stay right if it stays positive |
| `SmartPointer.PlacedConsistent` | src/Utilities/smartpointer.h:78-83 | storing a pointer pays the reference that was counted before |
| `SmartPointer.Opened` | src/Utilities/smartpointer.h:110-121 | a SMARTP in the course of an assignment owes exactly the reference to its old object |
| `SmartPointer.LiveIsReachable` | src/Utilities/smartpointer.h:36-57 | an object that is not deleted can be reached from a variable, or from an object that no SMARTP ever held, through members: the acyclic graph holds no garbage |
| `SmartPointer.NothingLeaks` | src/Utilities/smartpointer.h:36-57 | when no variable is left and every object was held by a SMARTP, each object ever created has been deleted (once, by the invariant) |
| `LayoutTree.CreateListTrees` | src/MainStructure/FLComponentWindow.cpp:63-90 | the recursive enumeration, as a function of the components |
| `LayoutTree.DispatchComponentOnListOfTrees` | src/MainStructure/FLComponentWindow.cpp:92-116 | two trees for each existing one, in order; `left` and `right` are read on inner nodes only |
| `LayoutTree.CalculateBestDisposition` | src/MainStructure/FLComponentWindow.cpp:118-131 | the first tree of least surface, for any non-empty list |
| `LayoutTree.EnumerationKeepsOrder` | src/MainStructure/FLComponentWindow.cpp:63-116 | the leaves of every enumerated tree are the components, in order |
| `LayoutTree.EnumerationAt` | src/MainStructure/FLComponentWindow.cpp:92-116 | the place of every tree in the list: from each tree of the other components come two neighbours, first the one with the new component beside the whole tree, then the one with it beside the left part |
| `LayoutTree.EnumerationCount` | src/MainStructure/FLComponentWindow.cpp:63-116 | n components, n at least 2, give exactly 2^(n-2) trees |
| `LayoutTree.EnumerationDistinct` | src/MainStructure/FLComponentWindow.cpp:63-116 | no two of them have the same shape |
| `LayoutTree.EnumerationBuilt` | src/MainStructure/FLComponentWindow.cpp:63-116 | each of their inner nodes was built by the choice of an orientation |
| `LayoutTree.BestFits` | src/MainStructure/FLComponentWindow.cpp:43-59 | the chosen orientation of a node fits the screen whenever one of the two does; it is the horizontal one exactly when the vertical one does not fit, or when the horizontal one has less surface and is strictly inside the screen |
| `LayoutTree.LeavesHaveRoom` | src/MainStructure/FLComponentWindow.cpp:43-59 | all leaves can be placed in the rectangle of the tree, at their own sizes and without overlap |
| `LayoutTree.SurfaceCoversLeaves` | src/MainStructure/FLComponentWindow.cpp:43-59 | the surface of a tree is at least the sum of the areas of its leaves |
| `LayoutTree.BestDispositionIsLeast` | src/MainStructure/FLComponentWindow.cpp:118-131 | the chosen tree is an enumerated one, of least surface among them |
| `FaustCode.ChainAppend` | src/MainStructure/FLNodes.h:49-64 | a composition of two lists is the composition of their concatenation, for an associative operator |
| `ComponentProgram.TreeMeaning` | src/MainStructure/FLNodes.h:44-79 | the text of any tree means the left-to-right composition of its leaves: neither shape nor orientation is heard |
| `ComponentProgram.ComponentListWithoutEmptyItem` | src/MainStructure/FLComponentWindow.cpp:438-456 | exactly the columns that have an item with a text are kept, in their order, each with exactly these items |
| `ComponentProgram.RowsWithoutEmptyItem` | src/MainStructure/FLComponentWindow.cpp:444-450 | the inner loop: exactly the items of one column that have a text, in their order |
| `ComponentProgram.ComposeColumns` | src/MainStructure/FLComponentWindow.cpp:290-309 | one item for each column, with tags that alternate |
| `ComponentProgram.ColumnItemsMeaning` | src/MainStructure/FLComponentWindow.cpp:294-309 | each item means its column in parallel, made stereo |
| `ComponentProgram.CreateComponent` | src/MainStructure/FLComponentWindow.cpp:277-329 | the emitted text is the import, the program and a semicolon, or empty when all items are empty; its program lays out each column, in stereo, and then the composed columns in rectangles of least surface among the enumerated trees, with the tags of `LaidOut`, and the feedback item follows if it has a text |
| `ComponentProgram.EmptyExactly` | src/MainStructure/FLComponentItem.cpp:185-194 | an item is empty exactly when its text is; a file or a web page never is |
| `ComponentProgram.NonEmptyColumnsExactly` | src/MainStructure/FLComponentWindow.cpp:438-456 | the kept columns stand at exactly the positions of the columns that have an item with a text |
| `ComponentProgram.TreeIsLaidOut` | src/MainStructure/FLNodes.h:44-79 | the text of a tree has the geometry that was optimised: with `vgroup` read as stacking and `hgroup` as side by side, it lays its items out, at their own sizes, in the boxes of the leaves, with the width and the height of the tree; the two parts of a group carry the tags 1 and 2, and the root its own tag |
| `ComponentProgram.LaidOutHasRoom` | src/MainStructure/FLNodes.h:44-79 | whatever text lays items out so, they have their sizes, inside the rectangle and without overlap |
| `ComponentProgram.ProgramIsLaidOut` | src/MainStructure/FLComponentWindow.cpp:290-319 | so does the whole program: the columns have the tags 1 and 2 in turn, their composition has none, and all rectangles have the least surface |
| `ComponentProgram.ProgramMeaning` | src/MainStructure/FLComponentWindow.cpp:277-329 | for every associative reading of the two operators with transparent groups, the program is the sequence of the columns, each of them its non-empty rows in parallel, in a loop with the feedback item if there is one |
| `FaustReading.ClosedIsWhole` | src/MainStructure/FLNodes.h:49-76 | the text of an expression of the creator is one expression for its surroundings: no operator or closing parenthesis stands outside of its quotes and parentheses |
| `FaustReading.TextDeterminesProgram` | src/MainStructure/FLNodes.h:49-76 | two such expressions with the same text are the same expression |
| `ComponentProgram.ProgramIsClosed` | src/MainStructure/FLComponentWindow.cpp:277-329 | the generated program is such an expression when names have no quote and texts are whole |
| `ComponentProgram.SameTextSameMeaning` | src/MainStructure/FLComponentWindow.cpp:277-329 | hence two drawings that emit the same text are the same program, with the same meaning in every algebra |
| `Fader.AudioFader.ResetValues` | src/Audio/AudioFader_Implementation.cpp:44-52 | full gain and no fade |
| `Fader.AudioFader.StopFade` | src/Audio/AudioFader_Implementation.cpp:54-58 | both flags are lowered, and nothing else changes |
| `Fader.AudioFader.Silence` | src/Audio/AudioFader_Implementation.cpp:77-83 | all samples of all channels are zero, and no other element of the buffers changes |
| `Fader.AudioFader.CrossfadeCalcul` | src/Audio/AudioFader_Implementation.cpp:75-120 | in place on the buffers of any number of channels: each sample is multiplied by its gain, the same for all channels, and the fields become those after one callback |
| `Fader.VolumeStep` | src/Audio/AudioFader_Implementation.cpp:91-109 | one subtraction with its floor leads from the volume of sample n to that of sample n + 1, between 0 and 1 |
| `Fader.SamplesFade` | src/Audio/AudioFader_Implementation.cpp:86-110 | inside one callback the gains are those of the samples of the whole fade |
| `Fader.OutCallback` | src/Audio/AudioFader_Implementation.cpp:84-100 | a callback of a fade out, also of an empty one and after the end, advances the fade by its number of samples |
| `Fader.InCallback` | src/Audio/AudioFader_Implementation.cpp:102-119 | the same for a fade in, up to full volume |
| `Fader.FadeOutStream` | src/Audio/AudioFader_Implementation.cpp:75-120 | for every partition of the stream into buffers, sample n of a fade out has gain max(0, 1 - n * k), for ever |
| `Fader.FadeInStream` | src/Audio/AudioFader_Implementation.cpp:75-120 | for every partition, sample n of a fade in has gain 1 - max(0, 1 - n * k), for ever |
| `Fader.Complementary` | src/Audio/AudioFader_Implementation.cpp:75-120 | two streams with different buffers have gains that add up to 1 at every sample |
| `Fader.FadeEnds` | src/Audio/AudioFader_Implementation.h:21-23 | the flag is up exactly while less than 30722 samples, the least number with n * k at least 1, have been played |
| `Fader.FadeFields` | src/Audio/AudioFader_Implementation.cpp:75-120 | all fields after any buffers: while a fade lasts, its coefficient and the number of its callbacks; a fade in that has ended leaves all fields as they were before it, and a fade out leaves a silent stream |
| `Crossfade.RunFading` | src/Audio/CA/CA_audioManager.cpp:110-145 | in every interleaving of the GUI thread and the two callbacks without a timeout, both streams are at the same place of their fade as their played samples tell |
| `Crossfade.CrossfadeVolumes` | src/Audio/CA/CA_audioManager.cpp:110-145 | hence sample n of the new stream has volume n * k up to 1, and sample n of the old one after its launch has 1 - n * k down to 0, whatever the buffers and the interleaving |
| `Crossfade.SilentAfterExit` | src/Audio/CA/CA_audioManager.cpp:130-138 | once the lowered flag is read without a timeout, all that the old stream plays later is silence |
| `Crossfade.RunHanded` | src/Audio/CA/CA_audioManager.cpp:110-145 | what holds in every interleaving, with or without a timeout |
| `Crossfade.DeletedOnce` | src/Audio/CA/CA_audioManager.cpp:138-144 | exactly when the wait has returned, the old fader has been deleted, once, after it was stopped and with no callback in progress, and the new one is current |
| `Crossfade.FirstSampleSilent` | src/Audio/CA/CA_audioManager.cpp:113-135 | the first sample of the new stream is silent if and only if its callback does not begin after the step of the GUI thread that cancels the fade in; that step comes only after a timeout |
| `Crossfade.NewStreamWaits` | src/Audio/CA/CA_audioManager.cpp:138-144 | no fade out is ever asked of the new stream, so that it may be the current one of the next swap |
| `Crossfade.EverySwap` | src/Audio/CA/CA_audioManager.cpp:96-145 | the results hold of each swap in any sequence of hot swaps |
| `Crossfade.LateFirstSample` | src/Audio/CA/CA_audioManager.cpp:131-134 | from every initial state in which no callback of the old stream is in progress there is a run where it is not: the timer expires before the first callback, which then plays at full volume |
| `Crossfade.RunningExactly` | src/Audio/CA/CA_audioManager.cpp:113-138 | in every run the new stream runs exactly when its `start` has succeeded, and the old one, if it did, exactly until the GUI thread has stopped it |
| `Crossfade.TimeoutStopsFades` | src/Audio/CA/CA_audioManager.cpp:131-135 | after a timeout both flags of the new stream, and then of the old one, are lowered and stay so |
| `Crossfade.GuiReturns` | src/Audio/CA/CA_audioManager.cpp:110-145 | the GUI thread comes to its end in at most 8 steps once the timer expires and no callback of the old stream is in progress; when the flag of the fade out is down it does not look at the timer |
| `OptionWords.GetNumberParameters` | src/Utilities/utilities.cpp:595-610 | the number of words between blanks |
| `OptionWords.ParseCompilationParams` | src/Utilities/utilities.cpp:615-630 | the first word, and a rest that has exactly the other words |
| `OptionWords.ParseAll` | src/Utilities/utilities.cpp:396-402 | as many calls as counted words give all words in order and leave blanks only: the two functions agree |
| `OptionWords.WordsOfSpread` | src/Utilities/utilities.cpp:595-630 | any text made of words and of blank gaps has exactly these words |
| `OptionWords.GapsOf` | src/Utilities/utilities.cpp:595-630 | every text is made of its words and of such gaps, which makes words unique |
| `OptionWords.WordsConcat` | src/MainStructure/FLSessionManager.cpp:97-107 | the words of two texts with a blank between them are the words of both |
| `OptionWords.SimplifiedKeepsWords` | src/MainStructure/FLSessionManager.cpp:97-107 | simplified options are equal if and only if the word lists are |
| `OptionCanon.ParseKey` | src/Utilities/utilities.cpp:266-276 | found exactly when present, at the first position |
| `OptionCanon.AddKeyIfExisting` | src/Utilities/utilities.cpp:280-292 | the first occurrence is erased and added, or the default is added; the position is one less |
| `OptionCanon.AddKeyValueIfExisting` | src/Utilities/utilities.cpp:295-308 | the key and the token behind it, or the default value if there is none or it begins with a dash |
| `OptionCanon.AddParallelOptions` | src/Utilities/utilities.cpp:321-335 | the first two steps of the program, and whether the loops are to be vectorized |
| `OptionCanon.AddVectorOptions` | src/Utilities/utilities.cpp:339-344 | the options of `-vec` |
| `OptionCanon.AddScalarOptions` | src/Utilities/utilities.cpp:346-347 | the options of `-scal` |
| `OptionCanon.ReorganizeCompilationOptionsAux` | src/Utilities/utilities.cpp:313-394 | the program, with its in-place erasures, computes the canonical form that the following members are about |
| `OptionCanon.SameSteps` | src/Utilities/utilities.cpp:321-348 | the canonical form leads the program through the same branches |
| `OptionCanon.Idempotent` | src/Utilities/utilities.cpp:313-394 | the canonical form of a canonical form is itself |
| `OptionCanon.CanonicalShape` | src/Utilities/utilities.cpp:313-394 | it has exactly one of `-double` and `-single`, `-double` exactly when given; exactly one of `-vec` and `-scal`, `-vec` exactly when `-sch`, `-omp` or `-vec` was given; and every key that takes a value has one behind it that is no option |
| `OptionForm.CanonicalForm` | src/Utilities/utilities.cpp:313-394 | for every list of options, the canonical form in one piece: `-double` or else `-single`, then `-sch`, `-omp`, and with `-omp` `-pl`, each if given; then `-vec` with `-dfs`, `-vls`, `-fun`, `-g`, `-vs` and `-lv`, or else `-scal` with `-inpl`; then `-mcd` and `-cn`. A key that takes a value has the text behind its first occurrence if that is no dash, and its default (32, 0, 16, nothing) if nothing or a dash that is no key stands there |
| `OptionForm.NextKept` | src/Utilities/utilities.cpp:280-308 | what stands behind a key stays there while other keys are taken, unless it is a key itself |
| `OptionFlags.FlagsMayMove` | src/Utilities/utilities.cpp:280-292 | a flag that the program looks for, given once, may stand anywhere, also between a key and its value |
| `OptionFlags.FlagsMayBeRearranged` | src/Utilities/utilities.cpp:280-292 | so may any number of such flags: lists that agree without them have the same canonical form, whatever the order and the places of the flags |
| `OptionFlags.WitnessDiffers` | src/Utilities/utilities.cpp:299-306 | for any other flag, and for any flag given more than once, in every context: two lists that agree without the flag, one with a copy of it between `-mcd` and its value, have different canonical forms, because the value is lost in one of them |
| `OptionFlags.DoubleTwice` | src/Utilities/utilities.cpp:280-292 | so `-double -mcd -double 8` and `-double -double -mcd 8` have different canonical forms: only the first copy is erased |
| `OptionFlags.MayMoveExactly` | src/Utilities/utilities.cpp:313-394 | in each context (which of `-sch`, `-omp`, `-vec` are given), for a flag without value that stands n times, n at least 1: all lists of this context that agree without the flag have the same canonical form if and only if n is 1 and the program looks for that flag in this context |
| `FactoryArgv.GetFactoryArgv` | src/MainStructure/FLSessionManager.cpp:617-700 | for every path, settings and option text: exactly `argc` entries are filled, the machine entries, the folder of the source, the blank-separated words of the options, the two library folders and the polyphony entries, in this order, and one more entry ends the vector |
| `FactoryArgv.OptionsInArguments` | src/MainStructure/FLSessionManager.cpp:659-682 | the words of the options are one slice of the vector, in order; `-I` and the folder of the source stand just before them if and only if the source is a file, and the library folders just behind them |
| `FactoryArgv.PutOptions` | src/MainStructure/FLSessionManager.cpp:667-673 | the loop adds the words of the options and no empty entry |
| `FactoryArgv.PutLibraries` | src/MainStructure/FLSessionManager.cpp:675-682 | the two library folders |
| `FactoryArgv.PutPolyphony` | src/MainStructure/FLSessionManager.cpp:685-696 | the six entries of the polyphony settings |
| `Decimal.IntTextInjective` | src/MainStructure/FLSessionManager.cpp:101 | different numbers have different decimal texts |
| `Decimal.NatRoundTrip` | src/MainStructure/FLSessionManager.cpp:101 | a decimal text has the value of its number |
| `BitcodeCache.WordsOfKeyText` | src/MainStructure/FLSessionManager.cpp:99-104 | the words of the key text are the key of the code, the label, the words of the options, and the labelled level and versions |
| `BitcodeCache.KeyTextInjective` | src/MainStructure/FLSessionManager.cpp:97-107 | key texts are equal if and only if code key, option words, level and compiler are: no option can be taken for a label |
| `BitcodeCache.KeyTextParts` | src/MainStructure/FLSessionManager.cpp:97-104 | the key text, with each of its labels |
| `BitcodeCache.SameFile` | src/MainStructure/FLSessionManager.cpp:97-107 | two requests share a file if and only if they agree on the expanded code, the option words, the level and the compiler, when there is no collision among the requests of the run |
| `BitcodeCache.StoreKeepsCoherence` | src/MainStructure/FLSessionManager.cpp:208-217 | when there is no collision, storing a compilation keeps "each cached file holds, for every request of its name, a compilation of the same expanded code under the same option words, level and compiler" |
| `BitcodeCache.ReadsFreshExactly` | src/MainStructure/FLSessionManager.cpp:97-107 | the folder and the name of the source are no part of the key: without collisions, all that is read from any coherent cache is what a fresh compilation gives if and only if requests with the same expanded code, option words, level and compiler have the same compilation |
| `BitcodeCache.Cache.CreateFactory` | src/MainStructure/FLSessionManager.cpp:109-239 | the program is expanded under the folder of its file (if it has one), the words of the options and the session folders; a file of that key that can be read is the factory, and otherwise the program is compiled under the same arguments and written if possible, and nothing else changes on the disk; without collisions the factory is a compilation of a request with the same expanded code, option words, level and compiler, none only if the expansion or the compilation fails, and the one that a fresh compilation gives when these decide the compilation; and the cache stays coherent |
| `BitcodeCache.Cache.CleanSHAFolder` | src/MainStructure/FLSessionManager.cpp:864-878 | up to 100 folders nothing changes; beyond that all files of one folder go, of which no other folder is older, and no other file |
| `Connections.ConnectionFile.SaveConnections` | src/Audio/FJUI.h:25-36 | the file holds the quoted names of the list, each up to its first NUL |
| `Connections.SavedText` | src/Audio/FJUI.h:25-36 | each connection has its own line, with two quoted names and a space between them |
| `CText.CStrBeforeNul` | src/Audio/FJUI.h:31 | a C string is exactly the text before its first NUL |
| `Connections.ConnectionFile.RecallConnections` | src/Audio/FJUI.h:38-75 | the character loop with its counter of quotes gives the list that the text holds |
| `Connections.ConnectionFile.Update` | src/Audio/FJUI.h:92-103 | the file is rewritten with every end of every connection renamed |
| `Connections.ConnectionFile.ChangeIndexes` | src/MainStructure/FLApp.cpp:660-676 | the changes of indexes are applied to the file as a table of client names, in the order of these names |
| `Connections.MapOrderSorts` | src/Audio/FJUI.h:79-82 | the table is visited in the order of its texts, `FLW-10` before `FLW-2` |
| `Connections.RenameClient` | src/Audio/FJUI.h:79-89 | the first key of the table whose first occurrence is followed by a colon is replaced, and no other |
| `Connections.FindFirst` | src/Audio/FJUI.h:84 | the search finds the first occurrence of a key, or none |
| `Connections.RoundTrip` | src/Audio/FJUI.h:25-75 | a list is recalled as it was saved if and only if no name has a double quote or a NUL |
| `Connections.RecalledNames` | src/Audio/FJUI.h:38-75 | whatever the file holds, recalled names have no quote and only characters of the file |
| `Connections.PortInjective` | src/Audio/FJUI.h:77-89 | a port determines its window: `FLW-1` is never read in a port of `FLW-12` |
| `Connections.KeyInPort` | src/Audio/FJUI.h:77-89 | a key applies to a port whose rest has no base name if and only if it is the client of that port, at its start |
| `Connections.RenamesPortExactly` | src/Audio/FJUI.h:79-89 | for every port, also with the base name in its rest: it is renamed to the new index of its window, and in nothing else, if and only if the first key of the table that applies is that of its window, or none does, or neither that key nor the index of the port was to change |
| `Connections.KeepsPortExactly` | src/Audio/FJUI.h:79-89 | any text is left as it is if and only if no key applies, or the first that does is mapped to itself |
| `Connections.RenamesPort` | src/MainStructure/FLApp.cpp:660-676 | without the base name in the rest the renaming is simultaneous: in any order of the table each port is changed once, to the new index of its own window, so that swaps work |
| `Connections.KeepsOtherPorts` | src/Audio/FJUI.h:79-89 | a port without the base name is left as it is |
| `Connections.SamePorts` | src/MainStructure/FLApp.cpp:660-676 | two ports that meet the condition of `RenamesPortExactly` (as all without the base name in their rests do) are the same after renaming if and only if their windows get the same index and their rests are the same |
| `Connections.RightWithoutBase` | src/Audio/FJUI.h:79-89 | the conditions of `RenamesPortExactly` and `KeepsPortExactly` hold whenever the rest, or the text, does not hold the base name |
| `Connections.MergedPorts` | src/Audio/FJUI.h:79-89 | the condition is needed: for two windows whose names are equally long, when window k comes first in the table and gets the index m, and window m another one, two different ports, each with a port of the other window in its rest, get the same text |
| `Connections.BaseInRest` | src/Audio/FJUI.h:79-89 | a family of ports for which it is not right: a port of one window whose rest is a port of another is renamed for the other |
| `Connections.ImportMovesWindows` | src/MainStructure/FLApp.cpp:660-676 | save, recall, rename, save and recall: for names without quote and NUL, the imported file gives the saved connections with every window moved to its new index if and only if every end meets the condition of `RenamesPortExactly`, or of `KeepsPortExactly` for other ports |
| `KeyOrder.InOrderIncreases` | src/MainStructure/FLApp.cpp:1142-1145 | a map is visited in ascending order of its keys, each of them once |
| `WindowIndexes.FindSmallestIndex` | src/MainStructure/FLApp.cpp:600-622 | the loop ends with the least positive integer that is not in the list |
| `WindowIndexes.SmallestFreeIsLeast` | src/MainStructure/FLApp.cpp:600-622 | it is positive, unused, at most length + 1, and no unused positive integer is less |
| `WindowIndexes.Pigeonhole` | src/MainStructure/FLApp.cpp:606-617 | a list that holds 1 to n - 1 has at least n - 1 elements, which bounds the loop |
| `WindowIndexes.AllocatedAreLeast` | src/MainStructure/FLApp.cpp:1142-1155 | indexes given one after the other increase, are unused, and leave no free index below them |
| `WindowIndexes.ImportIsInjective` | src/MainStructure/FLApp.cpp:1142-1155 | an import maps the indexes of the snapshot injectively to indexes that no open window has |
| `WindowIndexes.ImportIsLeast` | src/MainStructure/FLApp.cpp:1142-1155 | the new indexes are the least free ones, in the order of the saved indexes |
| `WindowIndexes.ImportKeepsGraph` | src/MainStructure/FLApp.cpp:1140-1169 | two ports of the snapshot that meet the condition of `RenamesPortExactly` are equal after the import if and only if they were equal before |
| `WindowIndexes.ImportMergesPorts` | src/MainStructure/FLApp.cpp:1140-1169 | without the condition this fails: windows 1 and 2 imported while window 1 is open become 2 and 3, and the ports `FLW-2:FLW-1:x` and `FLW-1:FLW-2:x` become one, for every x |
| `WindowIndexes.MapIndexes` | src/MainStructure/FLApp.cpp:1142-1155 | the first loop of a recall or import |
| `WindowIndexes.App.CreateWindow` | src/MainStructure/FLApp.cpp:691-738 | the window is appended unless the limit of 60 is reached or its initialisation fails |
| `WindowIndexes.App.CreateNewWindow` | src/MainStructure/FLApp.cpp:741-760 | a new window gets the smallest free index |
| `WindowIndexes.App.Duplicate` | src/MainStructure/FLApp.cpp:1409-1429 | the copy gets the smallest free index; the connections of the window are saved, and the copy has them with the new index |
| `WindowIndexes.App.RecallSnapshot` | src/MainStructure/FLApp.cpp:1124-1178 | an import keeps the open windows and their connection files and appends the restored ones under the least free indexes; a recall shuts all windows first, whose folders go, and keeps the saved indexes; each restored window has the source of its saved index, and the windows that could be initialised are open, in ascending order of the saved indexes, up to the limit of 60; no other file changes; indexes stay distinct and the windows at most 60, whatever fails; and for every list of connections without quote and NUL that the snapshot was saved from, what is recalled from the file of the restored window is that list with every window moved by the changes of this import, if and only if the renaming is right of every end (`ImportMovesWindows`) |
| `WindowIndexes.App.RestoreAll` | src/MainStructure/FLApp.cpp:1157-1169 | the restoring loop, in ascending order of the saved indexes: each window that can be initialised is open with its own source under its new index, up to the limit; the window folder is copied with its indexes changed, also when the window then fails, and no other file changes |
| `WindowIndexes.App.CopyWindowFolder` | src/MainStructure/FLApp.cpp:660-676 | the connection file of the copy is that of the source with its indexes changed |
| `WindowIndexes.App.RestoreSession` | src/MainStructure/FLApp.cpp:1182-1196 | the loop at start, without copies: each saved window that can be initialised is open with its own source under its saved index, up to the limit |
| `WindowIndexes.App.RecallCurrentSession` | src/MainStructure/FLApp.cpp:1182-1236 | the saved windows at start, with their own sources; with the second initialisation exactly when none could be initialised by the first one |
| `WindowIndexes.App.CommonShutAction` | src/MainStructure/FLApp.cpp:1352-1369 | one window and its folder are removed, and the others stay in order |
| `WindowIndexes.App.ShutAllWindows` | src/MainStructure/FLApp.cpp:1338-1343 | the loop ends, no window is left, and their folders are gone |
| `WindowIndexes.App.CloseAllWindows` | src/MainStructure/FLApp.cpp:1301-1326 | no window is left, unless windows are being restored |
| `WindowIndexes.OpenedAllIsGood` | src/MainStructure/FLApp.cpp:1157-1169 | restoring windows with new distinct indexes keeps the open windows first, distinct indexes and the limit |
| `WindowIndexes.OpenedAllExactly` | src/MainStructure/FLApp.cpp:1157-1169 | which windows are open after a restoring loop: those before it, then one window for each key that could be initialised, in ascending order, with the index and the source of that key, and all of these unless the limit is reached |
| `WindowIndexes.OpenedAllCount` | src/MainStructure/FLApp.cpp:1157-1169 | all of them are open again when none fails and the limit leaves room |
| `TargetsParser.Reader.SkipBlank` | src/MenusAndDialogs/SimpleParser.cpp:13-16 | the pointer stops at the first non-blank character, or at the NUL |
| `TargetsParser.Reader.TryChar` | src/MenusAndDialogs/SimpleParser.cpp:26-48 | skips blanks and reads one character exactly when it is the expected one |
| `TargetsParser.Reader.ParseQuoted` | src/MenusAndDialogs/SimpleParser.cpp:51-69 | a quoted string, or a pointer put back before it |
| `TargetsParser.RefusedString` | src/MenusAndDialogs/SimpleParser.cpp:51-69 | a string is read exactly when a quote follows the blanks and another one follows it, and otherwise only the blanks are skipped |
| `TargetsParser.Reader.ParseArchitecturesList` | src/MenusAndDialogs/SimpleParser.cpp:89-102 | the loop over names; no character beyond the NUL is read here or in any of these methods |
| `TargetsParser.Reader.ParseOperatingSystem` | src/MenusAndDialogs/SimpleParser.cpp:76-82 | one record |
| `TargetsParser.Reader.ParseOperatingSystemsList` | src/MenusAndDialogs/SimpleParser.cpp:112-126 | the vector has the name of each record, in order, and the map is that of the whole text, as the functions below say |
| `TargetsParser.Complete` | src/MenusAndDialogs/SimpleParser.cpp:107-126 | every text of a non-empty list of records, with any blanks between its tokens, with or without the first brace and whatever follows, is accepted and gives exactly its names and architectures |
| `TargetsParser.Sound` | src/MenusAndDialogs/SimpleParser.cpp:107-126 | whatever is accepted is the text of such a list, with that meaning, up to where the pointer stops |
| `TargetsParser.AcceptedTexts` | src/MenusAndDialogs/SimpleParser.cpp:107-126 | a text is accepted if and only if it begins with the text of such a list |
| `TargetsParser.TargetsOfLast` | src/MenusAndDialogs/SimpleParser.cpp:117-121 | the map has for each name the architectures of its last record |
| `TargetsParser.TargetsKeys` | src/MenusAndDialogs/SimpleParser.cpp:117-121 | the keys of the map are the names of the vector |
| `InterfaceList.Server.DeclareHttpInterface` | src/Network/FLServerHttp.cpp:323-327 | the name of a port is set and the printed list is up to date |
| `InterfaceList.Server.RemoveHttpInterface` | src/Network/FLServerHttp.cpp:329-333 | the port is removed and the printed list is up to date |
| `InterfaceList.Server.UpdateAvailableInterfaces` | src/Network/FLServerHttp.cpp:335-361 | the loop prints the interfaces in the order of their ports |
| `InterfaceList.RoundTrip` | src/Network/FLServerHttp.cpp:335-361 | the parser reads the printed list back, names in port order with their ports, if and only if it is not empty and no name has a quote or a NUL |
| `InterfaceList.LastPortOfName` | src/Network/FLServerHttp.cpp:345-349 | when no name has a quote or a NUL, the parsed map gives for each name the highest port that has it |
| `InterfaceList.EmptyListIsRefused` | src/Network/FLServerHttp.cpp:341-358 | the list of no interface is not accepted |
| `HttpPost.ConnectionInfo.IteratePost` | src/Network/FLServerHttp.cpp:182-198 | a chunk of `var` is appended to the data and a chunk of `interfaceurl` to the address, and no other chunk to anything |
| `HttpPost.ValueConcat` | src/Network/FLServerHttp.cpp:182-198 | the value of a key does not depend on how it is cut into chunks |
| `HttpPost.ValueOfChunk` | src/Network/FLServerHttp.cpp:182-198 | one chunk gives its text to its own key and nothing to another |
| `HttpPost.PortOfWindow` | src/Network/FLServerHttp.cpp:150-158 | the address of an interface gives the port of its window |
| `HttpPost.PortTextOf` | src/Network/FLServerHttp.cpp:155-157 | the port is read between the last colon and the last character, from the start without a colon, and from nothing when the colon is last |
| `HttpPost.AtoiReads` | src/Network/FLServerHttp.cpp:158 | `atoi` reads blanks, a sign and digits and stops there |
| `HttpPost.PortIsRight` | src/Network/FLServerHttp.cpp:150-158 | no address, and the address of the server itself, give port 0, and any other address of an interface gives its own port |
| `HttpPost.StepKeepsInvariant` | src/Network/FLServerHttp.cpp:150-319 | every step of the server thread and of the GUI thread keeps the invariant of the handshake |
| `HttpPost.RunAnswersItsRequest` | src/Network/FLServerHttp.cpp:150-176 | in every interleaving, response number i goes to the connection of request number i: the text that this client sent was compiled, for port 0 when it named no window or the page of the server itself and for port p when it named the interface at port p; the response is 200 with the address, or 400 with the page of the error, as this compilation ended |
| `HttpPost.RequestIsAnswered` | src/Network/FLServerHttp.cpp:150-319 | there are runs that answer: a client that connects, uploads a text and submits it gets one response, for the compilation of this text |
| `HttpPost.RunHasOneRequest` | src/Network/FLServerHttp.cpp:160-168 | at most one request is outstanding, only while the server waits, and the connection whose text the queued pointer shows is alive |
| `HttpPost.RunCountsClients` | src/Network/FLServerHttp.cpp:203-305 | the counter of clients is the number of live POST connections, at most 20 |
| `HttpPost.RunAssembles` | src/Network/FLServerHttp.cpp:182-198 | the data of each connection is the concatenation of the chunks received for it |
| `HttpPost.GuiKeepsPhase` | src/MainStructure/FLApp.cpp:1751-1798 | the GUI thread reads what was sent, and writes its answer before the flag |
| `HttpPost.ServerKeepsPhase` | src/Network/FLServerHttp.cpp:163-176 | the server reads the answer to its own request |
| `DspLifecycle.SessionManager.CreateFactory` | src/MainStructure/FLSessionManager.cpp:176-180 | a new factory, which nothing else holds, or none |
| `DspLifecycle.SessionManager.CreateDSP` | src/MainStructure/FLSessionManager.cpp:328-464 | a new DSP is entered in the table with its factory, or none |
| `DspLifecycle.SessionManager.DeleteDSPandFactory` | src/MainStructure/FLSessionManager.cpp:468-488 | the DSP leaves the table, and it and its factory are deleted; nothing for a null or unknown DSP |
| `DspLifecycle.SessionManager.DeleteFactory` | src/MainStructure/FLSessionManager.cpp:491-516 | frees the factory; nothing for none |
| `DspLifecycle.FLWindow.Init` | src/MainStructure/FLWindow.cpp:190-247 | the new state of session and window for every combination of failing steps (`StepOnWindow` says what it is) |
| `DspLifecycle.FLWindow.Update` | src/MainStructure/FLWindow.cpp:350-481 | likewise: on failure the current DSP keeps playing |
| `DspLifecycle.FLWindow.ResetAudioDSPInterfaces` | src/MainStructure/FLWindow.cpp:784-849 | likewise, with the audio manager made anew |
| `DspLifecycle.FLWindow.Close` | src/MainStructure/FLWindow.cpp:1117-1147 | likewise |
| `DspLifecycle.FLWindow.Stop` | src/MainStructure/FLWindow.cpp:1260-1274 | stops the stream if the client is open |
| `DspLifecycle.FLWindow.Start` | src/MainStructure/FLWindow.cpp:1276-1292 | starts the stream if the client is not open; the flag is set whatever `start` answers |
| `DspLifecycle.InitKeepsLedger` | src/MainStructure/FLWindow.cpp:190-247 | a failed opening leaves no factory and no DSP behind |
| `DspLifecycle.UpdateKeepsLedger` | src/MainStructure/FLWindow.cpp:350-481 | an update, in any of its outcomes, leaves the window with one DSP and its factory |
| `DspLifecycle.ResetKeepsLedger` | src/MainStructure/FLWindow.cpp:784-849 | so does a reset, or with none |
| `DspLifecycle.CloseKeepsLedger` | src/MainStructure/FLWindow.cpp:1117-1147 | a close leaves none |
| `DspLifecycle.StepOnWindow` | src/MainStructure/FLWindow.cpp:190-247 | what each operation makes of the windows, with every outcome of its steps: an opening, an update or a reset that goes through leaves a new DSP with a stream that computes it and runs as `start` answered; a failing update changes nothing; a failing opening opens nothing; other windows never change |
| `DspLifecycle.OpenExactly` | src/MainStructure/FLWindow.cpp:190-247 | a window is open if and only if its last opening that went through was not followed by a close |
| `DspLifecycle.StreamComputesDSP` | src/MainStructure/FLWindow.cpp:235-236 | in every run the stream of an open window computes the current DSP of that window, which exists, if and only if the last replacement of the stream was not a failed reset; in particular unless the last reset has failed after the stop |
| `DspLifecycle.TableHasCurrentDSPs` | src/MainStructure/FLSessionManager.cpp:449-516 | in every run, whatever fails, the keys of the table are exactly the non-null current DSPs of the open windows |
| `DspLifecycle.FreedExactlyOnce` | src/MainStructure/FLSessionManager.cpp:468-516 | no factory is freed twice and no DSP deleted twice, and all that was made for a window that is closed, or could not be opened, is gone |
| `DspLifecycle.OpenWindowHasItsFactory` | src/MainStructure/FLSessionManager.cpp:468-516 | of the factories made for an open window exactly the one of its current DSP is not freed |
| `DspLifecycle.ClientOpenUnlessStale` | src/MainStructure/FLWindow.cpp:784-849 | the client of an open window is not open if and only if its last reset failed after the stop |
| `DspLifecycle.RunningExactly` | src/MainStructure/FLWindow.cpp:1260-1292 | whether the stream of an open window runs is a matter of the events: the answer of the last `start`, unless a reset has failed since and silenced it |
| `DspLifecycle.ClientOpenIffRunning` | src/MainStructure/FLWindow.cpp:1276-1292 | unless the last reset failed after the stop, the flag is set and the stream runs if and only if the last opening, update or reset that came to `start` was answered yes; and the flag tells whether the stream runs exactly in the runs where this answer was yes, or where the last reset failed and nothing plays since |
| `DspLifecycle.DeletesUsedExactly` | src/MainStructure/FLWindow.cpp:1123-1132 | a step deletes a DSP that a running stream uses if and only if it closes, or resets after a successful compilation, a window whose stream runs its DSP while the client is not open; updates and failed openings never do |
| `DspLifecycle.UnstoppableIffRevived` | src/MainStructure/FLWindow.cpp:421-434 | a window is in that state if and only if an update has started a stream since its last reset that failed after the stop |
| `DspLifecycle.HarmfulExactly` | src/MainStructure/FLWindow.cpp:809-828 | so the next event deletes a DSP in use if and only if it closes, or resets after a successful compilation, a window revived so |
| `DspLifecycle.NeverUsedExactly` | src/MainStructure/FLWindow.cpp:809-828 | and a run never deletes a DSP in use if and only if none of its events does that |
| `DspLifecycle.NoFailedResetNoUsedDeletion` | src/MainStructure/FLWindow.cpp:809-828 | hence no DSP is deleted under a running stream in runs where no reset fails after the stop |
| `DspLifecycle.FailedResetThenClose` | src/MainStructure/FLWindow.cpp:814-818 | the condition is needed: a failed reset, an update and a close delete a DSP in use |

## Left out

- Rounding of the gains: `Fader` computes with real numbers; the step is the decimal constant of the source.
- Overflow of `int` in the surfaces of the layout, in `atoi` and in window indexes, and of the 32-bit reference count (an assertion in the source).
- `increment_crossFade`: its caller in the JACK manager is not part of this model.
- SmartPointer.Heap.Assign: an assignment to a member that makes a cycle is excluded, because counts never free a cycle.
- `CA_audioFader.stop` is taken to return when no callback is in progress, as the audio driver promises.
- Whether a text of a component names a file: it is a constructor of `Source`, not a look at the file system.
- A parser of Faust: `FaustReading` says that the text of a program determines it, for item texts that are whole and do not begin like a construct of the creator.
- Windows, menus, dialogs, and the HTML pages of the server: user interface only.
- Remote compilation and remote DSPs, and the DSPs of component items, which follow the same rules with one owner each.
- The times of folders: the list of folders by age is an answer of the file system.
- DspLifecycle.SessionManager.CreateFactory: says whether there is a new factory, because what it computes is the subject of `BitcodeCache.Cache.CreateFactory`; settings that are freed before the call returns are not counted.
- Collisions of SHA-1: `BitcodeCache` assumes none among the requests of a run, and versions without blanks.
- What `createFactory` reads of its source (files, web pages, sound files) is the program of the request.
- The quotation marks that `FL_reorganize_compilation_options` puts around the canonical options.
- File watching: its stop list is computed from settings that change in between, so that no symmetry holds.
- Stopping the server while a request waits, and whether the GUI thread ever answers: only safety is proved.
- `redirectJsonRequest` and GET requests: they do not touch the state of the handshake.
- HttpPost.PortOfWindow: the address has a port in the range of `int`, because `atoi` is undefined beyond it.
