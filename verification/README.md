# Verification of dbus-cpp

A Dafny model of the parts of dbus-cpp that carry state, recursion or a protocol, with proofs about all inputs, all
runs and all interleavings. `dafny verify dfyconfig.toml` checks the whole project.

| files | what they model |
|---|---|
| `Types`, `Signatures` | the C++ types that have a codec, their D-Bus signatures, and a parser for signatures (D-Bus Specification, "Type System") |
| `Message`, `Codec`, `CodecStream` | message bodies as typed items, `Reader` and `Writer` cursors, and the codec templates driving them |
| `PendingCall` | the race of `create`, the libdbus completion callback and `then` for one reply |
| `Sequences`, `CursorTree`, `Arena` | trees grown under a movable cursor, as values and as tables of linked elements |
| `TypeMangler`, `SignatureTrees` | the generator's incremental signature parser and the tree it builds |
| `CppNames`, `PrintedTypes`, `PrintedSignatures`, `TypeNames` | its printer with the three-state comma, what the printed type tells, and how it undoes the mapping of C++ types |
| `KindOrder`, `Introspection`, `Compiler` | introspection documents as event streams, the compiler's context, children ordered by kind |
| `HeaderText`, `Generator`, `Headers`, `Nesting`, `Typedefs` | name splitting, the document as a string literal, the structure of generated headers, headers from documents, which struct stands inside which, and the types in them |
| `MatchRule`, `Subscriptions`, `Cache` | match rules as text and back, signal subscriptions and dispatch, the weak-reference cache |

libdbus is reduced to a small abstract state: a message body is a sequence of typed items; a pending call is completed
at most once, gives its reply away once and calls back if a function has been set by then; the bus is a multiset of
match rules. Whatever a call throws is a `None`, a `false` or a `Threw`.

## Findings

Places where the code does less than its documentation or the standard suggests, each with the exact condition and an
input that fails.

* Strings are pushed without their length, so a value survives a round trip exactly when none of its strings holds a
  NUL character (`Codec.RoundTripExact`; `Codec.NulCutsString`).
* `vector` and variant accept element types of several complete types (a bare tuple of two or more fields); what is
  then written contradicts the signature of its container. Encodings always conform exactly for the types that keep
  such tuples under `Struct` (`Codec.ConformanceExact`; `Codec.FullNeedsWellFormed` gives a value for every other type).
* `TypeMangler` never moves `current` up when the element type of an array is complete. The tree, and the printed C++
  type, are right exactly when no type follows a completed array (`SignatureTrees.MangledExactly`,
  `PrintedSignatures.PrintedExactly`; `SignatureTrees.ArrayThenInteger`). All arguments of a method in one direction
  share a mangler, so an array in one of them corrupts the next (`PrintedSignatures.SharedMangler`;
  `PrintedSignatures.ArrayThenArgument`). All types in the header of a document with one interface are right exactly
  when, for every method and direction, every signal and every property, no type follows a completed array in the
  arguments put one behind the other (`Typedefs.TypesRight`; `Typedefs.ArrayThenArgument`). Strings that are no
  signatures can make it follow a null `current` (`SignatureTrees.SafeExactly`; `SignatureTrees.ClosesTooSoon`).
* A document without any recognised element hands a null root to the generator, and a second outermost element can make
  the compiler follow a null `current`. Neither happens exactly when there is one outermost recognised element, or
  several with a property in the first (`Introspection.RootGiven`; `Introspection.NothingRecognised`,
  `Introspection.TwoNodes`).
* `std::int8_t` goes into a message as a byte, but the generator prints `std::uint8_t` for a byte, which has no codec;
  `float` comes back as `double`. All other scalars come back as they are (`TypeNames.ScalarsPrinted`).
* Properties have no "done" event. The compiler's tree is the document's exactly when no recognised element starts
  after a property has ended (`Compiler.Context.Process`; `Compiler.PropertyThenMethod`). In a header with balanced
  braces, whatever comes after a property has its struct inside that of the property (`Nesting.BalancedNesting`;
  `Nesting.LaterInside`); where there are several properties after a signal, each closes the struct it would stand in
  (`Nesting.HeaderPlaces`).
* Every property after a signal closes the struct around the signals. The header of a document with one interface,
  and beside it anything without interfaces, signals and properties, has balanced braces exactly when the interface has
  no signal, or exactly one property after its first signal (`Headers.HeaderBalanced`; `Headers.SignalOnly`).
* The count of namespaces is never reset, so every interface closes the namespaces of those before it again. Interfaces
  side by side without signals and properties give balanced braces exactly when no name but the last has a dot
  (`Generator.SideBySideBalanced`; `Headers.TwoInterfaceDocument`). `Generator.BalancedExactly` is the condition for
  every tree.
* The document is put into a string literal with its quotes escaped but not its backslashes, which is right exactly
  when it has none (`HeaderText.BufferedExactly`; `HeaderText.BackslashLost`).
* `MatchRule::as_string` of a rule without a type ends in a comma, and apostrophes are not quoted
  (`MatchRule.TextReadsBack`; `MatchRule.UntypedText`, `MatchRule.ApostropheLost`).
* `connect` inserts the handler before the bus has accepted the rule, and asks the bus for the first handler of a key
  only. As long as a key is in use, its handlers have their rule exactly if the bus accepted it when the first of them
  came, however often the key is connected again (`Subscriptions.RuleIffAccepted`;
  `Subscriptions.RefusedThenConnected`). When the last handler of a key without a rule goes, the bus is asked to take
  away a rule it never got, which may be an equal one of somebody else; handlers coming and going touch the rules of
  others exactly then, or when a removal is refused (`Subscriptions.StepSound`; `Subscriptions.ForeignRuleLost`).
* Removing a cache entry by hand leaves a connected removal behind that later takes the entry of a live value away
  (`Cache.RemovalKeepsPairs`; `Cache.RemovalLosesEntry`).
* Looking a signal up and inserting a new one are separate steps, so two threads can get two signals for one key:
  they get the same one exactly when both found one or one looked after the other's had been taken
  (`Cache.SameSignal`; `Cache.RaceApart`).

## Model

| member | source | states |
|---|---|---|
| Types.LessIsStrictOrder | include/core/dbus/types/stl/map.h:110-156 | keys are strictly and totally ordered, as std::map needs |
| Types.KeysRise | include/core/dbus/types/stl/map.h:110-129 | in the order in which a map is written, numbers rise, false comes before true, and texts are in lexicographic order |
| Types.PutIsUpdate | include/core/dbus/types/stl/map.h:142-153 | find, then overwrite or insert, changes the finite map at that key only |
| Types.PutSorted | include/core/dbus/types/stl/map.h:142-153 | and keeps the entries strictly sorted |
| Types.SignatureParses | include/core/dbus/types/stl/tuple.h:34-80 | parsing the signature of a well-formed type gives the sequence of its wire shapes; a tuple's the sequence of its fields' |
| Types.SignatureParsesInContext | include/core/dbus/types/stl/map.h:48-75 | in front of any text, the signature of a single complete type is read back as its shape, leaving exactly that text |
| Types.SignatureDeterminesShapes | include/core/dbus/helper/type_mapper.h:106-422 | two well-formed types have the same signature exactly when they have the same shapes on the wire |
| Signatures.ParseAllExact | include/core/dbus/helper/type_mapper.h:106-422 | the signature parser accepts exactly the renderings of valid shapes and returns the shapes |
| Message.WireRoundTrip | include/core/dbus/types/stl/string.h:57-67 | a scalar read back from the wire is the scalar written exactly when it holds no NUL |
| Message.WireItem | src/core/dbus/message.cpp:290-410 | the item of every scalar: a byte without its sign, 1 for true and 0 for false, text up to its first NUL, other numbers as they are |
| Message.Writer.Push | src/core/dbus/message.cpp:290-410 | push_* appends one typed item and nothing else changes |
| Message.Writer.CloseArray | src/core/dbus/message.cpp:412-430 | closing appends an array of the declared signature with what was written inside |
| Message.Writer.CloseVariant | src/core/dbus/message.cpp:452-473 | closing appends a variant of the declared signature with what was written inside |
| Message.Reader.Pop | src/core/dbus/message.cpp:81-207 | pop_* yields the value and advances; on a type mismatch it throws and stays |
| Message.Reader.Recurse | src/core/dbus/message.cpp:221-259 | pop_array and its siblings give a cursor on the contents and step over the container |
| Codec.PutAllIsLastWins | include/core/dbus/types/stl/map.h:137-154 | the loop over decoded entries is the finite map in which the last of equal keys wins |
| Codec.LastWinsMeaning | include/core/dbus/types/stl/map.h:142-153 | every key maps to its last value, and no key is invented or lost |
| Codec.DecodedMapIsLastWins | include/core/dbus/types/stl/map.h:131-155 | whatever the target held and whatever comes in, a decoded map is last-wins from empty, sorted; or decoding throws |
| Codec.DecodeEncoded | include/core/dbus/types/stl/tuple.h:85-132 | decoding an encoded value in front of any items leaves exactly those and gives the value into a target, vectors appended to what they held |
| Codec.RoundTripExact | include/core/dbus/types/variant.h:208-225 | decode after encode, in any nesting and before any leftover, is the identity exactly when no string holds a NUL |
| Codec.NulCutsString | include/core/dbus/types/stl/string.h:57-67 | a string with a NUL inside comes back cut there |
| Codec.DecodesExactly | include/core/dbus/types/stl/vector.h:71-81 | decoding into any target succeeds exactly on items whose type codes fit the type, container by container, else it throws; it reads as many items as the type has complete types |
| Codec.StringsAreNoIntegers | include/core/dbus/types/stl/vector.h:71-81 | an array of strings read as a vector of integers throws |
| Codec.EncodingSpellsSignature | include/core/dbus/types/stl/vector.h:49-69 | the items written spell the TypeMapper signature, and are as many as it has complete types |
| Codec.EncodingConforms | include/core/dbus/types/stl/vector.h:59-69 | for well-formed types, every signature passed to a container is that of what is written inside |
| Codec.FullNeedsWellFormed | src/core/dbus/message.cpp:412-466 | for every type that is not well-formed, the value in which every container has one element breaks a signature |
| Codec.ConformanceExact | src/core/dbus/message.cpp:412-466 | so it is for all values of a type exactly when the type is well-formed |
| Codec.PackRoundTrip | include/core/dbus/codec.h:328-386 | a NUL-free parameter pack is read back argument by argument, leaving what follows, and its body spells signature(args...) |
| Codec.PackDecodesExactly | include/core/dbus/codec.h:328-386 | reading a parameter pack succeeds exactly where the parameters fit one behind the other |
| CodecStream.EncodeArgument | include/core/dbus/codec.h:319-323 | the template appends exactly what Encode says to whatever was written before |
| CodecStream.EncodeVector | include/core/dbus/types/stl/vector.h:59-69 | the same for the loop over a vector |
| CodecStream.EncodePair | include/core/dbus/types/stl/map.h:95-101 | the same for a pair, key first |
| CodecStream.EncodeMap | include/core/dbus/types/stl/map.h:113-129 | the same for the loop over a map, one dict entry each |
| CodecStream.EncodeTuple | include/core/dbus/types/stl/tuple.h:95-126 | the same for the recursion over a tuple, flattened |
| CodecStream.DecodeArgument | include/core/dbus/codec.h:350-354 | the template reads what Decode says, leaves the shared cursor where Decode does, and throws where Decode fails |
| CodecStream.DecodeVector | include/core/dbus/types/stl/vector.h:71-81 | the same for the loop that appends to a vector |
| CodecStream.DecodeMap | include/core/dbus/types/stl/map.h:131-155 | the same for the loop that clears and fills a map |
| CodecStream.DecodeTuple | include/core/dbus/types/stl/tuple.h:88-131 | the same for the recursion over a tuple |
| CodecStream.WriteThenRead | include/core/dbus/codec.h:319-354 | writing a NUL-free value through a Writer and reading from there through a Reader gives it back and stops behind it |
| PendingCall.PendingCall.NotifyLocked | src/core/dbus/pending_call_impl.h:104-113 | the first announcement stores the message and calls the callback, later ones do nothing |
| PendingCall.PendingCall.Then | src/core/dbus/pending_call_impl.h:185-193 | installs the notification, and calls it if there is a message |
| PendingCall.StepKeeps | src/core/dbus/pending_call_impl.h:70-193 | every step of every thread keeps the invariant: mutual exclusion, one steal, no reply unnoticed, calls as owed |
| PendingCall.OneReply | src/core/dbus/pending_call_impl.h:94-113 | in every interleaving the reply is stolen at most once, the message is the reply, is set once and never changes |
| PendingCall.CalledOnce | src/core/dbus/pending_call_impl.h:104-113 | in every interleaving each notification is called at most once, and with the reply |
| PendingCall.Delivered | src/core/dbus/pending_call_impl.h:70-193 | at rest every caller of then has installed its notification; a completion that was dispatched has had its reply stolen unless create threw; once stolen, by whomever, the reply is stored and every notification in place from then on has been called once, in order, and none before; otherwise nothing is stored and nobody called |
| PendingCall.LastIsCalled | src/core/dbus/pending_call_impl.h:185-193 | once the reply is stolen, the last notification installed is called last and exactly once |
| PendingCall.NoDeadlock | src/core/dbus/pending_call_impl.h:94-101 | until all threads are through, one of them can take a step |
| PendingCall.StepsEnd | src/core/dbus/pending_call_impl.h:70-193 | every step of a thread brings it nearer to its end and no other thread further from its own |
| PendingCall.OnlyHolderWrites | src/core/dbus/pending_call_impl.h:104-113 | fields change only under the mutex |
| PendingCall.StepsNotify | src/core/dbus/pending_call_impl.h:104-113 | the three announcing steps are notify_locked |
| PendingCall.StepsContinue | src/core/dbus/pending_call_impl.h:185-193 | the two steps of a caller of then are the method |
| CursorTree.RunDepth | src/core/dbus/compiler.cpp:45-63 | whatever is opened and closed, the cursor's depth counts it |
| CursorTree.RunTags | src/core/dbus/compiler.cpp:51-63 | whatever is opened and closed, the elements in preorder are those opened, in order |
| CursorTree.DocsLand | src/core/dbus/generator.cpp:93-135 | where every element of a document lands when some elements are never closed |
| CursorTree.FlatInjective | src/core/dbus/generator.cpp:82-87 | a tree is determined by its preorder with depths |
| CursorTree.GrownFaithful | src/core/dbus/generator.cpp:93-135 | the tree grown is the document's exactly when nothing starts after an element that is never closed has ended |
| Arena.GrowDownIsOpen | src/core/dbus/compiler.cpp:51-63 | adding a child to the linked elements and moving down to it is opening an element of the tree |
| Arena.UpIsClose | src/core/dbus/compiler.cpp:45-48 | moving to the parent is closing it |
| TypeMangler.TypeMangler.UpdateForType | src/core/dbus/generator.cpp:93-105 | a new element becomes the youngest child of current; an invalid type changes nothing |
| TypeMangler.TypeMangler.Descend | src/core/dbus/generator.cpp:107-129 | current moves to its youngest child |
| TypeMangler.TypeMangler.Ascend | src/core/dbus/generator.cpp:119-135 | current moves to its parent |
| TypeMangler.TypeMangler.Update | src/core/dbus/generator.cpp:159-189 | one character does to the elements what CharLayout says; only a NUL is refused |
| TypeMangler.TypeMangler.UpdateFromSignature | src/core/dbus/generator.cpp:141-157 | a string that never meets a null current (see SignatureTrees.SafeExactly) runs its operations on the tree; it stops and fails at a NUL |
| TypeMangler.Comma.Stream | src/core/dbus/generator.cpp:67-77 | the three states of the comma and what each writes |
| TypeMangler.TypeMangler.Print | src/core/dbus/generator.cpp:196-290 | printing an element writes the text of its tree and moves the caller's comma on |
| TypeMangler.TypeMangler.PrintType | src/core/dbus/generator.cpp:292-295 | void for no element, else the text of the root |
| SignatureTrees.MangledExactly | src/core/dbus/generator.cpp:146-189 | a valid signature never meets a null current; the tree is the parse tree exactly when no type follows a completed array |
| SignatureTrees.PrefixMangled | src/core/dbus/generator.cpp:93-189 | after every prefix of a valid signature current is not null, its depth counts opening less closing characters, and the preorder is the input without closing brackets |
| SignatureTrees.SafeExactly | src/core/dbus/generator.cpp:93-135 | any string at all is read without following a null current exactly when no proper prefix closes more than it opens |
| SignatureTrees.ClosesTooSoon | src/core/dbus/generator.cpp:119-135 | ")i" makes it follow a null current |
| SignatureTrees.ArrayThenInteger | src/core/dbus/generator.cpp:179-182 | "asi" is a valid signature whose tree is wrong |
| PrintedTypes.PrintsText | src/core/dbus/generator.cpp:196-290 | from either resting state of the comma, a type comes out as its text, behind a comma if armed, and leaves it armed |
| PrintedTypes.PrintsTexts | src/core/dbus/generator.cpp:258-275 | children come out joined by commas, at every level |
| PrintedTypes.TextsArePrefixFree | src/core/dbus/generator.cpp:215-285 | before any text, the texts of trees tell the trees apart, as far as they show them, and can be cut off |
| PrintedSignatures.MangledPrintable | src/core/dbus/generator.cpp:276-285 | after any valid signature every dict entry has the children whose front and back are printed |
| PrintedSignatures.PrintedExactly | src/core/dbus/generator.cpp:292-295 | print_type is the C++ spelling of the signature exactly when no type follows a completed array |
| PrintedSignatures.SpellingInjective | src/core/dbus/generator.cpp:196-295 | two signatures are spelled alike exactly when they are equal or one is a struct of the other's several types |
| PrintedSignatures.SharedMangler | src/core/dbus/generator.cpp:816-848 | two arguments fed to one mangler are printed right exactly when each is and no array comes before the second |
| PrintedSignatures.ArrayThenArgument | src/core/dbus/generator.cpp:816-848 | arguments of types "as" and "i" are printed wrong |
| TypeNames.PrintUndoesMapper | src/core/dbus/generator.cpp:196-295 | after the signature TypeMapper has for a type, the generator prints the name of that type, with maps as vectors of pairs, structs as tuples and variants without payload, exactly when nothing follows a completed array |
| TypeNames.ScalarsPrinted | include/core/dbus/helper/type_mapper.h:106-422 | every scalar but std::int8_t and float comes back under the name of the type that has the codec |
| TypeNames.CodesKnown | include/core/dbus/helper/type_mapper.h:106-422 | the type codes of the standard are those of the scalars and the file descriptor |
| TypeNames.DescriptorPrinted | src/core/dbus/generator.cpp:252-254 | a file descriptor is printed as types::UnixFd |
| KindOrder.OrderedSorts | include/core/dbus/compiler.h:134-155 | inserting one by one behind equal keys sorts by key, keeps all entries, and keeps the order of equal ones |
| Introspection.EntityExactly | src/core/dbus/introspection_parser.cpp:87-310 | a start tag is read as an entity exactly when tag and attributes are how the entity is written down, direction and access words included |
| Introspection.TagsKnown | src/core/dbus/introspection_parser.cpp:87-310 | the tags of all kinds of entities are known and no others, and the ends of all but properties |
| Introspection.ThrowsExactly | src/core/dbus/introspection_parser.cpp:140-260 | a handler throws exactly on an argument with another direction or a property with another access |
| Introspection.AllEventsSplice | src/core/dbus/introspection_parser.cpp:318-351 | the events of a document do what the document does with unrecognised elements spliced out and properties never closed |
| Introspection.NullSafety | src/core/dbus/compiler.cpp:45-63 | a null current is never followed exactly when there is at most one outermost recognised element or the first holds a property |
| Introspection.RootGiven | src/core/dbus/compiler.cpp:160-177 | a document gets through to the generator with a root, and no null current is followed on the way, exactly when it has one outermost recognised element, or several with a property in the first |
| Introspection.NothingRecognised | src/core/dbus/compiler.cpp:173-173 | a document whose root is null |
| Introspection.TwoNodes | src/core/dbus/compiler.cpp:45-63 | a document with two nodes beside each other, which follows a null current |
| Introspection.GrownDepth | src/core/dbus/compiler.cpp:45-63 | whatever gets through leaves current one level down per property |
| Introspection.BuiltExactly | src/core/dbus/compiler.cpp:34-118 | the tree built is the document's exactly when no recognised element starts after a property has ended; current ends one level down per property |
| Introspection.PropertyFreeBuilt | src/core/dbus/introspection_parser.cpp:87-95 | without properties the tree is the document's and current ends null |
| Introspection.PrefixBuilt | src/core/dbus/compiler.cpp:45-112 | after every prefix each recognised start has one element, the depth of current counts starts less ends, and current is not null while the document goes on |
| Compiler.ArrangedExactly | include/core/dbus/compiler.h:96-123 | ordering children by kind hides no misplacement: the ordered trees agree under the same condition |
| Compiler.ArrangedInOrder | include/core/dbus/compiler.h:48-57 | in every list of children nodes stand before interfaces, then methods, signals, properties, arguments and annotations |
| Compiler.PropertyThenMethod | src/core/dbus/compiler.cpp:109-112 | a document with a property and then a method, whose tree is wrong |
| Compiler.ViewArranged | include/core/dbus/compiler.h:101-155 | the children as listed are the created ones stably sorted by kind, at every level |
| Compiler.Context.AdjustDown | src/core/dbus/compiler.cpp:51-63 | the first element becomes the root, any other a child of current, and current moves to it |
| Compiler.Context.AdjustUp | src/core/dbus/compiler.cpp:45-48 | current moves to its parent |
| Compiler.Context.Handle | src/core/dbus/introspection_parser.cpp:322-349 | one event opens, closes, does both for an empty element, or nothing |
| Compiler.Context.InvokeFor | src/core/dbus/introspection_parser.cpp:313-354 | the loop handles all events up to the first whose handler throws, and reports the reader's end |
| Compiler.Context.Process | src/core/dbus/compiler.cpp:160-177 | every document that gets through is read through; what the generator is handed is the tree built, with methods before signals before properties and so on; with one outermost element that is the document's exactly when no recognised element starts after a property has ended; current ends null exactly without properties |
| HeaderText.SplitName | src/core/dbus/generator.cpp:516-540 | the components joined by dots are the name and hold no dot |
| HeaderText.DottedInjective | src/core/dbus/generator.cpp:516-540 | there is only one such sequence of components |
| HeaderText.Buffer | src/core/dbus/generator.cpp:618-640 | the buffer is the filtered document with every quote escaped |
| HeaderText.FilteredIsStaying | src/core/dbus/generator.cpp:618-640 | the filter drops exactly the control characters and the blanks before which the last angle bracket, if there is one, is a closing one |
| HeaderText.BufferedExactly | src/core/dbus/generator.cpp:618-640 | read as a string literal, the buffer is the filtered document exactly when the document holds no backslash |
| HeaderText.BackslashLost | src/core/dbus/generator.cpp:618-640 | a node with a backslash in its name, in whose literal the backslash is lost |
| HeaderText.QuotesEscaped | src/core/dbus/generator.cpp:630-630 | every quote in the buffer has a backslash in front |
| Generator.Context.Visitor | src/core/dbus/generator.cpp:642-849 | which lines a visit opens and closes, given the counters |
| Generator.Context.PostVisitor | src/core/dbus/generator.cpp:851-891 | which lines leaving an element closes |
| Generator.Context.Apply | include/core/dbus/compiler.h:101-117 | applying the visitors to a tree is the walk that enters every element and leaves all but the root |
| Generator.HeadsExactly | src/core/dbus/generator.cpp:683-817 | what the header of any tree opens, in order: namespaces and struct of each interface name, a struct for every method, signal and property, one around the signals right in front of the first signal's, one around the properties right in front of the first property's |
| Generator.DepthLeft | src/core/dbus/generator.cpp:642-891 | the brace depth left by any tree: what its root, signals and properties leave open, less what late properties and interfaces close once more |
| Generator.BalancedExactly | src/core/dbus/generator.cpp:642-891 | for every tree, with any number of interfaces, braces balance exactly when as many are opened as closed too often |
| Generator.OneInterfaceBalanced | src/core/dbus/generator.cpp:711-732 | with one interface that holds all properties, braces balance exactly when there is no signal or exactly one property after the first signal |
| Generator.SideBySideBalanced | src/core/dbus/generator.cpp:683-689 | interfaces side by side without signals and properties balance exactly when no name but the last has a dot |
| Generator.TwoInterfaces | src/core/dbus/generator.cpp:863-868 | two empty interfaces a.I and a.J leave one closing brace too many |
| Headers.NestBuilt | src/core/dbus/compiler.cpp:45-112 | the tree built for a node with one interface and quiet siblings: every member after a property inside it, and what follows the interface above the last property |
| Headers.LevelLate | include/core/dbus/compiler.h:96-123 | in the generator's walk, ordered by kind, the properties after the first signal are those after the first signal of the document |
| Headers.Generate | src/core/dbus/compiler.cpp:160-177 | every document that gets through is parsed and compiled into the lines of its header |
| Headers.HeaderBalanced | src/core/dbus/generator.cpp:711-732 | the header of a document with one interface, whatever quiet elements stand beside it, balances exactly when there is no signal member, or exactly one property member after the first |
| Headers.SignalOnly | src/core/dbus/generator.cpp:796-817 | a document with one signal, whose header is one closing brace short |
| Headers.TwoInterfaceDocument | src/core/dbus/generator.cpp:863-868 | a document with two empty interfaces, whose header has one closing brace too many |
| Nesting.HeaderPlaces | src/core/dbus/generator.cpp:683-889 | which structs the header of a document with one interface opens and what each stands in, balanced or not |
| Nesting.BalancedNesting | src/core/dbus/generator.cpp:711-817 | in a balanced header every method, signal and property stands in the struct of its interface, the one around properties and those of all properties before it, and signals in the one around signals until a property follows one |
| Nesting.LaterInside | src/core/dbus/compiler.cpp:109-112 | so whatever comes after a property stands inside its struct |
| Typedefs.Context.Visitor | src/core/dbus/generator.cpp:711-849 | which mangler an argument goes through, and the type of a property |
| Typedefs.Context.PostVisitor | src/core/dbus/generator.cpp:876-890 | the types written when a method or signal is left |
| Typedefs.Context.Apply | include/core/dbus/compiler.h:101-117 | applying the visitors to a tree is the walk, mangler objects and all |
| Typedefs.AllWritten | src/core/dbus/generator.cpp:711-890 | whatever the tree, if types are signatures and methods and signals hold arguments, no null pointer is followed and every method adds the types of its arguments in either direction put one behind the other, every signal and property its own |
| Typedefs.ArrangedBag | include/core/dbus/compiler.h:134-155 | ordering children by kind changes no type |
| Typedefs.GivenIsWanted | src/core/dbus/compiler.cpp:109-112 | nor does it that elements end up inside properties |
| Typedefs.DocumentSources | src/core/dbus/introspection_parser.cpp:140-200 | the types of any document, read off its elements: of a method, those of its arguments in document order with direction "in" or none, and with "out" or none; of a signal those of all its arguments; of a property its own |
| Typedefs.GeneratedTypes | src/core/dbus/generator.cpp:711-890 | from the elements of a document with one interface to the types in its header, and when all are right |
| Typedefs.Generate | src/core/dbus/compiler.cpp:160-177 | from the events of a document to the types in its header |
| Typedefs.TypesRight | src/core/dbus/generator.cpp:711-890 | the types in the header of a document with one interface are right exactly when no type follows a completed array in the arguments of any method in one direction, of any signal, and in any property |
| Typedefs.ArrayThenArgument | src/core/dbus/generator.cpp:819-848 | a document whose method takes an array of strings and an integer, with a wrong ArgumentType |
| MatchRule.MatchRule.AsString | src/core/dbus/match_rule.cpp:152-171 | as_string is the clauses joined by commas if the rule has a type, else each followed by one |
| MatchRule.MatchRule.WithMember | src/core/dbus/match_rule.cpp:121-126 | the const setter changes a copy only |
| MatchRule.DecimalReadsBack | src/core/dbus/match_rule.cpp:166-168 | printed argument indices are read back |
| MatchRule.ReadClausesExact | src/core/dbus/match_rule.cpp:152-171 | reading clauses undoes joining them exactly when values hold no apostrophe and keys no equals sign |
| MatchRule.TextReadsBack | src/core/dbus/match_rule.cpp:152-171 | reading the text gives the rule back, all fields and indices, exactly when no value holds an apostrophe and the rule has a type or is empty |
| MatchRule.UntypedText | src/core/dbus/match_rule.cpp:29-44 | without a type the text is the joined clauses and a comma, which no rule is |
| MatchRule.FullText | src/core/dbus/match_rule.cpp:152-171 | the text of a rule that says everything, clause by clause |
| MatchRule.ApostropheLost | src/core/dbus/match_rule.cpp:152-171 | a rule whose member has an apostrophe, which is not read back |
| Subscriptions.InsertOrdered | include/core/dbus/impl/signal.h:211-218 | inserting at the upper bound keeps the multimap ordered |
| Subscriptions.ArgsMeaning | include/core/dbus/impl/signal.h:211-218 | keys are compared by the first pair in which they differ, index first, then text |
| Subscriptions.RulesOnce | include/core/dbus/impl/signal.h:215-221 | the rules that stand for keys are one per key, and none of any other form |
| Subscriptions.TextsDiffer | include/core/dbus/impl/signal.h:220-221 | rules of different keys are told apart by the text the bus gets, without apostrophes |
| Subscriptions.StepSound | include/core/dbus/impl/signal.h:211-243 | every connect and disconnect, accepted or refused, keeps handlers ordered, tokens unique and the rules of all keys but the bare ones at the bus; other rules are touched only by taking away a rule that a bare key never got, or by a refused removal |
| Subscriptions.RuleStays | include/core/dbus/impl/signal.h:211-243 | in every run, as long as a key is in use its rule stays there or missing |
| Subscriptions.RuleIffAccepted | include/core/dbus/impl/signal.h:215-221 | so in every run its handlers have their rule exactly if the bus accepted it for the first of them |
| Subscriptions.RefusedThenConnected | include/core/dbus/impl/signal.h:215-221 | refused once, a key connected again at a willing bus stays without its rule |
| Subscriptions.ForeignRuleLost | include/core/dbus/impl/signal.h:233-243 | a connect that is refused and a disconnect that takes an equal rule of somebody else away |
| Subscriptions.StepAlone | include/core/dbus/impl/signal.h:233-243 | a step leaves rules without a handler behind exactly when a removal is refused |
| Subscriptions.RunExact | include/core/dbus/impl/signal.h:211-243 | in every run without refused removals the bus holds exactly the rules of the keys that are not bare, once |
| Subscriptions.DestroyedOthers | include/core/dbus/impl/signal.h:138-164 | what a destroyed signal leaves at the bus |
| Subscriptions.Signal.Connect | include/core/dbus/impl/signal.h:211-224 | a handler is added behind those of its key, and the bus is asked for a rule exactly if the key is new; other rules at the bus stay; where the bus refuses, the exception leaves the handler there and its key bare |
| Subscriptions.Signal.Disconnect | include/core/dbus/impl/signal.h:233-243 | the handler goes, and the bus is asked to take its rule away exactly with the last handler of its key, whether it has one or not |
| Subscriptions.Signal.Destroy | include/core/dbus/impl/signal.h:138-164 | from any state, the walk by upper_bound ends, visits every key once, and takes one rule per key that the bus lets go, and no other, from the bus |
| Subscriptions.Signal.Dispatch | include/core/dbus/impl/signal.h:317-369 | the handlers called are those whose arguments all match, in order, up to the first exception: an index that names no string, or a handler that throws, which still is called |
| Subscriptions.CalledIsFilter | include/core/dbus/impl/signal.h:330-362 | dispatch is the filter of all handlers by their match arguments exactly when no handler behind the first one for which something is thrown matches |
| Subscriptions.ArgumentMeaning | include/core/dbus/impl/signal.h:336-358 | match arguments can be read exactly when every index names an argument of type string, and match exactly when those arguments are the texts asked for |
| Subscriptions.UnreadableStops | include/core/dbus/impl/signal.h:336-368 | from a handler on that asks for an argument that is no string, nobody is called |
| Subscriptions.FailureStops | include/core/dbus/impl/signal.h:361-368 | a handler that matches and throws is the last one called |
| Subscriptions.Signal.MatchAll | include/core/dbus/impl/signal.h:336-358 | winding a reader to each index agrees with looking the arguments up; any index without a string throws, however the others match |
| Subscriptions.Signal.Wind | include/core/dbus/impl/signal.h:346-348 | winding forward drops that many items, or all |
| Cache.StepPaired | include/core/dbus/lifetime_constrained_cache.h:58-107 | every step but an explicit removal keeps entries and pending removals together |
| Cache.FirePaired | include/core/dbus/lifetime_constrained_cache.h:78-102 | a destructor takes away its own entries only |
| Cache.EntriesFollowLifetimes | include/core/dbus/lifetime_constrained_cache.h:58-107 | in every interleaving without explicit removal an entry is there exactly while its value's removal is pending, and what is retrieved is alive |
| Cache.RemovalKeepsPairs | include/core/dbus/lifetime_constrained_cache.h:93-102 | an explicit removal keeps this exactly when it has nothing to remove |
| Cache.RemovalLosesEntry | include/core/dbus/lifetime_constrained_cache.h:93-102 | a run in which it loses the entry of a live value |
| Cache.MoveKeeps | include/core/dbus/impl/signal.h:78-108 | every move of two callers of make_signal and of others keeps what is known of the cache and of both callers |
| Cache.SameSignal | include/core/dbus/impl/signal.h:78-108 | in every interleaving both get live signals, the same one exactly when both found one or one looked after the cache had taken the other's |
| Cache.RaceApart | include/core/dbus/impl/signal.h:93-105 | an interleaving in which they get different ones |
| Cache.LifetimeConstrainedCache.RetrieveValueForKey | include/core/dbus/lifetime_constrained_cache.h:58-67 | the value if it is cached and alive, else nothing |
| Cache.LifetimeConstrainedCache.InsertValueForKey | include/core/dbus/lifetime_constrained_cache.h:69-91 | an entry, expired or not, turns the value away; else entry and removal are added together |
| Cache.LifetimeConstrainedCache.RemoveValueForKey | include/core/dbus/lifetime_constrained_cache.h:93-102 | removes the entry, if any, and nothing else |
| Cache.LifetimeConstrainedCache.MakeSignal | include/core/dbus/impl/signal.h:78-108 | gives a live signal, the cached one if it is alive; a new one is shared with later callers exactly when no expired entry was in its way |

## Left out

- libdbus: sockets, byte layout, alignment, memory failure, length and nesting limits of signatures, validation of
  object paths and signatures; an object path is any string.
- Types.LessIsStrictOrder: doubles and floats are reals, so keys that are not numbers do not occur.
- Message.Reader.Recurse: the source does not throw where the item is no container; an iterator that libdbus would warn
  about and leave unusable counts as an exception here.
- Codec.RoundTripExact: doubles and floats are opaque values with exact widening; integers have their C++ width. For
  types that are not well-formed the statement is about an abstract libdbus that takes items that contradict the
  signature of their container, which libdbus itself need not do.
- Maps with keys that are not scalars, `UnixFd` (libdbus duplicates descriptors), `Any`, default `Variant` objects and
  the lifetime of closures that capture `this`; a variant has a payload of a known type.
- `include/core/dbus/types/stl/list.h` and `src/core/dbus/message_impl.h`, which repeat other files.
- PendingCall.PendingCall.Then: notifications are non-empty functions that return normally and do not call `then`.
- TypeMangler.TypeMangler.UpdateForType: elements are places in a table in the order of their creation, and a pointer
  is such a place; reference counting and the cycles between parents and children are not modelled.
- TypeMangler.TypeMangler.UpdateFromSignature: nothing is said of strings that make it follow a null `current`, where
  the behaviour of the source is undefined; SignatureTrees.SafeExactly says which those are.
- Compiler.Context.AdjustDown: elements are places in a table, as for the mangler.
- Introspection documents are well-formed streams of start and end events with their attributes read; an attribute
  that is missing is "", and libxml2 is not modelled.
- Generator.Context.Visitor: the lines that open or close a brace; types are in Typedefs, and accessors, include guards,
  time stamps and the file itself are not modelled.
- Generator.Context.PostVisitor: the closing lines; types are in Typedefs.
- Typedefs.Context.Visitor: types only; the alias `Interface`, which needs an interface to have been visited, is not
  modelled, and nothing is said of types that would make a mangler follow a null pointer.
- Headers.HeaderBalanced: one interface, whose members hold no signals, properties or interfaces; for trees of any other
  form there is Generator.BalancedExactly.
- MatchRule.MatchRule.WithMember: stands for the const overloads of all setters; the const overload of `args`, which
  returns a reference to a local copy, is not modelled.
- Subscriptions.Signal.Dispatch: a handler that throws anything but a std::runtime_error ends the process; the mutex
  and the signals without arguments are not modelled.
- Cache.LifetimeConstrainedCache.MakeSignal: one thread at a time; two racing callers are the subject of
  Cache.SameSignal.
- `MessageRouter`, `Result`, `Property`, `ServiceWatcher`, the executor, `Bus` and fixtures: lookups, single branches
  and plumbing over unseen libraries.
