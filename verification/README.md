# Verification of turkeyVM's core

This project models the parts of turkeyVM that compute something and proves, in Dafny 4.11,
what they are for. It follows the C sources file by file. Code that changes state is modelled
by classes and methods with loops, and each is tied to a specification function about which the
theorems are proved; lookups and decoders are functions.

`dafny verify dfyconfig.toml` checks everything.

## How the parts fit together

- `Lists`, `HashBuckets`, `HashTable`: the linked list whose tail pointer lives in its header, and
  the chained table built on it. The table stands for a finite map in every history, for any hash
  function that agrees with the equality. A potential function pays for expansions and
  contractions. Deletion leaves tails stale, and an append to a list with a stale tail loses an
  element; rehashing is safe all the same, because the lists it appends to are new.
- `Descriptors`, `ModifiedUtf8`, `ConstantPool`: scanners and codecs against the grammars of
  sections 4.3.3, 4.4 and 4.4.7 of the Java Virtual Machine Specification.
- `Resolve`: the constant pool that is overwritten as a cache, and why nobody can tell.
- `Classes`, `Linking`, `Dispatch`: class blocks, lookup by name, the construction of method
  tables, and the exact condition under which a table index means what lookup by name means.
- `Layout`: offsets of fields along the superclass chain, and object accesses.
- `Subtyping`: the type tests over the class graph, against reachability.
- `ClassFiles`, `Loader`: what a class needs, and the recursive class loader, which succeeds exactly
  when that can be found and leaves chains as `Dispatch` and `Layout` need them. `LoadedTypes` shows
  the same for `Subtyping`, and `Boot` says when a primitive class and a class file compete for one
  name.
- `Bytecode`: instructions decoded from bytes as section 6.5 describes them.
- `Frames`: stack frames in one block of words, push and pop, and the calling convention.
- `Machine`: a small-step machine over values. `Runs` has what any run keeps: instruction
  boundaries, and frames below a call. `Heights` and `Typing`/`TypeSafety` have whole-run safety
  for consistent stack heights and for consistent frame types.
- `Laws`, `ControlLaws`, `RunLaws`, `CallLaws`: what each opcode and some sequences of opcodes do, said
  about the bytes of the code and the words of the frame with nothing but big-endian and two's
  complement numbers, so that neither the decoder nor the machine's arithmetic is taken on trust.
- `Handlers`, `Opcodes`, `Interpreter`, `Execution`: the handlers and the loop of `executeJava` over
  heap-allocated frames and objects, proved to run exactly the machine's steps, so that every
  theorem about runs is one about the interpreter.
- `Samples`: a program on which consistent heights are not enough, and a small program with an
  object, a field and a virtual call that meets all conditions of the safety theorem.

## Choices a reader should know

- Class blocks are entries of a sequence and their addresses are indices; blocks refer only to
  earlier ones, which is the order in which the loader allocates them. Objects are numbered in the
  order of their allocation, and 0 is the null reference.
- Words are 32 bits and references take one word, as the repository's README assumes. Signed
  arithmetic wraps around. Dividing the smallest value by -1, undefined in C, is a trap.
- A fault that the source reports and one that it does not notice are told apart: `StackError` is
  the exit of `ASSERT_STACK`, `Wild` an access outside the words meant. The long pops have no
  assertion, and a wide push tests only its first word; the model says `Wild` exactly there.
- Section 5.4.5 is met only for chains in which a signature is always virtual or never virtual.
  `Dispatch.PrivateMethodMisdispatched` shows classes on which the source dispatches to the wrong
  method, and `Dispatch.DispatchTheorem` that there are no other such chains.
- `utf8CharLen` compares with 0xF where 0x7F would be right and reserves one byte for a unit 0,
  which takes two: `ModifiedUtf8.FitsExactlyWhen` has the exact condition. Both functions compare
  units as signed shorts, so units of 0x8000 and above are cut to a byte:
  `ModifiedUtf8.ReadableExactlyWhen`.
- `invokespecial` chooses between the symbolic class and the superclass only when the two are the
  same class, so both it and `invokestatic` run what `findMethod` finds from the symbolic class.
- bipush reads its byte unsigned and dstore_0 stores nothing; the decoder says so, following the
  code rather than the specification.
- `args_count` is counted in the descriptor at the call; the source counts it once, when the class
  is defined, and keeps it in the method block.
- A frame type gives each word of a frame a type: any word, null, or a reference to instances of a
  class. With every word of type any it is a stack height. What a virtual call takes from the
  stack depends on the class of an object, so consistent heights are enough only while the methods
  in the tables have the shape of the method named: `Samples.HeightsMislead` is a program for which
  they do not.
- A primitive class is entered under the one-letter name of its type, in the table of all classes.
  A class file of that name collides with it: before the boot the later of the two ends in the
  duplicate handler, after the boot the file is never read (`Boot`).
- `linkMethod` trusts the indices: a virtual method that takes the index 0 of a private method of
  the superclass is written behind an empty table (`Dispatch.EmptyTableOverrun`).
- `findArrayClass` sets the array flag only of a class it has to load, so the type test does not
  recognise other arrays as subtypes of an array that came into the table before
  (`Subtyping.UnflaggedIsDenied`).

## Model

| member | source | states |
|---|---|---|
| Lists.List.AddFirst | src/lib/list.c:48-61 | the element is put in front, and the tail is exact afterwards if and only if it was before |
| Lists.List.AddLast | src/lib/list.c:68-84 | appends when the list is empty or its tail is exact; with a stale tail on a non-empty list the contents do not change, the element is lost |
| Lists.List.RemoveFirst | src/lib/list.c:182-196 | hands out the first element and keeps the rest in order; the tail becomes stale exactly when the only element goes |
| Lists.List.Locate | src/lib/list.c:207-235 | the search loop stops at the first element equal to x, with the node before it |
| Lists.List.Remove | src/lib/list.c:207-235 | unlinks the first element equal to x and nothing else; the tail goes stale exactly when that element was the last |
| Lists.List.Size | src/lib/list.c:89-101 | counts the linked nodes, not what the tail reaches |
| Lists.StaleTailLosesAnElement | src/lib/list.c:48-84 | the history append, remove, push in front, append ends with one element instead of two |
| HashBuckets.MaskIsModulo | src/lib/hash.c:150-151 | hash & (size-1) is the Euclidean remainder by a power-of-two size, also for negative hashes |
| HashBuckets.SelectMembers | src/lib/hash.c:242-260 | the entries a rehash sends to a bucket are exactly those whose stored hash selects it |
| HashBuckets.SelectNoDuplicates | src/lib/hash.c:242-260 | no entry is sent to a bucket twice |
| HashBuckets.EntriesAreChainLengths | src/lib/hash.c:286-318 | when every entry sits once, in the bucket of its hash, the number of entries is the sum of the chain lengths |
| HashBuckets.RedistributedIsPlaced | src/lib/hash.c:227-263 | chains filled by a rehash hold every old entry exactly once, in the bucket of its hash under the new mask |
| HashBuckets.AddToBucket | src/lib/hash.c:309-313 | one chain grows in front, all other chains and their nodes stay |
| HashBuckets.RemoveFromBucket | src/lib/hash.c:351-355 | one chain loses one entry, all other chains and their nodes stay |
| HashBuckets.MoveEntry | src/lib/hash.c:250-256 | the entry is appended to the new bucket of its hash, whose tail is exact, and to no other |
| HashBuckets.MoveChain | src/lib/hash.c:247-258 | the entries of one old chain are appended to the new buckets in their order |
| HashBuckets.NewBuckets | src/lib/hash.c:237-241 | fresh empty lists with exact tails, one per bucket |
| HashBuckets.Redistribute | src/lib/hash.c:237-260 | each new chain is the old entries of its slot in their old relative order, whatever stale tails the old lists have |
| HashTable.InsertPays | src/lib/hash.c:315-317 | an insertion into a balanced table pays its own potential or the doubling it triggers with 3, and one doubling restores the load bounds |
| HashTable.RemovePays | src/lib/hash.c:359-360 | a removal pays likewise for the halving it triggers, and one halving restores the load bounds |
| HashTable.Hash.Accounts | src/lib/hash.c:227-275 | in every reachable state numItems is the sum of the chain lengths, the load is below 3/4 and, but for a table of 4096 buckets, above 1/4, and at most 3 entries were moved per update |
| HashTable.Hash.constructor | src/lib/hash.c:83-111 | an empty table of 4096 buckets stands for the empty map |
| HashTable.Hash.ContainsCand | src/lib/hash.c:127-180 | answers an entry with an equal key exactly when there is one |
| HashTable.Hash.ContainsKey | src/lib/hash.c:190-195 | true exactly for the keys of the map, up to the equality |
| HashTable.Hash.Get | src/lib/hash.c:210-215 | answers what the map holds for the key |
| HashTable.Hash.Rehash | src/lib/hash.c:227-275 | doubling or halving changes size and mask, keeps all entries, and adds the number of entries to the cost |
| HashTable.Hash.Insert | src/lib/hash.c:308-317 | the new entry is in, and the table is balanced again after at most one expansion |
| HashTable.Hash.Delete | src/lib/hash.c:352-362 | the entry is out, and the table is balanced again after at most one contraction |
| HashTable.Hash.Put | src/lib/hash.c:286-321 | changes the finite map as a put does and answers its old value; with a dup callback an existing key leaves the table as it was |
| HashTable.Hash.Remove | src/lib/hash.c:339-366 | takes the equal key out of the map and answers its value, or changes nothing |
| HashTable.LookupAfter | src/lib/hash.c:190-366 | after a put an equal key finds the value put, after a remove nothing, and every other key what it found before; under a dup callback a put changes only what was not there |
| HashTable.Perform | src/lib/hash.c:190-366 | one put, get, remove or containsKey answers and changes what the finite map says, for every equality under which equal keys have equal hash codes, with or without a dup callback |
| HashTable.Replay | src/lib/hash.c:83-366 | any history from the empty table, for every hash function and equality that fit together, answers like a finite map, and all rehashes together move at most 3 entries per inserting put or successful remove |
| Descriptors.NextType | src/classloader/class.c:197-228 | at a cursor inside a well-formed descriptor stands ')' exactly when no parameter is left, and otherwise the next parameter spelled out in full |
| Descriptors.ParseArgs | src/classloader/class.c:189-230 | counts the words of all parameters of any descriptor and stops at its ')' |
| Descriptors.GetArgsCount | src/native/reflect.c:22-58 | counts the parameters and stops at the same ')' |
| Descriptors.GetArgsName | src/native/reflect.c:67-179 | raises index error exactly when there are more parameters than the count given, and otherwise names each one and stops at the same ')' |
| Descriptors.NamesOfDescriptor | src/native/reflect.c:22-179 | called with the count of getArgsCount, getArgsName never raises index error |
| Descriptors.EveryKind | src/classloader/class.c:189-230 | of the primitive types only long and double take two words, and a parameter list of every kind is spelled and counted as section 4.3.3 says |
| ModifiedUtf8.GetUtf8Char | src/util/testUTF8.c:15-27 | decodes one character of 1, 2 or 3 bytes to its unit and steps over it |
| ModifiedUtf8.ValueIsPayload | src/util/testUTF8.c:15-27 | the unit is the number in the bits of the bytes behind their marks, as section 4.4.7 has it |
| ModifiedUtf8.Utf8Len | src/util/testUTF8.c:29-39 | counts characters, not bytes |
| ModifiedUtf8.ConvertUtf8 | src/util/testUTF8.c:41-45 | writes the units of the text in order |
| ModifiedUtf8.Utf8Comp | src/util/testUTF8.c:60-74 | true exactly when the two texts decode to the same units |
| ModifiedUtf8.Utf8Hash | src/util/testUTF8.c:47-58 | the 32-bit multiplicative hash of the decoded units, so equal decodings hash alike |
| ModifiedUtf8.HashIsPolynomial | src/util/testUTF8.c:47-58 | wrapping at every step is wrapping once: the hash is the polynomial in 37 of the units, read in 32 bits |
| ModifiedUtf8.RoundTrip | src/util/testUTF8.c:105-125 | encoding any units in 0..0x7FFF gives well-formed characters that decode to them |
| ModifiedUtf8.Utf8CharLen | src/util/testUTF8.c:93-103 | the size of the buffer that is allocated for the encoding, for any shorts |
| ModifiedUtf8.Reservation | src/util/testUTF8.c:93-125 | exactly how much the reserved size differs from the size of what unicode2Utf8 writes, for any shorts |
| ModifiedUtf8.FitsExactlyWhen | src/util/testUTF8.c:93-125 | the encoding fits its buffer if and only if there are no more units 0 than units in 0x10..0x7F; always when no unit is 0 |
| ModifiedUtf8.ZeroOverruns | src/util/testUTF8.c:93-125 | a single unit 0 overruns the buffer |
| ModifiedUtf8.Unicode2Utf8 | src/util/testUTF8.c:105-125 | writes the section 4.4.7 encoding of every unit below 0x8000 and the low byte of every other, then the NUL |
| ModifiedUtf8.ReadableExactlyWhen | src/util/testUTF8.c:93-125 | what is written is a well-formed text for the given units if and only if none is 0x8000 or above |
| ModifiedUtf8.NegativeUnitIsLost | src/util/testUTF8.c:105-125 | U+FFFF becomes a single byte that is no character |
| ModifiedUtf8.EncodeThenDecode | src/util/testUTF8.c:29-125 | convertUtf8 after unicode2Utf8 gives every unit back, in a buffer of utf8Len units |
| ConstantPool.ReadsBack | src/classloader/class.c:286-345 | the bytes of every entry, read big-endian field by field, are its tag and operands |
| ConstantPool.EntryBytes | src/classloader/class.c:286-345 | the encoding parsed is that of section 4.4: the tag, then big-endian operands of two, four or eight bytes, or a length and a text |
| ConstantPool.ParseEntry | src/classloader/class.c:286-345 | stores one entry at its index (two for Long and Double) and moves the cursor by exactly its bytes |
| ConstantPool.ParsePool | src/classloader/class.c:278-350 | on the bytes of any well-formed pool consumes exactly them and lays every entry at its index |
| ConstantPool.EveryEntryHeld | src/classloader/class.c:278-350 | every entry, also behind Long and Double entries, can be found at the index section 4.4 gives it |
| ConstantPool.LongReadsBack | src/interp/interp.c:303-329 | the two words of a Long or Double, stored in swapped order and read as one little-endian value by ldc2_w, are the big-endian value of the file |
| ConstantPool.PairUnpacks | src/classloader/resolve.c:62-102 | the low and high halves of a packed word are the two indices of the entry |
| ConstantPool.HandleUnpacks | src/classloader/class.c:338-345 | a MethodHandle entry gives its two fields back only for index 0 and kind 0 or 1: the source joins them with a logical or |
| Resolve.ResolveClass | src/classloader/resolve.c:175-199 | answers the loader's class for the original entry, whether or not an earlier call overwrote it |
| Resolve.ResolveField | src/classloader/resolve.c:62-102 | answers what findField finds for the original entry |
| Resolve.ResolveMethod | src/classloader/resolve.c:210-306 | answers what findMethod finds for the original entry, or fails the assertion, for both kinds of method reference |
| Resolve.OnlyResolvableOverwritten | src/classloader/resolve.c:62-306 | class, field and method references are the only entries the cache ever overwrites; Utf8 and NameAndType entries stay |
| Resolve.ResolveAll | src/classloader/resolve.c:62-306 | any sequence of well-kinded resolutions answers as if every entry were decoded afresh, with caching on or off; with caching off the pool is not written |
| Resolve.MeaningIsSaid | src/classloader/resolve.c:62-306 | decoding the parsed pool gives what the entries of the file say: class, name and descriptor from the entries a reference names, in their places |
| Resolve.ResolveFile | src/classloader/resolve.c:62-306 | on the pool parsed from a file every resolution in any sequence asks for the class, the name and the descriptor that the entries of the file spell, in this order, with caching on or off |
| Classes.FindMethodInCurrent | src/classloader/resolve.c:108-119 | the first method of the class with the signature |
| Classes.FindMethodFrom | src/classloader/resolve.c:125-135 | the nearest declaration along the superclass chain, by recursion |
| Classes.FoundInAncestor | src/classloader/resolve.c:125-135 | what is found is declared in the class or an ancestor |
| Classes.DeclaredIsFound | src/classloader/resolve.c:125-135 | whatever any ancestor declares makes its signature found |
| Classes.FoundIsNearest | src/classloader/resolve.c:108-135 | a found method is the first of its signature in its class and hides every later one on the chain; none is found exactly when no class declares one |
| Linking.ChooseIndex | src/classloader/class.c:658-679 | the index of one method: kept, inherited from the method it overrides, or the next free one in 16 bits |
| Linking.PrepareMethod | src/classloader/class.c:649-681 | every method gets the index the chain calls for, the table size counts inherited and new slots, and nothing else changes |
| Linking.LinkMethod | src/classloader/class.c:756-788 | the table is the superclass table with the class's own virtual methods entered, and the result says whether an index lies outside the block |
| Dispatch.IndexOf | src/classloader/class.c:656-680 | with fewer than 65536 slots an overriding method has the index of the method it overrides, a new one a fresh index behind the superclass's |
| Dispatch.DispatchTheorem | src/classloader/class.c:649-681 | for a chain prepared and linked parents first, indexed dispatch is lookup by name in every class of the chain if and only if no method has the signature of an inherited method of the other kind |
| Dispatch.SubclassDispatches | src/interp/interp.c:2189-2200 | a uniform class on a correct chain dispatches every visible virtual method to what findMethod finds from the receiver's class |
| Dispatch.MixedBreaksDispatch | src/classloader/class.c:756-788 | a method that changes kind between static or private and virtual makes some dispatch wrong |
| Dispatch.EntryIsFound | src/classloader/class.c:756-788 | every table entry of a correct chain is a virtual method that its own signature finds |
| Dispatch.QuickSearch | src/classloader/resolve.c:141-162 | scanning the table for a signature finds what findMethod finds if that is virtual, and nothing otherwise |
| Dispatch.PrivateMethodMisdispatched | src/classloader/class.c:674-679 | a concrete pair of classes, prepared and linked as the source does it, on which a call of h runs f |
| Dispatch.WritesInsideExactly | src/classloader/class.c:756-788 | with fewer than 65536 slots linkMethod writes outside the table if and only if the table is empty and the class has a virtual method; never when the superclass has a slot |
| Dispatch.EmptyTableOverrun | src/classloader/class.c:756-788 | a concrete pair of classes, prepared and linked as the source does it, for which it does |
| Dispatch.SlotsGoTo | src/classloader/class.c:656-788 | static and private methods, constructors and class initialisers keep index 0 and are in no table; every other method of a class is in its table at its index |
| Layout.PlaceFields | src/classloader/class.c:690-721 | each instance field starts behind the words of those before it, long and double taking two |
| Layout.PrepareField | src/classloader/class.c:683-723 | offsets continue behind the superclass's words and the object size is the sum; inherited blocks do not change |
| Layout.FieldInside | src/classloader/class.c:683-723 | a field lies behind its class's inherited words and inside the objects of every subclass |
| Layout.FieldsDisjoint | src/classloader/class.c:683-723 | two different instance fields of an object never share a word |
| Layout.WordHasField | src/classloader/class.c:683-723 | every word of an object belongs to an instance field |
| Layout.FindFieldFrom | src/classloader/resolve.c:19-48 | the nearest declaration along the superclass chain |
| Layout.FoundIsNearest | src/classloader/resolve.c:19-48 | a found field is the first of its name and type in its class and hides every later one on the chain; none is found exactly when no class declares one |
| Layout.AllocObject | src/heapManager/alloc.c:35-58 | a new object has as many words as its class asks for, all zero |
| Layout.PutField | src/interp/interp.c:2144-2173 | the words of the field, and only they, take the value |
| Layout.GetField | src/interp/interp.c:2107-2138 | the value is read from the words of the field |
| Layout.ReadAfterWrite | src/interp/interp.c:2107-2177 | on an object of any subclass the access is inside the object, getfield after putfield gives the value written, and every other field, also a hidden one of the same name, keeps its value |
| Subtyping.Implements | src/native/cast.c:27-41 | true exactly when a non-empty path of super and interface edges leads to the interface |
| Subtyping.IsSubClassOf | src/native/cast.c:43-52 | true exactly for the class itself and its superclasses |
| Subtyping.IsInstOfArray | src/native/cast.c:54-68 | for a target with the flag: the same class, or equal dimensions and elements that the test recognises; the answer is the subtype relation except that arrays without the flag are recognised only by identity |
| Subtyping.IsInstanceOf | src/native/cast.c:71-84 | for every pair of classes, interfaces, arrays and primitive types, ends and decides the subtype relation if the target is no array or is marked ARRAY at every array level; an array target that is not marked is recognised only by identity |
| Subtyping.SubtypeReflexive | src/native/cast.c:71-84 | every class is a subtype of itself |
| Subtyping.SubtypeTransitive | src/native/cast.c:54-84 | the relation is transitive, arrays included |
| Subtyping.SubtypeAntisymmetric | src/native/cast.c:54-84 | the relation is antisymmetric, so it is a partial order |
| Subtyping.ArrayRules | src/native/cast.c:54-68 | arrays of the same dimension are subtypes exactly when their elements are, of different dimensions never, and outside the arrays exactly of Object, Cloneable, Serializable and what these extend |
| Subtyping.UnflaggedIsDenied | src/native/cast.c:71-84 | if Object[] is in the table without its flag, the test denies it of every other array of class type, all of which are subtypes |
| LoadedTypes.LoadedIsHierarchy | src/classloader/class.c:883-1033 | the table that loading leaves behind, flags set or not, meets the conditions of the type tests when the class files keep to the language's rules for superclasses and interfaces |
| LoadedTypes.ObjectArrayThenTest | src/classloader/class.c:1020-1033 | after findArrayClass has loaded Object[], the type test recognises every loaded array of class type as one |
| ClassFiles.ElementOfSpelling | src/classloader/class.c:987-1005 | the element name cut out of an array descriptor is the component type: the class between L and ;, the inner array, or the tag |
| ClassFiles.ElementNames | src/classloader/class.c:987-1005 | the same for every text as class name and every array name, spelled as a descriptor or not |
| ClassFiles.ClassArrayAvailable | src/classloader/class.c:978-1005 | an array of a named class can be loaded exactly when Object, Cloneable, Serializable and that class can |
| Loader.PrepareClass | src/classloader/class.c:732-746 | the class is prepared, its fields placed, and no other block is touched |
| Loader.LinkClass | src/classloader/class.c:802-816 | a class that is no interface is linked; an interface stays prepared; the result says exactly whether every table write landed in the block |
| Loader.Enter | src/classloader/class.c:895-902 | enters a new name with a finished block behind its superclass, and reports a duplicate exactly when the name is already there |
| Loader.FindPrimitiveClass | src/classloader/class.c:1042-1138 | a known tag gives its primitive class, entered at most once; an unknown tag fails, and a name taken by a class file calls the duplicate handler |
| Loader.LoadInterfaces | src/classloader/class.c:372-376 | succeeds exactly when everything the interfaces need has files, and then has entered exactly that and answers the interfaces in the order of the file |
| Loader.LoadSystemClass | src/classloader/class.c:586-647 | gives a block referring to the loaded superclass and interfaces exactly when everything the class needs has files, and then exactly that has been entered |
| Loader.LoadRoots | src/classloader/class.c:978-985 | Object, Cloneable and Serializable are loaded in this order, with everything they need and nothing else |
| Loader.LoadArrayClass | src/classloader/class.c:952-1014 | gives a block with Object, Cloneable, Serializable and its element, one dimension above it, exactly when all that can be found and no primitive name is taken |
| Loader.LoadElement | src/classloader/class.c:987-1005 | the element class of an array name: an inner array, a named class, or a primitive class |
| Loader.LoadClass | src/classloader/class.c:883-943 | for an acyclic graph: succeeds if and only if everything needed can be found and no primitive class meets a file of its name; fails only with a needed name that has no file, a needed bad tag or a taken primitive name; enters exactly what is needed and not yet known; keeps the table consistent and loses nothing |
| Loader.OutcomeExact | src/classloader/class.c:883-943 | the duplicate handler fires if and only if everything can be found but a primitive class meets a file of its name |
| Loader.FindArrayClass | src/classloader/class.c:1020-1033 | an array class loaded by this call gets the array flag, and one that was there keeps the flags it has |
| Loader.TableClosed | src/classloader/class.c:883-943 | whatever a loaded class refers to is loaded and prepared before it, and the superclass of a class is linked before it |
| Loader.DimIsBrackets | src/classloader/class.c:987-1005 | dim is the number of leading brackets of the name |
| Loader.ElementIsLoaded | src/classloader/class.c:987-1005 | the element of a loaded array is the class, the array or the primitive class that its descriptor names |
| Loader.LoadedChainIsReady | src/classloader/class.c:883-943 | a chain the loader leaves behind meets the conditions of the dispatch and layout theorems |
| Loader.LoadedWritesInside | src/classloader/class.c:756-816 | linking a class of a loaded chain stayed inside its table, exactly unless the table is empty and the class has a virtual method |
| Boot.DuplicateIsAFile | src/classloader/class.c:1201-1205 | in every state a duplicate is reported only for the name of a primitive type that a class file has |
| Boot.LoadFileThenArray | src/classloader/class.c:1042-1083 | from the empty table, for every primitive name that a file has and with files for all parents and the roots, loading that class and then the array of the primitive type ends in the duplicate handler |
| Boot.EnterPrimitives | src/classloader/class.c:1140-1145 | the boot enters the eight primitive classes and nothing else |
| Boot.BootedNeverClashes | src/classloader/class.c:1140-1145 | with all primitive classes in the table no load meets a taken primitive name |
| Boot.BootedAnswers | src/classloader/class.c:928-943 | after the boot the class found for a name is that of the file if and only if there is a file and the name is not that of a primitive type |
| Boot.LoadAll | src/classloader/class.c:883-1145 | in any session that starts with the boot the duplicate handler never fires, whatever the files, and each name is answered so |
| Bytecode.Aligned | src/interp/interp.c:1911-1930 | the switch operands start at the first multiple of four behind the opcode |
| Bytecode.JumpTable | src/interp/interp.c:1911-1956 | entry k of a tableswitch is the opcode's address plus its k-th signed offset |
| Bytecode.MatchTable | src/interp/interp.c:1958-1988 | pair k of a lookupswitch is its k-th key with the opcode's address plus the offset |
| Bytecode.LookupFirst | src/interp/interp.c:1990-2011 | the answer is the target of the first pair that matches, and the default if none does |
| Bytecode.JumpGoes | src/interp/interp.c:1649-1895 | what is executed next is the following instruction or one of the targets in the code |
| Bytecode.BoundaryDecodes | src/interp/interp.c:2504-2538 | every address on the linear reading of the code holds an instruction, and its successor is on it too |
| Bytecode.StaysOnBoundaries | src/interp/interp.c:2504-2538 | if all targets are instruction boundaries, control passes from boundaries to boundaries |
| Frames.JFrame.constructor | src/interp/stackmanager.c:133-167 | a new frame has zero locals, an empty stack and pc and pc_offset at the start of the code |
| Frames.JFrame.PushWord | src/interp/stackmanager.c:417-448 | one word more on the stack, or a stack error exactly when it is full |
| Frames.JFrame.PushWide | src/interp/stackmanager.c:417-448 | two words more in memory order; when only one fits, the assertion passes and the second goes past the frame |
| Frames.JFrame.PopWord | src/interp/stackmanager.c:350-408 | hands out and clears the topmost word, or reports the fault of an empty stack |
| Frames.JFrame.PopWide | src/interp/stackmanager.c:350-408 | hands out and clears the two topmost words; on a short stack the double form reports a stack error and the long form goes on below the stack |
| Frames.JFrame.LoadWord | src/interp/stackmanager.h:40-43 | reads one local |
| Frames.JFrame.LoadWide | src/interp/stackmanager.h:40-43 | reads two adjacent locals as one value |
| Frames.JFrame.StoreWord | src/interp/stackmanager.h:45-48 | writes one local and nothing else |
| Frames.JFrame.StoreWide | src/interp/stackmanager.h:45-48 | writes two adjacent locals and nothing else |
| Frames.CopyArgs | src/interp/stackmanager.c:201-213 | moves exactly the argument words, and the receiver, from the caller's stack to the callee's first locals, in order, and clears them in the caller |
| Frames.ScanArg | src/interp/stackmanager.h:11-32 | one parameter takes the wide branch exactly when it is long or double, and the cursor steps over its spelling |
| Frames.TakeArgs | src/interp/stackmanager.c:214-221 | the va_list branch fills the locals with the same words as the copy loop would, and SCAN_SIG stops at the descriptor's ')' |
| Frames.CalleeLoads | src/interp/stackmanager.c:190-226 | a callee entered with typed arguments loads each at the slot of its parameter, and the receiver at 0 |
| Frames.CallWith | src/interp/stackmanager.c:190-226 | pushes, parseArgs and the copy together: the caller has the words it had before, and every typed load in the callee gives the argument pushed |
| Machine.QuotientTruncates | src/interp/interp.c:1138-1230 | division truncates toward zero: the remainder is smaller than the divisor and has the sign of the dividend |
| Machine.StepKeepsShape | src/interp/interp.c:2504-2538 | every step keeps each frame inside its locals and max_stack and every object's class known |
| Machine.RunRuns | src/interp/interp.c:2504-3150 | runs compose |
| Runs.RunStaysOnBoundaries | src/interp/interp.c:2504-2538 | if all targets are boundaries, in every state of a run every frame stands at an instruction or outside its code |
| Runs.StepCases | src/interp/interp.c:2504-3150 | a step moves the top frame to a successor of its instruction, pushes one frame, or hands words to the frame below; the frames under these do not change |
| Runs.RunKeepsBelow | src/interp/execute.c:41-70 | while a run stays above a frame, that frame and all below it do not change |
| Runs.CallReturns | src/interp/execute.c:41-70 | after a completed call the caller stands behind its call with its locals untouched; its argument words, which were the callee's first locals with zeros behind them, are replaced by the topmost words of the frame that ended; all frames below are as they were |
| Typing.LocalSafe | src/interp/interp.c:331-2012 | a local instruction whose types agree takes a conforming frame to a conforming frame or breaks off on a division, by the assertion or the trap |
| TypeSafety.StoreTyped | src/interp/interp.c:2144-2177 | writing a field keeps every field of the object, hidden ones included, within its type |
| TypeSafety.NewTyped | src/heapManager/alloc.c:35-58 | a zeroed object conforms to its class |
| TypeSafety.CalleeTyped | src/interp/stackmanager.c:133-226 | a frame built from typed arguments conforms to the type of the method's first instruction |
| TypeSafety.EntryFits | src/interp/interp.c:2189-2200 | the table of any subclass has an entry at the method's index, with the same descriptor, in a class the receiver is an instance of |
| TypeSafety.VirtualIsSafe | src/interp/interp.c:2179-2202 | a typed virtual call reaches a typed frame, fails the null assertion or meets a method without bytecode |
| TypeSafety.ReturnIsSafe | src/interp/interp.c:2014-2048 | a typed return leaves a typed caller; it faults exactly when a result has no caller to go to |
| TypeSafety.StepIsSafe | src/interp/interp.c:2504-3150 | one step of a typed state leads to a typed state or one of the exits a null reference, a division, memory or a missing body causes |
| TypeSafety.RunIsSafe | src/interp/interp.c:2504-3150 | no run of a well-typed program ever reaches the stack error exit, an access outside its memory, a missing method, an unresolved reference or a wrong opcode |
| TypeSafety.EntryIsTyped | src/interp/execute.c:90-103 | a frame entered with typed arguments starts such a run |
| TypeSafety.TypedCallReturns | src/interp/execute.c:41-70 | a completed call replaces the argument words of the descriptor by exactly its return words, the topmost of the frame that ended |
| Heights.HeightsHoldUntilMisfit | src/interp/stackmanager.c:271-282 | with a height map that agrees along branches, switches, calls and returns, a run in which no virtual call meets a method of another shape reports no stack error, and every frame has the height of its address |
| Heights.HeightsPreventStackError | src/interp/stackmanager.c:271-282 | if moreover all tables agree with the shape of each method called virtually, no run at all reports a stack error |
| Samples.HeightsMislead | src/interp/stackmanager.c:271-282 | a concrete program with consistent heights, in which a table disagrees, ends in a stack error after five steps |
| Laws.IntSums | src/interp/interp.c:994-1215 | the byte iadd, isub or imul leaves the sum, difference or product of the two topmost words modulo 2^32, for all words |
| Laws.LongSums | src/interp/interp.c:1006-1230 | ladd, lsub and lmul likewise modulo 2^64, on words in memory order |
| Laws.IntQuotients | src/interp/interp.c:1138-1215 | idiv and irem leave quotient and remainder toward zero, for all words but the two exceptions |
| Laws.IntDivisionStops | src/interp/interp.c:1138-1215 | a zero divisor fails the assertion, the smallest value divided by -1 traps |
| Laws.LongQuotients | src/interp/interp.c:1150-1230 | ldiv and lrem likewise |
| Laws.LongDivisionStops | src/interp/interp.c:1150-1230 | their exceptions likewise |
| Laws.IntNegation | src/interp/interp.c:1262-1270 | what ineg leaves and what it took add up to 0 modulo 2^32 |
| Laws.LongNegation | src/interp/interp.c:1272-1280 | lneg likewise modulo 2^64 |
| Laws.Widening | src/interp/interp.c:1463-1476 | i2l keeps the signed value |
| Laws.Narrowing | src/interp/interp.c:1508-1516 | l2i keeps the value modulo 2^32 |
| Laws.Comparison | src/interp/interp.c:1600-1616 | lcmp leaves 1, 0 or -1 as the first long is greater than, equal to or less than the second |
| Laws.Shuffles | src/interp/interp.c:929-992 | which words pop, pop2, dup, dup_x1, swap and dstore_0 leave, in order |
| Laws.Constants | src/interp/interp.c:64-146 | which words the fifteen constant opcodes push |
| ControlLaws.Immediates | src/interp/interp.c:154-170 | bipush pushes its byte unsigned, sipush its two bytes signed |
| ControlLaws.Loads | src/interp/interp.c:331-519 | which locals each load pushes, by opcode and operand byte |
| ControlLaws.Stores | src/interp/interp.c:631-818 | which locals each store writes, by opcode and operand byte, and that no other changes |
| ControlLaws.Increments | src/interp/interp.c:1446-1461 | iinc adds its signed byte modulo 2^32 |
| ControlLaws.Branches | src/interp/interp.c:1649-1736 | for which words ifeq to ifle, ifnull and ifnonnull branch, and where to |
| ControlLaws.CompareBranches | src/interp/interp.c:1738-1837 | for which words if_icmpeq to if_icmple branch, and where to |
| ControlLaws.Jumps | src/interp/interp.c:1884-1895 | goto adds its signed operand to the address of the opcode |
| ControlLaws.TableJumps | src/interp/interp.c:1911-1956 | tableswitch adds the signed number in the four bytes of entry key - low, or of the default, to the address of the opcode |
| ControlLaws.LookupJumps | src/interp/interp.c:1958-2012 | lookupswitch adds that of the first pair with the key, or of the default |
| ControlLaws.FullStack | src/interp/stackmanager.c:417-448 | a push on a full stack is a stack error; a wide push with room for one word is not noticed |
| ControlLaws.EmptyStack | src/interp/stackmanager.c:350-408 | a pop on an empty stack is a stack error unless there are no locals; the long pops are not noticed |
| RunLaws.SubThenAdd | src/interp/interp.c:1042-1052 | isub, iload k, iadd leaves the first operand when local k holds the second |
| RunLaws.SubIsNegatedAdd | src/interp/interp.c:1042-1270 | isub leaves what ineg and iadd leave |
| RunLaws.LongSubThenAdd | src/interp/interp.c:1054-1064 | lsub, lload k, ladd leaves the first operand |
| RunLaws.LongSubIsNegatedAdd | src/interp/interp.c:1054-1280 | lsub leaves what lneg and ladd leave |
| RunLaws.DivideAndRestore | src/interp/interp.c:1138-1215 | the nine instructions of x / y * y + x % y leave x, for all words that can be divided |
| RunLaws.StoreThenLoad | src/interp/interp.c:331-818 | istore k, iload k gives the word back and leaves it in local k alone |
| RunLaws.WideStoreThenLoad | src/interp/interp.c:331-818 | lstore k, lload k gives both words back in their order |
| RunLaws.WidenThenNarrow | src/interp/interp.c:1463-1516 | i2l, l2i leaves the int |
| RunLaws.CompareThenBranch | src/interp/interp.c:1600-1736 | lcmp with a branch on its result branches exactly when the two longs are so related |
| CallLaws.DirectCall | src/interp/interp.c:2204-2279 | invokespecial and invokestatic enter the named method with the argument words, as many as its descriptor says, as first locals and zeros behind them |
| CallLaws.VirtualCall | src/interp/interp.c:2179-2202 | invokevirtual enters the method that lookup by name finds from the class of the object under the arguments; null fails the assertion |
| CallLaws.HandsBack | src/interp/interp.c:2014-2048 | ireturn, areturn and dreturn put exactly the topmost word or two on the caller's stack, return none |
| CallLaws.FallsOff | src/interp/interp.c:2504-2538 | outside its code a method ends without a result |
| CallLaws.ArgumentComesBack | src/interp/execute.c:41-70 | a call of a method whose bytes load its argument and return it leaves the caller's stack as it was, for every argument of one word or two |
| CallLaws.MakesObject | src/interp/interp.c:2312-2322 | new pushes a reference not in use to an object of the named class with as many zero words as it has |
| CallLaws.PutsField | src/interp/interp.c:2144-2177 | putfield writes the words of the named field of the one object, in order, and changes no other field and no other object |
| CallLaws.GetsField | src/interp/interp.c:2107-2138 | getfield pushes the words of the field in order and changes no object |
| CallLaws.NullHasNoFields | src/interp/interp.c:2107-2177 | getfield and putfield on null raise the exception |
| Handlers.PushConst | src/interp/interp.c:64-110 | one-word constants |
| Handlers.PushWideConst | src/interp/interp.c:112-146 | two-word constants |
| Handlers.DropTop | src/interp/interp.c:929-939 | pop and pop2, and dstore_0, which stores nothing |
| Handlers.DupTop | src/interp/interp.c:941-948 | dup |
| Handlers.DupX1Top | src/interp/interp.c:950-960 | dup_x1 puts the top word under the second |
| Handlers.SwapTop | src/interp/interp.c:978-992 | swap |
| Handlers.IntArith | src/interp/interp.c:994-1215 | the int operations on the two topmost words in their order, with the divisor tested before the dividend is popped |
| Handlers.LongArith | src/interp/interp.c:1006-1230 | the long operations likewise |
| Handlers.NegateInt | src/interp/interp.c:1262-1270 | ineg |
| Handlers.NegateLong | src/interp/interp.c:1272-1280 | lneg |
| Handlers.WidenInt | src/interp/interp.c:1463-1476 | i2l extends the sign |
| Handlers.NarrowLong | src/interp/interp.c:1508-1516 | l2i keeps the low word |
| Handlers.CompareLongs | src/interp/interp.c:1600-1616 | lcmp orders two long values |
| Handlers.Load | src/interp/interp.c:331-519 | the loads push the local named, or both words of it |
| Handlers.Store | src/interp/interp.c:631-818 | the stores pop into the local named |
| Handlers.IncrementVar | src/interp/interp.c:1446-1461 | iinc adds a signed byte to a local in 32 bits |
| Handlers.PcMove | src/interp/interp.c:29-33 | pc and pc_offset move together |
| Handlers.ReadShort | src/interp/interp.c:41-45 | reads two bytes big-endian through pc and moves both cursors |
| Handlers.Goto16 | src/interp/interp.c:1884-1895 | lands at the opcode's address plus the signed offset |
| Handlers.BranchIf | src/interp/interp.c:1649-1736 | lands at the target if the popped word compares so with 0, and else behind the instruction |
| Handlers.BranchIfCompare | src/interp/interp.c:1738-1837 | the same for two popped words |
| Handlers.SkipPadding | src/interp/interp.c:1921-1927 | both switches find their operands from base, for every address and alignment |
| Handlers.Tableswitch | src/interp/interp.c:1911-1956 | ends at base plus entry[key-low], or base plus default outside the range, for every key |
| Handlers.FirstMatch | src/interp/interp.c:1994-2011 | the offset of the first matching pair, or the default |
| Handlers.Lookupswitch | src/interp/interp.c:1958-2012 | ends at base plus the offset of the first matching pair or the default |
| Opcodes.ExecPlain | src/interp/interp.c:2538-3000 | opcodes without operands do what the decoded instruction does, and no byte more is read |
| Opcodes.ExecByteOperand | src/interp/interp.c:154-159 | bipush and the long forms of loads and stores read one byte |
| Opcodes.ExecShortOperand | src/interp/interp.c:161-170 | sipush, iinc and the branches read two bytes |
| Opcodes.ExecLocal | src/interp/interp.c:2530-3150 | for every opcode of the subset the handler makes the step of the instruction that the independent decoder reads at that address, or reports the same fault |
| Interpreter.VM.constructor | src/interp/execute.c:90-103 | a machine about to run main with its argument in local 0 |
| Interpreter.VM.RunLocal | src/interp/interp.c:2530-3150 | an instruction inside the current frame makes the machine's step and touches no other frame and no object |
| Interpreter.VM.GetField | src/interp/interp.c:2107-2138 | getfield makes the machine's step |
| Interpreter.VM.PutField | src/interp/interp.c:2144-2177 | putfield makes the machine's step; only the object's data changes |
| Interpreter.VM.New | src/interp/interp.c:2312-2322 | new makes the machine's step and enlarges the footprint only by fresh memory |
| Interpreter.VM.CreateFrame | src/interp/stackmanager.c:190-226 | the new frame is on top and current, the arguments have moved, and all other frames are as before |
| Interpreter.VM.PopFrame | src/interp/stackmanager.c:235-254 | the frame below becomes current, and nothing else changes |
| Interpreter.VM.ReturnResult | src/interp/interp.c:2014-2044 | moves the result to the caller's stack, so that what is left is the return of a void method; without a caller it faults |
| Interpreter.VM.Dispatch | src/interp/interp.c:2189-2199 | finds the receiver under the arguments and the entry of its class's table |
| Interpreter.VM.RunCall | src/interp/execute.c:52-70 | an invocation runs the callee and pops its frame: the machine's steps from the call to the return |
| Interpreter.VM.RunOpcode | src/interp/interp.c:2525-3150 | one turn of the loop is one step of the machine, or the steps of a whole call |
| Interpreter.VM.ExecuteJava | src/interp/interp.c:2504-3150 | runs exactly the machine's steps, one per instruction executed, whatever the outcome; at every loop head pc equals pc_offset and the current frame is the top of the method stack, and on return the method stack is as it was |
| Execution.LoadedClassIsInstantiable | src/classloader/class.c:883-943 | a class the loader leaves behind, on a chain on which no signature changes kind, may be instantiated in a well-typed program, and its table holds only methods |
| Samples.CellIsWellTyped | src/interp/interp.c:2107-2322 | a program that makes an object and calls a method that stores a field meets all conditions of the safety theorem, for every argument |
| Execution.ExecuteStaticMain | src/interp/execute.c:90-103 | on a well-typed program the interpreter ends, is cut off, or leaves by an allowed exit; never by a stack error or a stray access |

## Left out

- File, console and environment input and output, command line, verbose, trace and log output, dumps, statistics of opcodes and of the hash table.
- Native methods, reflection objects, system bootstrap, class headers (`addClassHeader`) and `<clinit>`: loading is modelled with initialisation off.
- Floating-point arithmetic: float and double values are one- and two-word payloads; fcmp and the float and double operators are not decoded.
- Opcodes outside the subset: arrays, strings and `ldc`, static fields, bitwise and shift operators, `invokeinterface`, `instanceof`, `if_acmp`, casts, monitors, and the handlers that are stubs or differ from the specification. The decoder has no instruction for them: where the source would run one, the machine and the interpreter both stop with `BadCode`.
- Freeing memory and pointer width: frames and objects are never reused, and a heap of 2^32 objects is exhausted.
- Resolution of references in the interpreter is a fixed table per class: `Resolve` proves that the answers do not depend on what was resolved before. Ill-kinded resolutions, `invokespecial` on an entry another invoke has rewritten, and `ldc` of a class executed twice are not covered.
- Interpreter.VM.ExecuteJava: stops after a given number of instructions, because Dafny requires termination; what it did until then is still exactly so many steps of the machine.
- Execution.ExecuteStaticMain: the argument of main is one word of the parameter's type; the String array behind it is not built, because arrays are outside the subset.
- Interpreter.VM.CreateFrame: covers calls from bytecode; the va_list branch is proved in `Frames.TakeArgs` and not run by the interpreter, which never takes it.
- TypeSafety.RunIsSafe: a method without bytecode (abstract or native) ends the run when it is called, as the source's exit on code length 0 does.
- Linking.LinkMethod: reports that an index lies outside the table block and does not model the memory behind it; `Dispatch.WritesInsideExactly` says when that happens.
- Loader.LoadClass: assumes that a file found under a name declares that name, that no superclass or interface has an array name, and that the class graph has no cycle, on which the source would not end. The name `[;`, for which the source copies a negative number of bytes, is treated as a bad tag.
- LoadedTypes.LoadedIsHierarchy: does not cover tables with misspelled array names such as `[xB`, which the source accepts.
- Subtyping.IsInstOfArray: arrays of different dimensions are never subtypes of each other, as in the source.
- Descriptors.GetArgsName: the name recorded for an array parameter lacks its last character; it is modelled as the source builds it, and only the counts are promised.
- ModifiedUtf8.RoundTrip: covers the units below 0x8000; `ModifiedUtf8.ReadableExactlyWhen` shows that the others do not come back.
- ConstantPool.HandleUnpacks: says when a MethodHandle entry can be read back, which is hardly ever; nothing else is proved about such entries.
- The bucket block of the hash table is a sequence of lists that is replaced as a whole; the source's block is likewise filled once per rehash.
- 16-bit counters other than those of method tables, and the locale and Java test files.
