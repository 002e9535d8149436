# A verified model of ocaml-ctypes

ctypes binds C libraries from descriptions of C types written in OCaml. This project
models the parts on which the correctness of every binding rests, and proves what they
promise.

**The stub compiler.** A description of a C function type is compiled twice. The C side
(`CStub`, `InverseStub`, `ByteStub`, `CbufStub`, `LwtJob`) builds let-normal C programs
with a let-floating bind (`LetFloat`). The OCaml side (`MLWrapper`, `InverseWrapper`,
`CbufWrapper`) builds a pattern and a lambda term around an external. `CLanguage` and
`MLLanguage` give both languages a meaning, and `Externals` has the OCaml types and the C
names by which the two sides are linked. Every operation of a stub on the outside world
(a call, a load, a store, a root registration) goes through one uninterpreted function that
sees the operation, its arguments and the whole history, and is logged in an event trace
together with the state of the runtime lock. The theorems therefore hold for any C library,
any garbage collector and any memory. `EndToEnd` links the two sides and states what a call
does; `StubDiscipline` and `CbufDiscipline` state what every generated program keeps;
`Analysis` compares the generator's own analysis of allocation with what a stub does, and
`PrimitiveValues` follows numbers through the tables of primitives from one side to the
other and back.

**The type printer** (`Declarator`), on tokens, against a parser for C declarations, the
names of the primitive types included.

**Layout.** Structures and unions (`StructLayout`), the memory they lie in (`Memory`), and
the buffers in which libffi is handed its arguments (`Callspec`).

**The closure table** (`ClosureTable`): a state machine over all interleavings of threads
and finalisers, and the two tables as a class whose methods are the machine's uninterrupted
runs.

**Coercions** between types and function types (`Coerce`).

`CtypesStatic` is the shared type language and `Arithmetic` collects facts about remainders.

## Conventions

- The hidden counters behind generated names are passed along as numbers; `Fresh(n)` is the
  name the counter gives at n. OCaml leaves the order in which constructor arguments are
  evaluated open, so which number a name gets does not matter to any statement, only that
  names differ.
- `Machine.convert` is C's conversion of a value to the type it is bound at. Where a theorem
  requires `KeepsValues`, the only assumption is that C leaves an OCaml value alone when it is
  bound at type `value`; `Pairs` says that pairing with errno yields a pair, and `Remembers`
  that loading a field of a job gives what was last stored there.
- The views' read and write functions are arbitrary pure functions; how often a write
  function runs is counted. OCaml terms are evaluated right to left.
- `Linked` applies an external once it has as many arguments as the stub has parameters. An
  external has at least one.
- `OnlyCSetsErrno` says that no operation but the foreign call sets errno; `ConvertsAs` and
  `Unboxes` that C converts integers modulo their range and that what the OCaml runtime builds
  of a number it reads back. Each is required only where it is named.
- Exceptions are results: `Raises(error)`.

## What the code does not keep

Each of these is a property one would expect, proved to hold exactly under a condition.

- A number passed through a stub as a `camlint` is read as a C `int`
  (src/cstubs/cstubs_c_language.ml:184), although the type is documented to have the storage
  of an OCaml `int` (src/ctypes/ctypes_types.mli:103-105): PrimitiveValues.NumbersSurviveIff,
  CamlintExample.
- The analysis that is to mark externals free of allocation looks at the result type alone;
  a stub that pairs the result with errno, or releases the lock, allocates all the same
  (src/cstubs/cstubs_generate_ml.ml:116-127 leaves the mark out): Analysis.NoallocIff.
- A function type whose only printed parameter is void behind a view is printed like one
  without parameters: Declarator.ParsedIffNoLoneVoid.
- An OCaml reference after a void parameter is lost by the calls made through libffi:
  Callspec.ArrivalIff, ReferenceLost.
- The external of an Lwt job counts the void parameters its stub drops: Externals.JobArityIff.
- A closure that dies while it is being recorded leaves its entry behind:
  ClosureTable.LeakedIff.
- A buffer without a C argument in front of others displaces those before it:
  CbufStub.PassedAsMeantIff. A result after return buffers is not raised:
  CbufWrapper.RetbufResultIff.
- A coerced pointer keeps its old target between identical types: Coerce.ReferenceTypeIff;
  and three primitives do not coerce to themselves: Coerce.ReflexiveIff.
- Elements of an array need not be aligned when alignments are not powers of two:
  StructLayout.ElementsAlignedIff.

`nativeint` is documented to stand for the C type `int` (src/ctypes/ctypes_types.mli:78-79);
the code, followed here, uses `intnat` (src/configure/gen_c_primitives.ml:59).

## Model

| member | source | states |
|---|---|---|
| LetFloat.BindTerminatesIff | src/cstubs/cstubs_generate_c.ml:25-57 | `>>=`, which rebinds what its continuation returned when the left program ended in a return, finishes for some number of nested calls exactly when those two programs do not both end in a return |
| LetFloat.TailDenotesValue | src/cstubs/cstubs_generate_c.ml:25-55 | reaching the continuation costs one run of the left program: the world is the one it leaves, the expression handed over denotes its value, and no other variable has changed |
| LetFloat.BindMeaning | src/cstubs/cstubs_generate_c.ml:25-55 | the program `>>=` builds does what the continuation's program does from the environment and world in which the left program ends |
| LetFloat.ReturnMeaning | src/cstubs/cstubs_generate_c.ml:41-43 | with a left program that ends in a return, the continuation runs before the function is left, and it is left in the left program's way |
| LetFloat.LetFloatingPreservesMeaning | src/cstubs/cstubs_generate_c.ml:25-57 | let-floating preserves meaning without capture: same value, state and event trace as the left program followed by what the continuation means |
| Projections.PrjMeaning | src/cstubs/cstubs_generate_c.ml:120-149 | binding the code of `prj`, through any views, hands over an expression for the C value that projecting the OCaml value means, and performs its operations and no others |
| Projections.InjMeaning | src/cstubs/cstubs_generate_c.ml:151-170 | the code of `inj` means the OCaml value injecting a C value means |
| Projections.NothingToProject | src/cstubs/cstubs_generate_c.ml:123-149 | `prj` gives nothing exactly for void behind any views |
| PrimitiveValues.SameBox | src/cstubs/cstubs_c_language.ml:158-232 | each primitive is built and read by the two functions of one pair for its OCaml type |
| PrimitiveValues.ReadWideEnough | src/cstubs/cstubs_c_language.ml:158-196 | what is read for a primitive has a C type with all the numbers of the primitive's own, exactly for the primitives other than `camlint`, which is read as an `int` |
| PrimitiveValues.NumbersSurviveIff | src/cstubs/cstubs_generate_c.ml:123-153 | through any views, every number that both sides have comes back from OCaml as it went, exactly when the primitive is not `camlint` or a C `int` has every OCaml `int` |
| PrimitiveValues.CamlintSurvivesIff | src/cstubs/cstubs_c_language.ml:184 | a number passed as a `camlint` comes back exactly when a C `int` has it |
| PrimitiveValues.CamlintExample | src/cstubs/cstubs_c_language.ml:184 | with a 32-bit `int` and 64-bit words 2^31 reaches C as -2^31 |
| PrimitiveValues.ProjectionCalls | src/cstubs/cstubs_generate_c.ml:59-85 | projecting calls the one function named for the type behind the views, on the value, and loads the memory of a structure; nothing else is done |
| PrimitiveValues.InjectionCalls | src/cstubs/cstubs_generate_c.ml:151-170 | injecting is one operation: `Val_unit`, the constructor of the primitive, a copy of as many bytes as the structure has, or the wrapping of a pointer |
| CStub.NoErrorMeans | src/cstubs/cstubs_generate_c.ml:123-170 | generation raises nothing exactly when every parameter can be projected and the result injected |
| CStub.FirstErrorIsFirst | src/cstubs/cstubs_generate_c.ml:199-245 | the exception raised is that of the first parameter that has one, and the result's only if no parameter has |
| CStub.DispatchRaisesIff | src/cstubs/cstubs_generate_c.ml:536-543 | generation raises exactly when a policy that lets go of the lock meets an argument in OCaml memory, or a parameter or the result has no conversion; the first reason comes first |
| CStub.ProjectedInOrder | src/cstubs/cstubs_generate_c.ml:241-245 | the C arguments one by one: the i-th is the projection of the i-th parameter that has a C argument, each made in the world the one before left |
| CStub.FinishMeaning | src/cstubs/cstubs_generate_c.ml:206-240 | the generated end of a stub means the call and its result, for each of the four lock and errno policies |
| CStub.BodyMeaning | src/cstubs/cstubs_generate_c.ml:199-245 | from any point of the parameter list the generated body means projecting the remaining arguments, skipping void ones, then the call on all of them in order |
| CStub.StubRefinesSpec | src/cstubs/cstubs_generate_c.ml:176-250 | for every description and every policy that calls C directly, the stub the dispatch makes has the name asked for and one parameter for each of the description's, and running it on any arguments in any world is the reference meaning at that policy: roots and lock unless sequential, errno as asked, the projected non-void arguments in order, the foreign call, the injected result |
| StubDiscipline.ProjectReads | src/cstubs/cstubs_generate_c.ml:123-149 | projecting never allocates or moves the lock, and takes an interior pointer only for an OCaml reference |
| StubDiscipline.NoReferences | src/ctypes/ctypes_static.ml:176-192 | a description accepted for releasing the lock has no parameter in OCaml memory, behind any views |
| StubDiscipline.UnlockedStubsKeepTheLock | src/cstubs/cstubs_generate_c.ml:199-250 | in every stub of an unlocked policy every parameter is rooted first, the lock is held at each heap access, released for the foreign call alone, held again at the end with the root frame closed, and no interior pointer is taken |
| StubDiscipline.SequentialStubsAreGCSafe | src/cstubs/cstubs_generate_c.ml:199-250 | in every sequential stub nothing up to and including the foreign call allocates, no interior pointer is taken after it, and the lock is never touched |
| StubDiscipline.OnlyTheResultIsMentioned | src/cstubs/cstubs_generate_c.ml:199-245 | after the foreign call the generated code mentions only the call's result, under all four policies: no parameter, projected argument or interior pointer |
| Analysis.MayAllocateIff | src/cstubs/cstubs_analysis.ml:60-115 | `may_allocate` is true exactly when the value built for the result is a new block, or the result is an `unsigned char`, for which none is built |
| Analysis.RunAllocatesIff | src/cstubs/cstubs_generate_c.ml:187-250 | a run of a stub allocates in OCaml's heap, outside the C function itself, exactly when the lock is released and taken back, errno is paired with the result, or the result is a new block |
| Analysis.NoallocIff | src/cstubs/cstubs_generate_ml.ml:116-127 | a stub whose description the analysis calls free of allocation never allocates, whatever it is run on, exactly when the lock is kept and errno is not returned, neither of which the analysis looks at |
| ByteStub.BuildCallMeaning | src/cstubs/cstubs_generate_c.ml:257-262 | reading argv downwards while collecting variables in front passes the elements in order, for any number still to be read |
| ByteStub.ByteStubCallsNativeStub | src/cstubs/cstubs_generate_c.ml:252-265 | for every arity the byte stub loads each element of argv once, last to first and nothing else, passes argv[0] to argv[n-1] in order to the native stub by its name and returns its reply |
| Externals.ArgTypeSays | src/cstubs/cstubs_generate_ml.ml:267-296 | an external's argument type is `unit` exactly for parameters without a C argument, an OCaml reference exactly for those in OCaml memory, and raises exactly for arrays and bigarrays, through any views |
| Externals.ArgTypeIs | src/cstubs/cstubs_generate_ml.ml:267-296 | which type each argument has by what it is behind views: fat pointers, fat function pointers, OCaml references of each kind, and the primitive's own type |
| Externals.ReturnTypeIs | src/cstubs/cstubs_generate_ml.ml:240-266 | and each result: unit, managed memory for structures, raw addresses, and the primitive's own type |
| Externals.WrappedTypesIff | src/cstubs/cstubs_generate_ml.ml:378-522 | the wrapper generator accepts exactly the arguments and results an external's types are given for, abstract types apart |
| Externals.SignedIntegerNames | src/cstubs/cstubs_public_name.ml:12-36 | the type of a boxed signed integer in the external names the function that builds it in C |
| Externals.UnsignedIntegerNames | src/cstubs/cstubs_public_name.ml:12-36 | the same for unsigned integers |
| Externals.ExternalShape | src/cstubs/cstubs_generate_ml.ml:306-330 | the external of a description has each parameter's type in order, and its result is the result's type, paired with `Signed.sint` if errno is returned and made a job for Lwt jobs; exactly when it raises |
| Externals.BothGeneratedIff | src/cstubs/cstubs_generate_ml.ml:240-330 | the C file is generated exactly when the external is, nothing abstract is passed or returned and no incomplete structure is returned |
| Externals.ExternalMatchesStub | src/cstubs/cstubs_generate_ml.ml:218-225 | outside Lwt jobs, whenever a stub is generated so is its external, with as many arguments; its result is a pair exactly when errno is returned, and then every reply of the stub is a pair; the functions defined in C, byte stub included, are exactly those the external names |
| Externals.JobArityIff | src/cstubs/cstubs_generate_c.ml:498-534 | a job's stub takes as many arguments as its external has exactly when no parameter is void; the names agree exactly when none is or the external is too short for a byte stub |
| Externals.VoidJobExample | src/cstubs/cstubs_generate_c.ml:510-521 | one void parameter: the job stub takes nothing, its external one argument |
| Externals.BufExternalShape | src/cbuf/cbuf_generate_ml.ml:310-335 | with return buffers the external has one argument for each parameter and buffer, of its type, in order |
| Externals.BufExternalMatchesStub | src/cbuf/cbuf_generate_ml.ml:221-228 | and the stub takes as many, and the functions defined in C are exactly those it names |
| Externals.BufResultTypeIff | src/cbuf/cbuf_generate_ml.ml:310-318 | the result of such an external, typed as an argument, has the type of a result exactly when it is void or a primitive |
| InverseStub.NoInverseError | src/cstubs/cstubs_generate_c.ml:270-305 | inverse stubs are generated exactly when every parameter can be injected and the result projected |
| InverseStub.InverseErrorIsLast | src/cstubs/cstubs_generate_c.ml:270-305 | the exception raised is the result's if it has one, else that of the last parameter that has one |
| InverseStub.SlotsHoldArguments | src/cstubs/cstubs_generate_c.ml:290-305 | after the stores, slot i of the rooted array holds the injection of parameter i for every i below nargs, and there are no other slots |
| InverseStub.CallbackSeesArguments | src/cstubs/cstubs_generate_c.ml:275-305 | the world in which the callback runs has exactly those slots, whatever the lock policy |
| InverseStub.InverseStubRefinesSpec | src/cstubs/cstubs_generate_c.ml:267-325 | for every description, the inverse stub has the name asked for, the result type and the parameters of the description, and running it is: lock, roots, injected arguments in the slots, the callback at the table index named after the stub, its result read in full, roots dropped, lock released |
| InverseStub.ResultReadInTime | src/cstubs/cstubs_generate_c.ml:305-325 | between the callback, made with as many arguments as there are slots, and the dropping of the roots nothing allocates, so its result is read while it is still where it was returned; nothing but giving back the lock comes after |
| InverseStub.InverseStubsKeepTheLock | src/cstubs/cstubs_generate_c.ml:267-325 | every inverse stub touches the heap only with the lock held, takes it first and gives it back last if it takes it at all, and closes its root frame |
| CbufStub.NoBufError | src/cbuf/cbuf_generate_c.ml:212-267 | a stub is generated exactly when buffers nest to the right, parameters and buffers can be projected and the result injected |
| CbufStub.BufErrorIsFirst | src/cbuf/cbuf_generate_c.ml:212-267 | for buffers nested to the right generation raises the first exception there is: the parameters' in order, the buffers' in order, the result's |
| CbufStub.BuffersBodyMeaning | src/cbuf/cbuf_generate_c.ml:243-263 | from any point of the buffer list the generated body projects the remaining buffers in order and calls with arguments and buffers placed as the position says |
| CbufStub.BufStubMeaning | src/cbuf/cbuf_generate_c.ml:185-267 | for every list of arguments and of right-nested buffers, void ones included, either position and errno policy, the stub has one parameter for each and makes one call on the projected arguments and the buffers the original passes |
| CbufStub.PassedAsMeantIff | src/cbuf/cbuf_generate_c.ml:243-263 | a buffer without a C argument (a view of void) in front of others replaces those before it by the arguments; the buffers passed are the ones meant exactly when there is none such, or the arguments equal what was projected for the buffers dropped |
| CbufStub.BufStubRefinesSpec | src/cbuf/cbuf_generate_c.ml:185-267 | with no such buffer the stub makes one call, whose arguments are, at First, the projected buffers by index and then the projected arguments by index, at Last the other way round, void erased |
| CbufDiscipline.BufStubsAreGCSafe | src/cbuf/cbuf_generate_c.ml:212-267 | in those stubs too, whatever the buffers, nothing allocates between the first projection and the call, so the buffers' addresses are still valid in C |
| CbufDiscipline.OnlyTheResultIsMentioned | src/cbuf/cbuf_generate_c.ml:212-263 | after the foreign call their code mentions only the call's result: no parameter, projected argument or buffer address |
| MLLanguage.LetBindMeaning | src/cstubs/cstubs_generate_ml.ml:574-576 | the let expression built from a binding list runs the bindings from the last to the first, then the body |
| MLWrapper.PatternMatches | src/cstubs/cstubs_generate_ml.ml:378-522 | a generated type pattern matches the type it was generated from, at either polarity and through any views, and binds exactly the variables the expression part counts on |
| MLWrapper.LowerMeaning | src/cstubs/cstubs_generate_ml.ml:378-522 | the bindings generated for an argument compute its lowered value, run each of its views' write functions once, and disturb no other variable, although they nest inside out |
| MLWrapper.RaiseMeaning | src/cstubs/cstubs_generate_ml.ml:358-376 | the expression generated for a result raises it, directly or through `map_result` on the pair with errno |
| MLWrapper.NamesNeverMeet | src/cstubs/cstubs_generate_ml.ml:332-336 | hygiene: arguments, pattern variables and bound variables of one wrapper are three disjoint groups, so every occurrence is captured by its own binder |
| MLWrapper.BoundOnce | src/cstubs/cstubs_generate_ml.ml:332-640 | no name is bound twice in a wrapper, in whichever group, and each was given out by the counter while the wrapper was generated, at either polarity |
| MLWrapper.BodyMeaning | src/cstubs/cstubs_generate_ml.ml:578-640 | from any point of the description the wrapper body lowers the remaining arguments and calls the external on all of them in order |
| MLWrapper.WrapperShape | src/cstubs/cstubs_generate_ml.ml:578-640 | a wrapper's pattern matches its whole description, its parameters are those generated, and it is trivial exactly when nothing needs converting |
| MLWrapper.WrapperCorrect | src/cstubs/cstubs_generate_ml.ml:672-689 | for every description with arbitrarily nested views and both errno policies the wrapper lowers each argument, calls the external once on the results in order and raises the reply |
| InverseWrapper.InverseWrapperCorrect | src/cstubs/cstubs_generate_ml.ml:672-689 | at the other polarity the wrapper raises each C argument, calls the OCaml function once, and lowers its result |
| CbufWrapper.BytesExp | src/cbuf/cbuf_generate_ml.ml:561-621 | for right-nested byte buffers the generated pattern matches the description, and expression, nesting and bindings are those written out, the earlier bindings repeated once per buffer |
| CbufWrapper.BufBindsRun | src/cbuf/cbuf_generate_ml.ml:588-614 | running the duplicated bindings binds every variable to the value one run would, creates each buffer once, and runs the views' write functions once per buffer |
| CbufWrapper.BufWrapperCorrect | src/cbuf/cbuf_generate_ml.ml:646-729 | for every list of arguments and byte buffers the wrapper creates each buffer afresh at its declared length, calls the external once on lowered arguments then buffers, and returns the buffers in the description's nesting paired with the reply |
| CbufWrapper.RetbufResultIff | src/cbuf/cbuf_generate_ml.ml:714-729 | the result is paired as it comes; that is the raised result, whatever the views do, exactly for types that need no conversion |
| EndToEnd.WrapperWheneverStub | src/cstubs/cstubs_generate_ml.ml:378-522 | whenever the C stub of a description is generated, so is its wrapper |
| EndToEnd.CallsOnce | src/cstubs/cstubs_generate_c.ml:206-240 | the end of a stub adds exactly one call of the foreign function to the trace, on the given arguments |
| EndToEnd.CallThroughBothSides | src/cstubs/cstubs_generate_c.ml:187-250 | the wrapper over the stub the dispatch makes: lower, project, exactly one call of the C function of the name asked for on the non-void arguments in order, inject, raise, for every description and every policy that calls C directly, the external's reply being a pair when errno is returned |
| EndToEnd.ErrnoIsTheCalls | src/cstubs/cstubs_generate_c.ml:213-240 | where only C sets errno and it is to be returned, the C function finds it zero, and what is paired with the injected result, last of all, is what the function left |
| EndToEnd.ErrnoLeftAlone | src/cstubs/cstubs_generate_c.ml:206-213 | where it is not to be returned, the function finds the errno there was before the stub, and what it leaves is there after it |
| EndToEnd.BuffersAreNew | src/cbuf/cbuf_generate_ml.ml:588-614 | the buffers of one call are of their declared lengths and pairwise different, and none is an argument, occurs inside one, or has been seen by C before |
| EndToEnd.BufStubGenerates | src/cbuf/cbuf_generate_c.ml:212-267 | every supported description with byte buffers gets a stub |
| EndToEnd.BuffersThroughBothSides | src/cbuf/cbuf_generate_ml.ml:646-729 | the wrapper over the generated stub, with return buffers and either errno policy: buffers created afresh, exactly one call of the C function, whose arguments are by index the buffer addresses and then the projected arguments at First, the other way round at Last; the buffers returned in their nesting paired with the reply as it comes |
| LwtJob.JobNamesDiffer | src/cstubs/cstubs_generate_c.ml:386-409 | all fields of a job, its own and the arguments', are pairwise distinct, so none can overwrite another |
| LwtJob.JobArgTypes | src/cstubs/cstubs_generate_c.ml:510-521 | a job's arguments are, in order, the parameters that are not void, each named by its position among them |
| LwtJob.ReadsLikeAStub | src/cstubs/cstubs_generate_c.ml:365-384 | a job reads each argument with the function a direct stub reads it with |
| LwtJob.JobStubMeaning | src/cstubs/cstubs_generate_c.ml:478-496 | the job stub takes one argument for each parameter that is not void, roots them, makes a job, clears its status, reads each argument with the function for its type, in order, and stores what was read in the field named by its position, hands the job over and drops the roots |
| LwtJob.FillStores | src/cstubs/cstubs_generate_c.ml:489-494 | after the stub each field of the job holds its own argument's projection |
| LwtJob.WorkerMeaning | src/cstubs/cstubs_generate_c.ml:411-447 | the worker reads its arguments off the job in order, calls C once on them, and stores the result and errno; it leaves by a return although its end is built by a bind after a return |
| LwtJob.JobMakesTheCall | src/cstubs/cstubs_generate_c.ml:411-523 | run at any later time the worker makes exactly one call of the C function, on what the stub read, one argument for each parameter that is not void, in order, converted to that parameter's type; the job then holds the reply and, if asked for, errno; the worker touches neither OCaml's heap nor the lock |
| LwtJob.StatusIsTheCalls | src/cstubs/cstubs_generate_c.ml:425-440 | where only C sets errno and it is to be returned, the worker's call finds it zero and the status is what the call left |
| LwtJob.ResultMeaning | src/cstubs/cstubs_generate_c.ml:449-476 | the result function injects the stored reply, with errno puts it first in a pair whose second component is the stored status, frees the job and closes its root frame |
| LwtJob.PairHolds | src/cstubs/cstubs_generate_c.ml:455-470 | with errno the reply is a new tuple whose first field was last given the injected reply and whose second the status as an OCaml `sint` |
| LwtJob.JobAnswers | src/cstubs/cstubs_generate_c.ml:386-534 | stub, worker and result together, at any times and whatever happens in between that leaves the job's fields alone: one foreign call on what was read for each parameter that is not void, in order and converted to its type, answered with its reply and errno |
| Declarator.FormatMeaning | src/ctypes/ctypes_type_printing.ml:13-110 | whatever declarator stands in the place of the name, in either context, a printed type is specifiers and a declarator that parse to the type's base and derivations around it |
| Declarator.TypeRoundTrip | src/ctypes/ctypes_type_printing.ml:115-119 | the tokens printed for any type, named or not, parse by sections 6.7.2, 6.7.6 and 6.7.7 of ISO/IEC 9899:2011 as one declaration of that name; the C type comes back exactly when no function type inside prints a lone void parameter |
| Declarator.FunctionRoundTrip | src/ctypes/ctypes_type_printing.ml:97-125 | the same for function types |
| Declarator.PrimitiveComesBack | src/configure/gen_c_primitives.ml:28-66 | a primitive's printed name is read, by 6.7.2 of the same standard, as the C type it is documented to represent; two primitives are printed alike exactly when they share that name: `int` and `sint`, and the two integers of an OCaml word |
| Declarator.ErasedMembers | src/ctypes/ctypes_type_printing.ml:76-84 | the members of a structure or union read back are its fields, in order, each with its own name and type |
| Declarator.ParsedIffNoLoneVoid | src/ctypes/ctypes_type_printing.ml:86-110 | what is parsed equals the erased type exactly under that condition, at every depth, members of structures included |
| Declarator.LoneVoidExample | src/ctypes/ctypes_type_printing.ml:86-110 | a function of one parameter, void behind an unnamed view, is printed like a function of none |
| Callspec.SlotsInOrder | src/ctypes-foreign/ffi_call_stubs.c:256-257 | argument slots are aligned, in order, disjoint and inside the argument area |
| Callspec.OffsetsAreLeast | src/ctypes-foreign/ffi_call_stubs.c:90-98 | no aligned, ordered placement of the same arguments puts any of them earlier |
| Callspec.OffsetsStay | src/ctypes-foreign/ffi_call_stubs.c:243-272 | arguments added later move none that are there |
| Callspec.CallSpecification.Grow | src/ctypes-foreign/ffi_call_stubs.c:259-264 | the grown type array keeps every earlier entry |
| Callspec.CallSpecification.AddArgument | src/ctypes-foreign/ffi_call_stubs.c:243-272 | appends the type, keeps what was there, stays null-terminated and within a capacity that grows by eight when needed, and returns the slot's offset |
| Callspec.CallSpecification.Prep | src/ctypes-foreign/ffi_call_stubs.c:301-339 | places the return slot after the arguments, aligned, followed by one pointer-sized word; the place the result is read from is where it is, whatever the machine's byte order |
| Callspec.CallSpecification.ComputeArgBufferSize | src/ctypes-foreign/ffi_call_stubs.c:192-203 | computes the layout's size and place of the pointer array, which is aligned, clear of the widened return slot, and holds every entry |
| Callspec.CallSpecification.PopulateArgArray | src/ctypes-foreign/ffi_call_stubs.c:208-217 | the second computation of the offsets stores at index i the address of the i-th slot |
| Callspec.BufferLayout | src/ctypes-foreign/ffi_call_stubs.c:192-217 | with or without arguments: argument slots, the return slot even widened to a word, the place the result is read from and the aligned entries of the pointer array follow each other without overlap inside the computed buffer; at that place a widened integer has its own bytes, and any other result begins |
| Callspec.ResultIsRead | src/ctypes-foreign/ffi_call_stubs.c:274-296 | after the call, the bytes at the place read are the result's own: the narrow integer's in the machine's byte order, whatever it was widened with, or those of any other result |
| Callspec.StoredByte | src/ctypes-foreign/ffi_call_stubs.c:274-280 | what byte order means: byte i from the least significant is i places from the start, or from the end on a big-endian machine |
| Callspec.ReferenceIndexIff | src/ctypes-foreign/ctypes_ffi.ml:186-196 | an OCaml reference is put at its own element's index exactly when no void parameter comes before it |
| Callspec.OffsetsAgree | src/ctypes-foreign/ctypes_ffi.ml:186-196 | the offset given out while types are still being added is the one the finished argument array has for the same argument |
| Callspec.AddParameter | src/ctypes-foreign/ctypes_ffi.ml:122-126 | a parameter's element is appended, none for void, and its offset is the one its writer is given |
| Callspec.BuildCallspec | src/ctypes-foreign/ctypes_ffi.ml:186-196 | building a call specification adds one element per non-void parameter, places the result's reading as described, and returns the writers just described |
| Callspec.WriteArg | src/ctypes-foreign/ctypes_ffi.ml:158-176 | one argument is written into its slot and nowhere else, or its reference put at its index, raising past the end |
| Callspec.RunWriters | src/ctypes-foreign/ctypes_ffi.ml:107-114 | iterating over the writers has the effect of running each in turn, up to the first that raises |
| Callspec.WritersInAnyOrder | src/ctypes-foreign/ctypes_ffi.ml:107-120 | in whatever order disjoint writers run, every argument ends up in its slot and every reference at its index; they raise exactly when some index is past the end |
| Callspec.InvokeOrder | src/ctypes-foreign/ctypes_ffi.ml:99-120 | the recursion of `invoke` runs every writer once, last argument first |
| Callspec.ArrivalIff | src/ctypes-foreign/ctypes_ffi.ml:158-204 | after the writers, in any order, every parameter's argument stands at its own element exactly when no void comes before an OCaml reference |
| Callspec.ReferenceLost | src/ctypes-foreign/ctypes_ffi.ml:158-196 | otherwise the first reference with a void before it is lost: its element stays unset, or the writers raise, which they do exactly when some reference's position is past the last element |
| Callspec.LoneReferenceExample | src/ctypes-foreign/ctypes_ffi.ml:158-164 | void followed by one reference: the writer raises |
| Callspec.InvokeArrivalIff | src/ctypes-foreign/ctypes_ffi.ml:99-204 | the same for the writers `build_ccallspec` makes, run as `invoke` runs them |
| ClosureTable.InvKept | src/ctypes-foreign/ctypes_closure_properties.ml:26-95 | the invariant of the tables, the lock and every thread's position holds across each step of each thread and finaliser |
| ClosureTable.RetrieveFindsRecorded | src/ctypes-foreign/ctypes_closure_properties.ml:66-95 | in every interleaving, an id that `record` returned is found with its recorded value as long as the closure is reachable; for a static function, with the value of its first recording |
| ClosureTable.IdsCollideOnlyForStatics | src/ctypes-foreign/ctypes_closure_properties.ml:36-83 | two recordings share an id exactly when they are of the same static function |
| ClosureTable.StaticIdsAreStable | src/ctypes-foreign/ctypes_closure_properties.ml:36-44 | a static function's id never changes |
| ClosureTable.FinalisersFinish | src/ctypes-foreign/ctypes_closure_properties.ml:48-59 | from any reachable state and whoever holds the lock, a bounded number of a thread's own steps finish all its finalisers; of each the entry is then gone or the finaliser installed again, and while another thread holds the lock nothing is removed |
| ClosureTable.ReturnedThreadsHoldNothing | src/ctypes-foreign/ctypes_closure_properties.ml:66-95 | no path out of `record` or `retrieve`, Not_found included, leaves the lock held |
| ClosureTable.NoDeadlock | src/ctypes-foreign/ctypes_closure_properties.ml:48-95 | while any call or finaliser is unfinished some thread can move |
| ClosureTable.HolderReleases | src/ctypes-foreign/ctypes_closure_properties.ml:48-95 | the holder's own steps release the lock within a bound read off from where it stands |
| ClosureTable.FinishIsARun | src/ctypes-foreign/ctypes_closure_properties.ml:66-95 | a call run to its end alone is one of the machine's runs |
| ClosureTable.OneFinaliserKept | src/ctypes-foreign/ctypes_closure_properties.ml:48-64 | a key never has more than one finaliser, counting those to be installed, installed, running and done |
| ClosureTable.EntryIffPending | src/ctypes-foreign/ctypes_closure_properties.ml:66-75 | for a closure still reachable when `record` returned, in every later state its id has an entry exactly while its finaliser waits to run or is running and has not removed it |
| ClosureTable.LeakedIff | src/ctypes-foreign/ctypes_closure_properties.ml:48-75 | once no finaliser is left for a recorded closure, its entry remains exactly when the finaliser had run before `record` added the entry |
| ClosureTable.LeakExample | src/ctypes-foreign/ctypes_closure_properties.ml:66-75 | a run of one thread in which a closure dies while it is being recorded and its entry stays for good |
| ClosureTable.Table.StoreNonClosureFunction | src/ctypes-foreign/ctypes_closure_properties.ml:36-44 | returns the id the function has, changing nothing, or enters it in both tables |
| ClosureTable.Table.Record | src/ctypes-foreign/ctypes_closure_properties.ml:66-83 | leaves exactly the state the machine's uninterrupted call leaves, with the lock free |
| ClosureTable.Table.Retrieve | src/ctypes-foreign/ctypes_closure_properties.ml:85-95 | returns the stored value or Not_found and changes nothing, lock included |
| ClosureTable.Table.Cleanup | src/ctypes-foreign/ctypes_closure_properties.ml:48-59 | removes the entry when the lock is free, installs the finaliser again when it is not |
| Coerce.CoercibleIff | src/ctypes/ctypes_coerce.ml:70-107 | which types coerce: views aside, to void, between primitives read at the same OCaml type (three excepted), and between pointers of any kind |
| Coerce.PrimCoercesIff | src/ctypes/ctypes_coerce.ml:43-68 | which primitives coerce: those read as OCaml's `int`, as `float` or as `Complex.t` among themselves, any other with itself, three excepted |
| Coerce.FnCoercibleIff | src/ctypes/ctypes_coerce.ml:109-122 | function types coerce exactly when arities agree, results coerce, and parameters coerce the other way round |
| Coerce.CoercibleTransitive | src/ctypes/ctypes_coerce.ml:70-107 | coercibility of types is transitive |
| Coerce.FnCoercibleTransitive | src/ctypes/ctypes_coerce.ml:109-122 | coercibility of function types is transitive |
| Coerce.ReflexiveIff | src/ctypes/ctypes_coerce.ml:43-107 | exactly which types coerce to themselves; sint, long double, long double complex and structures do not |
| Coerce.CoercionMeaning | src/ctypes/ctypes_coerce.ml:70-107 | a coercion writes down through the first type's views, converts, and reads up through the second's, up to a pointer's reference type |
| Coerce.AddressesKept | src/ctypes/ctypes_coerce.ml:87-106 | coercions among pointers and function pointers keep the address |
| Coerce.IdentityIff | src/ctypes/ctypes_coerce.ml:70-107 | the coercion is the identity exactly between structurally identical types: primitives read at the same OCaml type, pointers to such types, pointers to such functions |
| Coerce.FnIdentityIff | src/ctypes/ctypes_coerce.ml:109-122 | the same for function types, parameters the other way round |
| Coerce.ReferenceTypeIff | src/ctypes/ctypes_coerce.ml:87-106 | a coerced pointer or function pointer carries its new target unless the types are identical, when it is returned as it is, with the target it had |
| Coerce.OldReferenceExample | src/ctypes/ctypes_coerce.ml:73-89 | from pointer to int to pointer to short the pointer stays a pointer to int |
| Coerce.CoercionsCompose | src/ctypes/ctypes_coerce.ml:70-107 | two coercions by way of a type whose views' writes undo their reads are the direct one, up to a pointer's reference type |
| Coerce.ShapesCompose | src/ctypes/ctypes_coerce.ml:109-119 | each of the three shapes with a short cut is the composed one, where the identity does nothing |
| Coerce.CoercedFunction | src/ctypes/ctypes_coerce.ml:109-132 | at any arity a coerced function coerces each argument the other way round, calls the original and coerces its result; the identity short cuts make no difference |
| Coerce.FnCoercionsCompose | src/ctypes/ctypes_coerce.ml:109-132 | a function coerced by way of a middle function type whose views' writes undo their reads is the one coerced directly, on all arguments, up to a pointer's reference type |
| StructLayout.AlignedOffsetIsLeast | src/ctypes/ctypes_structs_computed.ml:22-25 | no aligned offset lies between the given offset and the one returned |
| StructLayout.FieldsInOrder | src/ctypes/ctypes_structs_computed.ml:27-37 | fields are aligned, in declaration order, and disjoint |
| StructLayout.PaddingIsLeast | src/ctypes/ctypes_structs_computed.ml:27-37 | no aligned, ordered placement of the same fields puts any of them earlier |
| StructLayout.SizeIsLeast | src/ctypes/ctypes_structs_computed.ml:49-57 | a sealed structure covers its fields and its size is the least multiple of its alignment that does |
| StructLayout.ElementsAlignedIff | src/ctypes/ctypes_structs_computed.ml:49-57 | in an array of two or more, every field of every element is aligned exactly when each field's alignment divides the size |
| StructLayout.OddAlignmentExample | tests/test-alignment/test_alignment.ml:128 | with an alignment of 33 beside one of 4 the second element of an array is misaligned |
| StructLayout.AlignedThroughout | src/ctypes/ctypes_static.ml:128-156 | with power-of-two alignments everything inside an aligned value is aligned: structures, unions and arrays nested to any depth |
| StructLayout.SizeIsWhatScalarsNeed | src/ctypes/ctypes_static.ml:128-140 | with power-of-two alignments, at an aligned address, every scalar inside a value of any depth ends by an aligned place exactly when the value does: no size, of structure, union or array, is larger or smaller than its scalars need |
| StructLayout.SizeIsLeastThroughout | src/ctypes/ctypes_static.ml:128-140 | and if they end by a place with any larger alignment, so does the value |
| StructLayout.SizedIffAligned | src/ctypes/ctypes_static.ml:128-156 | `sizeof` and `alignment` raise for the same types |
| StructLayout.BigarrayLikeArrays | src/ctypes/ctypes_static.ml:128-156 | a bigarray is as large, and as aligned, as the array of arrays with its elements |
| StructLayout.Structure.AddField | src/ctypes/ctypes_structs_computed.ml:27-47 | appends the field at its least aligned place, or at zero in a union; each exception with its condition, nothing changed when it is raised |
| StructLayout.Structure.Seal | src/ctypes/ctypes_structs_computed.ml:49-68 | completes the type with the specification described, its fields in declaration order; when a union's maxima raise it stays unsealed with its fields turned round |
| Memory.ReadBack | src/ctypes/ctypes_memory.ml:47-97 | what was written is read back, through any views, if the type's storage can hold it; of an aggregate, the bytes |
| Memory.PathInside | src/ctypes/ctypes_memory.ml:283-288 | the place at the end of any path of fields and elements lies within the value |
| Memory.PathExtends | src/ctypes/ctypes_memory.ml:99-118 | one more step along a path adds the field's offset, or as many elements as the index says |
| Memory.ElementPlace | src/ctypes/ctypes_memory.ml:177-183 | `CArray.get` and `set` at an index reach the place the path to that element ends at |
| Memory.PathsApart | src/ctypes/ctypes_memory.ml:283-288 | places whose paths part at a structure or an array share no bytes, at any depth |
| Memory.StoresDoNotInterfere | src/ctypes/ctypes_memory.ml:283-288 | `setf` changes only its own bytes, reads back as stored, and leaves every place reached by a parting path as it was |
| Memory.Heap.SetAt | src/ctypes/ctypes_memory.ml:120-122 | storing through a path writes the value's bytes at the path's offset and nothing else |
| Memory.Heap.GetAt | src/ctypes/ctypes_memory.ml:81-97 | loading through a path reads the bytes at the path's offset |
| Memory.Heap.Allocate | src/ctypes/ctypes_memory.ml:127-140 | a new zero-filled block after everything allocated before |
| Memory.Heap.Set | src/ctypes/ctypes_memory.ml:181-183 | checks the bound, then writes the element |
| Memory.Heap.Get | src/ctypes/ctypes_memory.ml:177-179 | checks the bound, then reads the element |
| Memory.Heap.Fill | src/ctypes/ctypes_memory.ml:189-194 | writes the value into every element, first to last |
| Memory.Heap.OfList | src/ctypes/ctypes_memory.ml:230-233 | a new array with the values in order, nothing else changed |
| Memory.Heap.ToList | src/ctypes/ctypes_memory.ml:235-240 | the elements in order |
| Memory.ListRoundTrip | src/ctypes/ctypes_memory.ml:230-240 | `to_list` of `of_list` is the identity on values the type's storage can hold |
| Memory.LoadAllAt | src/ctypes/ctypes_memory.ml:235-240 | the k-th value of `to_list` is the one at the k-th element's place |
| Memory.WriteAllAt | src/ctypes/ctypes_memory.ml:230-233 | the k-th value of `of_list` goes to the k-th element's place |
| Memory.ListOfAggregates | src/ctypes/ctypes_memory.ml:230-240 | of a list of aggregates the bytes are copied, each to its own element |
| Memory.Heap.Copy | src/ctypes/ctypes_memory.ml:208-214 | a new array with the same bytes, sharing none with the original |
| Memory.Heap.Sub | src/ctypes/ctypes_memory.ml:216-219 | the same for a part, raising exactly outside the bounds |
| Memory.CopiesAreSeparate | src/ctypes/ctypes_memory.ml:208-219 | a store into a copy is not seen through the original, nor the other way round |

## Left out

- EndToEnd.BuffersThroughBothSides: returns the stub's reply unraised, and as the pair it is with errno: the wrapper generator ignores the errno policy and binds the result as it comes (src/cbuf/cbuf_generate_ml.ml:310-322, 714-729); CbufWrapper.RetbufResultIff says exactly when raising it would make no difference.
- CbufWrapper.BufWrapperCorrect: buffers of type `ocaml_bytes` nested to the right; other buffer types and other nestings, of which the generator refuses the latter, are not covered on the OCaml side. Declared lengths are natural numbers, so the exception for a negative length is not modelled.
- CbufStub.BufStubRefinesSpec: no buffer but the last may be without a C argument; CbufStub.BufStubMeaning says what the stub does with any buffers, and CbufStub.PassedAsMeantIff when that is what is meant.
- LwtJob.ResultMeaning: the text the original emits for the result and the stub is modelled as programs, reads inside it being named; the printed C of the job structure is not modelled, and exceptions for unsupported types are a predicate.
- MLWrapper.WrapperCorrect: does not cover the two Lwt policies, whose wrappers hand the call to a library that is not shown.
- Externals.ExternalType: the messages of its exceptions leave out the printed type; the attributes of externals are not modelled.
- Callspec.BuildCallspec: views are taken as already written through and types libffi cannot pass as excluded; the exceptions of `arg_type` are not modelled.
- Memory.Write: copying between overlapping places is defined as if through a copy, which C leaves undefined.
- Memory.Load: the copy of a structure that `build` makes for a returned value is not modelled; arrays of negative length are not representable.
- ClosureTable.RetrieveFindsRecorded: about the id tables only, not about the closures' machine code.
- PrimitiveValues.NumbersSurviveIff: about integers; values of `bool` and of floating and complex types are not numbers here, and PrimitiveValues.SameBox and ReadWideEnough say what holds of their tables.
- Analysis.RunAllocatesIff: what the C function itself allocates by calling back into OCaml is outside the model; the analysis of floating types, and the attributes, which are not printed, are left out.
- Integer widths: sizes, offsets and counters are unbounded, so overflow of `size_t` or of `int` is not modelled.
- Structure types as mutable objects shared between descriptions: a description holds the fields and specification it was built with.
- The calls of libffi itself, closures' machine code, dynamic linking, thread registration and the reading and writing of each primitive type: foreign code.
- Formatting boxes, white space and the text the C and OCaml emitters print; bit-fields and qualifiers, which ctypes has no description for.
- Configuration, the public names of type constructors, the enumeration views, the life cycle of dynamic function pointers and the value printer.
