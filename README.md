# Method synthesis for crossplane-tools, modelled in Dafny

This project models the method-generation core of crossplane-tools
(`internal/method/method.go`). The core has three parts.

- **The registry (`Set`).** It maps method names to generators. `Set.Write`
  gathers the names, sorts them, and runs the generator of every name that
  the `Filter` does not reject. A rejected generator never runs.
- **The filter `DefinedOutside(fs, filename)`.** It suppresses a method when
  the pointer method set of the type already has a method of that name
  declared in a file other than `filename`, the file being generated.
- **The generator family.** `NewSetConditions`, `NewGetCondition`, … ,
  `NewSetPortableClassItems` and `NewGetPortableClassItems` each write one
  accessor method. The two `PortableClassItems` generators also write code
  with real logic, and the model gives that code a meaning.

Files (one module each):

- `wrappers.dfy` (`Wrappers`): `Option`.
- `go_strings.dfy` (`GoStrings`): Go's string order `<`, the result of
  `sort.Strings` (modelled as an insertion sort), and `strings.TrimSuffix`.
- `objects.dfy` (`Objects`): the part of `types.Object` the core reads. That
  is the type name and its pointer method set, given as a list of
  (method name, declaring file) pairs.
- `decls.dfy` (`Decls`): the method declarations a generator hands to the
  code builder. Each has a comment, a receiver, a receiver type, a name,
  parameters, a result type and a body. A body is a field path of the
  receiver plus one operation on it: assign, return, call, or one of the two
  item loops.
- `generators.dfy` (`Generators`): the generator kinds as a datatype, with
  the same configuration strings as the `New…` functions. `Generate` gives
  the declaration each one writes.
- `registry.dfy` (`Registry`): `Set`, `Filter`, `DefinedOutside` with its
  scan loop, and `Write`.
- `portable_items.dfy` (`PortableItems`): what the emitted
  `SetPortableClassItems` and `GetPortableClassItems` do at run time, as
  methods of a class whose field `items` is the receiver's `Items`.

Modelling choices:

- `Write` returns the emitted declarations, in order, instead of appending
  them to a `jen.File`. It also returns `invoked`, the registry keys whose
  generators ran, in order. This is a trace of the calls `s[name](f, o)`,
  which the Go method does not return.
- The filter is a Dafny function value, as in Go. A Dafny lambda cannot run
  a loop, so the filter's value is the predicate `DeclaredOutside` (an
  existential). The Go loop itself is the method `ScanMethodSet`, which is
  proved to return exactly that predicate.
- The `fields` constants `NameSpec` and `NameStatus` are taken to be
  `"Spec"` and `"Status"`.
- Go compares strings byte by byte on their UTF-8 encoding. For valid text
  this is the same order as comparing code points one by one, which is what
  `GoStrings.Less` does on Dafny characters.
- The type assertion `i[j].(*element)` followed by the dereference `*actual`
  is a function parameter `narrow: C -> Assertion<E>`. Here `C` stands for
  `resource.PortableClass` and `E` for the element type. It has three
  outcomes:
  - `Points(e)`: a pointer to element `e`, which is kept.
  - `NilPointer`: a nil `*element`. The assertion succeeds, so the
    dereference panics.
  - `OtherType`: the assertion fails, so the input is dropped.
- `&r.Items[i]` wrapped as a `PortableClass` is represented by
  `ItemAddress(i)`. `ItemList.Deref` reads the element it designates.

## Model

| member | source | states |
|---|---|---|
| `GoStrings.LessTransitive` | internal/method/method.go:46 | The string order that `sort.Strings` sorts by is transitive. |
| `GoStrings.LessTotal` | internal/method/method.go:46 | Any two different strings are ordered one way or the other, so the sort is well defined. |
| `GoStrings.Sort` | internal/method/method.go:46 | The result of `sort.Strings` is ascending and a permutation of its input (same multiset). |
| `GoStrings.SortedSetIsStrict` | internal/method/method.go:42-46 | Sorting the distinct keys of a map gives a strictly ascending list that holds exactly those keys. |
| `GoStrings.StrictlySortedUnique` | internal/method/method.go:42-46 | Only one strictly ascending list holds a given set of names, so the result does not depend on the order the map yields them in. |
| `GoStrings.TrimSuffix` | internal/method/method.go:268 | If the name ends in the suffix, result + suffix is the name. Otherwise the result is the name itself. |
| `GoStrings.TrimSuffixAppended` | internal/method/method.go:268 | Trimming a suffix undoes appending it. |
| `Registry.SortedNames` | internal/method/method.go:42-46 | The gathered and sorted names are strictly ascending, and a name is in the list iff it is a registry key. |
| `Registry.Write` | internal/method/method.go:41-54 | The generators run in strictly ascending name order, each at most once. A name's generator runs iff the name is a key and the filter does not reject it. Declaration k is the one the k-th run generator writes. |
| `Registry.WriteIsDeterministic` | internal/method/method.go:41-54 | Two results that both meet `Write`'s contract are equal: the output depends only on the registry, the object and the filter. |
| `Registry.WriteRunsInNameOrder` | internal/method/method.go:46-53 | With keys GetFoo, SetFoo and AddFoo and nothing filtered, the generators run in the order AddFoo, GetFoo, SetFoo. |
| `Registry.ScanMethodSet` | internal/method/method.go:66-77 | The scan returns true iff the method set has a method of that name declared in a file other than the target file. |
| `Registry.DefinedOutside` | internal/method/method.go:64-78 | The filter rejects (o, name) exactly when some method of o's method set has that name and a declaring file other than `filename`. |
| `Registry.NoMatchIsNotSuppressed` | internal/method/method.go:67-76 | With no method of that name, the filter does not suppress. |
| `Registry.SameFileIsNotSuppressed` | internal/method/method.go:69-76 | If every method of that name is declared in the target file, the filter does not suppress. |
| `Registry.OtherFileIsSuppressed` | internal/method/method.go:72-74 | One method of that name declared in another file suppresses, wherever it stands in the set. |
| `Registry.HandWrittenMethodIsNotGenerated` | internal/method/method.go:48-52 | A Validate method declared in manual.go stops `Write`, generating zz_generated.go, from running the Validate generator. |
| `Generators.Generate` | internal/method/method.go:82-294 | Each generator writes one method named after itself, with receiver `receiver *T` for the object's type T and the comment "X of this T.". |
| `Generators.PairsShareField` | internal/method/method.go:82-294 | Setters and getters pair up: the partner of the partner is the generator itself, exactly one of the two is a setter, and both access the same field of the receiver. |
| `Generators.StatusDelegation` | internal/method/method.go:82-122 | The condition and binding-phase methods act on `Status` by calling the `Status` method of their own name. |
| `Generators.SpecFields` | internal/method/method.go:124-262 | A reference accessor SetX/GetX reads or writes `Spec.X`. The reclaim-policy accessors use the configured field's `ReclaimPolicy`. |
| `Generators.SignatureShape` | internal/method/method.go:82-294 | A setter takes one argument, returns nothing, and its body assigns, calls or narrows, passing exactly that argument on. A getter takes nothing, returns a value, and its body returns a field, a call's result or the wrapped items. The exception is `GetCondition`: it takes variadic conditions, returns nothing and only calls `Status.GetCondition(c...)`. |
| `Generators.PairTypesAgree` | internal/method/method.go:102-262 | For every pair except the conditions, the type a setter takes is the type its getter returns, given the same configuration. |
| `Generators.ReclaimPolicyQualifiers` | internal/method/method.go:243-259 | `SetReclaimPolicy` qualifies `ReclaimPolicy` by its `core` argument and `GetReclaimPolicy` by its `runtime` argument. The two types agree iff those paths are equal. |
| `Generators.ReferenceTypes` | internal/method/method.go:124-238 | The claim, resource and non-portable class references are `*ObjectReference`. The portable class reference is `*LocalObjectReference`. The connection secret reference is a `LocalObjectReference` value, not a pointer. |
| `Generators.ItemsElementType` | internal/method/method.go:266-271 | `SetPortableClassItems` narrows to the type named after the list type minus a trailing "List". A name without that suffix is used unchanged. |
| `PortableItems.Narrowed` | internal/method/method.go:271-276 | The narrowed inputs are never more than the inputs. |
| `PortableItems.Survivors` | internal/method/method.go:273 | The positions whose narrowing succeeds, ascending: every listed position narrows and every narrowing position is listed. |
| `PortableItems.NarrowedKeepsSurvivorsInOrder` | internal/method/method.go:271-276 | The new `Items` holds one element per input that narrows, in input order: element m is the narrowed m-th such input. |
| `PortableItems.NarrowedMembers` | internal/method/method.go:272-275 | An element is in the new `Items` iff some input narrows to it. |
| `PortableItems.NarrowedAllNarrow` | internal/method/method.go:271-276 | If every input narrows, nothing is dropped and position k holds the narrowed input k. |
| `PortableItems.NarrowedConcat` | internal/method/method.go:272-276 | Narrowing a concatenation narrows each part and concatenates the results. |
| `PortableItems.DropsTheOneThatFails` | internal/method/method.go:273-275 | Of three inputs where only the middle one fails to narrow, the other two are kept in order. |
| `PortableItems.ItemList.SetPortableClassItems` | internal/method/method.go:270-277 | The emitted setter replaces `Items` entirely with the inputs that narrow, in order, dropping inputs of other types. It panics iff some input is a nil `*element`. On a panic, `Items` holds what was appended before the first nil. |
| `PortableItems.ItemList.GetPortableClassItems` | internal/method/method.go:286-292 | The emitted getter returns one address per element of `Items`, and position k designates `Items[k]`. No element is dropped and the order is kept. The result depends only on `Items`, so two calls with no `Set` between them return equal lists. |

## Left out

- The go/types method-set computation (`types.NewMethodSet`, `types.NewPointer`) and the resolution of positions to file names through `token.FileSet`. The method set comes precomputed as (name, declaring file) pairs on the object.
- The jen code builder. Declarations are abstract records, not rendered Go text, and formatting, imports and qualification rendering are not modelled.
- The `sort.Strings` algorithm. Only its result is modelled, by an insertion sort proved to return an ascending permutation.
- Go's dynamic type assertion. It is the parameter `narrow`. Whether a value satisfies `*element` is not modelled beyond that function.
- PortableItems.ItemList.SetPortableClassItems: does not model the capacity hint `len(i)` given to `make`, because capacity has no observable effect on the contents.
- PortableItems.ItemList.SetPortableClassItems: the panic on a nil `*element` is a returned flag. The model does not capture the unwinding of the caller's stack or a `recover`.
- PortableItems.ItemList.GetPortableClassItems: does not model aliasing between the returned addresses and a later reallocation of `Items`. An `ItemAddress` always designates the current `Items[k]`, whereas in Go an old pointer keeps designating the old backing array.
- Whether the generated code compiles or is type-correct is not modelled.
