# SlashConfig in Dafny

SlashConfig is a small Swift utility for producing modified copies of value
types through a chain: `titan/ .commandingOfficer("Liam Shaw")/ .isActive(true)`.
The postfix `/` wraps a value in `Configurable<T>`; the wrapper offers

- a setter per writable property (a `dynamicMember` subscript returning `(V) -> T`),
- a mapper per writable property (a `dynamicMember` subscript returning `((V) -> V) -> T`),
- a whole-value transform taking an `inout T` closure, spelled `callAsFunction`
  or `configure`.

Each operation copies the wrapped value into a local `var`, changes the copy and
returns it. When `T` has value semantics throughout (a struct or enum whose
stored properties are themselves value types, as the tests' `Starship` is), each
operation is therefore a pure function of the wrapped value and its input, and
this model covers exactly that case.

The model has three modules:

- `Lenses` (`Lenses.dfy`): a `WritableKeyPath<T, V>` is a lens, a pair of
  `get: T -> V` and `put: (T, V) -> T`. The lens laws (get-after-set,
  set-after-get, set-after-set) are the ghost predicate `Lawful`, and
  `Independent` says two lenses designate different fields.
- `SlashConfig` (`SlashConfig.dfy`): `Configurable`, `Wrap` (the postfix `/`),
  `Setter`, `Mapper`, `CallAsFunction`, `Configure`, and chains of re-wrapped
  updates (`Run`). Swift's two same-named subscripts are overloads chosen by the
  type checker; here they are two differently named functions, uncurried, so
  the closure's argument is the function's last argument. The `inout T`
  closure returning nothing is a function `T -> T` from the copy before the
  call to the copy after it.
- `Starships` (`Starships.dfy`): the tests' `Starship` record, `Starship.titan`,
  one lens per stored property, and the three refits the tests assert. A
  trailing closure of the tests is a body of field assignments, modelled as a
  list of `Assignment`s that `Exec` performs in order through the key-path lenses.

The operations carry no preconditions, since the source asks nothing of the key
path. Key paths to plain stored properties obey the lens laws; a key path to a
computed property or to a property with an observer (`didSet`) need not: a
computed property may ignore the value written, and an observer may change
other fields. The contracts of `Setter` and `Mapper` are therefore stated
for a lawful lens (`Lawful(l) ==> ...`). The three Starship lenses are proved
lawful because the tests' record has only plain stored properties.

## Model

| member | source | states |
|---|---|---|
| Lenses.RestoreUndoesSet | Sources/SlashConfig/SlashConfig.swift:14-16 | a write through a lawful key path followed by writing back the old field value returns the original value, so the write touched only its field |
| Lenses.SetInjective | Sources/SlashConfig/SlashConfig.swift:14-16 | two writes of a lawful key path into the same value give equal results exactly when the written values are equal |
| SlashConfig.Wrap | Sources/SlashConfig/SlashConfig.swift:65-67 | the postfix `/` builds a wrapper whose `value` is its argument, unchanged |
| SlashConfig.CallAsFunction | Sources/SlashConfig/SlashConfig.swift:40-44 | `callAsFunction` hands the transform a copy of exactly the wrapped value and returns what the transform leaves in that copy |
| SlashConfig.Configure | Sources/SlashConfig/SlashConfig.swift:55-59 | `configure` hands the transform a copy of exactly the wrapped value and returns what the transform leaves in that copy |
| SlashConfig.Run | Tests/SlashConfigTests/SlashConfigTests.swift:23-26 | a chain `x/ .a(..)/ .b(..)` of no links is `x` itself, and a chain of one link is that link applied to `x` |
| SlashConfig.Setter | Sources/SlashConfig/SlashConfig.swift:12-18 | the setter's result reads back exactly the supplied value at the key path, and restoring the old field value gives back the wrapped value |
| SlashConfig.Mapper | Sources/SlashConfig/SlashConfig.swift:24-30 | the mapper's result holds `f` applied to the field's value before the write, and differs from the wrapped value only at that field |
| SlashConfig.CallAsFunctionIsConfigure | Sources/SlashConfig/SlashConfig.swift:40-59 | `callAsFunction` and `configure` return identical results for every transform |
| Lenses.Modify | Sources/SlashConfig/SlashConfig.swift:27-27 | for a lawful key path, the read-then-write `x[keyPath: k] = f(x[keyPath: k])` leaves `f` of the old field value in the field |
| SlashConfig.SetterStep | Tests/SlashConfigTests/SlashConfigTests.swift:24-24 | for a lawful key path, one link `/ .field(v)` of a chain leaves `v` in the field, whatever value it is given |
| SlashConfig.MapperStep | Tests/SlashConfigTests/SlashConfigTests.swift:25-25 | for a lawful key path, one link `/ .field(f)` of a chain leaves `f` of the field's old value in the field, whatever value it is given |
| SlashConfig.SetterIsolation | Sources/SlashConfig/SlashConfig.swift:13-16 | the setter leaves every field designated by an independent key path as it was in the wrapped value |
| SlashConfig.MapperIsolation | Sources/SlashConfig/SlashConfig.swift:25-28 | the mapper leaves every field designated by an independent key path as it was in the wrapped value |
| SlashConfig.MapperIdentity | Sources/SlashConfig/SlashConfig.swift:24-29 | the mapper with the identity closure returns a value equal to the wrapped one |
| SlashConfig.MapperConstantIsSetter | Sources/SlashConfig/SlashConfig.swift:12-29 | the mapper with a constant closure `_ => v` gives the same result as the setter with `v` |
| SlashConfig.MapperComposes | Sources/SlashConfig/SlashConfig.swift:24-30 | two mappers on one key path, re-wrapped in between, equal one mapper with the composed closure |
| SlashConfig.SetterOverwrites | Sources/SlashConfig/SlashConfig.swift:12-18 | a second setter on the same key path, after re-wrapping, overwrites the first |
| SlashConfig.SettersCommute | Sources/SlashConfig/SlashConfig.swift:12-59 | setters on independent key paths commute across a re-wrap and equal one transform that assigns both fields |
| SlashConfig.ConfigureSubsumesSubscripts | Sources/SlashConfig/SlashConfig.swift:12-59 | a transform assigning one field equals the setter, and one assigning the field from its old value equals the mapper |
| SlashConfig.RunAppend | Sources/SlashConfig/SlashConfig.swift:63-67 | a chain of re-wrapped updates split in two is the second part run on the first part's result |
| SlashConfig.RunSnoc | Sources/SlashConfig/SlashConfig.swift:63-67 | a chain ending in one more link is that link applied to the rest of the chain's result |
| SlashConfig.RunPreservesField | Sources/SlashConfig/SlashConfig.swift:12-30 | a field that no link of a chain changes reads the same after the whole chain |
| SlashConfig.LastSetterWins | Sources/SlashConfig/SlashConfig.swift:12-18 | whatever precedes it in a chain, a final setter decides its field's value |
| SlashConfig.SetterStepPreserves | Sources/SlashConfig/SlashConfig.swift:13-16 | a setter link preserves every field of an independent key path, for any value it is given |
| Starships.FieldLensesLawful | Tests/SlashConfigTests/SlashConfigTests.swift:5-9 | the key paths of the three stored properties of `Starship` obey the lens laws |
| Starships.FieldLensesIndependent | Tests/SlashConfigTests/SlashConfigTests.swift:5-9 | the three stored properties are pairwise independent fields |
| Starships.SetterChangesOneField | Tests/SlashConfigTests/SlashConfigTests.swift:5-9 | the setter through each property's key path yields the whole record with that property replaced and the other two kept |
| Starships.Perform | Tests/SlashConfigTests/SlashConfigTests.swift:35-37 | one closure statement `$0.<field> = v` sets that field to `v` and leaves the other two fields as they were |
| Starships.Exec | Tests/SlashConfigTests/SlashConfigTests.swift:34-38 | running a closure body: an empty body changes nothing, and a field that no statement of the body assigns keeps its value |
| Starships.Closure | Tests/SlashConfigTests/SlashConfigTests.swift:34-38 | the transform a closure body denotes leaves, on every copy, each field with the last value the body assigns to it or its old value if never assigned |
| Starships.ExecSnoc | Tests/SlashConfigTests/SlashConfigTests.swift:34-38 | a closure body followed by one more assignment is the longer body run in order |
| Starships.ExecLastWriteWins | Tests/SlashConfigTests/SlashConfigTests.swift:34-38 | after a closure body every field holds the last value assigned to it, and every unassigned field its value before the call |
| Starships.ExecIsSetterChain | Tests/SlashConfigTests/SlashConfigTests.swift:23-38 | running a closure body of field assignments equals running the chain of setter links for those assignments, in order |
| Starships.ClosureIsSetterChain | Tests/SlashConfigTests/SlashConfigTests.swift:23-38 | one `configure` whose closure assigns fields equals the chain of setters on the same fields with the same values in the same order |
| Starships.AppendA | Tests/SlashConfigTests/SlashConfigTests.swift:25-25 | `$0.appending("-A")` is the registry followed by the two characters "-A" |
| Starships.RefitViaDynamicMemberLookup | Tests/SlashConfigTests/SlashConfigTests.swift:22-31 | the setter/mapper/setter chain on `titan` yields officer "Liam Shaw", registry "NCC-80102-A" and active true, a record different from `titan`, which as a constant keeps its fields |
| Starships.MapperSeesOriginalRegistry | Tests/SlashConfigTests/SlashConfigTests.swift:13-28 | in that chain the mapper receives the original registry "NCC-80102" and produces "NCC-80102-A", and the chain equals its `Run` form |
| Starships.RefitViaClosure | Tests/SlashConfigTests/SlashConfigTests.swift:33-43 | one transform assigning all three fields on `titan` yields the asserted fields and the same record as the chained refit, different from `titan` |
| Starships.RefitMixingTechniques | Tests/SlashConfigTests/SlashConfigTests.swift:45-55 | setter, `configure` setting `isActive = year >= 2396`, then setter yield the asserted fields, and for 2397 the same record as the chained refit; for every year the result differs from `titan` |

## Left out

- Package.swift: a build manifest with no behaviour.
- `@dynamicMemberLookup` and Swift key paths: replaced by explicit lenses passed to `Setter` and `Mapper`; the choice between the two same-named subscripts is type-checker overload resolution and is not modelled.
- Currying: the subscripts return closures; the model takes the closure's argument directly.
- Reference types: `Configurable<T>` places no constraint on `T`. For a class, `var mutatableValue = value` copies a reference, so a write through a key path changes the object that the wrapper and the caller still hold, and the result aliases it. The same holds for a class reference stored inside a struct: the copy shares that object, and the transform closure (`$0.crew.size = 5`) or a reference-writable key path (`\Ship.crew.size`) mutates it in place. The model covers only types with value semantics throughout: Dafny datatypes are immutable values, so the wrapped value and `Starship.titan` cannot change by construction.
- Closure effects: the mapping closure (`V -> V`) and the transform closure (`T -> T`) are modelled as pure functions. Their effects on captured state are not represented, and neither is the promise that the mapping closure is called exactly once. The model only fixes what it is called with: the field's value before the write.
- Trapping key paths: a key path whose write traps, such as `\[Int].[5]` on a shorter array, would crash the setter and the mapper. The model's lens write is total, so such key paths are outside the model.
- Failure propagation: the mapping and transform closures are non-throwing in the source (neither closure type is `throws`), so no error can propagate out of the wrapper and there is no error path to model.
- Transform closures are arbitrary functions `T -> T`; only the tests' closures are modelled as assignment lists, because an arbitrary Swift closure body is not data.
- XCTest plumbing (`XCTestCase`, `XCTAssertEqual`): only the asserted values are kept, as contracts of the refit functions.
