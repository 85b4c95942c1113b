# Record store, clone pattern and ratio check — a Dafny model

This project models the behavioural core of a small C# demonstration program
(`Program.cs`):

- **The record store.** `ItemStore` and `ClientRegistry` hold records in a
  private `List<T>`. `Include` refuses `null` with an argument-null error and
  otherwise appends. `Exclude` removes the first element that is the same
  object as its argument, or does nothing when there is none. `LocateById`
  scans the list and returns the first record with the given identifier, or
  `null`. `ObtainAll` returns the records in insertion order. Identifiers
  need not be unique. The two classes are the same code over two record
  types. Here they are one class, `Storage.Store`, over one record class,
  `Records.Record`: `Item` and `Client` differ only in payload fields the
  store never reads. Records are objects, so `==` on them is reference
  identity, as `List.Remove` uses it for classes that do not override
  `Equals`. A C# `null` argument or result is `Option.None`. The thrown
  exception is a returned `Status`.
- **The clone pattern.** `Dot` and `Quadrilateral` have copy constructors
  and `Replicate`. Copying a `Quadrilateral` allocates new `Dot`s, so the
  copy shares no point with the original.
- **The `DecimalNumber` constructor**, which throws on a zero denominator and
  otherwise keeps both components. It is modelled as a function returning a
  `Result`.

Each store operation is stated against specification functions on the stored
sequence. `FindById` is what `List.Find` returns. `RemoveFirst` is what
`List.Remove` leaves. Lemmas about these functions give the properties the
store promises: the lookup is the first match; include-then-lookup finds the
new record; exclude-then-lookup finds nothing; remove cuts out exactly one
position and keeps the order. Two ghost counters record successful
`Include`s and effective `Exclude`s. The store's invariant `Valid` ties them
to the length of the list.

C#'s `int` is the newtype `Numerics.int32`.

## Model

| member | source | states |
|---|---|---|
| `Records.Record.constructor` | Program.cs:127-153 | a new record carries the given identifier, which never changes afterwards (a `const`) |
| `Storage.FindById` | Program.cs:172-175 | the lookup result is absent exactly when no stored record has the identifier; a found record is stored and has that identifier |
| `Storage.FindByIdIsFirst` | Program.cs:172-175 | the lookup yields the record at the first position holding the identifier, so with duplicate identifiers the earliest one wins |
| `Storage.RemoveFirst` | Program.cs:167-170 | removal shortens the list by one exactly when the record is present, and removes exactly one occurrence of it (multiset difference) |
| `Storage.RemoveFirstAt` | Program.cs:167-170 | removal cuts out exactly the first position holding the record and keeps every other record in its order |
| `Storage.RemoveFirstAbsent` | Program.cs:167-170 | removing a record that is not stored leaves the list unchanged |
| `Storage.FindByIdAfterAppend` | Program.cs:159-175 | appending a record never changes an existing match for any identifier; the record becomes the match only for its own identifier and only when there was none |
| `Storage.IncludeThenLocate` | Program.cs:159-175 | after appending a record to a list with no record of its identifier, lookup of that identifier returns that very record |
| `Storage.FindByIdAfterRemove` | Program.cs:167-175 | removing a record leaves the lookup of every other identifier unchanged |
| `Storage.ExcludeThenLocate` | Program.cs:167-175 | after removing the only record with its identifier, lookup of that identifier finds nothing |
| `Storage.Store.constructor` | Program.cs:155-157 | a new store holds no records and satisfies its invariant |
| `Storage.Store.Include` | Program.cs:159-165 | a null record gives an argument-null error and changes nothing; otherwise the record is appended at the end and every earlier record keeps its position; the count of successful includes grows by one |
| `Storage.Store.Exclude` | Program.cs:167-170 | the list becomes `RemoveFirst` of the old list (no error when absent, nothing removed for null); the count of effective excludes grows exactly when something was removed |
| `Storage.Store.LocateById` | Program.cs:172-175 | the linear scan returns exactly `FindById` of the stored list (the first match, or absent) and changes nothing |
| `Storage.Store.ObtainAll` | Program.cs:177-180 | yields the stored records in insertion order, without changing the store; its length is the number of successful includes minus the number of effective excludes |
| `Storage.CatalogLookup` | Program.cs:220-252 | with records 1, 2, 3 included in order, lookup of 2 finds the record with identifier 2 and lookup of 99 finds nothing |
| `Geometry.Dot.constructor` | Program.cs:16-20 | the point holds the given coordinates |
| `Geometry.Dot.Copy` | Program.cs:22-26 | the copy holds both coordinates of the original |
| `Geometry.Dot.Replicate` | Program.cs:28-31 | the replica is a newly allocated point with equal coordinates |
| `Geometry.Quadrilateral.constructor` | Program.cs:39-43 | the rectangle keeps the two given points themselves |
| `Geometry.Quadrilateral.Copy` | Program.cs:45-49 | the copy's two points are newly allocated, distinct from each other, with the coordinates of the original's points |
| `Geometry.Quadrilateral.Replicate` | Program.cs:51-54 | the replica and both its points are newly allocated and equal in coordinates to the original's |
| `Geometry.ReplicaIsIndependent` | Program.cs:45-54 | moving the original's points after replicating leaves the replica's coordinates as they were |
| `Ratio.NewDecimalNumber` | Program.cs:92-98 | construction fails with an argument error exactly when the denominator is zero; otherwise the value holds exactly the given numerator and denominator |

`ClientRegistry` (Program.cs:183-209) is the same code as `ItemStore` and is
covered by the same rows.

## Left out

- `RealNumber.Assess` (Program.cs:73-84): it compares `double` moduli computed with `Math.Sqrt`. Floating point is not modelled.
- `DecimalNumber.Assess` (Program.cs:100-111): it compares `double` quotients. Floating point is not modelled.
- `Main` (Program.cs:218-294): console output and sample wiring. Only the catalog lookups are modelled, by `Storage.CatalogLookup`.
- The interfaces `IClonable<T>`, `IComparer<T>`, `IStorage<T>`, `IItem` and `CustomCode.CloneObject` (Program.cs:6-9, 57-60, 114-125, 211-216): they only delegate.
- The payload fields `Name`, `Price` and `Address`: the store never reads them.
- `Storage.Store.ObtainAll`: returns a snapshot of the list. The C# method returns the live list object, so later changes show through it; aliasing of that object is not modelled.
- `Geometry.Quadrilateral.Copy`: the model's points are never null. In C#, copying a rectangle whose point is null throws `NullReferenceException`, as does `new Dot(null)`.
- `Ratio.NewDecimalNumber`: only this constructor checks the denominator. The default value `new DecimalNumber()` (Program.cs:287) and the public setters can still give a zero denominator. The model's `DecimalNumber` datatype likewise has no invariant.
- Exceptions are modelled as returned values (`Status`, `Result`). Unwinding of the call stack is not modelled.
