# Fuzzy rule base

A Dafny model of `RuleBase`, the composite of rules in Shark's fuzzy-logic
library (`trunk/Shark/src/Fuzzy/RuleBase.cpp`). A rule base holds three
ordered lists, each changed in place:

- `rules`, the shared handles to its rules;
- `inputFormat` and `outputFormat`, the shared handles to the linguistic
  variables that declare its input and output signature.

A `destructorFlag` guards `removeRule`. The destructor sets the flag before
the held handles are released. From then on, a rule whose own teardown calls
`removeRule` on this rule base changes nothing.

The model is one module, `Fuzzy`, in `rule_base.dfy`:

- `RuleBase<R, V>` is a class. Its fields are the three lists, as `seq`
  values, and the flag. Each method that changes state says what every
  field is afterwards.
- Rule and linguistic-variable handles are opaque identities: the type
  parameters `R` and `V`, compared with `==`, as `std::list::remove`
  compares the reference-counted pointers.
- `RemoveAll` is the meaning of `std::list::remove`: every element equal to
  the value is erased and the others keep their order.
- `Render` is the text `print` builds.
- `Phase` names the two-state lifecycle: `Live` while the flag is false,
  `TearingDown` once it is true. After construction, only `Destroy` and
  `Teardown` change it, and no method sets it back.
- `getNumberOfRules` is declared in `RuleBase.h`, which is not part of this
  model. It is modelled as `NumberOfRules() == |rules|`, the bound `getRule`
  checks indices against.
- `printRule` belongs to `Rule`, which is not part of this model. `Print`
  takes it as a parameter `printRule: R -> string`.
- The C++ overloads of `addToInputFormat` (2, 3 and 4 arguments) and
  `addToOutputFormat` (2 arguments) are `AddToInputFormat2/3/4` and
  `AddToOutputFormat2`. Like the source, they call the one-argument form
  left to right.
- `LookupScenario`, `RemovalScenario`, `FormatScenario` and
  `TeardownScenario` are clients. They show what a caller can conclude from
  the contracts alone.

`removeRule` and `removeFromInputFormat` call `std::list::remove`, which
erases every equal entry (RuleBase.cpp lines 34 and 70). `RemoveAllSingle`
gives the case of a handle present once.

## Model

| member | source | states |
|---|---|---|
| `Fuzzy.RemoveAll` | trunk/Shark/src/Fuzzy/RuleBase.cpp:34 | the result is no longer than the list, no longer holds the value, holds only elements of the list, and keeps every element that differs from the value |
| `Fuzzy.RemoveAllAppend` | trunk/Shark/src/Fuzzy/RuleBase.cpp:34 | removal distributes over concatenation, so the remaining elements keep their relative order |
| `Fuzzy.RemoveAllKeepsOrder` | trunk/Shark/src/Fuzzy/RuleBase.cpp:34 | any two entries that differ from the removed value appear in the result in their original relative order |
| `Fuzzy.RemoveAllMultiset` | trunk/Shark/src/Fuzzy/RuleBase.cpp:34 | exactly the occurrences of the value disappear; every other element keeps its multiplicity |
| `Fuzzy.RemoveAllLength` | trunk/Shark/src/Fuzzy/RuleBase.cpp:32-34 | the list shrinks by the number of occurrences, and it shrinks if and only if the value was present |
| `Fuzzy.RemoveAllAbsent` | trunk/Shark/src/Fuzzy/RuleBase.cpp:32-34 | removing an absent handle leaves the list unchanged, with no error |
| `Fuzzy.RemoveAllSingle` | trunk/Shark/src/Fuzzy/RuleBase.cpp:32-34 | removing a handle present once at index i yields the list without position i: count down by one, later entries shifted down |
| `Fuzzy.RemoveAllIdempotent` | trunk/Shark/src/Fuzzy/RuleBase.cpp:69-71 | removing the same handle twice is the same as removing it once |
| `Fuzzy.AppendThenRemove` | trunk/Shark/src/Fuzzy/RuleBase.cpp:28-34 | appending an absent handle and then removing it restores the list |
| `Fuzzy.RenderAppend` | trunk/Shark/src/Fuzzy/RuleBase.cpp:77-88 | the printed text of two lists joined is the text of the first followed by the text of the second |
| `Fuzzy.RenderEmpty` | trunk/Shark/src/Fuzzy/RuleBase.cpp:77-88 | the text is empty if and only if there are no rules, and otherwise it ends with a newline |
| `Fuzzy.RenderTwo` | trunk/Shark/src/Fuzzy/RuleBase.cpp:81-85 | rules R1, R2 print as printRule(R1), newline, printRule(R2), newline |
| `Fuzzy.RenderAfterAdd` | trunk/Shark/src/Fuzzy/RuleBase.cpp:81-85 | adding a rule appends exactly its printed form and a newline to the text |
| `Fuzzy.RuleBase.constructor` | trunk/Shark/src/Fuzzy/RuleBase.cpp:24-26 | a new rule base is Live, with no rules and empty input and output formats |
| `Fuzzy.RuleBase.Destroy` | trunk/Shark/src/Fuzzy/RuleBase.cpp:16-22 | the destructor body moves the rule base to TearingDown and changes no list |
| `Fuzzy.RuleBase.AddRule` | trunk/Shark/src/Fuzzy/RuleBase.cpp:28-30 | the rule is appended at the end; earlier entries, both formats and the flag are unchanged |
| `Fuzzy.RuleBase.RemoveRule` | trunk/Shark/src/Fuzzy/RuleBase.cpp:32-39 | while Live, every entry equal to the rule is removed; while TearingDown, or when the rule is absent, the rules are unchanged; formats and flag never change |
| `Fuzzy.RuleBase.NumberOfRules` | trunk/Shark/src/Fuzzy/RuleBase.cpp:47 | the number of rules `getRule` checks indices against is the length of the rule list |
| `Fuzzy.RuleBase.GetRule` | trunk/Shark/src/Fuzzy/RuleBase.cpp:46-57 | fails with exception code 7 if and only if the index is negative or not below the number of rules; otherwise returns the rule at that position in insertion order |
| `Fuzzy.RuleBase.AddToInputFormat` | trunk/Shark/src/Fuzzy/RuleBase.cpp:60-62 | the variable is appended to the input format; rules, output format and flag are unchanged |
| `Fuzzy.RuleBase.AddToOutputFormat` | trunk/Shark/src/Fuzzy/RuleBase.cpp:65-67 | the variable is appended to the output format; rules, input format and flag are unchanged |
| `Fuzzy.RuleBase.RemoveFromInputFormat` | trunk/Shark/src/Fuzzy/RuleBase.cpp:69-71 | every equal entry is removed from the input format whatever the phase; an absent variable leaves it unchanged; nothing else changes |
| `Fuzzy.RuleBase.SetInputFormat` | trunk/Shark/src/Fuzzy/RuleBase.cpp:73-75 | the input format becomes exactly the given list, discarding the old one; nothing else changes |
| `Fuzzy.RuleBase.Print` | trunk/Shark/src/Fuzzy/RuleBase.cpp:77-88 | changes nothing and returns the printed form of each rule followed by a newline, in rule order; empty text if and only if there are no rules |
| `Fuzzy.RuleBase.AddToInputFormat2` | trunk/Shark/src/Fuzzy/RuleBase.cpp:90-94 | same input format as two single appends, left to right; nothing else changes |
| `Fuzzy.RuleBase.AddToInputFormat3` | trunk/Shark/src/Fuzzy/RuleBase.cpp:96-102 | same input format as three single appends, left to right; nothing else changes |
| `Fuzzy.RuleBase.AddToInputFormat4` | trunk/Shark/src/Fuzzy/RuleBase.cpp:104-112 | same input format as four single appends, left to right; nothing else changes |
| `Fuzzy.RuleBase.AddToOutputFormat2` | trunk/Shark/src/Fuzzy/RuleBase.cpp:115-119 | same output format as two single appends, left to right; nothing else changes |
| `Fuzzy.RuleBase.Teardown` | trunk/Shark/src/Fuzzy/RuleBase.cpp:16-39 | after the destructor body, any sequence of removeRule callbacks from rules being torn down leaves all three lists unchanged, and the phase stays TearingDown |

## Left out

- Reference counting of `RCPtr` and the actual release of handles after the destructor body: Dafny's heap is garbage-collected. Only the flag-guarded effect of teardown is modelled. `Teardown` takes the callbacks that rules make during their own teardown as a parameter.
- The internals of `Rule`, `LinguisticVariable` and `FuzzyException`, and fuzzy inference itself. `printRule` is a parameter of `Print`, a pure function of the rule; a `printRule` that reads mutable rule state is not modelled.
- The iterator accessors mentioned beside `getRule` (`getFirstIterator`, `getLastIterator`) are declared in `RuleBase.h`, which is not part of this model.
- Integer width: the index passed to `getRule` and the rule count are unbounded integers; the 32-bit `int` of `whichOne` and of the count is not modelled, since a list longer than 2^31 - 1 rules is out of reach.
- `trunk/Shark/include/shark/Core/Math.h`, `trunk/Shark/include/shark/ObjectiveFunctions/Benchmarks/LZ9.h` and `trunk/Shark/examples/Supervised/KNNTutorial.cpp`: floating-point numerics, a floating-point benchmark function and a demo program doing file and console I/O; none of them is part of the rule base.
