# Units, teams and a growable array — a Dafny model

This project models the core of ConsoleApplication10, a small C++ program in which
game units are grouped into teams:

- `Array<T>`, a generic growable array with a buffer, a `size` and a `capacity`.
  `add` doubles the capacity when the buffer is full. `remove` shifts later
  elements left. `operator[]` is bounds-checked. Bad indices throw
  `std::out_of_range`.
- `Unit` (and its only concrete kind, `Warrior`), a record with a name, a health
  value and a position.
- `Team`, a named collection of `Unit*` built on `Array<Unit*>`, with `addMember`,
  `removeMember` and `findMember`. The last two search by name and act on the
  first match.

Modules, one per component:

| file | module | models |
|---|---|---|
| `wrappers.dfy` | `Wrappers` | `Option` (a pointer that may be `nullptr`) and `Result` (a return or a throw) |
| `units.dfy` | `Units` | `Unit`, `Warrior`, the coordinate fields of `Position` |
| `arrays.dfy` | `Arrays` | `Array<T>` |
| `teams.dfy` | `Teams` | `Team` |
| `demo.dfy` | `Demo` | `main`, and removing a member from the middle of a team |

Modelling choices:

- A member function that mutates its object is modelled as an operation that
  takes the old state and returns the new one. The copy loop of `resize`, the
  shift loop of `remove` and the name searches of `Team` are kept as loops, with
  their invariants.
- The array's fields are kept as they are: `data` is a sequence of `capacity`
  slots, and the first `size` slots hold the elements. A slot past `size` is
  either `None` (allocated by `new T[n]` and never assigned) or a stale copy left
  by `remove`, which never clears the old last slot. The abstract contents are
  `Contents()`, the slots `[0, size)` in order.
- A `Unit*` is a `Ref`, an address into the caller's `Heap` (a map from addresses
  to units). So `findMember` returns a pointer, not a copy. A team never changes
  or frees the units it points to.
- The `int` fields are the 32-bit range (`Int32`). In C++, signed overflow in
  `move` is undefined, so `Move` requires that the new coordinates fit.
- Calling `add` on an array built with capacity 0 is undefined behaviour.
  Doubling 0 gives 0, so line 49 stores outside the buffer. `Add` therefore
  requires a positive capacity. `Team` always uses the default capacity of 10.
- A bad index has no effect on the array. In the model, the failing operation
  returns `Failure(OutOfRange)` and the caller still holds the old state.

## Model

| member | source | states |
|---|---|---|
| Units.NewWarrior | ConsoleApplication10/ConsoleApplication10.cpp:126-139 | after construction, `getName`, `getHealth` and `getPosition` return exactly the constructor's arguments; the kind is `Warrior` |
| Units.SetName | ConsoleApplication10/ConsoleApplication10.cpp:141-143 | any name is stored, the empty one included; kind, health and position are unchanged |
| Units.SetHealth | ConsoleApplication10/ConsoleApplication10.cpp:145-147 | any health is stored, zero and negative included, with no clamping; no other field changes |
| Units.SetPosition | ConsoleApplication10/ConsoleApplication10.cpp:149-152 | both coordinates are overwritten with the arguments; name, health and kind are unchanged |
| Units.Move | ConsoleApplication10/ConsoleApplication10.cpp:154-157 | the new coordinates differ from the old ones by exactly `dx` and `dy`; no other field changes |
| Units.MoveIsDisplacedSetPosition | ConsoleApplication10/ConsoleApplication10.cpp:149-157 | moving is the same as setting the position to the current coordinates plus the deltas |
| Units.MoveCompose | ConsoleApplication10/ConsoleApplication10.cpp:154-157 | two moves equal one move by the summed deltas |
| Units.MoveThenBack | ConsoleApplication10/ConsoleApplication10.cpp:154-157 | moving by the opposite deltas restores the unit exactly |
| Units.SetPositionOverwrites | ConsoleApplication10/ConsoleApplication10.cpp:149-157 | `setPosition` discards any earlier movement or any earlier `setPosition` to arbitrary coordinates |
| Units.SettersIndependent | ConsoleApplication10/ConsoleApplication10.cpp:141-152 | the setters touch disjoint fields, so they commute; for any two names (healths) the last `setName` (`setHealth`) wins; writing a field's own value (name, health or position) changes nothing |
| Arrays.Create | ConsoleApplication10/ConsoleApplication10.cpp:38-39 | a new array is empty, satisfies the invariant and has the requested capacity |
| Arrays.Grow | ConsoleApplication10/ConsoleApplication10.cpp:27-35 | `resize` doubles the capacity, keeps `size <= capacity`, and copies the elements `[0, size)` in order, so none is lost or moved |
| Arrays.Add | ConsoleApplication10/ConsoleApplication10.cpp:45-50 | the contents become the old contents followed by `item`; the size goes up by one; the capacity doubles exactly when the buffer was full; the invariant is kept |
| Arrays.ZeroCapacityAddWritesPastBuffer | ConsoleApplication10/ConsoleApplication10.cpp:27-49 | an array constructed with capacity 0 and then resized is still full (`size == capacity == 0`), so the store of `add` at index `size` lies past the buffer |
| Arrays.AddAll | ConsoleApplication10/ConsoleApplication10.cpp:45-50 | after any sequence of `add` calls, the size has grown by the number of calls and the contents end with the added items in order |
| Arrays.Remove | ConsoleApplication10/ConsoleApplication10.cpp:52-60 | fails with out-of-range exactly when `index >= size`, including size 0; otherwise the contents become `s[..index] + s[index+1..]`, the capacity is kept, the size drops by one, and the old last slot keeps its stale value |
| Arrays.At | ConsoleApplication10/ConsoleApplication10.cpp:62-74 | both `operator[]` overloads fail with out-of-range exactly when `index >= size`, and otherwise give the element at `index` |
| Arrays.Put | ConsoleApplication10/ConsoleApplication10.cpp:62-67 | a store through the non-const `operator[]` fails as a read would; otherwise it replaces exactly that element and keeps the invariant |
| Arrays.PutThenAt | ConsoleApplication10/ConsoleApplication10.cpp:62-74 | reading an index just written gives the written item; every other index reads as before |
| Arrays.Size | ConsoleApplication10/ConsoleApplication10.cpp:76-78 | `getSize` is the number of elements in the contents |
| Arrays.Print | ConsoleApplication10/ConsoleApplication10.cpp:80-84 | `print` visits exactly the contents, in index order |
| Teams.NewTeam | ConsoleApplication10/ConsoleApplication10.cpp:194 | a new team has the given name and no members |
| Teams.AddMember | ConsoleApplication10/ConsoleApplication10.cpp:196-198 | the pointer is appended with no check for null or duplicates; the name is kept |
| Teams.FirstNamed | ConsoleApplication10/ConsoleApplication10.cpp:209-216 | the reference definition of the name search: the returned index is the lowest one whose unit has the name, or the length when there is none |
| Teams.FindMember | ConsoleApplication10/ConsoleApplication10.cpp:209-216 | returns the member at the first index with that name, and `nullptr` exactly when no member has it; the team is not changed |
| Teams.RemoveMember | ConsoleApplication10/ConsoleApplication10.cpp:200-207 | takes out the member at the first index with that name and keeps the rest in order; the team is exactly unchanged when no member has the name |
| Teams.WithoutFirstKeepsOthers | ConsoleApplication10/ConsoleApplication10.cpp:200-207 | members before the removed one keep their index; the ones after it move down one place |
| Teams.WithoutFirstIsPermutationMinusOne | ConsoleApplication10/ConsoleApplication10.cpp:200-207 | removal takes out exactly one pointer, the first match, and nothing else |
| Teams.WithoutFirstDropsOneMatch | ConsoleApplication10/ConsoleApplication10.cpp:200-207 | only the first match is removed: the number of members with the name drops by exactly one, or stays 0 |
| Teams.CountZeroIffNotFound | ConsoleApplication10/ConsoleApplication10.cpp:209-216 | the search runs off the end exactly when no member has the name |
| Teams.RemovedUniqueNameIsGone | ConsoleApplication10/ConsoleApplication10.cpp:200-216 | after removing a name held by at most one member, searching for that name finds nothing |
| Teams.Print | ConsoleApplication10/ConsoleApplication10.cpp:218-221 | after the header, one unit is printed per member, in member order, and each is read from the heap unchanged |
| Demo.Fellowship | ConsoleApplication10/ConsoleApplication10.cpp:246-254 | the demonstration prints Aragorn (100, (0,0)) and then Boromir (90, (1,1)) for team "Fellowship", and leaves both units unchanged |
| Demo.RemoveMiddle | ConsoleApplication10/ConsoleApplication10.cpp:200-216 | removing "B" from members A, B, C leaves A, C; then searching for "B" finds nothing and searching for "C" finds the third unit |

## Findings

| source | as written | input that shows it | evidently intended | confidence | as-written member | corrected member |
|---|---|---|---|---|---|---|
| ConsoleApplication10/ConsoleApplication10.cpp:38-49 | the constructor accepts `initialCapacity == 0`; `resize` doubles 0 to 0, so `data[size++] = item` stores past the buffer | `Array<int> a(0); a.add(1);` | `add` always has room after `resize`, which holds when the capacity starts at 1 or more | not executed | Arrays.ZeroCapacityAddWritesPastBuffer | Arrays.Add |

`Arrays.Add` requires a positive capacity and proves that the store at index
`size` is inside the buffer and that the item is appended. `Teams.NewTeam` uses
the default capacity 10, so every team meets that requirement.

## Left out

- `Unit::moveTowards` and `Unit::distanceTo` are left out. They forward to `Position::moveTowards` and `Position::distance`, which live in `Position.h`, and `Position.h` is not part of this model. Its `getX`/`setX`/`getY`/`setY` are assumed to be plain field access.
- The text formats of `Warrior::print` and `Team::print` (console I/O) are left out. Only the order in which units are printed is modelled.
- `new`/`delete[]` in the constructor, the destructor and `resize` are left out, and so is `delete` of units in `main`. These are memory management, not behaviour. The missing copy constructor is also left out: copying an `Array` would free its buffer twice.
- Virtual dispatch through `IPrint` is left out. Units are one datatype with a `Kind` tag.
- `size_t` wrap-around when `capacity *= 2` overflows is not modelled. Sizes are unbounded naturals, and memory runs out long before that point.
- Teams.FindMember: requires every member pointer to be live. The C++ loop only dereferences pointers up to the first match. This follows the ownership rule that units must outlive every team that points to them.
- Teams.RemoveMember: requires every member pointer to be live, for the same reason as `FindMember`.
- Arrays.Add: takes `item` by value. In the source, `add` takes `const T&`. If that reference points into the same array, as in `a.add(a[0])` on a full array, then `resize` frees the buffer it points into, and line 49 reads freed memory. That is undefined behaviour, and the model does not reproduce it. `Team::addMember` passes its own by-value parameter, so teams never make such a call.
- Arrays.Put: models only a store made at once through the reference that the non-const `operator[]` returns. A `T&` kept across a later `add` that resizes points into the freed old buffer. The model has no such long-lived references.
- Arrays.Add: requires a positive capacity. With capacity 0, line 49 stores outside the buffer, which is undefined behaviour in C++.
