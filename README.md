# binsert: bisection search and binary insertion for Lua, modelled in Dafny

`binsert` is a Lua C extension with two functions. `bisect(t, v[, cmp])`
finds where `v` belongs in the 1-indexed sorted sequence `t`.
`binsert(t, v[, cmp])` finds the same index, inserts `v` there with the host's
`table.insert`, and returns the index. The comparator is called as
`cmp(v, t[i])`. With a nil third argument it is Lua's `<` (`cmp_lt`), and the
search is then Python's `bisect_right` (`bisect.bisect`), from the library
binsert.c:4-6 names as its basis: a new value goes after every element equal to it.

The model is one module, `Binsert`, in `binsert.dfy`:

- A Lua argument is described by its type (`LuaType`) and, where the code
  looks at it, its metatable. A value in the comparator's place (`CmpArg`)
  carries a `Desc` (type and metafield names) and what a call to it returns,
  as a pure `(T, T) -> bool`. The second argument (`ValueArg`) carries its
  type and the values its metatable holds under `__le` and `__lt`, nil when
  absent.
- `ThirdSlot` is stack slot 3 after `lua_settop(L, CMP)`. A third argument,
  nil included, stays. When there is none, the slot holds what the value
  check pushed: nothing for a number or string (so nil), and otherwise the
  value's `__le` metamethod, or its `__lt` one. A two-argument call with a
  table or userdata value therefore compares through that metamethod.
- `Validate` checks the arguments in the order `bisect_body` does. It either
  returns the function the search calls (the `lt` parameter, standing for
  `cmp_lt`, for a nil slot; the slot's call behaviour for a function or a
  value with `__call`) or the `luaL_argerror` the code raises.
- A Lua table is the class `Table` with a field `items: seq<T>`, so `t[i]`
  is `items[i - 1]`. Its `Insert` method is the trusted `table.insert`.
- `Search` is the `while` loop of `bisect_body`, with the locals `start`,
  `end`, `mid` and `state`. `SearchFrom` is the same loop written as a
  recursive function, and `SearchResult` applies it to the initial state;
  the loop keeps `SearchFrom(current state) == SearchResult(contents)`, so
  the index is fixed for every comparator, monotone or not. A ghost
  out-parameter `probes` records each position the loop reads; each read
  is one comparator call. `Bisect` validates the arguments and then runs
  `Search`. `Binsert` runs `Bisect` and then `Table.Insert`.
- `FirstTrue` is an independent reference: a linear scan for the least
  position whose element satisfies `c(v, _)`. The lemmas show the search
  result is a boundary for any comparator and equals `FirstTrue` under
  monotonicity, bound the number of comparisons by floor(log2 n) + 1, show
  that insertion keeps a sorted table sorted, and show that on integers the
  default comparator gives `bisect_right`.
- Nine client methods derive concrete results from the contracts and definitions above:
  `DuplicatesGoLast` (`bisect({2,2,2}, 2) == 4`), `InsertAscending`
  (`binsert({1,3,5}, 4)` returns 3 and gives `{1,3,4,5}`),
  `InsertDescending` (`binsert({5,3,1}, 4, gt)` returns 2),
  `LeftoverMetamethod` (`bisect({a,a}, a)` is 1 when `a`'s `__le` is used),
  `ExplicitNil` (the same call with an explicit nil third argument is 3),
  `LeftoverNotCallable`, `RejectedValue`, `RejectedTable` and
  `RejectedComparator` (one error each).

A non-table first argument is rejected by `luaL_checktype` (binsert.c:51),
an argument error at position 1 with the message "table expected, got
<type>". It is modelled as `BadArgument(1, ...)`, like the other two
argument errors.

## Model

| member | source | states |
|---|---|---|
| `Binsert.TypeName` | binsert.c:63-65 | The type name in an error message, as `lua_typename` gives it: "userdata" names exactly the two userdata types, and every other type has a name other than "userdata". |
| `Binsert.TypeNameIdentifiesType` | binsert.c:63-65 | Two types with the same name in a message are the same type, or are both userdata: every type other than the two userdata types has a name of its own. |
| `Binsert.Expected` | binsert.c:62-65 | An argument error message ("comparable expected, got %s" and likewise at binsert.c:86-88 and for `luaL_checktype` at binsert.c:51) starts with what was expected and ends with the type name of what was passed. |
| `Binsert.ThirdSlot` | binsert.c:55-70 | Stack slot 3 after `lua_settop(L, CMP)`: a given third argument, nil included, unchanged; with none, nil when the value is a number or string, else the `__le` metamethod `luaL_getmetafield` pushed, else the `__lt` one. It is never "no value". |
| `Binsert.Validate` | binsert.c:51-93 | Succeeds exactly when the first argument is a table, the value is a number or a string or has `__le`/`__lt`, and slot 3 (`ThirdSlot`) is nil, a function or has `__call`. Otherwise it returns the first failing check's error, in argument order, with the code's message; a non-callable leftover metamethod is reported as argument 3 with its own type. On success the comparator is `cmp_lt` (the `lt` parameter) for nil, the explicit argument's call when one is given, and, in a two-argument call with a table or userdata value, its `__le` metamethod, or failing that its `__lt` one (binsert.c:79-82 for the default). |
| `Binsert.Search` | binsert.c:94-108 | The loop terminates and returns exactly `SearchResult(contents, c, v)`, the recursive form of the same loop, for any comparator. The result is a boundary: it lies in `[1, n+1]`, the element just before it fails `cmp(v, _)` and the element at it satisfies it. An empty table gives 1 with no comparison. Every probed `mid` is in `[1, n]`, and there are at most `Bits(n)` = floor(log2 n) + 1 probes, one comparator call each. There is no modifies clause, so the table is not changed. |
| `Binsert.Bisect` | binsert.c:47-115 | A rejected argument returns that error before any comparison, with no probes. Otherwise the result is `SearchResult(contents, comparator, v)` for the comparator `Validate` chose, it is a boundary, it is the partition point `FirstTrue` when `cmp(v, _)` is monotone along the table, and the probe bounds of `Search` hold. The table is read only. |
| `Binsert.Binsert` | binsert.c:118-126 | A rejected argument leaves the table unchanged. Otherwise it returns `r = SearchResult(old contents, comparator, v)`, the index `bisect` gives, which is a boundary and equals `FirstTrue` when `cmp(v, _)` is monotone. The table becomes the old prefix `t[1..r-1]`, then `v`, then the old suffix shifted up by one. A table sorted under a strict weak order stays sorted. |
| `Binsert.Table.Insert` | binsert.c:120-124 | `table.insert(t, pos, v)` as a trusted primitive: the new contents are `Inserted(old contents, pos, v)`. |
| `Binsert.Inserted` | binsert.c:124 | The contents after `table.insert(t, pos, v)`. The length grows by one, `v` sits at `pos`, the elements before `pos` are unchanged, and each element from `pos` on moves up by one. |
| `Binsert.FirstTrue` | binsert.c:94-108 | Reference for the search result: the least 1-based position whose element satisfies `cmp(v, _)`, or `n+1`. Every element before it fails. |
| `Binsert.SearchFrom` | binsert.c:94-108 | The `while` loop written as recursion: while `start <= end` it sets `mid = (start + end) / 2`, asks `cmp(v, t[mid])`, and continues with `end = mid - 1, state = 0` when that is true and `start = mid + 1, state = 1` otherwise; when the window is empty it returns `mid + state`. It has no contract of its own; `SearchFromIsBoundary` proves its result is a boundary, and the loop of `Search` is proved to compute it. |
| `Binsert.SearchResult` | binsert.c:48-51 | `SearchFrom` started from the code's initial `start = 1`, `mid = 1`, `state = 0`, `end = #t`: the index `bisect` returns. It has no contract of its own; `SearchResultIsBoundary` proves it is a boundary (1 on an empty table) and `SearchResultIsFirstTrue` that it is the partition point under monotonicity. |
| `Binsert.SearchFromIsBoundary` | binsert.c:94-107 | From any window whose left neighbour fails `cmp(v, _)` and whose right neighbour satisfies it, with `mid + state` at one end of the window, the loop stops at a boundary. |
| `Binsert.SearchResultIsBoundary` | binsert.c:48-108 | From the initial `start = 1`, `end = #t`, `mid = 1`, `state = 0`, the result is a boundary for every comparator; on an empty table it is 1. |
| `Binsert.BoundaryIsFirstTrue` | binsert.c:94-108 | If `cmp(v, _)` is monotone along the table, the table has only one boundary, the partition point. `cmp(v, t[j])` is false for every `j < r` and true for every `j >= r`. |
| `Binsert.SearchResultIsFirstTrue` | binsert.c:94-108 | Under monotonicity the search result is the partition point `FirstTrue`. |
| `Binsert.BitsIsLog2` | binsert.c:94-107 | The probe bound `Bits(n)` is floor(log2 n) + 1, which equals ceil(log2(n+1)): `2^(Bits(n)-1) <= n < 2^Bits(n)`. |
| `Binsert.BitsMonotone` | binsert.c:94-107 | The probe bound does not decrease as the window widens. |
| `Binsert.BitsHalve` | binsert.c:95-105 | A window at most half the old width (what each step leaves) needs at least one fewer probe. |
| `Binsert.SortedIsMonotone` | binsert.c:100-105 | On a table sorted under a strict weak order, `cmp(v, _)` is monotone for every `v`, so the search finds the partition point. |
| `Binsert.InsertKeepsSorted` | binsert.c:118-125 | Inserting `v` at the partition point keeps a sorted table sorted. |
| `Binsert.DefaultIsBisectRight` | binsert.c:37-44 | With `cmp_lt` on an ascending integer table (`IntLess`, numbers compared with `<`), everything before the result is `<= v`, everything from it on is `> v`, and the result is one more than the number of elements `<= v`. This is Python's `bisect_right`: equal elements stay in front of the new one. |

## Left out

- Lua C API stack handling (`lua_pushvalue`, `lua_settop`, `lua_replace`, `lua_pop`, `lua_call`) is replaced by ordinary parameters and results. The visible effect of `lua_settop(L, CMP)` on an absent third argument is kept in `ThirdSlot`.
- Module registration and the lookup of `table.insert` (`luaopen_binsert`, `push_table_insert`, the `newlib`/`getn` macros, binsert.c:17-27, 129-150) are host glue and are not modelled. `table.insert` is a trusted primitive (`Table.Insert`).
- Metatable lookup (`luaL_getmetafield`) is abstracted: a comparator-slot value carries the names of its metafields, and the value argument carries the values under `__le` and `__lt` (nil meaning absent). The description is taken as given: a missing second argument is expected to come with nil `__le` and `__lt`, which the model does not enforce. Truthiness of the comparator's result (`lua_toboolean`) is a `bool`.
- Tables are proper sequences. The border semantics of `luaL_len` for tables with holes, and a `__len` metamethod, are not modelled.
- Comparators are pure and total. Their side effects, errors, re-entrancy and yields are not modelled. Neither are errors raised by Lua's `<` (comparing a number with a string, say) or by `table.insert`.
- Lua's `<` itself (`cmp_lt`, binsert.c:37-44) is a parameter `lt`. Only its integer instance, the constant `IntLess`, is made concrete, for `DefaultIsBisectRight`. String collation and the `__lt` metamethod that `<` may call are not modelled.
- Integers are mathematical. The C `int` overflow of `(start + end) / 2` for tables of more than about 2^30 elements is not modelled.
- The wording of the first argument's error is Lua 5.1's `luaL_typerror` ("table expected, got <type>"). Later Lua versions may name the type from a `__name` metafield, or say "light userdata"; that is not modelled.
