/** Model of the Lua extension module `binsert`: bisection search (`bisect`)
    and binary insertion (`binsert`) on a sorted, 1-indexed Lua sequence,
    with a caller-supplied comparator or the default less-than. */
module Binsert {

  datatype Result<R, E> = Ok(value: R) | Err(error: E)

  // ---------------------------------------------------------------------
  // Arguments as the module sees them
  // ---------------------------------------------------------------------

  /** Lua's basic types as `lua_type` reports them; `TNone` is an argument
      position the caller did not fill. */
  datatype LuaType =
    | TNone | TNil | TBoolean | TLightUserdata | TNumber
    | TString | TTable | TFunction | TUserdata | TThread

  /** The name `lua_typename` gives a type, used in error messages. Both
      kinds of userdata share a name; every other type has its own. */
  function TypeName(t: LuaType): (r: string)
    ensures r == "userdata" <==> t == TLightUserdata || t == TUserdata
  {
    match t
    case TNone => "no value"
    case TNil => "nil"
    case TBoolean => "boolean"
    case TLightUserdata => "userdata"
    case TNumber => "number"
    case TString => "string"
    case TTable => "table"
    case TFunction => "function"
    case TUserdata => "userdata"
    case TThread => "thread"
  }

  /** Error messages tell types apart: only the two kinds of userdata
      share a name. */
  lemma TypeNameIdentifiesType(a: LuaType, b: LuaType)
    requires TypeName(a) == TypeName(b)
    ensures a == b || (a in {TLightUserdata, TUserdata} && b in {TLightUserdata, TUserdata})
  {
  }

  /** The message of a rejected argument, as `luaL_typerror` and the
      module's own `lua_pushfstring` calls word it. */
  function Expected(what: string, got: LuaType): (r: string)
    ensures |r| > |what| + |TypeName(got)|
    ensures r[..|what|] == what && r[|r| - |TypeName(got)|..] == TypeName(got)
  {
    what + " expected, got " + TypeName(got)
  }

  /** What the module can observe about an argument: its type, and the
      names of the fields its metatable holds (empty without a metatable). */
  datatype Desc = Desc(tag: LuaType, metafields: set<string>)

  /** A Lua value in the comparator's place: what it is, and what calling
      it with (value, element) yields, read as a Lua truth value. */
  datatype CmpArg<!T> = CmpArg(desc: Desc, call: (T, T) -> bool)

  /** The second argument: its type, and the values its metatable holds
      under `__le` and `__lt` (nil when there is no such field). */
  datatype ValueArg<!T> = ValueArg(tag: LuaType, le: CmpArg<T>, lt: CmpArg<T>)

  /** A `luaL_argerror`: the argument position and the message. */
  datatype ArgError = BadArgument(arg: nat, msg: string)

  /** `luaL_getmetafield` finds the field: it holds a value other than nil. */
  predicate Found<T>(f: CmpArg<T>) {
    f.desc.tag != TNil && f.desc.tag != TNone
  }

  /** A value that can be ordered: a number or a string, or a value whose
      metatable supplies `__le` or `__lt`. */
  predicate Comparable<T>(v: ValueArg<T>) {
    v.tag in {TNumber, TString} || Found(v.le) || Found(v.lt)
  }

  /** An acceptable comparator slot: nil (the default is used), a
      function, or a value whose metatable supplies `__call`. */
  predicate Callable(d: Desc) {
    d.tag in {TNil, TFunction} || "__call" in d.metafields
  }

  /** Stack slot 3 once `lua_settop(L, CMP)` has run. A third argument, nil
      included, stays as it is. Without one, the slot holds what the value
      check left on top of the stack: nothing for a number or a string, so
      the slot is nil; otherwise the `__le` metamethod `luaL_getmetafield`
      pushed, or failing that the `__lt` one. */
  function ThirdSlot<T>(v: ValueArg<T>, cmp: CmpArg<T>): (r: CmpArg<T>)
    ensures cmp.desc.tag != TNone ==> r == cmp
    ensures cmp.desc.tag == TNone && v.tag in {TNumber, TString} ==> r.desc.tag == TNil
    ensures cmp.desc.tag == TNone && v.tag !in {TNumber, TString} && Found(v.le) ==> r == v.le
    ensures cmp.desc.tag == TNone && v.tag !in {TNumber, TString} && !Found(v.le) && Found(v.lt) ==> r == v.lt
    ensures r.desc.tag != TNone
  {
    if cmp.desc.tag != TNone then cmp
    else if v.tag == TNumber || v.tag == TString then CmpArg(Desc(TNil, {}), cmp.call)
    else if Found(v.le) then v.le
    else if Found(v.lt) then v.lt
    else CmpArg(Desc(TNil, {}), cmp.call)
  }

  /** Argument checking at the head of `bisect_body`, in the order the code
      performs it: the table, then the value, then the comparator slot. On
      success the result is the function the search calls: `lt`, which is
      `cmp_lt` (Lua's `<` on its two arguments), for a nil slot, and the
      slot's own call behaviour otherwise. */
  function Validate<T>(tType: LuaType, v: ValueArg<T>, cmp: CmpArg<T>, lt: (T, T) -> bool)
    : (r: Result<(T, T) -> bool, ArgError>)
    ensures r.Ok? <==> tType == TTable && Comparable(v) && Callable(ThirdSlot(v, cmp).desc)
    ensures tType != TTable ==>
              r == Err(BadArgument(1, Expected("table", tType)))
    ensures tType == TTable && !Comparable(v) ==>
              r == Err(BadArgument(2, Expected("comparable", v.tag)))
    ensures tType == TTable && Comparable(v) && !Callable(ThirdSlot(v, cmp).desc) ==>
              r == Err(BadArgument(3, Expected("callable", ThirdSlot(v, cmp).desc.tag)))
    ensures r.Ok? && cmp.desc.tag == TNil ==> r.value == lt
    ensures r.Ok? && cmp.desc.tag !in {TNone, TNil} ==> r.value == cmp.call
    ensures r.Ok? && cmp.desc.tag == TNone && v.tag in {TNumber, TString} ==> r.value == lt
    ensures r.Ok? && cmp.desc.tag == TNone && v.tag !in {TNumber, TString} && Found(v.le) ==>
              r.value == v.le.call
    ensures r.Ok? && cmp.desc.tag == TNone && v.tag !in {TNumber, TString} && !Found(v.le) ==>
              r.value == v.lt.call
  {
    if tType != TTable then
      Err(BadArgument(1, Expected("table", tType)))
    else if !(match v.tag
              case TNumber => true
              case TString => true
              case _ => Found(v.le) || Found(v.lt))
    then
      Err(BadArgument(2, Expected("comparable", v.tag)))
    else
      var slot := ThirdSlot(v, cmp);
      if slot.desc.tag == TFunction then Ok(slot.call)
      else if slot.desc.tag == TNil then Ok(lt)
      else if "__call" in slot.desc.metafields then Ok(slot.call)
      else Err(BadArgument(3, Expected("callable", slot.desc.tag)))
  }

  // ---------------------------------------------------------------------
  // The Lua table
  // ---------------------------------------------------------------------

  /** `table.insert(s, pos, v)`: `v` lands at 1-based position `pos` and the
      elements from `pos` on move up by one. */
  function Inserted<T>(s: seq<T>, pos: int, v: T): (r: seq<T>)
    requires 1 <= pos <= |s| + 1
    ensures |r| == |s| + 1 && r[pos - 1] == v
    ensures forall j :: 0 <= j < pos - 1 ==> r[j] == s[j]
    ensures forall j :: pos - 1 <= j < |s| ==> r[j + 1] == s[j]
  {
    s[..pos - 1] + [v] + s[pos - 1..]
  }

  /** A Lua table used as a proper sequence: `t[i]` is `items[i - 1]` for
      `1 <= i <= #t`. */
  class Table<T> {
    var items: seq<T>

    constructor (s: seq<T>)
      ensures items == s
    {
      items := s;
    }

    /** The host's `table.insert`, trusted: it shifts the tail up by one. */
    method Insert(pos: int, v: T)
      requires 1 <= pos <= |items| + 1
      modifies this
      ensures items == Inserted(old(items), pos, v)
    {
      items := Inserted(items, pos, v);
    }
  }

  // ---------------------------------------------------------------------
  // Specification of the search
  // ---------------------------------------------------------------------

  /** The comparator's answers for `v` do not go from true back to false
      along `s`: the precondition under which bisection is meaningful. */
  ghost predicate Monotone<T>(s: seq<T>, c: (T, T) -> bool, v: T) {
    forall i, j :: 0 <= i <= j < |s| && c(v, s[i]) ==> c(v, s[j])
  }

  /** No element compares below an earlier one. */
  ghost predicate Sorted<T>(s: seq<T>, c: (T, T) -> bool) {
    forall i, j :: 0 <= i < j < |s| ==> !c(s[j], s[i])
  }

  /** `c` is asymmetric and negatively transitive: whenever `c(x, z)`, every
      `y` has `c(x, y)` or `c(y, z)`. */
  ghost predicate StrictWeakOrder<T(!new)>(c: (T, T) -> bool) {
    && (forall x, y :: c(x, y) ==> !c(y, x))
    && (forall x, y, z :: c(x, z) && !c(x, y) ==> c(y, z))
  }

  /** The search loop of `bisect_body` as a recursive function: from the
      window `start..end` (1-based, inclusive) and the last `mid` and
      `state`, the index the loop returns. */
  function SearchFrom<T>(s: seq<T>, c: (T, T) -> bool, v: T, start: int, end: int, mid: int, state: int): int
    requires 1 <= start && end <= |s|
    decreases end - start + 1
  {
    if start <= end then
      var m := (start + end) / 2;
      if c(v, s[m - 1]) then SearchFrom(s, c, v, start, m - 1, m, 0)
      else SearchFrom(s, c, v, m + 1, end, m, 1)
    else
      mid + state
  }

  /** The index `bisect(t, v, c)` returns for the contents `s`, starting
      from the code's initial `start = 1`, `end = #t`, `mid = 1`,
      `state = 0`. */
  function SearchResult<T>(s: seq<T>, c: (T, T) -> bool, v: T): int {
    SearchFrom(s, c, v, 1, |s|, 1, 0)
  }

  /** Reference definition by linear scan: the least 1-based position whose
      element satisfies `c(v, _)`, or `|s| + 1` if none does. */
  function FirstTrue<T>(s: seq<T>, c: (T, T) -> bool, v: T): (r: int)
    ensures 1 <= r <= |s| + 1
    ensures forall j :: 0 <= j < r - 1 ==> !c(v, s[j])
    ensures r <= |s| ==> c(v, s[r - 1])
  {
    if |s| == 0 then 1
    else if c(v, s[0]) then 1
    else 1 + FirstTrue(s[1..], c, v)
  }

  /** `r` (1-based) has a failing element just before it, if any, and a
      satisfying element at it, if any: where a bisection can stop. */
  ghost predicate Boundary<T>(s: seq<T>, c: (T, T) -> bool, v: T, r: int) {
    && 1 <= r <= |s| + 1
    && (r == 1 || !c(v, s[r - 2]))
    && (r == |s| + 1 || c(v, s[r - 1]))
  }

  /** Number of binary digits of `n`: floor(log2 n) + 1 for `n >= 1`. */
  function Bits(n: nat): nat {
    if n == 0 then 0 else 1 + Bits(n / 2)
  }

  function Pow2(k: nat): nat {
    if k == 0 then 1 else 2 * Pow2(k - 1)
  }

  // ---------------------------------------------------------------------
  // bisect and binsert
  // ---------------------------------------------------------------------

  /** The search loop of `bisect_body` (binary search for the insertion
      point of `v` with comparator `c`). The ghost `probes` lists the
      positions `t[mid]` the loop reads, one comparator call each. The
      method has no modifies clause: the table is unchanged. */
  method Search<T>(t: Table<T>, v: T, c: (T, T) -> bool) returns (r: int, ghost probes: seq<int>)
    ensures r == SearchResult(t.items, c, v)
    ensures Boundary(t.items, c, v, r)
    ensures |t.items| == 0 ==> probes == []
    ensures forall p :: p in probes ==> 1 <= p <= |t.items|
    ensures |probes| <= Bits(|t.items|)
  {
    probes := [];
    var s := t.items;
    var start, mid, state, end := 1, 1, 0, |s|;
    while start <= end
      invariant 1 <= start <= end + 1 <= |s| + 1
      invariant SearchFrom(s, c, v, start, end, mid, state) == SearchResult(s, c, v)
      invariant forall p :: p in probes ==> 1 <= p <= |s|
      invariant |probes| + Bits(end - start + 1) <= Bits(|s|)
      decreases end - start
    {
      ghost var width := end - start + 1;
      mid := (start + end) / 2;
      probes := probes + [mid];
      var x := s[mid - 1];  // lua_rawgeti(L, T, mid)
      if c(v, x) {
        end := mid - 1;
        state := 0;
      } else {
        start := mid + 1;
        state := 1;
      }
      BitsHalve(width, end - start + 1);
    }
    r := mid + state;
    SearchResultIsBoundary(s, c, v);
  }

  /** `bisect(t, v[, cmp])`: `bisect_body`, which checks the arguments, picks
      the comparator and runs the search. `t` is null exactly when the first
      argument is not a table. A rejected argument stops the call before
      any comparison. */
  method Bisect<T>(t: Table?<T>, tType: LuaType, v: T, vArg: ValueArg<T>, cmp: CmpArg<T>, lt: (T, T) -> bool)
    returns (res: Result<int, ArgError>, ghost probes: seq<int>)
    requires (t != null) == (tType == TTable)
    ensures Validate(tType, vArg, cmp, lt).Err? ==>
              res == Err(Validate(tType, vArg, cmp, lt).error) && probes == []
    ensures Validate(tType, vArg, cmp, lt).Ok? ==>
              t != null && res == Ok(SearchResult(t.items, Validate(tType, vArg, cmp, lt).value, v))
    ensures Validate(tType, vArg, cmp, lt).Ok? && t != null ==>
              res.Ok? && Boundary(t.items, Validate(tType, vArg, cmp, lt).value, v, res.value)
    ensures Validate(tType, vArg, cmp, lt).Ok? && t != null &&
            Monotone(t.items, Validate(tType, vArg, cmp, lt).value, v) ==>
              res.Ok? && res.value == FirstTrue(t.items, Validate(tType, vArg, cmp, lt).value, v)
    ensures t != null ==>
              (forall p :: p in probes ==> 1 <= p <= |t.items|) && |probes| <= Bits(|t.items|)
  {
    var k := Validate(tType, vArg, cmp, lt);
    if k.Err? {
      return Err(k.error), [];
    }
    var r;
    r, probes := Search(t, v, k.value);
    if Monotone(t.items, k.value, v) {
      BoundaryIsFirstTrue(t.items, k.value, v, r);
    }
    res := Ok(r);
  }

  /** `binsert(t, v[, cmp])`: the same search, then `table.insert(t, r, v)`,
      returning `r`. A rejected argument leaves the table as it was. */
  method Binsert<T(!new)>(t: Table?<T>, tType: LuaType, v: T, vArg: ValueArg<T>, cmp: CmpArg<T>, lt: (T, T) -> bool)
    returns (res: Result<int, ArgError>)
    requires (t != null) == (tType == TTable)
    modifies t
    ensures var k := Validate(tType, vArg, cmp, lt);
            k.Err? ==> res == Err(k.error) && (t != null ==> t.items == old(t.items))
    ensures var k := Validate(tType, vArg, cmp, lt);
            k.Ok? ==> (t != null && res.Ok? &&
              var c, s, r := k.value, old(t.items), res.value;
              && Boundary(s, c, v, r)
              && r == SearchResult(s, c, v)
              && t.items == Inserted(s, r, v)
              && (Monotone(s, c, v) ==> r == FirstTrue(s, c, v))
              && (Sorted(s, c) && StrictWeakOrder(c) ==> Sorted(t.items, c)))
  {
    ghost var probes;
    res, probes := Bisect(t, tType, v, vArg, cmp, lt);
    if res.Ok? {
      ghost var c := Validate(tType, vArg, cmp, lt).value;
      ghost var s := t.items;
      if Sorted(s, c) && StrictWeakOrder(c) {
        SortedIsMonotone(s, c, v);
        SearchResultIsBoundary(s, c, v);
        BoundaryIsFirstTrue(s, c, v, res.value);
        InsertKeepsSorted(s, c, v, res.value);
      }
      t.Insert(res.value, v);
    }
  }

  // ---------------------------------------------------------------------
  // Lemmas
  // ---------------------------------------------------------------------

  /** Each step of the loop keeps the window's ends a failing element on
      the left and a satisfying one on the right, so where it stops is a
      boundary, whatever the comparator. */
  lemma {:induction false} SearchFromIsBoundary<T>(s: seq<T>, c: (T, T) -> bool, v: T,
                                                   start: int, end: int, mid: int, state: int)
    requires 1 <= start <= end + 1 <= |s| + 1
    requires mid + state == start || mid + state == end + 1
    requires start == 1 || !c(v, s[start - 2])
    requires end == |s| || c(v, s[end])
    ensures Boundary(s, c, v, SearchFrom(s, c, v, start, end, mid, state))
    decreases end - start + 1
  {
    if start <= end {
      var m := (start + end) / 2;
      if c(v, s[m - 1]) {
        SearchFromIsBoundary(s, c, v, start, m - 1, m, 0);
      } else {
        SearchFromIsBoundary(s, c, v, m + 1, end, m, 1);
      }
    }
  }

  /** The search result is a boundary for any comparator. */
  lemma SearchResultIsBoundary<T>(s: seq<T>, c: (T, T) -> bool, v: T)
    ensures Boundary(s, c, v, SearchResult(s, c, v))
  {
    SearchFromIsBoundary(s, c, v, 1, |s|, 1, 0);
  }

  /** When the comparator's answers are monotone along `s` there is only one
      boundary, the partition point found by a linear scan. */
  lemma BoundaryIsFirstTrue<T>(s: seq<T>, c: (T, T) -> bool, v: T, r: int)
    requires Monotone(s, c, v) && Boundary(s, c, v, r)
    ensures r == FirstTrue(s, c, v)
    ensures forall j :: 0 <= j < r - 1 ==> !c(v, s[j])
    ensures forall j :: r - 1 <= j < |s| ==> c(v, s[j])
  {
  }

  /** Under monotonicity the search finds the partition point. */
  lemma SearchResultIsFirstTrue<T>(s: seq<T>, c: (T, T) -> bool, v: T)
    requires Monotone(s, c, v)
    ensures SearchResult(s, c, v) == FirstTrue(s, c, v)
  {
    SearchResultIsBoundary(s, c, v);
    BoundaryIsFirstTrue(s, c, v, SearchResult(s, c, v));
  }

  /** The probe bound `Bits(n)` is floor(log2 n) + 1, that is, the number of
      comparisons is logarithmic in the table length. */
  lemma {:induction false} BitsIsLog2(n: nat)
    requires n >= 1
    ensures Pow2(Bits(n) - 1) <= n < Pow2(Bits(n))
  {
    if n > 1 {
      BitsIsLog2(n / 2);
    }
  }

  /** `Bits` grows with its argument; each iteration at least halves the
      width of the window, so it uses up one binary digit of the bound. */
  lemma {:induction false} BitsMonotone(a: nat, b: nat)
    requires a <= b
    ensures Bits(a) <= Bits(b)
  {
    if a > 0 {
      BitsMonotone(a / 2, b / 2);
    }
  }

  /** A window at most half as wide as another has one binary digit less. */
  lemma {:induction false} BitsHalve(width: nat, rest: nat)
    requires width >= 1 && 2 * rest <= width
    ensures Bits(rest) + 1 <= Bits(width)
  {
    BitsMonotone(rest, width / 2);
  }

  /** On a table sorted under a strict weak order every value meets the
      monotonicity the search relies on. */
  lemma SortedIsMonotone<T(!new)>(s: seq<T>, c: (T, T) -> bool, v: T)
    requires Sorted(s, c) && StrictWeakOrder(c)
    ensures Monotone(s, c, v)
  {
  }

  /** Inserting at the partition point keeps the table sorted. */
  lemma InsertKeepsSorted<T(!new)>(s: seq<T>, c: (T, T) -> bool, v: T, r: int)
    requires Sorted(s, c) && StrictWeakOrder(c)
    requires 1 <= r <= |s| + 1
    requires forall j :: 0 <= j < r - 1 ==> !c(v, s[j])
    requires forall j :: r - 1 <= j < |s| ==> c(v, s[j])
    ensures Sorted(Inserted(s, r, v), c)
  {
  }

  /** `cmp_lt` on numbers, modelled on integers. */
  const IntLess: (int, int) -> bool := (a: int, b: int) => a < b

  /** Number of elements of `s` that are at most `v`. */
  function CountAtMost(s: seq<int>, v: int): nat {
    if s == [] then 0 else (if s[0] <= v then 1 else 0) + CountAtMost(s[1..], v)
  }

  /** With the default comparator on an ascending table the search is
      Python's `bisect_right`: everything before the result is at most `v`
      (so equal elements stay in front of it), everything from it on is
      greater, and the result is one more than the count of elements at
      most `v`. */
  lemma {:induction false} DefaultIsBisectRight(s: seq<int>, v: int)
    requires forall i, j :: 0 <= i < j < |s| ==> s[i] <= s[j]
    ensures Monotone(s, IntLess, v)
    ensures var r := FirstTrue(s, IntLess, v);
            && (forall j :: 0 <= j < r - 1 ==> s[j] <= v)
            && (forall j :: r - 1 <= j < |s| ==> v < s[j])
            && r - 1 == CountAtMost(s, v)
  {
    if s != [] {
      DefaultIsBisectRight(s[1..], v);
      if v < s[0] {
        AllGreater(s, v);
      }
    }
  }

  lemma {:induction false} AllGreater(s: seq<int>, v: int)
    requires forall j :: 0 <= j < |s| ==> v < s[j]
    ensures CountAtMost(s, v) == 0
  {
    if s != [] {
      AllGreater(s[1..], v);
    }
  }

  // ---------------------------------------------------------------------
  // Clients of the contracts above
  // ---------------------------------------------------------------------

  /** A value without `__le` or `__lt`. */
  function Plain<T>(tag: LuaType, call: (T, T) -> bool): ValueArg<T> {
    ValueArg(tag, CmpArg(Desc(TNil, {}), call), CmpArg(Desc(TNil, {}), call))
  }

  /** Equal elements stay in front of the new one. */
  method DuplicatesGoLast() {
    var t := new Table([2, 2, 2]);
    var num, absent := Plain(TNumber, IntLess), CmpArg(Desc(TNone, {}), IntLess);
    assert Validate(TTable, num, absent, IntLess) == Ok(IntLess);
    DefaultIsBisectRight([2, 2, 2], 2);
    SearchResultIsFirstTrue([2, 2, 2], IntLess, 2);
    assert CountAtMost([2, 2, 2], 2) == 3;
    var r, probes := Bisect(t, TTable, 2, num, absent, IntLess);
    assert r == Ok(4);
  }

  method InsertAscending() {
    var t := new Table([1, 3, 5]);
    var num, nilArg := Plain(TNumber, IntLess), CmpArg(Desc(TNil, {}), IntLess);
    assert Validate(TTable, num, nilArg, IntLess) == Ok(IntLess);
    assert SearchFrom([1, 3, 5], IntLess, 4, 3, 3, 2, 1) == 3;
    assert SearchResult([1, 3, 5], IntLess, 4) == 3;
    var r := Binsert(t, TTable, 4, num, nilArg, IntLess);
    assert r == Ok(3);
    assert |t.items| == 4 && t.items[0] == 1 && t.items[1] == 3 && t.items[2] == 4 && t.items[3] == 5;
  }

  method InsertDescending() {
    var gt := (a: int, b: int) => a > b;
    var t := new Table([5, 3, 1]);
    var num, fn := Plain(TNumber, IntLess), CmpArg(Desc(TFunction, {}), gt);
    assert Validate(TTable, num, fn, IntLess) == Ok(gt);
    assert SearchFrom([5, 3, 1], gt, 4, 1, 1, 2, 0) == 2;
    assert SearchResult([5, 3, 1], gt, 4) == 2;
    var r := Binsert(t, TTable, 4, num, fn, IntLess);
    assert r == Ok(2);
    assert |t.items| == 4 && t.items[0] == 5 && t.items[1] == 4 && t.items[2] == 3 && t.items[3] == 1;
  }

  /** Called with two arguments, a value with `__le` is compared through
      that metamethod: `bisect({a, a}, a)` is 1, not 3. */
  method LeftoverMetamethod() {
    var le := (a: int, b: int) => a <= b;
    var t := new Table([2, 2]);
    var obj := ValueArg(TTable, CmpArg(Desc(TFunction, {}), le), CmpArg(Desc(TFunction, {}), IntLess));
    var absent := CmpArg(Desc(TNone, {}), IntLess);
    assert Validate(TTable, obj, absent, IntLess) == Ok(le);
    assert Monotone([2, 2], le, 2);
    assert FirstTrue([2, 2], le, 2) == 1;
    var r, probes := Bisect(t, TTable, 2, obj, absent, IntLess);
    assert r == Ok(1);
  }

  /** The same call with an explicit nil uses the default `<` instead. */
  method ExplicitNil() {
    var le := (a: int, b: int) => a <= b;
    var t := new Table([2, 2]);
    var obj := ValueArg(TTable, CmpArg(Desc(TFunction, {}), le), CmpArg(Desc(TFunction, {}), IntLess));
    var nilArg := CmpArg(Desc(TNil, {}), le);
    assert Validate(TTable, obj, nilArg, IntLess) == Ok(IntLess);
    DefaultIsBisectRight([2, 2], 2);
    assert CountAtMost([2, 2], 2) == 2;
    var r, probes := Bisect(t, TTable, 2, obj, nilArg, IntLess);
    assert r == Ok(3);
  }

  /** A `__le` field that cannot be called is rejected as argument 3. */
  method LeftoverNotCallable() {
    var t := new Table([1, 2]);
    var obj := ValueArg(TUserdata, CmpArg(Desc(TBoolean, {}), IntLess), CmpArg(Desc(TNil, {}), IntLess));
    var r, probes := Bisect(t, TTable, 1, obj, CmpArg(Desc(TNone, {}), IntLess), IntLess);
    assert r == Err(BadArgument(3, Expected("callable", TBoolean)));
  }

  method RejectedValue() {
    var t := new Table([1, 2]);
    var r, probes := Bisect(t, TTable, 1, Plain(TTable, IntLess), CmpArg(Desc(TNone, {}), IntLess), IntLess);
    assert r == Err(BadArgument(2, Expected("comparable", TTable)));
  }

  method RejectedTable() {
    var r, probes := Bisect(null, TNumber, 1, Plain(TNumber, IntLess), CmpArg(Desc(TNone, {}), IntLess), IntLess);
    assert r == Err(BadArgument(1, Expected("table", TNumber)));
  }

  method RejectedComparator() {
    var t := new Table([1, 2]);
    var r, probes := Bisect(t, TTable, 1, Plain(TNumber, IntLess), CmpArg(Desc(TNumber, {}), IntLess), IntLess);
    assert r == Err(BadArgument(3, Expected("callable", TNumber)));
  }
}
