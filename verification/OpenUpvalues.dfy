/**
  Open upvalues and stack relocation: src/uvm/lfunc.cpp (luaF_findupval, luaF_close), src/uvm/ldo.cpp
  (correctstack, luaD_reallocstack, luaD_growstack) and the places of src/uvm/lvm.cpp and
  src/uvm/lgc.cpp that read, write, count and release upvalues.

  An open upvalue points into the stack; the open ones form a linked list, highest slot first.  A
  pointer is the block it points into and an offset, so a pointer into a stack that has been replaced
  is not a pointer into the new one.  `env` and `nameOf` tie the pointers to `Variables`: slot `i`
  holds the value of variable `env.names[i]`, and upvalue `uv` yields the value of `nameOf[uv]`.
 */
module OpenUpvalues {
  import opened Locks
  import opened Arith
  import opened Variables
  import LuaMachine

  type Value = LuaMachine.Value

  const EXTRA_STACK: nat := 5
  const LUA_MINSTACK: nat := 20
  const BASIC_STACK_SIZE: nat := 2 * LUA_MINSTACK
  const LUAI_MAXSTACK: nat := 1_000_000
  const ERRORSTACKSIZE: nat := LUAI_MAXSTACK + 200

  /** Slots not used yet. */
  /** Twice the size as far as the limit allows, or what is needed if that is more. */
  function NewSize(size: nat, needed: nat): nat {
    var doubled := if 2 * size > LUAI_MAXSTACK then LUAI_MAXSTACK else 2 * size;
    if needed > doubled then needed else doubled
  }

  function Nils(n: nat): (r: seq<Value>)
    ensures |r| == n
  {
    seq(n, _ => LuaMachine.Nil)
  }

  datatype Pointer = Slot(block: array<Value>, index: nat) | Own

  /** The union of an upvalue: list link while open, value once closed. */
  datatype Store = Link(next: UpVal?, touched: bool) | Closed(value: Value)

  class UpVal {
    var v: Pointer
    var refcount: nat
    var u: Store

    constructor (v: Pointer, refcount: nat, u: Store)
      ensures this.v == v && this.refcount == refcount && this.u == u
    {
      this.v, this.refcount, this.u := v, refcount, u;
    }
  }

  class CallInfo {
    var func: Pointer
    var top: Pointer
    var base: Pointer
    var isLua: bool
    var previous: CallInfo?

    constructor (func: Pointer, top: Pointer, base: Pointer, isLua: bool, previous: CallInfo?)
      ensures this.func == func && this.top == top && this.base == base && this.isLua == isLua &&
          this.previous == previous
    {
      this.func, this.top, this.base, this.isLua, this.previous := func, top, base, isLua, previous;
    }
  }

  // ---------- what the pointers mean ----------

  /** The upvalues of one thread: the open list, the slots those point to, the values the closed ones
      own, the variable each stands for, and the variables themselves. */
  datatype View = View(open: seq<UpVal>, slotOf: map<UpVal, nat>, closed: map<UpVal, Value>, nameOf: map<UpVal, nat>,
    env: Env<Value>)

  /** The list holds exactly the open upvalues, highest slot first. */
  ghost predicate Descending(open: seq<UpVal>, slotOf: map<UpVal, nat>) {
    && (forall i :: 0 <= i < |open| ==> open[i] in slotOf)
    && (forall uv :: uv in slotOf ==> uv in open)
    && (forall i, j :: 0 <= i < j < |open| ==> slotOf[open[i]] > slotOf[open[j]])
  }

  /** An open upvalue stands for the variable its slot holds. */
  ghost predicate OpenMeant(w: View, names: seq<nat>) {
    forall uv :: uv in w.slotOf ==>
      && uv in w.nameOf && uv !in w.closed
      && w.slotOf[uv] < |names| && w.nameOf[uv] == names[w.slotOf[uv]]
  }

  /** A closed one stands for a variable no slot holds, and owns its value. */
  ghost predicate ClosedMeant(w: View) {
    forall uv :: uv in w.closed ==>
      && uv in w.nameOf && w.nameOf[uv] in w.env.store && w.nameOf[uv] !in w.env.names
      && w.env.store[w.nameOf[uv]] == w.closed[uv]
  }

  /** No two upvalues stand for the same variable. */
  ghost predicate Shared(w: View) {
    && (forall uv :: uv in w.nameOf ==> uv in w.slotOf || uv in w.closed)
    && (forall a, b :: a in w.nameOf && b in w.nameOf && w.nameOf[a] == w.nameOf[b] ==> a == b)
  }

  ghost predicate Meant(w: View) {
    && Sound(w.env)
    && forall n: nat {:trigger Key(n)} :: Open(n) ==>
         Descending(w.open, w.slotOf) && OpenMeant(w, w.env.names) && ClosedMeant(w) && Shared(w)
  }

  /** The slots hold these values. */
  ghost predicate Holds(cells: seq<Value>, e: Env<Value>)
    requires Sound(e)
  {
    |cells| == |e.names| && forall n: nat {:trigger Key(n)} :: Open(n) ==> cells == Values(e)
  }

  /** A new upvalue for slot `slot`, linked before position `k`. */
  function Inserted(w: View, k: nat, uv: UpVal, slot: nat): View
    requires k <= |w.open| && slot < |w.env.names|
  {
    w.(open := w.open[..k] + [uv] + w.open[k..], slotOf := w.slotOf[uv := slot],
      nameOf := w.nameOf[uv := w.env.names[slot]])
  }

  lemma DescendingInserted(open: seq<UpVal>, slotOf: map<UpVal, nat>, k: nat, uv: UpVal, slot: nat)
    requires Descending(open, slotOf) && uv !in slotOf && k <= |open|
    requires forall i :: 0 <= i < k ==> slotOf[open[i]] > slot
    requires forall i :: k <= i < |open| ==> slotOf[open[i]] < slot
    ensures Descending(open[..k] + [uv] + open[k..], slotOf[uv := slot])
  {
    var r := open[..k] + [uv] + open[k..];
    var to := slotOf[uv := slot];
    forall i | 0 <= i < |r| ensures r[i] in to && r[i] == Pick(open, k, uv, i) {
    }
    forall i, j | 0 <= i < j < |r| ensures to[r[i]] > to[r[j]] {
      assert r[i] == Pick(open, k, uv, i) && r[j] == Pick(open, k, uv, j);
    }
    forall a | a in to ensures a in r {
      Kept(open, k, uv, a);
    }
  }

  function Pick(open: seq<UpVal>, k: nat, uv: UpVal, i: nat): UpVal
    requires k <= |open| && i <= |open|
  {
    if i < k then open[i] else if i == k then uv else open[i - 1]
  }

  lemma Kept(open: seq<UpVal>, k: nat, uv: UpVal, a: UpVal)
    requires k <= |open| && (a == uv || a in open)
    ensures a in open[..k] + [uv] + open[k..]
  {
    assert open == open[..k] + open[k..];
  }

  lemma Apart(open: seq<UpVal>, slotOf: map<UpVal, nat>, k: nat, slot: nat)
    requires Descending(open, slotOf) && k <= |open|
    requires k > 0 ==> slotOf[open[k - 1]] > slot
    requires k < |open| ==> slotOf[open[k]] < slot
    ensures forall i :: 0 <= i < k ==> slotOf[open[i]] > slot
    ensures forall i :: k <= i < |open| ==> slotOf[open[i]] < slot
  {
    forall i | 0 <= i < k ensures slotOf[open[i]] > slot {
      if i < k - 1 { assert slotOf[open[i]] > slotOf[open[k - 1]]; }
    }
    forall i | k <= i < |open| ensures slotOf[open[i]] < slot {
      if k < i { assert slotOf[open[k]] > slotOf[open[i]]; }
    }
  }

  lemma NoneThere(open: seq<UpVal>, slotOf: map<UpVal, nat>, k: nat, slot: nat)
    requires Descending(open, slotOf) && k <= |open|
    requires forall i :: 0 <= i < k ==> slotOf[open[i]] > slot
    requires forall i :: k <= i < |open| ==> slotOf[open[i]] < slot
    ensures forall a :: a in slotOf ==> slotOf[a] != slot
  {
    forall a | a in slotOf ensures slotOf[a] != slot {
      var i :| 0 <= i < |open| && open[i] == a;
    }
  }

  lemma InsertedMeant(w: View, k: nat, uv: UpVal, slot: nat)
    requires Meant(w) && uv !in w.nameOf && slot < |w.env.names| && k <= |w.open|
    requires forall a :: a in w.slotOf ==> w.slotOf[a] != slot
    ensures OpenMeant(Inserted(w, k, uv, slot), w.env.names) && ClosedMeant(Inserted(w, k, uv, slot)) &&
        Shared(Inserted(w, k, uv, slot))
    ensures uv !in w.slotOf
  {
    assert Key(0) && Open(0);
    forall a | a in w.nameOf ensures w.nameOf[a] != w.env.names[slot] {
    }
  }

  lemma InsertedDone(w: View, k: nat, uv: UpVal, slot: nat)
    requires Meant(w) && uv !in w.nameOf && slot < |w.env.names| && k <= |w.open|
    requires k > 0 ==> w.open[k - 1] in w.slotOf && w.slotOf[w.open[k - 1]] > slot
    requires k < |w.open| ==> w.open[k] in w.slotOf && w.slotOf[w.open[k]] < slot
    ensures Meant(Inserted(w, k, uv, slot))
    ensures forall a :: a in w.slotOf ==> w.slotOf[a] != slot
  {
    assert Descending(w.open, w.slotOf) by { assert Key(0) && Open(0); }
    Apart(w.open, w.slotOf, k, slot);
    NoneThere(w.open, w.slotOf, k, slot);
    InsertedMeant(w, k, uv, slot);
    DescendingInserted(w.open, w.slotOf, k, uv, slot);
  }

  /** Which upvalues are which. */
  lemma Members(w: View)
    requires Meant(w)
    ensures forall i :: 0 <= i < |w.open| ==> w.open[i] in w.slotOf
    ensures forall a :: a in w.slotOf ==> a in w.open && a in w.nameOf && a !in w.closed && w.slotOf[a] < |w.env.names|
    ensures forall a :: a in w.closed ==> a in w.nameOf
    ensures forall a :: a in w.nameOf ==> a in w.slotOf || a in w.closed
  {
    assert Key(0) && Open(0);
  }

  lemma PrevOpen(w: View, k: nat)
    requires Meant(w) && k <= |w.open|
    ensures k > 0 ==> w.open[k - 1] in w.slotOf && w.open[k - 1] !in w.closed
  {
    Members(w);
  }

  /** The variable an upvalue stands for has the value it points to. */
  lemma MeansIt(w: View, cells: seq<Value>, uv: UpVal)
    requires Meant(w) && uv in w.nameOf && Holds(cells, w.env)
    ensures w.nameOf[uv] in w.env.store
    ensures uv in w.slotOf ==> w.slotOf[uv] < |cells| == |w.env.names| && w.nameOf[uv] == w.env.names[w.slotOf[uv]]
    ensures uv in w.slotOf ==> w.env.store[w.nameOf[uv]] == cells[w.slotOf[uv]]
    ensures uv !in w.slotOf ==> uv in w.closed && w.env.store[w.nameOf[uv]] == w.closed[uv]
  {
    assert Key(0) && Open(0);
  }

  /** Following the links goes down the list. */
  lemma Follow(w: View, k: nat)
    requires Meant(w) && k < |w.open|
    ensures w.open[k] in w.slotOf && NextOf(w.open, w.open[k]) == if k + 1 < |w.open| then w.open[k + 1] else null
    ensures forall i :: k < i < |w.open| ==> w.open[i] != w.open[k]
  {
    assert Key(0) && Open(0);
    NextAt(w.open, w.slotOf, k);
  }

  lemma OneMoreDone(w: View, k: nat, done: set<UpVal>)
    requires Meant(w) && k < |w.open| && forall i :: 0 <= i < |w.open| ==> (w.open[i] in done <==> i < k)
    ensures forall i :: 0 <= i < |w.open| ==> (w.open[i] in done + {w.open[k]} <==> i < k + 1)
  {
    Follow(w, k);
  }

  /** A new link changes where its predecessor leads, and nothing else. */
  lemma Threaded(w: View, k: nat, uv: UpVal, slot: nat)
    requires Meant(w) && k <= |w.open| && slot < |w.env.names| && uv !in w.slotOf
    ensures var next := Inserted(w, k, uv, slot).open;
            && next[0] == (if k == 0 then uv else w.open[0])
            && NextOf(next, uv) == (if k < |w.open| then w.open[k] else null)
            && (k > 0 ==> w.open[k - 1] in w.slotOf && NextOf(next, w.open[k - 1]) == uv)
            && forall a :: a in w.slotOf && (k == 0 || a != w.open[k - 1]) ==> NextOf(next, a) == NextOf(w.open, a)
  {
    assert Key(0) && Open(0);
    forall a | a == uv || a in w.slotOf ensures
      NextOf(Inserted(w, k, uv, slot).open, a) ==
        if a == uv then (if k < |w.open| then w.open[k] else null)
        else if k > 0 && a == w.open[k - 1] then uv
        else NextOf(w.open, a)
    {
      NextInserted(w.open, k, uv, a);
    }
  }

  /** The first of the list is taken off it: freed if nobody refers to it, closed over `x` otherwise. */
  function Popped(w: View, referred: bool, x: Value): View
    requires |w.open| > 0
  {
    var uv := w.open[0];
    if referred then w.(open := w.open[1..], slotOf := w.slotOf - {uv}, closed := w.closed[uv := x])
    else w.(open := w.open[1..], slotOf := w.slotOf - {uv}, nameOf := w.nameOf - {uv})
  }

  /** Part way through closing: the slots from `level` on already hold new variables, and the open
      upvalues still stand for what the slots held before. */
  ghost predicate Closing(w: View, before: Env<Value>, level: nat) {
    && Sound(before) && Sound(w.env)
    && level <= |before.names| && w.env == Renew(before, level, Values(before)[level..])
    && forall n: nat {:trigger Key(n)} :: Open(n) ==>
         Descending(w.open, w.slotOf) && OpenMeant(w, before.names) && ClosedMeant(w) && Shared(w)
  }

  lemma DescendingPopped(open: seq<UpVal>, slotOf: map<UpVal, nat>)
    requires Descending(open, slotOf) && |open| > 0
    ensures Descending(open[1..], slotOf - {open[0]})
  {
    forall a | a in slotOf && a != open[0] ensures a in open[1..] {
      var i :| 0 <= i < |open| && open[i] == a;
      assert open[1..][i - 1] == a;
    }
    forall i | 1 <= i < |open| ensures slotOf[open[0]] > slotOf[open[i]] {
    }
  }

  lemma RenamedAway(e: Env<Value>, level: nat, i: nat)
    requires Sound(e) && level <= i < |e.names|
    ensures e.names[i] !in Renew(e, level, Values(e)[level..]).names
  {
    assert Key(0) && Open(0);
    var r := Renew(e, level, Values(e)[level..]);
    RenewDone(e, level, Values(e)[level..]);
    forall j | 0 <= j < |r.names| ensures r.names[j] != e.names[i] {
      if j < level { assert r.names[j] == e.names[j]; }
    }
  }

  lemma PoppedMeant(w: View, before: Env<Value>, level: nat, referred: bool)
    requires Closing(w, before, level) && |w.open| > 0 && w.open[0] in w.slotOf &&
        level <= w.slotOf[w.open[0]] < |before.names|
    ensures var r := Popped(w, referred, Values(before)[w.slotOf[w.open[0]]]);
            OpenMeant(r, before.names) && ClosedMeant(r) && Shared(r)
  {
    var uv := w.open[0];
    var i := w.slotOf[uv];
    RenewDone(before, level, Values(before)[level..]);
    RenamedAway(before, level, i);
    assert before.names[i] in before.store by { assert Key(0) && Open(0); }
    assert OpenMeant(w, before.names) && ClosedMeant(w) && Shared(w) by { assert Key(0) && Open(0); }
    assert w.nameOf[uv] == before.names[i];
  }

  lemma PoppedDone(w: View, before: Env<Value>, cells: seq<Value>, level: nat, referred: bool)
    requires Closing(w, before, level) && |w.open| > 0 && w.open[0] in w.slotOf &&
        level <= w.slotOf[w.open[0]] < |cells|
    requires Holds(cells, before)
    ensures Closing(Popped(w, referred, cells[w.slotOf[w.open[0]]]), before, level)
  {
    assert cells == Values(before) by { assert Key(0) && Open(0); }
    assert Descending(w.open, w.slotOf) by { assert Key(0) && Open(0); }
    DescendingPopped(w.open, w.slotOf);
    PoppedMeant(w, before, level, referred);
  }

  lemma ClosingBegins(w: View, cells: seq<Value>, level: nat)
    requires Meant(w) && level <= |cells| && Holds(cells, w.env)
    ensures level <= |w.env.names|
    ensures Closing(w.(env := Act(w.env, EndScope(level))), w.env, level)
    ensures Holds(cells, Act(w.env, EndScope(level)))
  {
    assert Key(0) && Open(0);
    var e := Act(w.env, EndScope(level));
    RenewDone(w.env, level, Values(w.env)[level..]);
    forall uv | uv in w.closed ensures w.nameOf[uv] !in e.names {
      forall j | 0 <= j < |e.names| ensures e.names[j] != w.nameOf[uv] {
        assert j < level ==> e.names[j] == w.env.names[j];
      }
    }
    assert ClosedMeant(w.(env := e));
  }

  lemma ClosingEnds(w: View, before: Env<Value>, cells: seq<Value>, level: nat)
    requires Closing(w, before, level) && Holds(cells, before)
    requires |w.open| > 0 ==> w.open[0] in w.slotOf && w.slotOf[w.open[0]] < level
    ensures Meant(w) && forall uv :: uv in w.slotOf ==> w.slotOf[uv] < level
    ensures w.env == Act(before, EndScope(level)) && Holds(cells, w.env)
  {
    RenewDone(before, level, Values(before)[level..]);
    assert Key(0) && Open(0);
    forall uv | uv in w.slotOf ensures w.slotOf[uv] < level && w.slotOf[uv] < |w.env.names| &&
      w.env.names[w.slotOf[uv]] == before.names[w.slotOf[uv]] {
      var i :| 0 <= i < |w.open| && w.open[i] == uv;
      if i > 0 { assert w.slotOf[w.open[0]] > w.slotOf[w.open[i]]; }
    }
    assert OpenMeant(w, w.env.names);
  }

  /** `w` comes from `was` by taking upvalues of slots from `level` on off the front of the list, and
      forgetting those of them that are idle. */
  ghost predicate Shed(was: View, w: View, level: nat, idle: set<UpVal>) {
    forall n: nat {:trigger Key(n)} :: Open(n) ==>
      && |w.open| <= |was.open| && w.open == was.open[|was.open| - |w.open|..]
      && (forall a :: a in w.slotOf ==> a in was.slotOf && w.slotOf[a] == was.slotOf[a])
      && (forall a :: a in was.slotOf ==> a in w.slotOf || was.slotOf[a] >= level)
      && (forall a :: a in w.nameOf ==> a in was.nameOf && w.nameOf[a] == was.nameOf[a])
      && (forall a :: a in was.nameOf ==> a in w.nameOf || (a in was.slotOf && a in idle && !(a in w.slotOf)))
      && (forall a :: a in w.nameOf && a in idle && a in was.slotOf ==> a in w.slotOf)
  }

  lemma Unshed(w: View, level: nat, idle: set<UpVal>)
    requires Sound(w.env)
    ensures Shed(w, w.(env := Act(w.env, EndScope(level))), level, idle)
  {
    assert w.open == w.open[0..];
  }

  lemma ShedPopped(was: View, w: View, level: nat, idle: set<UpVal>, referred: bool, x: Value)
    requires Shed(was, w, level, idle) && |w.open| > 0 && w.open[0] in w.slotOf && w.slotOf[w.open[0]] >= level
    requires referred == (w.open[0] !in idle)
    ensures Shed(was, Popped(w, referred, x), level, idle)
  {
    assert Key(0) && Open(0);
    var r := Popped(w, referred, x);
    assert r.open == was.open[|was.open| - |r.open|..];
  }

  /** The value of the variable an upvalue stands for. */
  ghost function ValueOf(w: View, uv: UpVal): Value
    requires Meant(w) && uv in w.nameOf
  {
    assert Key(0) && Open(0);
    w.env.store[w.nameOf[uv]]
  }

  /** Ending scopes leaves every upvalue it does not free with the value it had. */
  lemma ClosingKeeps(was: View, w: View, level: nat, idle: set<UpVal>, uv: UpVal)
    requires Meant(was) && Meant(w) && level <= |was.env.names|
    requires Shed(was, w, level, idle) && w.env == Act(was.env, EndScope(level)) && uv in w.nameOf
    ensures uv in was.nameOf && ValueOf(w, uv) == ValueOf(was, uv)
    ensures w.nameOf[uv] == was.nameOf[uv]
  {
    assert Key(0) && Open(0);
    RenewDone(was.env, level, Values(was.env)[level..]);
  }

  /** An upvalue nobody refers to any more is freed. */
  function Forgotten(w: View, uv: UpVal): View {
    w.(closed := w.closed - {uv}, nameOf := w.nameOf - {uv})
  }

  lemma ForgottenDone(w: View, uv: UpVal)
    requires Meant(w) && uv !in w.slotOf
    ensures Meant(Forgotten(w, uv))
  {
    assert Key(0) && Open(0);
    var r := Forgotten(w, uv);
    assert OpenMeant(r, r.env.names) && ClosedMeant(r) && Shared(r);
  }

  /** No slots, no upvalues. */
  function Nothing(): View {
    View([], map[], map[], map[], Env([], map[], 0))
  }

  lemma NothingMeant()
    ensures Meant(Nothing()) && Holds([], Nothing().env)
  {
    assert Distinct(Nothing().env);
    assert Descending(Nothing().open, Nothing().slotOf) && OpenMeant(Nothing(), Nothing().env.names);
    assert ClosedMeant(Nothing()) && Shared(Nothing());
    assert [] == Values(Nothing().env);
  }

  /** The stack grows: nothing any upvalue stands for changes. */
  lemma ExtendDone(w: View, cells: seq<Value>, values: seq<Value>)
    requires Meant(w) && Holds(cells, w.env)
    ensures Holds(cells + values, Act(w.env, Extend(values)))
    ensures Meant(w.(env := Act(w.env, Extend(values))))
  {
    RenewDone(w.env, |w.env.names|, values);
    assert Holds(cells + values, Act(w.env, Extend(values))) by { assert Key(0) && Open(0); }
    ExtendMeant(w, values, Act(w.env, Extend(values)));
  }

  lemma ExtendMeant(w: View, values: seq<Value>, e: Env<Value>)
    requires Meant(w) && e == Act(w.env, Extend(values))
    ensures Meant(w.(env := e))
  {
    assert Key(0) && Open(0);
    RenewDone(w.env, |w.env.names|, values);
    forall uv | uv in w.closed ensures w.nameOf[uv] !in e.names {
      forall j | 0 <= j < |e.names| ensures e.names[j] != w.nameOf[uv] {
        assert j < |w.env.names| ==> e.names[j] == w.env.names[j];
      }
    }
    var r := w.(env := e);
    assert OpenMeant(r, r.env.names) && ClosedMeant(r) && Shared(r);
  }

  /** The variable `uv` stands for is given a value. */
  function Given(w: View, uv: UpVal, x: Value): View
    requires Sound(w.env) && uv in w.nameOf
  {
    w.(env := Act(w.env, SetVariable(w.nameOf[uv], x)), closed := if uv in w.closed then w.closed[uv := x]
      else w.closed)
  }

  lemma GivenDone(w: View, cells: seq<Value>, uv: UpVal, x: Value)
    requires Meant(w) && uv in w.nameOf && Holds(cells, w.env)
    ensures Meant(Given(w, uv, x))
    ensures uv in w.slotOf ==> w.slotOf[uv] < |cells| && uv !in w.closed
    ensures uv !in w.slotOf ==> uv in w.closed
    ensures Holds(if uv in w.slotOf then cells[w.slotOf[uv] := x] else cells, Given(w, uv, x).env)
  {
    assert Key(0) && Open(0);
    StoreDone(w.env, w.nameOf[uv], x);
    var r := Given(w, uv, x);
    assert ClosedMeant(r) && OpenMeant(r, r.env.names) && Shared(r);
  }

  /** A slot is written: the variable it holds changes, and no other. */
  lemma SlotSet(w: View, cells: seq<Value>, i: nat, x: Value)
    requires Meant(w) && i < |cells| && Holds(cells, w.env)
    ensures Meant(w.(env := Act(w.env, SetSlot(i, x))))
    ensures Holds(cells[i := x], Act(w.env, SetSlot(i, x)))
  {
    assert Key(0) && Open(0);
    StoreDone(w.env, w.env.names[i], x);
    var r := w.(env := Act(w.env, SetSlot(i, x)));
    assert ClosedMeant(r) && OpenMeant(r, r.env.names) && Shared(r);
  }

  // ---------- the heap ----------

  /** `p` points into `block`, at most one past its end. */
  ghost predicate Into(p: Pointer, block: array<Value>) {
    p.Slot? && p.block == block && p.index <= block.Length
  }

  /** What follows `uv` on the list. */
  ghost function NextOf(open: seq<UpVal>, uv: UpVal): UpVal? {
    if |open| < 2 then null else if open[0] == uv then open[1] else NextOf(open[1..], uv)
  }

  lemma {:induction false} NextAt(open: seq<UpVal>, slotOf: map<UpVal, nat>, k: nat)
    requires Descending(open, slotOf) && k < |open|
    ensures NextOf(open, open[k]) == if k + 1 < |open| then open[k + 1] else null
  {
    if k > 0 {
      assert slotOf[open[0]] > slotOf[open[k]];
      DescendingPopped(open, slotOf);
      NextAt(open[1..], slotOf - {open[0]}, k - 1);
    }
  }

  /** A new link changes where its predecessor leads, and nothing else. */
  lemma {:induction false} NextInserted(open: seq<UpVal>, k: nat, uv: UpVal, a: UpVal)
    requires k <= |open| && uv !in open && (k > 0 ==> open[k - 1] !in open[..k - 1])
    requires a == uv || a in open
    ensures NextOf(open[..k] + [uv] + open[k..], a) ==
            if a == uv then (if k < |open| then open[k] else null)
            else if k > 0 && a == open[k - 1] then uv
            else NextOf(open, a)
  {
    var r := open[..k] + [uv] + open[k..];
    if k == 0 {
      assert r == [uv] + open;
    } else {
      assert r[0] == open[0] && r[1..] == open[1..][..k - 1] + [uv] + open[1..][k - 1..];
      if a != open[0] {
        if k > 1 {
          assert open[1..][..k - 2] == open[..k - 1][1..];
        }
        NextInserted(open[1..], k - 1, uv, a);
      }
    }
  }

  lemma PoppedLinks(open: seq<UpVal>, a: UpVal)
    requires |open| > 0 && a in open && a != open[0]
    ensures NextOf(open[1..], a) == NextOf(open, a)
  {
  }

  /** What taking the first upvalue off the list needs to know. */
  lemma PopReady(w: View, before: Env<Value>, level: nat, uv: UpVal)
    requires Closing(w, before, level) && |w.open| > 0 && w.open[0] == uv
    ensures uv in w.slotOf && uv !in w.closed && w.slotOf[uv] < |before.names|
    ensures NextOf(w.open, uv) == if |w.open| > 1 then w.open[1] else null
    ensures |w.open| > 1 ==> w.open[1] in w.slotOf && w.open[1] != uv
    ensures forall a :: a in w.slotOf && a != uv ==> NextOf(w.open[1..], a) == NextOf(w.open, a)
  {
    assert Key(0) && Open(0);
    forall a | a in w.slotOf && a != uv ensures NextOf(w.open[1..], a) == NextOf(w.open, a) {
      PoppedLinks(w.open, a);
    }
  }

  /** An open upvalue points to its slot, and its link to the next on the list. */
  ghost predicate Pointing(open: seq<UpVal>, slotOf: map<UpVal, nat>, block: array<Value>)
    reads slotOf.Keys
  {
    forall uv :: uv in slotOf ==>
      slotOf[uv] < block.Length && uv.v == Slot(block, slotOf[uv]) && uv.u.Link? && uv.u.next == NextOf(open, uv)
  }

  ghost predicate Owning(closed: map<UpVal, Value>)
    reads closed.Keys
  {
    forall uv :: uv in closed ==> uv.v.Own? && uv.u == Closed(closed[uv]) && uv.refcount > 0
  }

  ghost predicate CallInto(ci: CallInfo, block: array<Value>)
    reads ci
  {
    Into(ci.func, block) && Into(ci.top, block) && (ci.isLua ==> Into(ci.base, block))
  }

  /** The calls in progress, innermost first, each with its pointers into the stack. */
  ghost predicate Calls(first: CallInfo?, calls: seq<CallInfo>, block: array<Value>)
    reads calls
  {
    && first == (if |calls| == 0 then null else calls[0])
    && Single(calls)
    && forall n: nat {:trigger Key(n)} :: Open(n) ==> forall i :: 0 <= i < |calls| ==> CallAt(calls, i, block)
  }

  ghost predicate Single(calls: seq<CallInfo>) {
    forall n: nat {:trigger Key(n)} :: Open(n) ==> forall i, j :: 0 <= i < j < |calls| ==> calls[i] != calls[j]
  }

  ghost predicate CallAt(calls: seq<CallInfo>, i: nat, block: array<Value>)
    requires i < |calls|
    reads calls[i]
  {
    CallInto(calls[i], block) && calls[i].previous == if i + 1 < |calls| then calls[i + 1] else null
  }

  ghost predicate Readable(uv: UpVal)
    reads uv
  {
    if uv.v.Slot? then uv.v.index < uv.v.block.Length else uv.u.Closed?
  }

  /** What an upvalue yields: the `*uv->v` of OP_GETUPVAL. */
  ghost function Yields(uv: UpVal): Value
    requires Readable(uv)
    reads uv, if uv.v.Slot? then {uv.v.block} else {}
  {
    if uv.v.Slot? then uv.v.block[uv.v.index] else uv.u.value
  }

  lemma LinkedFirst(w: View, next: View, uv: UpVal, block: array<Value>)
    requires Pointing(w.open, w.slotOf, block) && uv !in w.slotOf
    requires next.slotOf.Keys == w.slotOf.Keys + {uv} && next.slotOf[uv] < block.Length
    requires forall a :: a in w.slotOf ==> next.slotOf[a] == w.slotOf[a] && NextOf(next.open, a) == NextOf(w.open, a)
    requires uv.v == Slot(block, next.slotOf[uv]) && uv.u.Link? && uv.u.next == NextOf(next.open, uv)
    ensures Pointing(next.open, next.slotOf, block)
  {
  }

  class LuaState {
    var stack: array<Value>
    var stacksize: nat
    var top: Pointer
    var stackLast: Pointer
    var openupval: UpVal?
    var ci: CallInfo?

    ghost var w: View
    ghost var calls: seq<CallInfo>   // the list at ci

    ghost predicate Placed()
      reads `stack, `stacksize, `top, `stackLast, `ci, `calls, calls
    {
      && stack.Length == stacksize && EXTRA_STACK <= stacksize
      && Into(top, stack) && stackLast == Slot(stack, stacksize - EXTRA_STACK)
      && Calls(ci, calls, stack)
    }

    ghost predicate Shown()
      reads this, w.slotOf.Keys, w.closed.Keys
    {
      && openupval == (if |w.open| == 0 then null else w.open[0])
      && Pointing(w.open, w.slotOf, stack) && Owning(w.closed)
    }

    ghost predicate Valid()
      reads this, w.slotOf.Keys, w.closed.Keys, calls, stack
    {
      Placed() && Shown() && Meant(w) && Holds(stack[..], w.env)
    }

    /** A new thread (stack_init): a stack of nils, one call, no upvalues. */
    constructor ()
      ensures Valid() && stacksize == BASIC_STACK_SIZE && w.nameOf == map[] && w.open == [] && top.index == 1
      ensures stack[..] == Nils(BASIC_STACK_SIZE)
    {
      stack := new Value[BASIC_STACK_SIZE](_ => LuaMachine.Nil);
      stacksize := BASIC_STACK_SIZE;
      openupval := null;
      new;
      stackLast := Slot(stack, BASIC_STACK_SIZE - EXTRA_STACK);
      var base := new CallInfo(Slot(stack, 0), Slot(stack, 1 + LUA_MINSTACK), Own, false, null);
      top, ci, calls := Slot(stack, 1), base, [base];
      ghost var nils := Nils(BASIC_STACK_SIZE);
      NothingMeant();
      ExtendDone(Nothing(), [], nils);
      assert stack[..] == [] + nils;
      w := Nothing().(env := Act(Nothing().env, Extend(nils)));
      assert CallAt(calls, 0, stack);
    }

    /** OP_GETUPVAL: what is read is the value of the variable. */
    method GetUpval(uv: UpVal) returns (x: Value)
      requires Valid() && uv in w.nameOf
      ensures w.nameOf[uv] in w.env.store && x == w.env.store[w.nameOf[uv]]
      ensures Readable(uv) && x == Yields(uv)
    {
      MeansIt(w, stack[..], uv);
      assert uv in w.slotOf ==> stack[w.slotOf[uv]] == stack[..][w.slotOf[uv]];
      x := if uv.v.Slot? then uv.v.block[uv.v.index] else uv.u.value;
    }

    /** OP_SETUPVAL. */
    method SetUpval(uv: UpVal, x: Value)
      requires Valid() && uv in w.nameOf
      modifies stack, uv`u, `w
      ensures Valid()
      ensures w == Given(old(w), uv, x)
    {
      GivenDone(w, stack[..], uv, x);
      if uv.v.Slot? {
        stack[uv.v.index] := x;
      } else {
        uv.u := Closed(x);
      }
      w := Given(w, uv, x);
    }

    /** The function writes a local of its own. */
    method SetLocal(i: nat, x: Value)
      requires Valid() && i < stacksize
      modifies stack, `w
      ensures Valid() && stack[..] == old(stack[..])[i := x]
      ensures w == old(w).(env := Act(old(w.env), SetSlot(i, x)))
    {
      SlotSet(w, stack[..], i, x);
      stack[i] := x;
      w := w.(env := Act(w.env, SetSlot(i, x)));
    }

    /** luaC_upvdeccount: a closure that referred to the upvalue is gone. */
    method Release(uv: UpVal)
      requires Valid() && uv in w.nameOf && uv.refcount > 0
      modifies uv`refcount, `w
      ensures Valid() && uv.refcount == old(uv.refcount) - 1
      ensures w == if uv.refcount == 0 && old(uv.v.Own?) then Forgotten(old(w), uv) else old(w)
    {
      Members(w);
      uv.refcount := uv.refcount - 1;
      if uv.refcount == 0 && uv.v.Own? {
        ForgottenDone(w, uv);
        w := Forgotten(w, uv);
      }
    }

    /** The loop of luaF_findupval: the first on the list that is not above the slot, and the one before it. */
    method Search(level: nat) returns (prev: UpVal?, p: UpVal?, ghost k: nat)
      requires Valid()
      ensures k <= |w.open| && p == (if k < |w.open| then w.open[k] else null)
      ensures prev == if k > 0 then w.open[k - 1] else null
      ensures k > 0 ==> w.open[k - 1] in w.slotOf && w.slotOf[w.open[k - 1]] > level
      ensures p != null ==> p in w.slotOf && p.v == Slot(stack, w.slotOf[p]) && w.slotOf[p] <= level
    {
      prev, p, k := null, openupval, 0;
      Members(w);
      while p != null && p.v.index >= level
        invariant k <= |w.open| && p == if k < |w.open| then w.open[k] else null
        invariant prev == if k > 0 then w.open[k - 1] else null
        invariant k > 0 ==> w.open[k - 1] in w.slotOf && w.slotOf[w.open[k - 1]] > level
        decreases |w.open| - k
      {
        Follow(w, k);
        if p.v.index == level {
          return;
        }
        prev, p, k := p, p.u.next, k + 1;
      }
    }

    /** luaF_findupval: share the upvalue of the slot, or link a new one in order. */
    method FindUpval(level: nat) returns (uv: UpVal)
      requires Valid() && level < stacksize
      modifies `openupval, `w, w.open`u
      ensures Valid() && w.env == old(w.env)
      ensures uv in w.slotOf && w.slotOf[uv] == level
      ensures if exists a :: a in old(w.slotOf) && old(w.slotOf)[a] == level
              then w == old(w)
              else fresh(uv) && uv.refcount == 0 && exists k ::
                0 <= k <= |old(w.open)| && w == Inserted(old(w), k, uv, level)
    {
      var prev, p;
      ghost var k;
      prev, p, k := Search(level);
      if p != null && p.v.index == level {
        return p;
      }
      uv := new UpVal(Slot(stack, level), 0, Link(p, true));
      Insert(prev, uv, level, k);
    }

    /** Links `uv` after `prev`, or first. */
    method Insert(prev: UpVal?, uv: UpVal, level: nat, ghost k: nat)
      requires Valid() && k <= |w.open| && uv !in w.nameOf && uv !in w.open && uv !in w.slotOf && uv !in w.closed
      requires prev == if k > 0 then w.open[k - 1] else null
      requires level < stacksize && uv.v == Slot(stack, level) &&
          uv.u == Link(if k < |w.open| then w.open[k] else null, true)
      requires k > 0 ==> w.open[k - 1] in w.slotOf && w.slotOf[w.open[k - 1]] > level
      requires k < |w.open| ==> w.open[k] in w.slotOf && w.slotOf[w.open[k]] < level
      modifies `openupval, `w, (if k > 0 then {w.open[k - 1]} else {})`u
      ensures Valid()
      ensures w == Inserted(old(w), k, uv, level)
      ensures forall a :: a in old(w.slotOf) ==> old(w.slotOf)[a] != level
    {
      InsertedDone(w, k, uv, level);
      Threaded(w, k, uv, level);
      PrevOpen(w, k);
      LinkIn(prev, uv, level, k);
    }

    /** The links, and the list they make. */
    method LinkIn(prev: UpVal?, uv: UpVal, level: nat, ghost k: nat)
      requires Shown() && level < |w.env.names| && level < stack.Length
      requires k <= |w.open| && uv !in w.slotOf && uv !in w.closed && prev == if k > 0 then w.open[k - 1] else null
      requires k > 0 ==> w.open[k - 1] in w.slotOf && w.open[k - 1] !in w.closed
      requires var next := Inserted(w, k, uv, level).open;
            && next[0] == (if k == 0 then uv else w.open[0])
            && NextOf(next, uv) == (if k < |w.open| then w.open[k] else null)
            && (k > 0 ==> NextOf(next, w.open[k - 1]) == uv)
            && forall a :: a in w.slotOf && (k == 0 || a != w.open[k - 1]) ==> NextOf(next, a) == NextOf(w.open, a)
      requires uv.v == Slot(stack, level) && uv.u == Link(if k < |w.open| then w.open[k] else null, true)
      modifies `openupval, `w, (if k > 0 then {w.open[k - 1]} else {})`u
      ensures Shown() && w == Inserted(old(w), k, uv, level)
    {
      ghost var next := Inserted(w, k, uv, level);
      if prev == null {
        LinkedFirst(w, next, uv, stack);
        openupval := uv;
      } else {
        LinkAfter(prev, uv, next);
      }
      w := next;
    }

    /** Every open upvalue leads to the next one again. */
    method LinkAfter(prev: UpVal, uv: UpVal, ghost next: View)
      requires Pointing(w.open, w.slotOf, stack) && prev in w.slotOf && prev != uv && uv !in w.slotOf
      requires next.slotOf.Keys == w.slotOf.Keys + {uv} && next.slotOf[uv] < stack.Length
      requires forall a :: a in w.slotOf ==> next.slotOf[a] == w.slotOf[a]
      requires uv.v == Slot(stack, next.slotOf[uv]) && uv.u.Link? && uv.u.next == NextOf(next.open, uv)
      requires NextOf(next.open, prev) == uv
      requires forall a :: a in w.slotOf && a != prev ==> NextOf(next.open, a) == NextOf(w.open, a)
      modifies prev`u
      ensures Pointing(next.open, next.slotOf, stack)
    {
      prev.u := Link(uv, prev.u.touched);
    }

    /** One more reference (`refcount++` in pushclosure). */
    method Refer(uv: UpVal)
      requires Valid()
      modifies uv`refcount
      ensures Valid() && uv.refcount == old(uv.refcount) + 1
    {
      uv.refcount := uv.refcount + 1;
    }

    /** A closure captures the local in a slot: one more reference to its upvalue. */
    method Capture(level: nat) returns (uv: UpVal)
      requires Valid() && level < stacksize
      modifies `openupval, `w, w.open
      ensures Valid() && w.env == old(w.env)
      ensures uv in w.nameOf && w.nameOf[uv] == w.env.names[level]
      ensures forall a :: a in old(w.nameOf) ==> a in w.nameOf && w.nameOf[a] == old(w.nameOf)[a]
    {
      uv := FindUpval(level);
      Members(w);
      MeansIt(w, stack[..], uv);
      Refer(uv);
    }

    /** luaF_close: exactly the upvalues of the slots from `level` on leave the list; those nobody refers
        to are freed, the others own their value. */
    method Close(level: nat)
      requires Valid() && level <= stacksize
      modifies `openupval, `w, w.open`v, w.open`u
      ensures Valid() && w.env == Act(old(w.env), EndScope(level))
      ensures forall a :: a in w.slotOf ==> w.slotOf[a] < level
      ensures Shed(old(w), w, level, set a | a in old(w.open) && old(a.refcount) == 0)
    {
      ghost var was := w;
      ghost var idle := set a | a in w.open && a.refcount == 0;
      ClosingBegins(w, stack[..], level);
      Members(w);
      Unshed(w, level, idle);
      w := w.(env := Act(w.env, EndScope(level)));
      PopPlaced(was, level, idle);
      ClosingEnds(w, was.env, stack[..], level);
    }

    /** The loop leaves the stack and the calls where they are. */
    method PopPlaced(ghost was: View, level: nat, ghost idle: set<UpVal>)
      requires Placed() && Shown() && Closing(w, was.env, level) && Holds(stack[..], was.env) &&
          Shed(was, w, level, idle)
      requires forall a :: a in w.slotOf ==> a in w.open && (a in idle <==> a.refcount == 0)
      requires |w.open| > 0 ==> w.open[0] in w.slotOf
      modifies `openupval, `w, w.open`v, w.open`u
      ensures Placed() && Shown() && Closing(w, was.env, level) && Shed(was, w, level, idle)
      ensures |w.open| > 0 ==> w.open[0] in w.slotOf && w.slotOf[w.open[0]] < level
    {
      PopAll(was, level, idle);
    }

    /** The loop of luaF_close. */
    method PopAll(ghost was: View, level: nat, ghost idle: set<UpVal>)
      requires Shown() && Closing(w, was.env, level) && Holds(stack[..], was.env) &&
          Shed(was, w, level, idle)
      requires forall a :: a in w.slotOf ==> a in w.open && (a in idle <==> a.refcount == 0)
      requires |w.open| > 0 ==> w.open[0] in w.slotOf
      modifies `openupval, `w, w.open`v, w.open`u
      ensures Shown() && Closing(w, was.env, level) && Shed(was, w, level, idle)
      ensures |w.open| > 0 ==> w.open[0] in w.slotOf && w.slotOf[w.open[0]] < level
    {
      ghost var all := w.open;
      while openupval != null && openupval.v.index >= level
        invariant Shown() && Closing(w, was.env, level) && Shed(was, w, level, idle)
        invariant forall a :: a in w.slotOf ==> a in all && (a in idle <==> a.refcount == 0)
        invariant |w.open| > 0 ==> w.open[0] in w.slotOf
        modifies `openupval, `w, all`v, all`u
        decreases |w.open|
      {
        PopNext(was, level, idle, all);
      }
    }

    method PopNext(ghost was: View, level: nat, ghost idle: set<UpVal>, ghost all: seq<UpVal>)
      requires Shown() && Closing(w, was.env, level) && Holds(stack[..], was.env) && Shed(was, w, level, idle)
      requires openupval != null && openupval.v.Slot? && openupval.v.index >= level
      requires forall a :: a in w.slotOf ==> a in all && (a in idle <==> a.refcount == 0)
      requires |w.open| > 0 ==> w.open[0] in w.slotOf
      modifies `openupval, `w, all`v, all`u
      ensures Shown() && Closing(w, was.env, level) && Shed(was, w, level, idle) && |w.open| < |old(w.open)|
      ensures forall a :: a in w.slotOf ==> a in all && (a in idle <==> a.refcount == 0)
      ensures |w.open| > 0 ==> w.open[0] in w.slotOf
    {
      PopReady(w, was.env, level, openupval);
      ghost var referred := openupval.refcount > 0;
      ghost var x := stack[..][w.slotOf[openupval]];
      PoppedDone(w, was.env, stack[..], level, referred);
      ShedPopped(was, w, level, idle, referred, x);
      PopOpen(openupval, x);
    }

    /** One turn of the loop of luaF_close: the first on the list is freed if nobody refers to it, and
        closed over the value of its slot otherwise. */
    method PopOpen(uv: UpVal, ghost x: Value)
      requires Shown() && |w.open| > 0 && openupval == uv
      requires uv in w.slotOf && uv !in w.closed && x == stack[w.slotOf[uv]]
      requires uv.u.next == if |w.open| > 1 then w.open[1] else null
      requires forall a :: a in w.slotOf && a != uv ==> NextOf(w.open[1..], a) == NextOf(w.open, a)
      modifies `openupval, `w, uv`v, uv`u
      ensures Shown()
      ensures w == Popped(old(w), uv.refcount > 0, x)
    {
      openupval := uv.u.next;
      if uv.refcount != 0 {
        uv.u := Closed(uv.v.block[uv.v.index]);
        uv.v := Own;
      }
      w := Popped(w, uv.refcount > 0, x);
    }

    // ---------- relocation ----------

    /** correctstack: every pointer into the old block becomes one into the new, at the same offset. */
    method CorrectStack(oldstack: array<Value>)
      requires oldstack.Length <= stack.Length && Into(top, oldstack) && Calls(ci, calls, oldstack)
      requires openupval == (if |w.open| == 0 then null else w.open[0])
      requires Pointing(w.open, w.slotOf, oldstack) && Owning(w.closed) && Meant(w)
      modifies `top, w.open`v, calls
      ensures top == Slot(stack, old(top.index)) && Calls(ci, calls, stack)
      ensures Pointing(w.open, w.slotOf, stack) && Owning(w.closed)
      ensures forall c :: c in calls ==> SameOffsets(c, oldstack, stack)
    {
      top := Slot(stack, top.index);
      MoveUpvalues(oldstack);
      MoveCalls(oldstack);
    }

    method MoveUpvalues(oldstack: array<Value>)
      requires oldstack.Length <= stack.Length && openupval == (if |w.open| == 0 then null else w.open[0])
      requires Pointing(w.open, w.slotOf, oldstack) && Owning(w.closed) && Meant(w)
      modifies w.open`v
      ensures Pointing(w.open, w.slotOf, stack) && Owning(w.closed)
    {
      Members(w);
      var up := openupval;
      ghost var k := 0;
      ghost var done: set<UpVal> := {};
      while up != null
        invariant k <= |w.open| && up == if k < |w.open| then w.open[k] else null
        invariant forall i :: 0 <= i < |w.open| ==> (w.open[i] in done <==> i < k)
        invariant forall a :: a in w.slotOf ==> a.v == Slot(if a in done then stack else oldstack, w.slotOf[a])
        decreases |w.open| - k
      {
        Follow(w, k);
        MoveUpvalue(up, oldstack, done);
        OneMoreDone(w, k, done);
        done := done + {up};
        up, k := up.u.next, k + 1;
      }
    }

    method MoveUpvalue(up: UpVal, oldstack: array<Value>, ghost done: set<UpVal>)
      requires up in w.slotOf && up !in done && w.slotOf[up] < stack.Length
      requires forall a :: a in w.slotOf ==> a.v == Slot(if a in done then stack else oldstack, w.slotOf[a])
      modifies up`v
      ensures forall a :: a in w.slotOf ==> a.v == Slot(if a in done + {up} then stack else oldstack, w.slotOf[a])
    {
      up.v := Slot(stack, up.v.index);
    }

    method MoveCalls(oldstack: array<Value>)
      requires oldstack.Length <= stack.Length && Calls(ci, calls, oldstack)
      modifies calls
      ensures Calls(ci, calls, stack) && forall c :: c in calls ==> SameOffsets(c, oldstack, stack)
    {
      ghost var all := calls;
      assert forall i :: 0 <= i < |all| ==> CallAt(all, i, oldstack) by { assert Key(0) && Open(0); }
      var c := ci;
      ghost var k := 0;
      while c != null
        invariant calls == all && k <= |all| && c == if k < |all| then all[k] else null
        invariant forall i :: 0 <= i < k ==> SameOffsets(all[i], oldstack, stack) && CallAt(all, i, stack)
        invariant forall i :: k <= i < |all| ==> unchanged(all[i])
        decreases |all| - k
      {
        assert c == all[k] && old(CallAt(all, k, oldstack)) && c.previous == old(all[k].previous);
        assert forall i :: k < i < |all| ==> all[i] != c by { assert Key(0) && Open(0); }
        MoveCall(c, oldstack);
        c, k := c.previous, k + 1;
      }
    }

    method MoveCall(c: CallInfo, oldstack: array<Value>)
      requires oldstack.Length <= stack.Length && CallInto(c, oldstack)
      modifies c`top, c`func, c`base
      ensures CallInto(c, stack) && SameOffsets(c, oldstack, stack)
    {
      c.top := Slot(stack, c.top.index);
      c.func := Slot(stack, c.func.index);
      if c.isLua {
        c.base := Slot(stack, c.base.index);
      }
    }

    /** The stack has grown: the slots are what they were, the new ones nil, and nothing stands for anything
        else than before. */
    twostate predicate Stretched()
      requires old(Valid())
      reads this, stack
    {
      && old(stacksize) <= stacksize && fresh(stack)
      && stack[..] == old(stack[..]) + Nils(stacksize - old(stacksize))
      && w == old(w).(env := Act(old(w.env), Extend(Nils(stacksize - old(stacksize)))))
      && top.Slot? && top.index == old(top.index)
    }

    /** luaD_reallocstack, to a size not below the present one. */
    method ReallocStack(newsize: nat)
      requires Valid() && stacksize <= newsize
      modifies this, w.open`v, calls
      ensures Valid() && stacksize == newsize && Stretched()
      ensures openupval == old(openupval) && ci == old(ci) && calls == old(calls)
      ensures forall c :: c in calls ==> SameOffsets(c, old(stack), stack)
    {
      var newstack := Copied(stack, newsize);
      Install(newstack, newsize);
    }

    /** luaD_growstack: room for `n` more, or the error area and an error. */
    method GrowStack(n: nat) returns (g: Growth)
      requires Valid()
      modifies this, w.open`v, calls
      ensures Valid()
      ensures g == if old(stacksize) > LUAI_MAXSTACK then ErrorInError
                   else if old(top.index) + n + EXTRA_STACK > LUAI_MAXSTACK then Overflow else Grown
      ensures if g.ErrorInError? then w == old(w) && stack == old(stack) else Stretched()
      ensures g.Overflow? ==> stacksize == ERRORSTACKSIZE
      ensures g.Grown? ==> stackLast.index - top.index >= n && stacksize <= LUAI_MAXSTACK
      ensures g.Grown? ==> stacksize == NewSize(old(stacksize), old(top.index) + n + EXTRA_STACK)
    {
      if stacksize > LUAI_MAXSTACK {
        return ErrorInError;
      }
      g := GrowOrFail(n);
    }

    /** The stack is not in its error area yet. */
    method GrowOrFail(n: nat) returns (g: Growth)
      requires Valid() && stacksize <= LUAI_MAXSTACK
      modifies this, w.open`v, calls
      ensures Valid() && Stretched()
      ensures g == if old(top.index) + n + EXTRA_STACK > LUAI_MAXSTACK then Overflow else Grown
      ensures g.Overflow? ==> stacksize == ERRORSTACKSIZE
      ensures g.Grown? ==> stackLast.index - top.index >= n && stacksize <= LUAI_MAXSTACK
      ensures g.Grown? ==> stacksize == NewSize(old(stacksize), old(top.index) + n + EXTRA_STACK)
    {
      var newsize := Wanted(n);
      if newsize > LUAI_MAXSTACK {
        GrowTo(ERRORSTACKSIZE, 0);
        return Overflow;
      }
      GrowTo(newsize, n);
      return Grown;
    }

    /** A size that leaves room for `n` more leaves it. */
    method GrowTo(newsize: nat, n: nat)
      requires Valid() && newsize >= stacksize && newsize >= top.index + n + EXTRA_STACK
      modifies this, w.open`v, calls
      ensures Valid() && stacksize == newsize && Stretched() && stackLast.index - top.index >= n
    {
      ReallocStack(newsize);
    }

    /** Twice the size up to the limit, or what is needed if that is more. */
    method Wanted(n: nat) returns (newsize: nat)
      requires Placed() && stacksize <= LUAI_MAXSTACK
      ensures newsize >= stacksize && newsize >= top.index + n + EXTRA_STACK
      ensures newsize > LUAI_MAXSTACK <==> top.index + n + EXTRA_STACK > LUAI_MAXSTACK
      ensures newsize == NewSize(stacksize, top.index + n + EXTRA_STACK)
    {
      var needed := top.index + n + EXTRA_STACK;
      newsize := 2 * stacksize;
      if newsize > LUAI_MAXSTACK {
        newsize := LUAI_MAXSTACK;
      }
      if newsize < needed {
        newsize := needed;
      }
    }

    method Install(newstack: array<Value>, newsize: nat)
      requires Valid() && stacksize <= newsize == newstack.Length
      requires newstack[..] == stack[..] + Nils(newsize - stacksize)
      modifies this, w.open`v, calls
      ensures Valid() && stack == newstack && stacksize == newsize
      ensures w == old(w).(env := Act(old(w.env), Extend(Nils(newsize - old(stacksize)))))
      ensures top.index == old(top.index) && openupval == old(openupval) && ci == old(ci) && calls == old(calls)
      ensures forall c :: c in calls ==> SameOffsets(c, old(stack), newstack)
    {
      ghost var nils := Nils(newsize - stacksize);
      ExtendDone(w, stack[..], nils);
      Replace(newstack, newsize);
      assert Holds(stack[..], Act(w.env, Extend(nils)));
      w := w.(env := Act(w.env, Extend(nils)));
    }

    method Replace(newstack: array<Value>, newsize: nat)
      requires Placed() && Shown() && Meant(w) && stacksize <= newsize == newstack.Length
      modifies `stack, `stacksize, `stackLast, `top, w.open`v, calls
      ensures Placed() && Shown() && stack == newstack && stacksize == newsize
      ensures top.index == old(top.index)
      ensures forall c :: c in calls ==> SameOffsets(c, old(stack), newstack)
    {
      var oldstack := stack;
      stack := newstack;
      stacksize := newsize;
      stackLast := Slot(stack, newsize - EXTRA_STACK);
      CorrectStack(oldstack);
    }
  }

  datatype Growth = Grown | Overflow | ErrorInError

  /** What an upvalue yields is the value of the variable it stands for. */
  lemma YieldsIt(l: LuaState, uv: UpVal)
    requires l.Valid() && uv in l.w.nameOf
    ensures Readable(uv) && Yields(uv) == ValueOf(l.w, uv)
  {
    MeansIt(l.w, l.stack[..], uv);
  }

  /** Closing changes what no referenced upvalue yields. */
  twostate lemma CloseKeepsYields(l: LuaState, level: nat, uv: UpVal)
    requires old(l.Valid()) && l.Valid() && level <= old(l.stacksize)
    requires l.w.env == Act(old(l.w.env), EndScope(level)) && uv in l.w.nameOf
    requires Shed(old(l.w), l.w, level, set a | a in old(l.w.open) && old(a.refcount) == 0)
    ensures old(Readable(uv)) && Readable(uv) && Yields(uv) == old(Yields(uv))
  {
    var idle := set a | a in old(l.w.open) && old(a.refcount) == 0;
    ClosingKeeps(old(l.w), l.w, level, idle, uv);
    MeansIt(old(l.w), old(l.stack[..]), uv);
    assert uv in old(l.w.slotOf) ==> old(Readable(uv)) && old(l.stack[..])[old(l.w.slotOf)[uv]] == old(Yields(uv));
    YieldsIt(l, uv);
  }

  /** Nor does a growing stack. */
  twostate lemma GrowKeepsYields(l: LuaState, uv: UpVal)
    requires old(l.Valid()) && l.Valid() && l.Stretched() && old(uv in l.w.nameOf)
    ensures uv in l.w.nameOf && old(Readable(uv)) && Readable(uv) && Yields(uv) == old(Yields(uv))
  {
    var nils := Nils(l.stacksize - old(l.stacksize));
    RenewDone(old(l.w.env), |old(l.w.env).names|, nils);
    MeansIt(old(l.w), old(l.stack[..]), uv);
    YieldsIt(l, uv);
    assert uv in old(l.w.slotOf) ==> old(Readable(uv)) && old(l.stack[..])[old(l.w.slotOf)[uv]] == old(Yields(uv));
  }

  /** The new block: memcpy of the old one, then nil. */
  method Copied(from: array<Value>, newsize: nat) returns (to: array<Value>)
    requires from.Length <= newsize
    ensures fresh(to) && to[..] == from[..] + Nils(newsize - from.Length)
  {
    to := new Value[newsize](_ => LuaMachine.Nil);
    var i := 0;
    while i < from.Length
      invariant 0 <= i <= from.Length
      invariant to[..] == from[..i] + Nils(newsize - i)
      modifies to
    {
      to[i] := from[i];
      i := i + 1;
    }
    assert from[..i] == from[..];
  }

  /** A call's pointers keep their offsets when the stack moves. */
  twostate predicate SameOffsets(c: CallInfo, from: array<Value>, new to: array<Value>)
    reads c
  {
    && (old(Into(c.func, from)) ==> c.func == Slot(to, old(c.func.index)))
    && (old(Into(c.top, from)) ==> c.top == Slot(to, old(c.top.index)))
    && (old(c.isLua && Into(c.base, from)) ==> c.base == Slot(to, old(c.base.index)))
  }
}
