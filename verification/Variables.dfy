/**
  Local variables as a closure sees them: every variable is a cell of its own that never moves, and a
  stack slot merely names one.  This is the meaning the open upvalues of src/uvm/lfunc.cpp and the
  relocations of src/uvm/ldo.cpp have to keep; `OpenUpvalues` proves that they do.
 */
module Variables {
  import opened Locks
  import opened Arith

  /** `names[i]` is the variable slot `i` holds; variables from `next` on have never been used. */
  datatype Env<V> = Env(names: seq<nat>, store: map<nat, V>, next: nat)

  ghost predicate Sound<V>(e: Env<V>) {
    forall n: nat {:trigger Key(n)} :: Open(n) ==> Distinct(e)
  }

  /** Every slot holds a variable of its own. */
  ghost predicate Distinct<V>(e: Env<V>) {
    && (forall i :: 0 <= i < |e.names| ==> e.names[i] in e.store)
    && (forall i, j :: 0 <= i < j < |e.names| ==> e.names[i] != e.names[j])
    && (forall k :: k in e.store ==> k < e.next)
  }

  function Fresh(from: nat, n: nat): (r: seq<nat>)
    ensures |r| == n && forall i :: 0 <= i < n ==> r[i] == from + i
    ensures forall k :: k in r <==> from <= k < from + n
  {
    if n == 0 then [] else Fresh(from, n - 1) + [from + n - 1]
  }

  function Stored<V>(from: nat, values: seq<V>): map<nat, V> {
    map k | k in Fresh(from, |values|) :: values[k - from]
  }

  /** From slot `level` on the slots hold new variables, with these values. */
  function Renew<V>(e: Env<V>, level: nat, values: seq<V>): Env<V>
    requires level <= |e.names|
  {
    Env(e.names[..level] + Fresh(e.next, |values|), e.store + Stored(e.next, values), e.next + |values|)
  }

  /** The values in the slots. */
  function Values<V>(e: Env<V>): (r: seq<V>)
    requires Sound(e)
    ensures |r| == |e.names|
  {
    assert Key(0) && Open(0);
    seq(|e.names|, i requires 0 <= i < |e.names| => e.store[e.names[i]])
  }

  lemma RenewDone<V>(e: Env<V>, level: nat, values: seq<V>)
    requires Sound(e) && level <= |e.names|
    ensures Sound(Renew(e, level, values))
    ensures Values(Renew(e, level, values)) == Values(e)[..level] + values
    ensures forall k :: k in e.store ==>
        k in Renew(e, level, values).store && Renew(e, level, values).store[k] == e.store[k]
    ensures forall i :: level <= i < level + |values| ==> Renew(e, level, values).names[i] !in e.store
  {
    assert Key(0) && Open(0);
    var r := Renew(e, level, values);
    forall i | 0 <= i < |r.names| ensures r.names[i] in r.store {
    }
    assert Values(r) == Values(e)[..level] + values;
  }

  /** Giving one variable a value changes the one slot that holds it, if any does. */
  lemma StoreDone<V>(e: Env<V>, k: nat, x: V)
    requires Sound(e) && k in e.store
    ensures Sound(e.(store := e.store[k := x]))
    ensures forall i :: 0 <= i < |e.names| && e.names[i] == k ==>
        Values(e.(store := e.store[k := x])) == Values(e)[i := x]
    ensures k !in e.names ==> Values(e.(store := e.store[k := x])) == Values(e)
  {
    assert Key(0) && Open(0);
  }

  // ---------- whole runs ----------

  datatype Action<V> =
    | SetSlot(slot: nat, value: V)     // the function writes its own local
    | SetVariable(name: nat, value: V) // a closure writes the variable it captured
    | EndScope(level: nat)             // the locals from this slot on go out of scope
    | Extend(values: seq<V>)           // the stack grows

  function Act<V>(e: Env<V>, a: Action<V>): (r: Env<V>)
    requires Sound(e)
    ensures Sound(r)
  {
    assert Key(0) && Open(0);
    match a
    case SetSlot(i, x) => if i < |e.names| then e.(store := e.store[e.names[i] := x]) else e
    case SetVariable(k, x) => if k in e.store then e.(store := e.store[k := x]) else e
    case EndScope(level) =>
      if level <= |e.names| then RenewDone(e, level, Values(e)[level..]); Renew(e, level, Values(e)[level..]) else e
    case Extend(values) => RenewDone(e, |e.names|, values); Renew(e, |e.names|, values)
  }

  function Run<V>(e: Env<V>, actions: seq<Action<V>>): (r: Env<V>)
    requires Sound(e)
    ensures Sound(r)
    decreases |actions|
  {
    if |actions| == 0 then e else Run(Act(e, actions[0]), actions[1..])
  }

  /** The last value a closure gave variable `k`, or `x` if none did. */
  function LastGiven<V>(actions: seq<Action<V>>, k: nat, x: V): V
    decreases |actions|
  {
    if |actions| == 0 then x
    else if actions[0].SetVariable? && actions[0].name == k then LastGiven(actions[1..], k, actions[0].value)
    else LastGiven(actions[1..], k, x)
  }

  /** Once no slot holds a variable, none ever will again, and in every run its value is the last one a
      closure gave it: nothing the stack does can reach it. */
  lemma {:induction false} LeftAlone<V>(e: Env<V>, actions: seq<Action<V>>, k: nat)
    requires Sound(e) && k in e.store && k !in e.names
    ensures k in Run(e, actions).store && k !in Run(e, actions).names
    ensures Run(e, actions).store[k] == LastGiven(actions, k, e.store[k])
    decreases |actions|
  {
    if |actions| > 0 {
      var r := Act(e, actions[0]);
      StepAlone(e, actions[0], k);
      LeftAlone(r, actions[1..], k);
    }
  }

  lemma StepAlone<V>(e: Env<V>, a: Action<V>, k: nat)
    requires Sound(e) && k in e.store && k !in e.names
    ensures k in Act(e, a).store && k !in Act(e, a).names
    ensures Act(e, a).store[k] == if a.SetVariable? && a.name == k then a.value else e.store[k]
  {
    assert Key(0) && Open(0);
    match a
    case SetSlot(i, x) =>
      if i < |e.names| { assert e.names[i] in e.names; }
    case SetVariable(_, _) =>
    case EndScope(level) =>
      if level <= |e.names| { RenewDone(e, level, Values(e)[level..]); }
    case Extend(values) =>
      RenewDone(e, |e.names|, values);
  }
}
