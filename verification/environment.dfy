/**
 The `Environment` class of diylisp/types.py. An environment is one flat table from
 names to values; there is no parent chain. `extend` makes a new environment from a
 copy of the table with new bindings laid over it, and `set` adds a binding but never
 replaces one.

 Python environments are mutable objects shared by reference: a closure holds the
 very object it was created in. The model keeps every environment object in a
 `Store` and refers to it by its index (a frame), so a later `set` on a frame is seen
 by every closure holding that index, while a frame made by `extend` is a separate
 copy that later changes to its origin do not reach.
 */
module Environment {
  import opened Values

  /** The `variables` dictionary of one environment. */
  type Table = map<Key, Value>

  /** `lookup`: the bound value, or a `LispError` naming the key. */
  function Lookup(t: Table, k: Key): Result<Value>
  {
    if k in t then Ok(t[k]) else Err(LispError(Unbound(k)))
  }

  /** `extend`: a copy of `t` updated with `bindings`, which win on a clash. */
  function Extend(t: Table, bindings: Table): (r: Table)
    ensures r.Keys == t.Keys + bindings.Keys
    ensures forall k | k in bindings :: r[k] == bindings[k]
    ensures forall k | k in t && k !in bindings :: r[k] == t[k]
  {
    t + bindings
  }

  /** `set`: refuses a key the table already has, otherwise adds that one binding. */
  function Set(t: Table, k: Key, v: Value): (r: Result<Table>)
    ensures r.Err? <==> k in t
    ensures r.Err? ==> r.error == LispError(AlreadyDefined)
    ensures r.Ok? ==> r.value.Keys == t.Keys + {k} && r.value[k] == v
    ensures r.Ok? ==> forall k' | k' in t :: r.value[k'] == t[k']
  {
    if k in t then Err(LispError(AlreadyDefined)) else Ok(t[k := v])
  }

  /** After a successful `set`, the new key finds the new value and every other
      key finds what it found before. */
  lemma LookupAfterSet(t: Table, k: Key, v: Value, k': Key)
    requires Set(t, k, v).Ok?
    ensures Lookup(Set(t, k, v).value, k) == Ok(v)
    ensures k' != k ==> Lookup(Set(t, k, v).value, k') == Lookup(t, k')
  {
  }

  /** In an extended table the new bindings shadow the old ones, and every other
      key is looked up as in the original table. */
  lemma LookupAfterExtend(t: Table, bindings: Table, k: Key)
    ensures Lookup(Extend(t, bindings), k) ==
            if k in bindings then Ok(bindings[k]) else Lookup(t, k)
  {
  }

  /** Extending by a single binding is adding that binding. */
  lemma ExtendByOne(t: Table, k: Key, v: Value)
    ensures Extend(t, map[k := v]) == t[k := v]
  {
  }

  /** All environment objects alive in a session, and the identity the next closure
      object gets. A frame index plays the part of a Python reference. */
  datatype Store = Store(frames: seq<Table>, nextId: nat)

  /** `parent.extend(bindings)` as a new frame at the end of the store; the parent
      frame is read, not changed. */
  function Spawn(st: Store, parent: nat, bindings: Table): (st': Store)
    requires parent < |st.frames|
    ensures |st'.frames| == |st.frames| + 1
    ensures st'.frames[..|st.frames|] == st.frames
    ensures st'.frames[|st.frames|] == Extend(st.frames[parent], bindings)
    ensures st'.nextId == st.nextId
  {
    st.(frames := st.frames + [Extend(st.frames[parent], bindings)])
  }

  /** `set` on frame `i`: only that frame changes, and only by the one binding. */
  function DefineIn(st: Store, i: nat, k: Key, v: Value): (r: Result<Store>)
    requires i < |st.frames|
    ensures r.Err? <==> k in st.frames[i]
    ensures r.Err? ==> r.error == LispError(AlreadyDefined)
    ensures r.Ok? ==> |r.value.frames| == |st.frames| && r.value.nextId == st.nextId
    ensures r.Ok? ==> r.value.frames[i] == st.frames[i][k := v]
    ensures r.Ok? ==> forall j | 0 <= j < |st.frames| && j != i :: r.value.frames[j] == st.frames[j]
  {
    match Set(st.frames[i], k, v)
    case Ok(t) => Ok(st.(frames := st.frames[i := t]))
    case Err(e) => Err(e)
  }

  /** A frame made by `extend` is a snapshot: a later `set` on the frame it was
      extended from leaves the copy, and every lookup in it, as they were. */
  lemma SnapshotIsolation(st: Store, parent: nat, bindings: Table, k: Key, v: Value, q: Key)
    requires parent < |st.frames|
    requires DefineIn(Spawn(st, parent, bindings), parent, k, v).Ok?
    ensures var child := |st.frames|;
            var after := DefineIn(Spawn(st, parent, bindings), parent, k, v).value;
            after.frames[child] == Spawn(st, parent, bindings).frames[child] &&
            Lookup(after.frames[child], q) == Lookup(Spawn(st, parent, bindings).frames[child], q)
  {
  }

  /** A closure holds its frame by reference: a `set` on frame `i` after the closure
      was made is seen by every later lookup through the frame, in any store the
      session grows into, and by every later call of a closure over `i`, whose new
      frame extends frame `i` with parameters that do not shadow the name. */
  lemma CaptureByReference(st: Store, i: nat, k: Key, v: Value, later: Store, bindings: Table)
    requires i < |st.frames|
    requires DefineIn(st, i, k, v).Ok?
    requires Grows(DefineIn(st, i, k, v).value, later)
    requires k !in bindings
    ensures Lookup(later.frames[i], k) == Ok(v)
    ensures Lookup(Spawn(later, i, bindings).frames[|later.frames|], k) == Ok(v)
  {
    assert SubTable(DefineIn(st, i, k, v).value.frames[i], later.frames[i]);
  }

  /** Why recursion works: once a closure over frame `i` is bound to `k` in frame
      `i`, a call of it extends frame `i` and so finds `k` bound to the closure
      itself, unless a parameter of the same key shadows it. */
  lemma RecursiveBindingVisible(st: Store, i: nat, k: Key, c: Value, bindings: Table)
    requires i < |st.frames| && c.Closure? && c.env == i
    requires DefineIn(st, i, k, c).Ok?
    requires k !in bindings
    ensures var st' := DefineIn(st, i, k, c).value;
            Lookup(Spawn(st', c.env, bindings).frames[|st'.frames|], k) == Ok(c)
  {
  }

  /** Old table `t` survives inside `t'`: every binding of `t` is in `t'` unchanged. */
  ghost predicate SubTable(t: Table, t': Table) {
    forall k | k in t :: k in t' && t'[k] == t[k]
  }

  /** From `st` to `st'` the store only grew: no frame lost or changed a binding, and
      closure identities were not reused. */
  ghost predicate Grows(st: Store, st': Store) {
    && |st.frames| <= |st'.frames|
    && st.nextId <= st'.nextId
    && forall i | 0 <= i < |st.frames| :: SubTable(st.frames[i], st'.frames[i])
  }

  lemma GrowsTransitive(a: Store, b: Store, c: Store)
    requires Grows(a, b) && Grows(b, c)
    ensures Grows(a, c)
  {
    forall i | 0 <= i < |a.frames|
      ensures SubTable(a.frames[i], c.frames[i])
    {
      assert SubTable(a.frames[i], b.frames[i]);
      assert SubTable(b.frames[i], c.frames[i]);
    }
  }

  /** Every closure stored in any frame refers to a frame of the store and is one of
      the closure objects made so far, so the next identity is held by none. */
  ghost predicate Valid(st: Store) {
    forall i, k | 0 <= i < |st.frames| && k in st.frames[i] ::
      Within(st.frames[i][k], |st.frames|, st.nextId)
  }

  /** Every value bound in `t` stays within `n` frames and `m` closure objects. */
  ghost predicate TableWithin(t: Table, n: nat, m: nat) {
    forall k | k in t :: Within(t[k], n, m)
  }

  /** A store is valid when each of its tables is. */
  lemma ValidFromTables(st: Store)
    requires forall i | 0 <= i < |st.frames| :: TableWithin(st.frames[i], |st.frames|, st.nextId)
    ensures Valid(st)
  {
  }

  /** Making a closure object takes the next identity: the store grows and stays
      valid. */
  lemma MintKeepsValid(st: Store)
    requires Valid(st)
    ensures Grows(st, st.(nextId := st.nextId + 1))
    ensures Valid(st.(nextId := st.nextId + 1))
  {
    forall i, k | 0 <= i < |st.frames| && k in st.frames[i]
      ensures Within(st.frames[i][k], |st.frames|, st.nextId + 1)
    {
      WithinMono(st.frames[i][k], |st.frames|, st.nextId, |st.frames|, st.nextId + 1);
    }
  }

  /** `extend` grows the store and keeps it valid when its bindings are valid. */
  lemma SpawnKeepsValid(st: Store, parent: nat, bindings: Table)
    requires parent < |st.frames| && Valid(st)
    requires TableWithin(bindings, |st.frames|, st.nextId)
    ensures Grows(st, Spawn(st, parent, bindings))
    ensures Valid(Spawn(st, parent, bindings))
  {
    var st' := Spawn(st, parent, bindings);
    var n := |st.frames|;
    forall i, k | 0 <= i < |st'.frames| && k in st'.frames[i]
      ensures Within(st'.frames[i][k], n + 1, st.nextId)
    {
      if i < n {
        assert st'.frames[i] == st.frames[i];
        WithinMono(st.frames[i][k], n, st.nextId, n + 1, st.nextId);
      } else if k in bindings {
        WithinMono(bindings[k], n, st.nextId, n + 1, st.nextId);
      } else {
        WithinMono(st.frames[parent][k], n, st.nextId, n + 1, st.nextId);
      }
    }
    forall i | 0 <= i < n
      ensures SubTable(st.frames[i], st'.frames[i])
    {
      assert st'.frames[i] == st.frames[i];
    }
  }

  /** `set` grows the store and keeps it valid when the new value is valid. */
  lemma DefineKeepsValid(st: Store, i: nat, k: Key, v: Value)
    requires i < |st.frames| && Valid(st) && Within(v, |st.frames|, st.nextId)
    requires DefineIn(st, i, k, v).Ok?
    ensures Grows(st, DefineIn(st, i, k, v).value)
    ensures Valid(DefineIn(st, i, k, v).value)
  {
    var st' := DefineIn(st, i, k, v).value;
    forall j | 0 <= j < |st.frames|
      ensures SubTable(st.frames[j], st'.frames[j])
    {
    }
  }
}
