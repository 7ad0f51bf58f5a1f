/**
 * Turning a loaded MAT file into nested dictionaries (model/helpers/mat_loader.py).
 *
 * scipy.io.loadmat (not part of this model) returns a dict whose values are either
 * mat_struct objects (MATLAB structs, fields in file order) or other values (arrays,
 * scalars, strings). loadmat drops three metadata keys, then _check_keys replaces every
 * struct value by a dict built by _todict_iterative, which walks nested structs with an
 * explicit work-list and inserts each struct's fields in case-insensitive sorted order.
 *
 * Convert is the recursive specification; ToDictIterative keeps the source's work-list
 * and is proved equal to it. The source fills nested dicts through shared references;
 * here those dicts live in an arena (a sequence of dicts addressed by index) and the
 * nested value is read back from the arena at the end.
 */
module MatLoader {
  import opened Wrappers
  import opened CaseInsensitiveSort

  /** A Python value as the loader sees it: a mat_struct, a dict (keys in insertion order) or any other value. */
  datatype PyValue<V> =
    | MatStruct(fields: seq<Entry<PyValue<V>>>)
    | Dict(items: seq<Entry<PyValue<V>>>)
    | Other(v: V)

  // ---------------------------------------------------------------------------
  // The specification.
  // ---------------------------------------------------------------------------

  /** A struct becomes a dict of its converted fields in case-insensitive order; anything else stays as it is. */
  function Convert<V>(x: PyValue<V>): PyValue<V>
  {
    match x
    case MatStruct(fs) => Dict(SortByKey(ConvertEach(fs)))
    case _ => x
  }

  /** Convert every field value, keeping names and order. */
  function ConvertEach<V>(fs: seq<Entry<PyValue<V>>>): (r: seq<Entry<PyValue<V>>>)
    ensures |r| == |fs|
    ensures forall p :: 0 <= p < |fs| ==> r[p] == Entry(fs[p].name, Convert(fs[p].value))
  {
    if fs == [] then [] else [Entry(fs[0].name, Convert(fs[0].value))] + ConvertEach(fs[1..])
  }

  /** A dict's keys are pairwise distinct. */
  predicate DistinctKeys<T>(d: seq<Entry<T>>)
  {
    forall p, q :: 0 <= p < q < |d| ==> d[p].name != d[q].name
  }

  /** No dict occurs anywhere in a value as scipy returns it (it produces structs and other values only). */
  predicate DictFree<V>(x: PyValue<V>)
  {
    match x
    case MatStruct(fs) => forall p :: 0 <= p < |fs| ==> DictFree(fs[p].value)
    case Dict(_) => false
    case Other(_) => true
  }

  /** No struct is left anywhere that can be reached through dicts. */
  predicate StructFree<V>(x: PyValue<V>)
  {
    match x
    case MatStruct(_) => false
    case Dict(items) => forall p :: 0 <= p < |items| ==> StructFree(items[p].value)
    case Other(_) => true
  }

  lemma {:induction false} SortingCommutesWithConverting<V>(fs: seq<Entry<PyValue<V>>>)
    ensures SortByKey(ConvertEach(fs)) == ConvertEach(SortByKey(fs))
  {
    if fs != [] {
      SortingCommutesWithConverting(fs[1..]);
      assert ConvertEach(fs)[1..] == ConvertEach(fs[1..]);
      InsertCommutesWithConverting(fs[0], SortByKey(fs[1..]));
    }
  }

  lemma {:induction false} InsertCommutesWithConverting<V>(x: Entry<PyValue<V>>, s: seq<Entry<PyValue<V>>>)
    ensures Insert(Entry(x.name, Convert(x.value)), ConvertEach(s)) == ConvertEach(Insert(x, s))
  {
    if s != [] {
      assert ConvertEach(s)[1..] == ConvertEach(s[1..]);
      if KeyLeq(x.name, s[0].name) {
        assert ConvertEach([x] + s) == [Entry(x.name, Convert(x.value))] + ConvertEach(s);
      } else {
        InsertCommutesWithConverting(x, s[1..]);
        assert ConvertEach([s[0]] + Insert(x, s[1..])) == [Entry(s[0].name, Convert(s[0].value))] + ConvertEach(Insert(x, s[1..]));
      }
    }
  }

  /**
   * A struct becomes a dict holding each field once under its own name, a struct field converted and
   * any other field value unchanged, in case-insensitive order, and fields whose names differ only by
   * case keep their order in the struct.
   */
  lemma ConvertStruct<V>(fs: seq<Entry<PyValue<V>>>)
    ensures Convert(MatStruct(fs)).Dict?
    ensures var items := Convert(MatStruct(fs)).items;
      && |items| == |fs|
      && multiset(items) == multiset(ConvertEach(fs))
      && multiset(KeysOf(items)) == multiset(KeysOf(fs))
      && Sorted(items)
      && (forall w :: WithLowerKey(items, w) == WithLowerKey(ConvertEach(fs), w))
      && (forall p :: 0 <= p < |fs| && !fs[p].value.MatStruct? ==> fs[p] in items)
      && (forall p :: 0 <= p < |fs| ==> Entry(fs[p].name, Convert(fs[p].value)) in items)
  {
    var ce := ConvertEach(fs);
    var items := SortByKey(ce);
    SortPermutes(ce);
    SortPermutesKeys(ce);
    SortSorted(ce);
    forall w ensures WithLowerKey(items, w) == WithLowerKey(ce, w) {
      SortStable(ce, w);
    }
    assert KeysOf(ce) == KeysOf(fs);
    assert |items| == |ce| by {
      assert |multiset(items)| == |multiset(ce)|;
    }
    forall p | 0 <= p < |fs| ensures Entry(fs[p].name, Convert(fs[p].value)) in items {
      assert ce[p] in multiset(ce);
    }
  }

  /** Converting a value that scipy produced leaves no struct reachable through the resulting dicts. */
  lemma {:induction false} ConvertLeavesNoStruct<V>(x: PyValue<V>)
    requires DictFree(x)
    ensures StructFree(Convert(x))
  {
    if x.MatStruct? {
      var ce := ConvertEach(x.fields);
      var items := SortByKey(ce);
      SortPermutes(ce);
      forall p | 0 <= p < |items| ensures StructFree(items[p].value) {
        assert items[p] in multiset(ce);
        var q :| 0 <= q < |ce| && ce[q] == items[p];
        ConvertLeavesNoStruct(x.fields[q].value);
      }
    }
  }

  // ---------------------------------------------------------------------------
  // Counting struct nodes.
  // ---------------------------------------------------------------------------

  /** The number of struct nodes in `x`, following struct fields only. */
  function StructCount<V>(x: PyValue<V>): nat
  {
    if x.MatStruct? then 1 + FieldsCount(x.fields) else 0
  }

  function FieldsCount<V>(fs: seq<Entry<PyValue<V>>>): nat
  {
    if fs == [] then 0 else FieldsCount(fs[..|fs| - 1]) + StructCount(fs[|fs| - 1].value)
  }

  lemma {:induction false} FieldsCountAppend<V>(a: seq<Entry<PyValue<V>>>, b: seq<Entry<PyValue<V>>>)
    ensures FieldsCount(a + b) == FieldsCount(a) + FieldsCount(b)
    decreases |b|
  {
    if b == [] {
      assert a + b == a;
    } else {
      assert (a + b)[..|a + b| - 1] == a + b[..|b| - 1];
      FieldsCountAppend(a, b[..|b| - 1]);
    }
  }

  lemma {:induction false} FieldsCountInsert<V>(x: Entry<PyValue<V>>, s: seq<Entry<PyValue<V>>>)
    ensures FieldsCount(Insert(x, s)) == StructCount(x.value) + FieldsCount(s)
  {
    FieldsCountAppend([x], s);
    assert FieldsCount([x]) == StructCount(x.value) by { assert [x][..0] == []; }
    if s != [] && !KeyLeq(x.name, s[0].name) {
      FieldsCountInsert(x, s[1..]);
      FieldsCountAppend([s[0]], Insert(x, s[1..]));
      FieldsCountAppend([s[0]], s[1..]);
      assert [s[0]] + s[1..] == s;
    }
  }

  lemma {:induction false} FieldsCountSort<V>(s: seq<Entry<PyValue<V>>>)
    ensures FieldsCount(SortByKey(s)) == FieldsCount(s)
  {
    if s != [] {
      FieldsCountSort(s[1..]);
      FieldsCountInsert(s[0], SortByKey(s[1..]));
      FieldsCountAppend([s[0]], s[1..]);
      assert [s[0]] + s[1..] == s;
      assert FieldsCount([s[0]]) == StructCount(s[0].value) by { assert [s[0]][..0] == []; }
    }
  }

  function StackCount<V>(stack: seq<(nat, PyValue<V>)>): nat
  {
    if stack == [] then 0 else StackCount(stack[..|stack| - 1]) + StructCount(stack[|stack| - 1].1)
  }

  // ---------------------------------------------------------------------------
  // The arena of dicts that the work-list fills.
  // ---------------------------------------------------------------------------

  /** A dict entry: a reference to another dict of the arena, or a value stored as it is. */
  datatype Slot<V> = Ref(id: nat) | Val(x: PyValue<V>)

  type Arena<V> = seq<seq<Entry<Slot<V>>>>

  /** References only point forward, so reading a dict back terminates. */
  ghost predicate Acyclic<V>(dicts: Arena<V>)
  {
    forall i, k :: 0 <= i < |dicts| && 0 <= k < |dicts[i]| && dicts[i][k].value.Ref? ==> i < dicts[i][k].value.id < |dicts|
  }

  /** The nested value of dict `i` of the arena. */
  function Resolve<V>(dicts: Arena<V>, i: nat): PyValue<V>
    requires Acyclic(dicts) && i < |dicts|
    decreases |dicts| - i, |dicts[i]| + 1
  {
    Dict(ResolveItems(dicts, i, dicts[i]))
  }

  function ResolveItems<V>(dicts: Arena<V>, i: nat, items: seq<Entry<Slot<V>>>): (r: seq<Entry<PyValue<V>>>)
    requires Acyclic(dicts) && i < |dicts|
    requires forall k :: 0 <= k < |items| && items[k].value.Ref? ==> i < items[k].value.id < |dicts|
    decreases |dicts| - i, |items|
  {
    if items == [] then []
    else
      var value := match items[0].value
        case Val(x) => x
        case Ref(j) => Resolve(dicts, j);
      [Entry(items[0].name, value)] + ResolveItems(dicts, i, items[1..])
  }

  /** Entry `item` of dict `i` is what the work-list writes for the struct field `field`. */
  ghost predicate SlotFor<V>(src: seq<PyValue<V>>, i: nat, field: Entry<PyValue<V>>, item: Entry<Slot<V>>)
  {
    item.name == field.name &&
    if field.value.MatStruct? then item.value.Ref? && i < item.value.id < |src| && src[item.value.id] == field.value
    else item.value == Val(field.value)
  }

  /** Dict `i` holds the first `n` fields, in sorted order, of the struct `src[i]` it is made from. */
  ghost predicate Filled<V>(dicts: Arena<V>, src: seq<PyValue<V>>, i: nat, n: nat)
    requires i < |dicts| && i < |src| && src[i].MatStruct?
  {
    var sf := SortByKey(src[i].fields);
    n <= |sf| && |dicts[i]| == n && forall k :: 0 <= k < n ==> SlotFor(src, i, sf[k], dicts[i][k])
  }

  /** Dict `i` is complete. */
  ghost predicate Done<V>(dicts: Arena<V>, src: seq<PyValue<V>>, i: nat)
    requires i < |dicts| && i < |src| && src[i].MatStruct?
  {
    Filled(dicts, src, i, |SortByKey(src[i].fields)|)
  }

  /** The dicts still waiting on the stack. */
  function Ids<V>(stack: seq<(nat, PyValue<V>)>): set<nat>
  {
    set t | 0 <= t < |stack| :: stack[t].0
  }

  /**
   * The work-list invariant: `src[i]` is the struct dict `i` is made from; every stacked dict is
   * still empty and stacked once; every other dict except the ones in `busy` is complete.
   */
  ghost predicate WorkList<V>(dicts: Arena<V>, src: seq<PyValue<V>>, stack: seq<(nat, PyValue<V>)>, busy: set<nat>)
  {
    && |dicts| == |src|
    && (forall i :: 0 <= i < |src| ==> src[i].MatStruct?)
    && Acyclic(dicts)
    && (forall t :: 0 <= t < |stack| ==>
          stack[t].0 < |dicts| && src[stack[t].0] == stack[t].1 && dicts[stack[t].0] == [] && stack[t].0 !in busy)
    && (forall t, t' :: 0 <= t < t' < |stack| ==> stack[t].0 != stack[t'].0)
    && (forall i :: 0 <= i < |dicts| ==> i in busy || i in Ids(stack) || Done(dicts, src, i))
  }

  lemma FilledGrows<V>(dicts: Arena<V>, src: seq<PyValue<V>>, dicts': Arena<V>, src': seq<PyValue<V>>, i: nat, n: nat)
    requires i < |dicts| && |dicts| == |src| && src[i].MatStruct?
    requires |dicts'| == |src'| && |src| <= |src'| && src'[..|src|] == src && dicts'[i] == dicts[i]
    requires Filled(dicts, src, i, n)
    ensures Filled(dicts', src', i, n)
  {
    var sf := SortByKey(src[i].fields);
    assert src'[i] == src[i];
    forall k | 0 <= k < n ensures SlotFor(src', i, sf[k], dicts'[i][k]) {
      if sf[k].value.MatStruct? {
        var j := dicts[i][k].value.id;
        assert src'[j] == src[j];
      }
    }
  }

  /** Once every dict is complete, reading dict `i` back gives the specification's conversion of its struct. */
  lemma {:induction false} ResolveComplete<V>(dicts: Arena<V>, src: seq<PyValue<V>>, i: nat)
    requires WorkList(dicts, src, [], {}) && i < |dicts|
    ensures Resolve(dicts, i) == Convert(src[i])
    decreases |dicts| - i, 1
  {
    var fs := src[i].fields;
    assert Done(dicts, src, i);
    SortingCommutesWithConverting(fs);
    ResolveSuffix(dicts, src, i, 0);
    assert dicts[i][0..] == dicts[i];
    assert SortByKey(fs)[0..] == SortByKey(fs);
  }

  lemma {:induction false} ResolveSuffix<V>(dicts: Arena<V>, src: seq<PyValue<V>>, i: nat, k: nat)
    requires WorkList(dicts, src, [], {}) && i < |dicts|
    requires k <= |dicts[i]| && Done(dicts, src, i)
    ensures ResolveItems(dicts, i, dicts[i][k..]) == ConvertEach(SortByKey(src[i].fields)[k..])
    decreases |dicts| - i, 0, |dicts[i]| - k
  {
    var sf := SortByKey(src[i].fields);
    if k < |dicts[i]| {
      var items := dicts[i][k..];
      assert items[1..] == dicts[i][k + 1..];
      assert sf[k..][1..] == sf[k + 1..];
      ResolveSuffix(dicts, src, i, k + 1);
      assert SlotFor(src, i, sf[k], dicts[i][k]);
      if sf[k].value.MatStruct? {
        ResolveComplete(dicts, src, dicts[i][k].value.id);
      }
    }
  }

  /** The state inside the field loop: dict `cur`, made from `obj`, holds its first `k` sorted fields. */
  ghost predicate Filling<V>(dicts: Arena<V>, src: seq<PyValue<V>>, stack: seq<(nat, PyValue<V>)>, cur: nat, obj: PyValue<V>, k: nat)
  {
    && WorkList(dicts, src, stack, {cur})
    && cur < |dicts| && src[cur] == obj
    && Filled(dicts, src, cur, k)
  }

  lemma IdsPush<V>(stack: seq<(nat, PyValue<V>)>, e: (nat, PyValue<V>))
    ensures Ids(stack + [e]) == Ids(stack) + {e.0}
  {
    var s := stack + [e];
    forall i | i in Ids(s) ensures i in Ids(stack) + {e.0} {
      var t :| 0 <= t < |s| && s[t].0 == i;
      if t < |stack| {
        assert s[t] == stack[t];
      }
    }
    forall i | i in Ids(stack) ensures i in Ids(s) {
      var t :| 0 <= t < |stack| && stack[t].0 == i;
      assert s[t] == stack[t];
    }
    assert s[|stack|] == e;
  }

  /** Popping the top pair: its dict becomes the one being filled. */
  lemma PopTop<V>(dicts: Arena<V>, src: seq<PyValue<V>>, stack: seq<(nat, PyValue<V>)>)
    requires WorkList(dicts, src, stack, {}) && stack != []
    ensures var top := stack[|stack| - 1];
      && Filling(dicts, src, stack[..|stack| - 1], top.0, top.1, 0)
      && StackCount(stack) == StackCount(stack[..|stack| - 1]) + StructCount(top.1)
  {
    var rest := stack[..|stack| - 1];
    var top := stack[|stack| - 1];
    IdsPush(rest, top);
    assert stack == rest + [top];
    forall t | 0 <= t < |rest| ensures rest[t].0 != top.0 {
      assert rest[t] == stack[t];
    }
    forall t | 0 <= t < |rest|
      ensures rest[t].0 < |dicts| && src[rest[t].0] == rest[t].1 && dicts[rest[t].0] == [] && rest[t].0 !in {top.0}
    {
      assert rest[t] == stack[t];
    }
    forall t, t' | 0 <= t < t' < |rest| ensures rest[t].0 != rest[t'].0 {
      assert rest[t] == stack[t] && rest[t'] == stack[t'];
    }
    assert WorkList(dicts, src, rest, {top.0});
  }

  /** Once all its fields are stored, the dict being filled is complete. */
  lemma Finish<V>(dicts: Arena<V>, src: seq<PyValue<V>>, stack: seq<(nat, PyValue<V>)>, cur: nat, obj: PyValue<V>)
    requires obj.MatStruct? && Filling(dicts, src, stack, cur, obj, |SortByKey(obj.fields)|)
    ensures WorkList(dicts, src, stack, {})
  {
  }

  /** Storing a non-struct field value keeps the work-list invariant. */
  lemma StoreValue<V>(dicts: Arena<V>, src: seq<PyValue<V>>, stack: seq<(nat, PyValue<V>)>, cur: nat, obj: PyValue<V>, k: nat)
    requires Filling(dicts, src, stack, cur, obj, k) && k < |SortByKey(obj.fields)|
    requires !SortByKey(obj.fields)[k].value.MatStruct?
    ensures var f := SortByKey(obj.fields)[k];
      Filling(dicts[cur := dicts[cur] + [Entry(f.name, Val(f.value))]], src, stack, cur, obj, k + 1)
  {
    var f := SortByKey(obj.fields)[k];
    var dicts' := dicts[cur := dicts[cur] + [Entry(f.name, Val(f.value))]];
    forall i | 0 <= i < |dicts| && i != cur && Done(dicts, src, i) ensures Done(dicts', src, i) {
      FilledGrows(dicts, src, dicts', src, i, |SortByKey(src[i].fields)|);
    }
    assert Filled(dicts', src, cur, k + 1) by {
      forall j | 0 <= j < k ensures SlotFor(src, cur, SortByKey(obj.fields)[j], dicts'[cur][j]) {
        assert dicts'[cur][j] == dicts[cur][j];
      }
    }
  }

  /** Storing a fresh empty dict for a struct field and pushing the pair keeps the work-list invariant. */
  lemma StoreStruct<V>(dicts: Arena<V>, src: seq<PyValue<V>>, stack: seq<(nat, PyValue<V>)>, cur: nat, obj: PyValue<V>, k: nat)
    requires Filling(dicts, src, stack, cur, obj, k) && k < |SortByKey(obj.fields)|
    requires SortByKey(obj.fields)[k].value.MatStruct?
    ensures var f := SortByKey(obj.fields)[k];
      var n: nat := |dicts|;
      && Filling(dicts[cur := dicts[cur] + [Entry(f.name, Ref(n))]] + [[]], src + [f.value], stack + [(n, f.value)], cur, obj, k + 1)
      && StackCount(stack + [(n, f.value)]) == StackCount(stack) + StructCount(f.value)
  {
    var f := SortByKey(obj.fields)[k];
    var n: nat := |dicts|;
    var dicts' := dicts[cur := dicts[cur] + [Entry(f.name, Ref(n))]] + [[]];
    var src' := src + [f.value];
    var stack': seq<(nat, PyValue<V>)> := stack + [(n, f.value)];
    assert stack'[..|stack'| - 1] == stack;
    PushKeepsWorkList(dicts, src, stack, cur, Entry(f.name, Ref(n)), f.value);
    PushFills(dicts, src, cur, obj, k);
  }

  /** Appending a reference to a new, empty, stacked dict to dict `cur` keeps the work-list invariant. */
  lemma PushKeepsWorkList<V>(dicts: Arena<V>, src: seq<PyValue<V>>, stack: seq<(nat, PyValue<V>)>, cur: nat,
                             item: Entry<Slot<V>>, x: PyValue<V>)
    requires WorkList(dicts, src, stack, {cur}) && cur < |dicts| && x.MatStruct? && item.value == Ref(|dicts|)
    ensures WorkList(dicts[cur := dicts[cur] + [item]] + [[]], src + [x], stack + [(|dicts|, x)], {cur})
  {
    var n := |dicts|;
    var dicts' := dicts[cur := dicts[cur] + [item]] + [[]];
    var src' := src + [x];
    var stack' := stack + [(n, x)];
    IdsPush(stack, (n, x));
    assert src'[..|src|] == src;
    forall i | 0 <= i < n && i != cur && Done(dicts, src, i) ensures Done(dicts', src', i) {
      FilledGrows(dicts, src, dicts', src', i, |SortByKey(src[i].fields)|);
    }
    forall t | 0 <= t < |stack'|
      ensures stack'[t].0 < |dicts'| && src'[stack'[t].0] == stack'[t].1 && dicts'[stack'[t].0] == [] && stack'[t].0 !in {cur}
    {
      if t < |stack| {
        assert stack'[t] == stack[t];
      }
    }
    forall t, t' | 0 <= t < t' < |stack'| ensures stack'[t].0 != stack'[t'].0 {
      assert stack'[t] == stack[t];
    }
    assert Acyclic(dicts') by {
      forall i, j | 0 <= i < |dicts'| && 0 <= j < |dicts'[i]| && dicts'[i][j].value.Ref?
        ensures i < dicts'[i][j].value.id < |dicts'|
      {
        if i != cur {
          assert dicts'[i] == dicts[i];
        } else if j < |dicts[cur]| {
          assert dicts'[i][j] == dicts[cur][j];
        }
      }
    }
  }

  /** The new reference is the right slot for field `k` of the dict being filled. */
  lemma PushFills<V>(dicts: Arena<V>, src: seq<PyValue<V>>, cur: nat, obj: PyValue<V>, k: nat)
    requires |dicts| == |src| && cur < |dicts| && src[cur] == obj && obj.MatStruct?
    requires Filled(dicts, src, cur, k) && k < |SortByKey(obj.fields)|
    requires SortByKey(obj.fields)[k].value.MatStruct?
    ensures var f := SortByKey(obj.fields)[k];
      Filled(dicts[cur := dicts[cur] + [Entry(f.name, Ref(|dicts|))]] + [[]], src + [f.value], cur, k + 1)
  {
    var f := SortByKey(obj.fields)[k];
    var dicts' := dicts[cur := dicts[cur] + [Entry(f.name, Ref(|dicts|))]] + [[]];
    var src' := src + [f.value];
    assert src'[cur] == src[cur];
    forall j | 0 <= j < k ensures SlotFor(src', cur, SortByKey(obj.fields)[j], dicts'[cur][j]) {
      assert dicts'[cur][j] == dicts[cur][j];
      if SortByKey(obj.fields)[j].value.MatStruct? {
        assert src'[dicts[cur][j].value.id] == src[dicts[cur][j].value.id];
      }
    }
  }

  /**
   * One pass of the for loop of _todict_iterative: store the `k`-th field of `obj`, in
   * case-insensitive order, into dict `cur`; a non-struct value is stored as it is, a struct value
   * as a new empty dict whose pair is pushed on the stack.
   */
  method StoreField<V>(dicts: Arena<V>, ghost src: seq<PyValue<V>>, stack: seq<(nat, PyValue<V>)>,
                       cur: nat, obj: PyValue<V>, k: nat, field: Entry<PyValue<V>>)
    returns (dicts': Arena<V>, ghost src': seq<PyValue<V>>, stack': seq<(nat, PyValue<V>)>)
    requires Filling(dicts, src, stack, cur, obj, k)
    requires k < |SortByKey(obj.fields)| && field == SortByKey(obj.fields)[k]
    ensures Filling(dicts', src', stack', cur, obj, k + 1)
    ensures |src| <= |src'| && src'[..|src|] == src
    ensures StackCount(stack') == StackCount(stack) + StructCount(field.value)
  {
    if field.value.MatStruct? {
      StoreStruct(dicts, src, stack, cur, obj, k);
      var newId: nat := |dicts|;
      dicts' := dicts[cur := dicts[cur] + [Entry(field.name, Ref(newId))]] + [[]];
      src' := src + [field.value];
      stack' := stack + [(newId, field.value)];
    } else {
      StoreValue(dicts, src, stack, cur, obj, k);
      dicts' := dicts[cur := dicts[cur] + [Entry(field.name, Val(field.value))]];
      src', stack' := src, stack;
    }
  }

  /**
   * The for loop of _todict_iterative: walk the fields of `obj` in case-insensitive order into
   * dict `cur`.
   */
  method FillDict<V>(dicts: Arena<V>, ghost src: seq<PyValue<V>>, stack: seq<(nat, PyValue<V>)>, cur: nat, obj: PyValue<V>)
    returns (dicts': Arena<V>, ghost src': seq<PyValue<V>>, stack': seq<(nat, PyValue<V>)>)
    requires obj.MatStruct? && Filling(dicts, src, stack, cur, obj, 0)
    ensures WorkList(dicts', src', stack', {})
    ensures |src| <= |src'| && src'[..|src|] == src
    ensures StackCount(stack') == StackCount(stack) + FieldsCount(obj.fields)
  {
    var fieldnames := SortByKey(obj.fields);
    FieldsCountSort(obj.fields);
    assert fieldnames[..0] == [];
    dicts', src', stack' := dicts, src, stack;

    for k := 0 to |fieldnames|
      invariant Filling(dicts', src', stack', cur, obj, k)
      invariant |src| <= |src'| && src'[..|src|] == src
      invariant StackCount(stack') == StackCount(stack) + FieldsCount(fieldnames[..k])
    {
      ghost var src0 := src';
      dicts', src', stack' := StoreField(dicts', src', stack', cur, obj, k, fieldnames[k]);
      assert src'[..|src|] == src0[..|src|];
      assert fieldnames[..k + 1][..k] == fieldnames[..k];
    }
    assert fieldnames[..|fieldnames|] == fieldnames;
    Finish(dicts', src', stack', cur, obj);
  }

  /**
   * _todict_iterative: pop a struct and its (empty) dict from the stack and fill the dict from the
   * struct's fields, until the stack is empty. `converted` counts the structs popped (ghost).
   */
  method ToDictIterative<V>(matobj: PyValue<V>) returns (result: PyValue<V>, ghost converted: nat)
    requires matobj.MatStruct?
    ensures result == Convert(matobj)
    ensures converted == StructCount(matobj)
  {
    var dicts: Arena<V> := [[]];
    ghost var src: seq<PyValue<V>> := [matobj];
    var stack: seq<(nat, PyValue<V>)> := [(0, matobj)];
    converted := 0;
    assert StackCount(stack) == StructCount(matobj) by { assert stack[..0] == []; }

    while stack != []
      invariant WorkList(dicts, src, stack, {})
      invariant 0 < |src| && src[0] == matobj
      invariant converted + StackCount(stack) == StructCount(matobj)
      decreases StackCount(stack)
    {
      var cur := stack[|stack| - 1].0;
      var obj := stack[|stack| - 1].1;
      PopTop(dicts, src, stack);
      ghost var src0 := src;
      dicts, src, stack := FillDict(dicts, src, stack[..|stack| - 1], cur, obj);
      assert src[0] == src0[0];
      converted := converted + 1;
    }
    ResolveComplete(dicts, src, 0);
    result := Resolve(dicts, 0);
  }

  // ---------------------------------------------------------------------------
  // The top level: loadmat and _check_keys.
  // ---------------------------------------------------------------------------

  /** The position of `key` among `names`, or |names| when it is absent. */
  function IndexOf(names: seq<string>, key: string): (p: nat)
    ensures p <= |names|
    ensures p < |names| ==> names[p] == key
    ensures forall q :: 0 <= q < p ==> names[q] != key
  {
    if names == [] then 0 else if names[0] == key then 0 else 1 + IndexOf(names[1..], key)
  }

  /** The items of `d` whose name is not among `names`, in order. */
  function Without<T>(d: seq<Entry<T>>, names: seq<string>): seq<Entry<T>>
  {
    if d == [] then []
    else if d[0].name in names then Without(d[1..], names)
    else [d[0]] + Without(d[1..], names)
  }

  /** dict.pop(key, None), with the popped value dropped. */
  function DictPop<T>(d: seq<Entry<T>>, key: string): seq<Entry<T>>
  {
    Without(d, [key])
  }

  /** The filter keeps exactly the items whose name is not among `names`. */
  lemma {:induction false} WithoutFilters<T>(d: seq<Entry<T>>, names: seq<string>)
    ensures var r := Without(d, names);
      && (forall i :: 0 <= i < |r| ==> r[i] in d && r[i].name !in names)
      && (forall i :: 0 <= i < |d| && d[i].name !in names ==> d[i] in r)
  {
    if d != [] {
      WithoutFilters(d[1..], names);
      var r := Without(d, names);
      var r' := Without(d[1..], names);
      forall i | 0 <= i < |r| ensures r[i] in d && r[i].name !in names {
        if d[0].name !in names && i == 0 {
        } else {
          var j := if d[0].name in names then i else i - 1;
          assert r[i] == r'[j];
          assert r'[j] in d[1..];
        }
      }
      forall i | 0 <= i < |d| && d[i].name !in names ensures d[i] in r {
        if i > 0 {
          assert d[i] == d[1..][i - 1];
        }
      }
    }
  }

  /** Filtering twice is filtering once by both lists of names. */
  lemma {:induction false} WithoutTwice<T>(d: seq<Entry<T>>, a: seq<string>, b: seq<string>)
    ensures Without(Without(d, a), b) == Without(d, a + b)
  {
    if d != [] {
      WithoutTwice(d[1..], a, b);
      assert d[0].name in a + b <==> d[0].name in a || d[0].name in b;
      if d[0].name !in a {
        var w := Without(d[1..], a);
        assert ([d[0]] + w)[0] == d[0] && ([d[0]] + w)[1..] == w;
      }
    }
  }

  lemma {:induction false} WithoutAbsent<T>(d: seq<Entry<T>>, names: seq<string>)
    requires forall i :: 0 <= i < |d| ==> d[i].name !in names
    ensures Without(d, names) == d
  {
    if d != [] {
      WithoutAbsent(d[1..], names);
      assert d == [d[0]] + d[1..];
    }
  }

  lemma {:induction false} WithoutAppend<T>(a: seq<Entry<T>>, b: seq<Entry<T>>, names: seq<string>)
    ensures Without(a + b, names) == Without(a, names) + Without(b, names)
  {
    if a == [] {
      assert a + b == b;
    } else {
      var ab := a + b;
      assert ab[0] == a[0] && ab[1..] == a[1..] + b;
      WithoutAppend(a[1..], b, names);
      var w, wb := Without(a[1..], names), Without(b, names);
      if a[0].name !in names {
        calc {
          Without(ab, names);
          [a[0]] + Without(a[1..] + b, names);
          [a[0]] + (w + wb);
          { assert [a[0]] + (w + wb) == ([a[0]] + w) + wb; }
          ([a[0]] + w) + wb;
        }
      }
    }
  }

  /** In a dict, whose keys are distinct, the pop removes exactly the one item named `key`, if there is one. */
  lemma DictPopRemovesOne<T>(d: seq<Entry<T>>, key: string)
    requires DistinctKeys(d)
    ensures var p := IndexOf(KeysOf(d), key);
      DictPop(d, key) == if p < |d| then d[..p] + d[p + 1..] else d
  {
    var p := IndexOf(KeysOf(d), key);
    if p < |d| {
      DictPopPresent(d, key, p);
    } else {
      forall i | 0 <= i < |d| ensures d[i].name != key {
        assert KeysOf(d)[i] == d[i].name;
      }
      WithoutAbsent(d, [key]);
    }
  }

  lemma DictPopPresent<T>(d: seq<Entry<T>>, key: string, p: nat)
    requires DistinctKeys(d) && p < |d| && d[p].name == key
    ensures DictPop(d, key) == d[..p] + d[p + 1..]
  {
    var before, after := d[..p], d[p + 1..];
    assert d == before + ([d[p]] + after);
    forall i | 0 <= i < |before| ensures before[i].name != key {
      assert before[i] == d[i];
    }
    forall i | 0 <= i < |after| ensures after[i].name != key {
      assert after[i] == d[p + 1 + i];
    }
    WithoutAppend(before, [d[p]] + after, [key]);
    WithoutAppend([d[p]], after, [key]);
    WithoutAbsent(before, [key]);
    WithoutAbsent(after, [key]);
    assert Without([d[p]], [key]) == [] by { assert [d[p]][1..] == []; }
  }

  lemma DropKeepsDistinct<T>(d: seq<Entry<T>>, p: nat)
    requires DistinctKeys(d) && p < |d|
    ensures DistinctKeys(d[..p] + d[p + 1..])
  {
    var r := d[..p] + d[p + 1..];
    assert forall i :: 0 <= i < p ==> r[i] == d[i];
    assert forall i :: p <= i < |r| ==> r[i] == d[i + 1];
  }

  /** Popping from a dict leaves a dict. */
  lemma DictPopKeepsDistinct<T>(d: seq<Entry<T>>, key: string)
    requires DistinctKeys(d)
    ensures DistinctKeys(DictPop(d, key))
  {
    DictPopRemovesOne(d, key);
    var p := IndexOf(KeysOf(d), key);
    if p < |d| {
      DropKeepsDistinct(d, p);
    }
  }

  /** The metadata entries loadmat removes from what scipy returns. */
  const MetadataKeys: seq<string> := ["__header__", "__version__", "__globals__"]

  /** The header version from which loadmat warns that the file format is untested. */
  const WarnVersion: real := 7.3

  /** The three pops of loadmat. */
  function StripMetadata<T>(d: seq<Entry<T>>): seq<Entry<T>>
  {
    DictPop(DictPop(DictPop(d, "__header__"), "__version__"), "__globals__")
  }

  /** Exactly the metadata entries are dropped, and a dict stays a dict. */
  lemma StripMetadataKeepsTheRest<T>(d: seq<Entry<T>>)
    ensures var r := StripMetadata(d);
      && (forall i :: 0 <= i < |r| ==> r[i] in d && r[i].name !in MetadataKeys)
      && (forall i :: 0 <= i < |d| && d[i].name !in MetadataKeys ==> d[i] in r)
    ensures DistinctKeys(d) ==> DistinctKeys(StripMetadata(d))
  {
    var d1 := DictPop(d, "__header__");
    var d2 := DictPop(d1, "__version__");
    WithoutTwice(d, ["__header__"], ["__version__"]);
    WithoutTwice(d, ["__header__"] + ["__version__"], ["__globals__"]);
    assert ["__header__"] + ["__version__"] + ["__globals__"] == MetadataKeys;
    WithoutFilters(d, MetadataKeys);
    if DistinctKeys(d) {
      DictPopKeepsDistinct(d, "__header__");
      DictPopKeepsDistinct(d1, "__version__");
      DictPopKeepsDistinct(d2, "__globals__");
    }
  }

  /**
   * The body of the loop of _check_keys: when the item named `key` holds a struct, replace its
   * value by the struct's dict. Only that item can change, and its name stays.
   */
  method ConvertAt<V>(d: seq<Entry<PyValue<V>>>, key: string) returns (d': seq<Entry<PyValue<V>>>)
    requires DistinctKeys(d) && key in KeysOf(d)
    ensures |d'| == |d|
    ensures forall i :: 0 <= i < |d| ==> d'[i] == Entry(d[i].name, if d[i].name == key then Convert(d[i].value) else d[i].value)
  {
    var p := IndexOf(KeysOf(d), key);
    d' := d;
    if d[p].value.MatStruct? {
      var converted, _ := ToDictIterative(d[p].value);
      d' := d[p := Entry(key, converted)];
    }
    forall i | 0 <= i < |d| && d[i].name == key ensures i == p {
      assert d[i].name == d[p].name;
    }
  }

  /**
   * _check_keys: visit the keys in case-insensitive order and replace each struct value, in place,
   * by its dict. Every key keeps its position; only struct values change.
   */
  method CheckKeys<V>(data: seq<Entry<PyValue<V>>>) returns (out: seq<Entry<PyValue<V>>>)
    requires DistinctKeys(data)
    ensures |out| == |data|
    ensures forall p :: 0 <= p < |data| ==> out[p] == Entry(data[p].name, Convert(data[p].value))
  {
    out := data;
    var keys := KeysOf(SortByKey(data));
    SortPermutesKeys(data);
    ghost var seen: set<string> := {};
    for k := 0 to |keys|
      invariant |out| == |data|
      invariant forall p :: 0 <= p < |data| ==> out[p].name == data[p].name
      invariant forall p :: 0 <= p < |data| ==>
        out[p].value == if data[p].name in seen then Convert(data[p].value) else data[p].value
      invariant forall j :: 0 <= j < k ==> keys[j] in seen
    {
      var key := keys[k];
      ghost var w := KeyPosition(data, key, keys, k);
      assert KeysOf(out)[w] == key;
      assert DistinctKeys(out);
      out := ConvertAt(out, key);
      forall p | 0 <= p < |data|
        ensures out[p].value == if data[p].name in seen + {key} then Convert(data[p].value) else data[p].value
      {
        if data[p].name == key && data[p].name in seen {
          assert Convert(Convert(data[p].value)) == Convert(data[p].value);
        }
      }
      seen := seen + {key};
    }
    forall p | 0 <= p < |data| ensures data[p].name in seen {
      assert data[p].name in multiset(keys) by { assert KeysOf(data)[p] == data[p].name; }
    }
  }

  /** Every key of the sorted key list names an item of the dict. */
  lemma KeyPosition<T>(data: seq<Entry<T>>, key: string, keys: seq<string>, k: nat) returns (w: nat)
    requires multiset(keys) == multiset(KeysOf(data)) && k < |keys| && key == keys[k]
    ensures w < |data| && data[w].name == key
  {
    assert key in multiset(KeysOf(data));
    var ks := KeysOf(data);
    assert key in ks;
    w :| 0 <= w < |ks| && ks[w] == key;
  }

  /**
   * loadmat on what scipy returned: `headerVersion` is the version number the text of the
   * `__header__` entry yields, if any; it is only looked at when that entry is present.
   * A version of 7.3 or more only triggers the warning; the metadata entries are dropped and every
   * struct value is converted either way.
   */
  method LoadMat<V>(data: seq<Entry<PyValue<V>>>, headerVersion: Option<real>)
    returns (result: seq<Entry<PyValue<V>>>, warned: bool)
    requires DistinctKeys(data)
    ensures warned <==> "__header__" in KeysOf(data) && headerVersion.Some? && headerVersion.value >= WarnVersion
    ensures forall p :: 0 <= p < |result| ==> result[p].name !in MetadataKeys
    ensures var kept := StripMetadata(data);
      |result| == |kept| && forall p :: 0 <= p < |kept| ==> result[p] == Entry(kept[p].name, Convert(kept[p].value))
  {
    warned := false;
    if "__header__" in KeysOf(data) && headerVersion.Some? && headerVersion.value >= WarnVersion {
      warned := true;
    }
    var d := DictPop(data, "__header__");
    d := DictPop(d, "__version__");
    d := DictPop(d, "__globals__");
    StripMetadataKeepsTheRest(data);
    result := CheckKeys(d);
  }
}
