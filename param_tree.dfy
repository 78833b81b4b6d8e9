/**
 * The override tree the parsers write into (the role Dune::ParameterTree
 * plays in parametersystem.hpp/.cpp).
 *
 * A node holds value entries and named sub-trees, each in the order they
 * were added. The registry only ever reads a node through its flattened
 * view: the value keys of the node prefixed by the path of the node, the
 * node's own values first and the sub-trees after them, as
 * getFlattenedKeyList lists them. Writes go to the top level only.
 */
module ParamTree {
  import opened Outcomes

  datatype Entry = Entry(key: string, value: string)

  datatype Tree = Node(values: seq<Entry>, subs: seq<Sub>)

  datatype Sub = Sub(name: string, tree: Tree)

  /** A fresh tree, as `std::make_unique<Dune::ParameterTree>()` creates it. */
  function Empty(): Tree { Node([], []) }

  /** The entries of one node's values, with their keys prefixed. */
  function ValueEntries(vs: seq<Entry>, prefix: string): (r: seq<Entry>)
    ensures |r| == |vs|
  {
    if vs == [] then [] else [Entry(prefix + vs[0].key, vs[0].value)] + ValueEntries(vs[1..], prefix)
  }

  /** Every value of the tree under its full dotted key: the node's own values, then each sub-tree. */
  function Flatten(t: Tree, prefix: string): seq<Entry>
    decreases t, 1
  {
    ValueEntries(t.values, prefix) + SubEntries(t, 0, prefix)
  }

  /** The flattened entries of the sub-trees of t from the i-th on. */
  function SubEntries(t: Tree, i: nat, prefix: string): seq<Entry>
    decreases t, 0, |t.subs| - i
  {
    if i >= |t.subs| then []
    else Flatten(t.subs[i].tree, prefix + t.subs[i].name + ".") + SubEntries(t, i + 1, prefix)
  }

  function Keys(es: seq<Entry>): (r: seq<string>)
    ensures |r| == |es|
    ensures forall k :: 0 <= k < |es| ==> r[k] == es[k].key
  {
    if es == [] then [] else [es[0].key] + Keys(es[1..])
  }

  /** The keys getFlattenedKeyList lists for t under prefix. */
  function FlatKeys(t: Tree, prefix: string): seq<string>
  {
    Keys(Flatten(t, prefix))
  }

  /** The value of the first entry with that key. */
  function Find(es: seq<Entry>, key: string): (r: Option<string>)
    ensures r.Some? <==> key in Keys(es)
  {
    if es == [] then None
    else if es[0].key == key then Some(es[0].value)
    else Find(es[1..], key)
  }

  /** hasKey and get: a key names the first flattened entry that carries it. */
  function Lookup(t: Tree, key: string): Option<string>
  {
    Find(Flatten(t, ""), key)
  }

  predicate HasKey(t: Tree, key: string)
  {
    Lookup(t, key).Some?
  }

  /** `tree.get(key, default)` for text. */
  function GetOr(t: Tree, key: string, default: string): string
  {
    match Lookup(t, key)
    case Some(v) => v
    case None => default
  }

  /** `tree[key] = value` for a key without dots: replace the top-level value, or add it at the end. */
  function SetValue(vs: seq<Entry>, key: string, value: string): (r: seq<Entry>)
  {
    if vs == [] then [Entry(key, value)]
    else if vs[0].key == key then [Entry(key, value)] + vs[1..]
    else [vs[0]] + SetValue(vs[1..], key, value)
  }

  function Set(t: Tree, key: string, value: string): Tree
  {
    Node(SetValue(t.values, key, value), t.subs)
  }

  lemma {:induction false} KeysAppend(a: seq<Entry>, b: seq<Entry>)
    ensures Keys(a + b) == Keys(a) + Keys(b)
  {
    if a != [] {
      assert (a + b)[1..] == a[1..] + b;
      KeysAppend(a[1..], b);
    }
  }

  lemma {:induction false} FindAppend(a: seq<Entry>, b: seq<Entry>, key: string)
    ensures Find(a + b, key) == if key in Keys(a) then Find(a, key) else Find(b, key)
  {
    if a == [] {
      assert a + b == b;
    } else {
      assert (a + b)[0] == a[0] && (a + b)[1..] == a[1..] + b;
      FindAppend(a[1..], b, key);
    }
  }

  lemma {:induction false} ValueEntriesTop(vs: seq<Entry>)
    ensures ValueEntries(vs, "") == vs
  {
    if vs != [] {
      ValueEntriesTop(vs[1..]);
      assert "" + vs[0].key == vs[0].key;
      assert vs == [vs[0]] + vs[1..];
    }
  }

  lemma {:induction false} SetValueFind(vs: seq<Entry>, key: string, value: string, other: string)
    ensures Find(SetValue(vs, key, value), key) == Some(value)
    ensures other != key ==> Find(SetValue(vs, key, value), other) == Find(vs, other)
  {
    if vs != [] && vs[0].key != key {
      SetValueFind(vs[1..], key, value, other);
      assert ([vs[0]] + SetValue(vs[1..], key, value))[1..] == SetValue(vs[1..], key, value);
    } else if vs != [] {
      assert ([Entry(key, value)] + vs[1..])[1..] == vs[1..];
    }
  }

  lemma {:induction false} SubEntriesSameSubs(s: Tree, t: Tree, i: nat, prefix: string)
    requires s.subs == t.subs
    ensures SubEntries(s, i, prefix) == SubEntries(t, i, prefix)
    decreases |t.subs| - i
  {
    if i < |t.subs| { SubEntriesSameSubs(s, t, i + 1, prefix); }
  }

  /** After `tree[key] = value`, the key reads back the value and every other key reads what it read before. */
  lemma SetThenLookup(t: Tree, key: string, value: string, other: string)
    ensures Lookup(Set(t, key, value), key) == Some(value)
    ensures other != key ==> Lookup(Set(t, key, value), other) == Lookup(t, other)
  {
    var s := Set(t, key, value);
    ValueEntriesTop(t.values);
    ValueEntriesTop(s.values);
    SubEntriesSameSubs(s, t, 0, "");
    SetValueFind(t.values, key, value, other);
    FindAppend(s.values, SubEntries(t, 0, ""), key);
    FindAppend(s.values, SubEntries(t, 0, ""), other);
    FindAppend(t.values, SubEntries(t, 0, ""), other);
  }

  /** A key is present exactly when getFlattenedKeyList lists it. */
  lemma HasKeyListed(t: Tree, key: string)
    ensures HasKey(t, key) <==> key in FlatKeys(t, "")
  {
  }

  /** The empty tree has no keys. */
  lemma EmptyHasNoKeys(key: string)
    ensures FlatKeys(Empty(), "") == []
    ensures !HasKey(Empty(), key)
  {
    assert Flatten(Empty(), "") == [];
  }

  predicate StartsWith(s: string, p: string) { |p| <= |s| && s[..|p|] == p }

  lemma {:induction false} ValueEntriesPrefixed(vs: seq<Entry>, prefix: string)
    ensures forall k :: 0 <= k < |vs| ==> ValueEntries(vs, prefix)[k].key == prefix + vs[k].key
  {
    if vs != [] {
      ValueEntriesPrefixed(vs[1..], prefix);
      forall k | 1 <= k < |vs| ensures ValueEntries(vs, prefix)[k].key == prefix + vs[k].key {
        assert ValueEntries(vs, prefix)[k] == ValueEntries(vs[1..], prefix)[k - 1];
      }
    }
  }

  lemma {:induction false} StartsWithLonger(s: string, p: string, q: string)
    requires StartsWith(s, p + q)
    ensures StartsWith(s, p)
  {
    assert s[..|p|] == (p + q)[..|p|];
  }

  /** Every key listed under a prefix begins with that prefix. */
  lemma {:induction false} FlatKeysPrefixed(t: Tree, prefix: string)
    ensures forall k :: 0 <= k < |FlatKeys(t, prefix)| ==> StartsWith(FlatKeys(t, prefix)[k], prefix)
    decreases t, 1
  {
    ValueEntriesPrefixed(t.values, prefix);
    SubEntriesPrefixed(t, 0, prefix);
    var a, b := ValueEntries(t.values, prefix), SubEntries(t, 0, prefix);
    KeysAppend(a, b);
    forall k | 0 <= k < |a| ensures StartsWith(a[k].key, prefix) {
      assert (prefix + t.values[k].key)[..|prefix|] == prefix;
    }
  }

  lemma {:induction false} SubEntriesPrefixed(t: Tree, i: nat, prefix: string)
    ensures forall k :: 0 <= k < |SubEntries(t, i, prefix)| ==> StartsWith(SubEntries(t, i, prefix)[k].key, prefix)
    decreases t, 0, |t.subs| - i
  {
    if i < |t.subs| {
      var p := prefix + t.subs[i].name + ".";
      var a, b := Flatten(t.subs[i].tree, p), SubEntries(t, i + 1, prefix);
      FlatKeysPrefixed(t.subs[i].tree, p);
      SubEntriesPrefixed(t, i + 1, prefix);
      forall k | 0 <= k < |a| ensures StartsWith(a[k].key, prefix) {
        assert FlatKeys(t.subs[i].tree, p)[k] == a[k].key;
        assert p == prefix + (t.subs[i].name + ".");
        StartsWithLonger(a[k].key, prefix, t.subs[i].name + ".");
      }
      assert forall k :: |a| <= k < |a + b| ==> (a + b)[k] == b[k - |a|];
    }
  }

  lemma ValueEntriesStep(vs: seq<Entry>, i: nat, prefix: string)
    requires i < |vs|
    ensures ValueEntries(vs[..i + 1], prefix) == ValueEntries(vs[..i], prefix) + [Entry(prefix + vs[i].key, vs[i].value)]
    decreases i
  {
    if i > 0 {
      ValueEntriesStep(vs[1..], i - 1, prefix);
      assert vs[..i + 1][1..] == vs[1..][..i];
      assert vs[..i][1..] == vs[1..][..i - 1];
    }
  }

  /** The first loop of getFlattenedKeyList: the node's value keys, prefixed. */
  method AppendValueKeys(dest: seq<string>, vs: seq<Entry>, prefix: string) returns (r: seq<string>)
    ensures r == dest + Keys(ValueEntries(vs, prefix))
  {
    r := dest;
    var i := 0;
    while i < |vs|
      invariant 0 <= i <= |vs|
      invariant r == dest + Keys(ValueEntries(vs[..i], prefix))
    {
      ValueEntriesStep(vs, i, prefix);
      KeysAppend(ValueEntries(vs[..i], prefix), [Entry(prefix + vs[i].key, vs[i].value)]);
      r := r + [prefix + vs[i].key];
      i := i + 1;
    }
    assert vs[..i] == vs;
  }

  lemma AppendAssoc(a: seq<string>, b: seq<string>, c: seq<string>)
    ensures (a + b) + c == a + (b + c)
  {
  }

  lemma SubEntriesStep(t: Tree, j: nat, prefix: string)
    requires j < |t.subs|
    ensures Keys(SubEntries(t, j, prefix))
      == FlatKeys(t.subs[j].tree, prefix + t.subs[j].name + ".") + Keys(SubEntries(t, j + 1, prefix))
  {
    KeysAppend(Flatten(t.subs[j].tree, prefix + t.subs[j].name + "."), SubEntries(t, j + 1, prefix));
  }

  lemma FlatKeysSplit(t: Tree, prefix: string)
    ensures FlatKeys(t, prefix) == Keys(ValueEntries(t.values, prefix)) + Keys(SubEntries(t, 0, prefix))
  {
    KeysAppend(ValueEntries(t.values, prefix), SubEntries(t, 0, prefix));
  }

  /**
   * getFlattenedKeyList: appends to dest the keys of t's values, prefixed,
   * then recurses into each sub-tree with the sub-tree's name and a dot added
   * to the prefix. What dest held before stays in front.
   */
  method GetFlattenedKeyList(dest: seq<string>, t: Tree, prefix: string) returns (r: seq<string>)
    ensures r == dest + FlatKeys(t, prefix)
    decreases t
  {
    r := AppendValueKeys(dest, t.values, prefix);
    FlatKeysSplit(t, prefix);
    AppendAssoc(dest, Keys(ValueEntries(t.values, prefix)), Keys(SubEntries(t, 0, prefix)));
    var j := 0;
    while j < |t.subs|
      invariant 0 <= j <= |t.subs|
      invariant r + Keys(SubEntries(t, j, prefix)) == dest + FlatKeys(t, prefix)
    {
      var sub := t.subs[j];
      assert sub.tree < t;
      SubEntriesStep(t, j, prefix);
      ghost var before := r;
      r := GetFlattenedKeyList(r, sub.tree, prefix + sub.name + ".");
      AppendAssoc(before, FlatKeys(sub.tree, prefix + sub.name + "."), Keys(SubEntries(t, j + 1, prefix)));
      j := j + 1;
    }
    assert SubEntries(t, j, prefix) == [];
  }
}
