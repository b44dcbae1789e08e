/** Configuration: merging YAML trees and the flat index of dotted keys. */
module ConfigTree {
  import opened Collections

  datatype Node = Null | Scalar(tag: string, text: string) | List(items: seq<Node>) | Map(at: map<string, Node>)

  // ---------------------------------------------------------------------
  // merge_yaml_nodes and navigate_yaml
  // ---------------------------------------------------------------------

  function Get(n: Node, key: string): Node {
    if n.Map? && key in n.at then n.at[key] else Null
  }

  function Merge(base: Node, overlay: Node): Node {
    if base.Null? then overlay
    else if overlay.Null? then base
    else if !base.Map? || !overlay.Map? then overlay
    else Map(map k | k in base.at.Keys + overlay.at.Keys ::
               if k !in overlay.at then base.at[k]
               else if k !in base.at then overlay.at[k]
               else Merge(base.at[k], overlay.at[k]))
  }

  function Navigate(n: Node, path: seq<string>): Node
    decreases |path|
  {
    if path == [] then n else Navigate(Get(n, path[0]), path[1..])
  }

  /** The merge loop: a copy of the base, overlaid entry by entry in any order. */
  method MergeNodes(base: Node, overlay: Node) returns (merged: Node)
    ensures merged == Merge(base, overlay)
    decreases overlay
  {
    if base.Null? {
      return overlay;
    }
    if overlay.Null? {
      return base;
    }
    if !base.Map? || !overlay.Map? {
      return overlay;
    }
    var at, rest := base.at, overlay.at.Keys;
    while rest != {}
      invariant rest <= overlay.at.Keys && at.Keys == base.at.Keys + (overlay.at.Keys - rest)
      invariant forall k :: k in at ==>
                  at[k] == if k in rest || k !in overlay.at then base.at[k] else Merge(Get(base, k), overlay.at[k])
      decreases rest
    {
      var key :| key in rest;
      var entry := MergeNodes(if key in at then at[key] else Null, overlay.at[key]);
      at := at[key := entry];
      rest := rest - {key};
    }
    merged := Map(at);
    assert merged.at.Keys == Merge(base, overlay).at.Keys;
  }

  /** Null is neutral on both sides, and merging a tree into itself changes nothing. */
  lemma {:induction false} MergeLaws(n: Node)
    ensures Merge(Null, n) == n && Merge(n, Null) == n && Merge(n, n) == n
  {
    if n.Map? {
      forall k | k in n.at ensures Merge(n.at[k], n.at[k]) == n.at[k] {
        MergeLaws(n.at[k]);
      }
      assert Merge(n, n).at == n.at;
    }
  }

  /**
   * The three trees for which the grouping of two merges matters: something that is no map comes between
   * two maps, here or under a key of all three, and the first map would not be absorbed by the last.
   */
  ghost predicate GroupingMatters(a: Node, b: Node, c: Node) {
    && a.Map? && c.Map? && !b.Null?
    && if b.Map? then exists k :: k in a.at && k in b.at && k in c.at && GroupingMatters(a.at[k], b.at[k], c.at[k])
       else Merge(a, c) != c
  }

  /** Merging is associative except for exactly those trees. */
  lemma {:induction false} AssociativeExactly(a: Node, b: Node, c: Node)
    ensures Merge(Merge(a, b), c) == Merge(a, Merge(b, c)) <==> !GroupingMatters(a, b, c)
  {
    if a.Map? && b.Map? && c.Map? {
      var left, right := Merge(Merge(a, b), c), Merge(a, Merge(b, c));
      assert left.at.Keys == right.at.Keys;
      forall k | k in left.at ensures
        left.at[k] == right.at[k] <==>
        !(k in a.at && k in b.at && k in c.at && GroupingMatters(a.at[k], b.at[k], c.at[k]))
      {
        if k in a.at && k in b.at && k in c.at {
          AssociativeExactly(a.at[k], b.at[k], c.at[k]);
        }
      }
      if left.at == right.at {
        forall k | k in a.at && k in b.at && k in c.at ensures !GroupingMatters(a.at[k], b.at[k], c.at[k]) {
          assert k in left.at && left.at[k] == right.at[k];
        }
      }
    }
  }

  /** Under any key: a map, then a scalar, then a map without what came first. */
  lemma ScalarInBetween(key: string, inner: string, s: Node)
    requires s.Scalar?
    ensures var a, b, c := Map(map[key := Map(map[inner := s])]), Map(map[key := s]), Map(map[key := Map(map[])]);
            Merge(Merge(a, b), c) != Merge(a, Merge(b, c))
  {
    var a, c := Map(map[inner := s]), Map(map[]);
    assert inner in Merge(a, c).at;
    assert GroupingMatters(a, s, c);
    var first, last := Map(map[key := a]), Map(map[key := c]);
    assert key in first.at && first.at[key] == a && key in last.at && last.at[key] == c;
    AssociativeExactly(first, Map(map[key := s]), last);
  }

  lemma GetMerge(a: Node, b: Node, key: string)
    requires a.Map? && b.Map?
    ensures Get(Merge(a, b), key) == Merge(Get(a, key), Get(b, key))
  {
  }

  /** Every proper prefix of the path leads to a map. */
  predicate MapsAlong(n: Node, path: seq<string>)
    decreases |path|
  {
    path == [] || (n.Map? && MapsAlong(Get(n, path[0]), path[1..]))
  }

  /** Looking up in a merge is merging the lookups, as long as both sides are maps on the way. */
  lemma {:induction false} NavigateMerge(a: Node, b: Node, path: seq<string>)
    requires MapsAlong(a, path) && MapsAlong(b, path)
    ensures Navigate(Merge(a, b), path) == Merge(Navigate(a, path), Navigate(b, path))
    decreases |path|
  {
    if path != [] {
      GetMerge(a, b, path[0]);
      NavigateMerge(Get(a, path[0]), Get(b, path[0]), path[1..]);
    }
  }

  /** The overlay says nothing about the path: it has null there or breaks off with null before. */
  predicate Silent(overlay: Node, path: seq<string>)
    decreases |path|
  {
    overlay.Null? || (path != [] && overlay.Map? && Silent(Get(overlay, path[0]), path[1..]))
  }

  lemma {:induction false} NavigateNull(path: seq<string>)
    ensures Navigate(Null, path) == Null
  {
    if path != [] {
      NavigateNull(path[1..]);
    }
  }

  /**
   * Where the base has a value (neither null nor a map), the merge keeps it exactly if the overlay is
   * silent about the path, and otherwise shows what the overlay has there, even if that is nothing.
   */
  lemma {:induction false} MergedValue(a: Node, b: Node, path: seq<string>)
    requires !Navigate(a, path).Null? && !Navigate(a, path).Map?
    ensures Navigate(Merge(a, b), path) == if Silent(b, path) then Navigate(a, path) else Navigate(b, path)
    decreases |path|
  {
    if a.Null? {
      NavigateNull(path);
      assert false;
    }
    if path != [] && !b.Null? && b.Map? {
      if !a.Map? {
        NavigateNull(path[1..]);
        assert false;
      }
      GetMerge(a, b, path[0]);
      MergedValue(Get(a, path[0]), Get(b, path[0]), path[1..]);
    }
  }

  /** A value in the overlay always wins. */
  lemma {:induction false} OverlayWins(a: Node, b: Node, path: seq<string>)
    requires !Navigate(b, path).Null? && !Navigate(b, path).Map?
    ensures Navigate(Merge(a, b), path) == Navigate(b, path)
    decreases |path|
  {
    if path != [] && a.Map? {
      if b.Map? {
        GetMerge(a, b, path[0]);
        OverlayWins(Get(a, path[0]), Get(b, path[0]), path[1..]);
      } else {
        NavigateNull(path[1..]);
      }
    } else if b.Null? {
      NavigateNull(path);
    }
  }

  // ---------------------------------------------------------------------
  // Dotted keys
  // ---------------------------------------------------------------------

  method SplitKey(key: string) returns (parts: seq<string>)
    ensures parts == Split(key)
  {
    parts := [];
    var current: string := [];
    assert key[0..] == key;
    for i := 0 to |key|
      invariant parts + SplitFrom(current, key[i..]) == Split(key)
    {
      assert key[i..][1..] == key[i + 1..];
      if key[i] == '.' {
        if current != [] {
          parts := parts + [current];
          current := [];
        }
      } else {
        current := current + [key[i]];
      }
    }
    if current != [] {
      parts := parts + [current];
    }
  }

  function Join(path: seq<string>): string {
    if path == [] then [] else if |path| == 1 then path[0] else Join(path[..|path| - 1]) + "." + path[|path| - 1]
  }

  predicate GoodKey(key: string) {
    key != [] && '.' !in key
  }

  ghost predicate GoodPath(path: seq<string>) {
    forall i :: 0 <= i < |path| ==> GoodKey(path[i])
  }

  lemma {:induction false} SplitRun(current: string, run: string, rest: string)
    requires '.' !in run
    ensures SplitFrom(current, run + rest) == SplitFrom(current + run, rest)
    decreases |run|
  {
    if run == [] {
      assert run + rest == rest && current + run == current;
    } else {
      assert (run + rest)[1..] == run[1..] + rest;
      assert run[0] in run;
      assert '.' !in run[1..];
      SplitRun(current + [run[0]], run[1..], rest);
      assert current + [run[0]] + run[1..] == current + run;
    }
  }

  lemma {:induction false} SplitAppend(current: string, text: string, key: string)
    requires GoodKey(key) && (text != [] || current != [])
    ensures SplitFrom(current, text + "." + key) == SplitFrom(current, text) + [key]
    decreases |text|
  {
    if text == [] {
      assert text + "." + key == "." + key && ("." + key)[1..] == key;
      SplitRun([], key, []);
      assert key + [] == key && [] + key == key;
    } else {
      assert (text + "." + key)[1..] == text[1..] + "." + key;
      if text[0] == '.' {
        if text[1..] == [] {
          assert text[1..] + "." + key == "." + key && ("." + key)[1..] == key;
          SplitRun([], key, []);
          assert key + [] == key && [] + key == key;
        } else {
          SplitAppend([], text[1..], key);
        }
      } else {
        SplitAppend(current + [text[0]], text[1..], key);
      }
    }
  }

  /** Splitting a joined path gives the path back. */
  lemma {:induction false} SplitJoin(path: seq<string>)
    requires GoodPath(path)
    ensures Split(Join(path)) == path && (path != [] ==> Join(path) != [])
  {
    if |path| == 1 {
      SplitRun([], path[0], []);
      assert path[0] + [] == path[0] && [] + path[0] == path[0];
    } else if path != [] {
      var init, last := path[..|path| - 1], path[|path| - 1];
      SplitJoin(init);
      SplitAppend([], Join(init), last);
      assert path == init + [last];
    }
  }

  // ---------------------------------------------------------------------
  // flatten_yaml_node
  // ---------------------------------------------------------------------

  datatype Kind = AsInt | AsFloat | AsBool | AsString

  /** A stored value; the conversion of a scalar's text to its type is left to the reader of the value. */
  datatype Stored = One(kind: Kind, text: string) | Many(texts: seq<string>)

  type Storage = map<string, Stored>

  function KindOf(tag: string): Kind {
    if tag == "!!int" then AsInt else if tag == "!!float" then AsFloat else if tag == "!!bool" then AsBool else AsString
  }

  /** The texts of a list of scalars. */
  function Texts(items: seq<Node>): Option<seq<string>> {
    if items == [] then Some([])
    else if !items[0].Scalar? then None
    else match Texts(items[1..])
      case None => None
      case Some(rest) => Some([items[0].text] + rest)
  }

  /** What is stored for a node: scalars and lists of scalars only. */
  function StoredFor(n: Node): Option<Stored> {
    match n
    case Scalar(tag, text) => Some(One(KindOf(tag), text))
    case List(items) => (match Texts(items) case None => None case Some(texts) => Some(Many(texts)))
    case _ => None
  }

  function AfterTexts(arr: seq<string>, r: Option<seq<string>>): Option<seq<string>> {
    match r
    case None => None
    case Some(rest) => Some(arr + rest)
  }

  /** The loop over a list, which stops at the first item that is not a scalar. */
  method ListTexts(items: seq<Node>) returns (r: Option<seq<string>>)
    ensures r == Texts(items)
  {
    var arr: seq<string> := [];
    assert items[0..] == items;
    assert Texts(items).Some? ==> [] + Texts(items).value == Texts(items).value;
    for i := 0 to |items|
      invariant Texts(items) == AfterTexts(arr, Texts(items[i..]))
    {
      assert items[i..][1..] == items[i + 1..];
      if !items[i].Scalar? {
        return None;
      }
      ghost var rest := Texts(items[i + 1..]);
      if rest.Some? {
        assert arr + ([items[i].text] + rest.value) == (arr + [items[i].text]) + rest.value;
      }
      arr := arr + [items[i].text];
    }
    assert arr + [] == arr;
    r := Some(arr);
  }

  function Look(s: Storage, key: string): Option<Stored> {
    if key in s then Some(s[key]) else None
  }

  /** The name of a child below a prefix, which may be empty. */
  function FullKey(prefix: string, key: string): string {
    if prefix == [] then key else prefix + "." + key
  }

  /** The name of what a path leads to below a prefix. */
  function Spelled(prefix: string, path: seq<string>): string
    decreases |path|
  {
    if path == [] then prefix else Spelled(FullKey(prefix, path[0]), path[1..])
  }

  /** A path that starts with child k leads to the value v and is spelled `key`. */
  ghost predicate WrittenAlong(n: Node, prefix: string, path: seq<string>, key: string, v: Stored) {
    path != [] && Spelled(prefix, path) == key && StoredFor(Navigate(n, path)) == Some(v)
  }

  ghost predicate Via(n: Node, prefix: string, k: string, key: string, v: Stored) {
    exists path :: WrittenAlong(n, prefix, path, key, v) && path[0] == k
  }

  /** Some path leads to the value v and is spelled `key`. */
  ghost predicate Writes(n: Node, prefix: string, key: string, v: Stored) {
    exists path :: WrittenAlong(n, prefix, path, key, v)
  }

  /** `after` is `before` with the values of the node written over it; where spellings meet, one of them. */
  ghost predicate Filled(before: Storage, after: Storage, n: Node, prefix: string) {
    forall key ::
      if exists v :: Writes(n, prefix, key, v) then key in after && Writes(n, prefix, key, after[key])
      else Look(after, key) == Look(before, key)
  }

  /** The same for the values under one child. */
  ghost predicate FilledVia(before: Storage, after: Storage, n: Node, prefix: string, k: string) {
    forall key ::
      if exists v :: Via(n, prefix, k, key, v) then key in after && Via(n, prefix, k, key, after[key])
      else Look(after, key) == Look(before, key)
  }

  ghost predicate Below(n: Node, prefix: string, done: set<string>, key: string, v: Stored) {
    exists k :: k in done && Via(n, prefix, k, key, v)
  }

  /** The same for the values under the children in `done`. */
  ghost predicate FilledBelow(before: Storage, after: Storage, n: Node, prefix: string, done: set<string>) {
    forall key ::
      if exists v :: Below(n, prefix, done, key, v) then key in after && Below(n, prefix, done, key, after[key])
      else Look(after, key) == Look(before, key)
  }

  lemma BelowMore(n: Node, prefix: string, done: set<string>, k: string, key: string, v: Stored)
    ensures Below(n, prefix, done + {k}, key, v) <==> Below(n, prefix, done, key, v) || Via(n, prefix, k, key, v)
  {
    hide Via;
    if Below(n, prefix, done + {k}, key, v) {
      var j :| j in done + {k} && Via(n, prefix, j, key, v);
    }
  }

  lemma OneChildMore(before: Storage, was: Storage, after: Storage, n: Node, prefix: string, done: set<string>,
                     k: string)
    requires FilledBelow(before, was, n, prefix, done) && FilledVia(was, after, n, prefix, k)
    ensures FilledBelow(before, after, n, prefix, done + {k})
  {
    hide Via;
    forall key
      ensures if exists v :: Below(n, prefix, done + {k}, key, v)
              then key in after && Below(n, prefix, done + {k}, key, after[key])
              else Look(after, key) == Look(before, key)
    {
      if v :| Via(n, prefix, k, key, v) {
        assert Below(n, prefix, done + {k}, key, after[key]);
      } else if v :| Below(n, prefix, done, key, v) {
        assert Below(n, prefix, done, key, was[key]);
        assert Below(n, prefix, done + {k}, key, after[key]);
      } else {
        forall v ensures !Below(n, prefix, done + {k}, key, v) {
          BelowMore(n, prefix, done, k, key, v);
        }
      }
    }
  }

  lemma NothingDone(n: Node, prefix: string, s: Storage)
    ensures FilledBelow(s, s, n, prefix, {})
  {
  }

  lemma AllDone(n: Node, prefix: string, before: Storage, after: Storage)
    requires n.Map? && FilledBelow(before, after, n, prefix, n.at.Keys)
    ensures Filled(before, after, n, prefix)
  {
    hide Spelled;
    forall key, v ensures Below(n, prefix, n.at.Keys, key, v) <==> Writes(n, prefix, key, v) {
      if path :| WrittenAlong(n, prefix, path, key, v) {
        if path[0] !in n.at {
          NavigateNull(path[1..]);
          assert false;
        }
        assert Via(n, prefix, path[0], key, v);
      }
    }
  }

  lemma NoEntries(n: Node, prefix: string, s: Storage)
    requires !n.Map?
    ensures Filled(s, s, n, prefix)
  {
    hide Spelled;
    forall key, v ensures !Writes(n, prefix, key, v) {
      if path :| WrittenAlong(n, prefix, path, key, v) {
        NavigateNull(path[1..]);
        assert false;
      }
    }
  }

  /** The values under a child that is a map are those of the map below the child's name. */
  lemma ViaMap(n: Node, prefix: string, k: string, key: string, v: Stored)
    requires n.Map? && k in n.at && (n.at[k].Map? || n.at[k].Null?)
    ensures Via(n, prefix, k, key, v) <==> Writes(n.at[k], FullKey(prefix, k), key, v)
  {
    if Via(n, prefix, k, key, v) {
      var path :| WrittenAlong(n, prefix, path, key, v) && path[0] == k;
      assert Navigate(n, path) == Navigate(n.at[k], path[1..]);
      assert WrittenAlong(n.at[k], FullKey(prefix, k), path[1..], key, v);
    }
    if Writes(n.at[k], FullKey(prefix, k), key, v) {
      var rest :| WrittenAlong(n.at[k], FullKey(prefix, k), rest, key, v);
      var path := [k] + rest;
      assert path[1..] == rest && Navigate(n, path) == Navigate(n.at[k], rest);
      assert WrittenAlong(n, prefix, path, key, v);
    }
  }

  /** A child that is a value is written at its own name only. */
  lemma ViaValue(n: Node, prefix: string, k: string, key: string, v: Stored)
    requires n.Map? && k in n.at && !n.at[k].Map? && !n.at[k].Null?
    ensures Via(n, prefix, k, key, v) <==> key == FullKey(prefix, k) && StoredFor(n.at[k]) == Some(v)
  {
    if Via(n, prefix, k, key, v) {
      var path :| WrittenAlong(n, prefix, path, key, v) && path[0] == k;
      assert Navigate(n, path) == Navigate(n.at[k], path[1..]);
      if path[1..] != [] {
        NavigateNull(path[1..][1..]);
        assert false;
      }
      assert Spelled(prefix, path) == Spelled(FullKey(prefix, k), path[1..]) == FullKey(prefix, k);
      assert Navigate(n.at[k], path[1..]) == n.at[k];
    }
    if key == FullKey(prefix, k) && StoredFor(n.at[k]) == Some(v) {
      var path := [k];
      assert path[1..] == [] && Navigate(n, path) == Navigate(n.at[k], path[1..]) == n.at[k];
      assert WrittenAlong(n, prefix, path, key, v);
    }
  }

  lemma FilledMap(was: Storage, after: Storage, n: Node, prefix: string, k: string)
    requires n.Map? && k in n.at && (n.at[k].Map? || n.at[k].Null?)
    requires Filled(was, after, n.at[k], FullKey(prefix, k))
    ensures FilledVia(was, after, n, prefix, k)
  {
    hide Via, Writes, FullKey;
    forall key, v ensures Via(n, prefix, k, key, v) <==> Writes(n.at[k], FullKey(prefix, k), key, v) {
      ViaMap(n, prefix, k, key, v);
    }
    var c, name := n.at[k], FullKey(prefix, k);
    forall key
      ensures if exists v :: Via(n, prefix, k, key, v) then key in after && Via(n, prefix, k, key, after[key])
              else Look(after, key) == Look(was, key)
    {
      assert (exists v :: Via(n, prefix, k, key, v)) <==> exists v :: Writes(c, name, key, v);
    }
  }

  lemma FilledValue(was: Storage, after: Storage, n: Node, prefix: string, k: string)
    requires n.Map? && k in n.at && !n.at[k].Map? && !n.at[k].Null?
    requires after == match StoredFor(n.at[k]) case None => was case Some(v) => was[FullKey(prefix, k) := v]
    ensures FilledVia(was, after, n, prefix, k)
  {
    hide Via, FullKey, StoredFor;
    forall key
      ensures if exists v :: Via(n, prefix, k, key, v) then key in after && Via(n, prefix, k, key, after[key])
              else Look(after, key) == Look(was, key)
    {
      if v :| Via(n, prefix, k, key, v) {
        ViaValue(n, prefix, k, key, v);
      } else if key == FullKey(prefix, k) && StoredFor(n.at[k]).Some? {
        ViaValue(n, prefix, k, key, StoredFor(n.at[k]).value);
        assert false;
      }
    }
  }

  /** The recursive fill: children in any order, scalars and scalar lists stored, maps descended into. */
  method FlattenInto(n: Node, prefix: string, before: Storage) returns (after: Storage)
    ensures Filled(before, after, n, prefix)
    decreases n
  {
    hide Filled, FilledBelow, FilledVia;
    after := before;
    if !n.Map? {
      NoEntries(n, prefix, before);
      return;
    }
    var rest := n.at.Keys;
    NothingDone(n, prefix, before);
    assert n.at.Keys - rest == {};
    while rest != {}
      invariant rest <= n.at.Keys && FilledBelow(before, after, n, prefix, n.at.Keys - rest)
      decreases rest
    {
      var key :| key in rest;
      var value := n.at[key];
      ghost var was := after;
      if value.Map? || value.Null? {
        after := FlattenInto(value, FullKey(prefix, key), after);
        FilledMap(was, after, n, prefix, key);
      } else {
        after := StoreValue(value, FullKey(prefix, key), after);
        FilledValue(was, after, n, prefix, key);
      }
      OneChildMore(before, was, after, n, prefix, n.at.Keys - rest, key);
      assert n.at.Keys - (rest - {key}) == (n.at.Keys - rest) + {key};
      rest := rest - {key};
    }
    assert n.at.Keys - rest == n.at.Keys;
    AllDone(n, prefix, before, after);
  }

  method StoreValue(value: Node, fullKey: string, before: Storage) returns (after: Storage)
    requires !value.Map? && !value.Null?
    ensures after == match StoredFor(value) case None => before case Some(v) => before[fullKey := v]
  {
    after := before;
    match value {
      case Scalar(tag, text) => after := after[fullKey := One(KindOf(tag), text)];
      case List(items) =>
        var texts := ListTexts(items);
        if texts.Some? {
          after := after[fullKey := Many(texts.value)];
        }
    }
  }

  // ---------------------------------------------------------------------
  // The configuration object
  // ---------------------------------------------------------------------

  /** The index has exactly the names that lead to a value, each with a value that it leads to. */
  ghost predicate Indexed(s: Storage, root: Node) {
    Filled(map[], s, root, [])
  }

  class Config {
    var root: Node
    var storage: Storage

    ghost predicate Valid()
      reads this
    {
      Indexed(storage, root)
    }

    constructor ()
      ensures Valid() && root == Null && storage == map[]
    {
      root, storage := Null, map[];
      new;
      NoEntries(Null, [], map[]);
    }

    /** Merge a document into the tree and rebuild the index from scratch. */
    method LoadYaml(document: Node)
      modifies this
      ensures Valid() && root == Merge(old(root), document)
    {
      root := MergeNodes(root, document);
      storage := FlattenInto(root, [], map[]);
    }
  }

  // ---------------------------------------------------------------------
  // Index and navigation
  // ---------------------------------------------------------------------

  /** The key is spelled as the join of its parts: no empty part, no dot at either end. */
  predicate Canonical(key: string) {
    key != [] && Join(Split(key)) == key
  }

  /** What navigation finds for a dotted key. */
  function Found(root: Node, key: string): Option<Stored> {
    if Canonical(key) then StoredFor(Navigate(root, Split(key))) else None
  }

  /** The index has a key exactly when it is canonical and the tree has a value there, and then that value. */
  ghost predicate Agrees(s: Storage, root: Node) {
    forall key :: Look(s, key) == Found(root, key)
  }

  /** Whatever a path leads to, splitting the name it is spelled by leads to the same. */
  ghost predicate Unambiguous(root: Node) {
    forall path :: path != [] && StoredFor(Navigate(root, path)).Some? ==>
      Found(root, Spelled([], path)) == StoredFor(Navigate(root, path))
  }

  lemma {:induction false} SpelledAppend(prefix: string, path: seq<string>, k: string)
    ensures Spelled(prefix, path + [k]) == FullKey(Spelled(prefix, path), k)
    decreases |path|
  {
    if path == [] {
      assert path + [k] == [k] && [k][1..] == [];
    } else {
      assert (path + [k])[0] == path[0] && (path + [k])[1..] == path[1..] + [k];
      SpelledAppend(FullKey(prefix, path[0]), path[1..], k);
    }
  }

  /** A path of good keys is spelled as its join. */
  lemma {:induction false} SpelledIsJoin(path: seq<string>)
    requires GoodPath(path)
    ensures Spelled([], path) == Join(path)
  {
    if path != [] {
      var init, last := path[..|path| - 1], path[|path| - 1];
      SpelledIsJoin(init);
      assert path == init + [last];
      SpelledAppend([], init, last);
      SplitJoin(init);
    }
  }

  lemma {:induction false} PartsAreGood(current: string, key: string)
    requires '.' !in current
    ensures GoodPath(SplitFrom(current, key))
    decreases |key|
  {
    if key != [] {
      PartsAreGood(if key[0] == '.' then [] else current + [key[0]], key[1..]);
    }
  }

  /** A canonical name is spelled by its own parts. */
  lemma CanonicalIsSpelled(key: string)
    requires Canonical(key)
    ensures Split(key) != [] && Spelled([], Split(key)) == key
  {
    PartsAreGood([], key);
    SpelledIsJoin(Split(key));
  }

  lemma FoundIsWritten(root: Node, key: string)
    requires Found(root, key).Some?
    ensures Writes(root, [], key, Found(root, key).value)
  {
    hide Spelled, Navigate, StoredFor, Split, Join;
    CanonicalIsSpelled(key);
    assert WrittenAlong(root, [], Split(key), key, Found(root, key).value);
  }

  lemma AgreesIfUnambiguous(s: Storage, root: Node)
    requires Indexed(s, root) && Unambiguous(root)
    ensures Agrees(s, root)
  {
    hide Spelled, Navigate, StoredFor, Split, Join;
    forall key ensures Look(s, key) == Found(root, key) {
      if Found(root, key).Some? {
        FoundIsWritten(root, key);
      }
      if v :| Writes(root, [], key, v) {
        var path :| WrittenAlong(root, [], path, key, s[key]);
      }
    }
  }

  /** One of several values that meet in a name is as good as another. */
  lemma AnyValueWillDo(s: Storage, root: Node, key: string, v: Stored)
    requires Indexed(s, root) && Writes(root, [], key, v)
    ensures Indexed(s[key := v], root)
  {
    hide Writes;
    forall other
      ensures if exists w :: Writes(root, [], other, w)
              then other in s[key := v] && Writes(root, [], other, s[key := v][other])
              else Look(s[key := v], other) == Look(map[], other)
    {
    }
  }

  /**
   * For every tree: index and navigation agree, in whatever order the maps are visited, if and only if
   * every value is also reached through the parts of the name it is spelled by.
   */
  lemma AgreesExactly(s: Storage, root: Node)
    requires Indexed(s, root)
    ensures (forall s' :: Indexed(s', root) ==> Agrees(s', root)) <==> Unambiguous(root)
  {
    hide Spelled, Navigate, StoredFor, Indexed, Found;
    if Unambiguous(root) {
      forall s' | Indexed(s', root) ensures Agrees(s', root) {
        AgreesIfUnambiguous(s', root);
      }
    }
    if forall s' :: Indexed(s', root) ==> Agrees(s', root) {
      forall path | path != [] && StoredFor(Navigate(root, path)).Some?
        ensures Found(root, Spelled([], path)) == StoredFor(Navigate(root, path))
      {
        var key, v := Spelled([], path), StoredFor(Navigate(root, path)).value;
        assert WrittenAlong(root, [], path, key, v);
        AnyValueWillDo(s, root, key, v);
        assert Look(s[key := v], key) == Found(root, key);
      }
    }
  }

  ghost predicate GoodKeys(n: Node) {
    n.Map? ==> forall k :: k in n.at ==> GoodKey(k) && GoodKeys(n.at[k])
  }

  lemma {:induction false} MergeGoodKeys(a: Node, b: Node)
    requires GoodKeys(a) && GoodKeys(b)
    ensures GoodKeys(Merge(a, b))
  {
    if a.Map? && b.Map? {
      forall k | k in a.at && k in b.at ensures GoodKeys(Merge(a.at[k], b.at[k])) {
        MergeGoodKeys(a.at[k], b.at[k]);
      }
    }
  }

  lemma {:induction false} ValuePathIsGood(n: Node, path: seq<string>)
    requires GoodKeys(n) && !Navigate(n, path).Null?
    ensures GoodPath(path)
    decreases |path|
  {
    if path != [] {
      if !n.Map? || path[0] !in n.at {
        NavigateNull(path[1..]);
        assert false;
      }
      ValuePathIsGood(n.at[path[0]], path[1..]);
      assert path == [path[0]] + path[1..];
    }
  }

  /** Trees whose keys are not empty and free of dots are unambiguous, and merging keeps them so. */
  lemma GoodKeysAreUnambiguous(root: Node)
    requires GoodKeys(root)
    ensures Unambiguous(root)
  {
    forall path | path != [] && StoredFor(Navigate(root, path)).Some?
      ensures Found(root, Spelled([], path)) == StoredFor(Navigate(root, path))
    {
      ValuePathIsGood(root, path);
      SpelledIsJoin(path);
      SplitJoin(path);
    }
  }

  /** With a dot in a key, the index has the name and navigation does not find it. */
  lemma DottedKeyDisagrees(s: Storage, key: string, v: Node)
    requires '.' in key && v.Scalar? && Indexed(s, Map(map[key := v]))
    ensures key in s && Some(s[key]) == StoredFor(v)
    ensures Found(Map(map[key := v]), key) == None && !Agrees(s, Map(map[key := v]))
  {
    var n := Map(map[key := v]);
    var only := [key];
    assert only[1..] == [] && Navigate(n, only) == Navigate(v, only[1..]) == v;
    assert WrittenAlong(n, [], only, key, StoredFor(v).value);
    assert Writes(n, [], key, StoredFor(v).value);
    var path :| WrittenAlong(n, [], path, key, s[key]);
    if path[0] != key {
      NavigateNull(path[1..]);
      assert false;
    }
    assert Navigate(n, path) == Navigate(v, path[1..]);
    if path[1..] != [] {
      NavigateNull(path[1..][1..]);
      assert false;
    }
    PartsAreGood([], key);
    if Canonical(key) {
      assert GoodKey(Split(key)[0]) && Split(key)[0] != key;
      NavigateNull(Split(key)[1..]);
    }
  }

  /** The tree after loading the documents one after the other. */
  function Loaded(documents: seq<Node>): Node {
    if documents == [] then Null else Merge(Loaded(documents[..|documents| - 1]), documents[|documents| - 1])
  }

  lemma {:induction false} LoadedGoodKeys(documents: seq<Node>)
    requires forall i :: 0 <= i < |documents| ==> GoodKeys(documents[i])
    ensures GoodKeys(Loaded(documents))
  {
    if documents != [] {
      LoadedGoodKeys(documents[..|documents| - 1]);
      MergeGoodKeys(Loaded(documents[..|documents| - 1]), documents[|documents| - 1]);
    }
  }

  /** After any sequence of loads of good documents, the index and navigation agree on every key. */
  lemma AgreesAfterLoads(documents: seq<Node>, s: Storage)
    requires forall i :: 0 <= i < |documents| ==> GoodKeys(documents[i])
    requires Indexed(s, Loaded(documents))
    ensures Agrees(s, Loaded(documents))
  {
    hide Indexed, Unambiguous, GoodKeys, Agrees;
    LoadedGoodKeys(documents);
    GoodKeysAreUnambiguous(Loaded(documents));
    AgreesIfUnambiguous(s, Loaded(documents));
  }

  /** What that means for one key of a tree of good keys. */
  lemma IndexIsNavigation(s: Storage, root: Node, key: string)
    requires Indexed(s, root) && GoodKeys(root)
    ensures key in s <==> Canonical(key) && StoredFor(Navigate(root, Split(key))).Some?
    ensures key in s ==> Some(s[key]) == StoredFor(Navigate(root, Split(key)))
  {
    hide Indexed, Unambiguous, Split, Join, Navigate, GoodKeys;
    GoodKeysAreUnambiguous(root);
    AgreesIfUnambiguous(s, root);
    assert Look(s, key) == Found(root, key);
  }

  lemma StoredIsValue(n: Node)
    requires StoredFor(n).Some?
    ensures !n.Null? && !n.Map?
  {
  }

  /**
   * What a load does to a key that is already set: it stays if the document is silent about it, and
   * otherwise becomes what the document has there.
   */
  lemma LoadKeepsOrReplaces(before: Storage, after: Storage, root: Node, document: Node, key: string)
    requires Agrees(before, root) && Agrees(after, Merge(root, document)) && key in before
    ensures Silent(document, Split(key)) ==> key in after && after[key] == before[key]
    ensures !Silent(document, Split(key)) ==> Look(after, key) == StoredFor(Navigate(document, Split(key)))
  {
    hide Split;
    hide Join;
    hide Navigate;
    hide StoredFor;
    hide Merge;
    hide Silent;
    assert Look(before, key) == Found(root, key) && Look(after, key) == Found(Merge(root, document), key);
    StoredIsValue(Navigate(root, Split(key)));
    MergedValue(root, document, Split(key));
  }

  /** A key the document sets has the document's value afterwards, whatever was there before. */
  lemma LoadSets(after: Storage, root: Node, document: Node, key: string)
    requires Agrees(after, Merge(root, document)) && Found(document, key).Some?
    ensures key in after && Some(after[key]) == Found(document, key)
  {
    hide Split;
    hide Join;
    hide Navigate;
    hide StoredFor;
    hide Merge;
    assert Look(after, key) == Found(Merge(root, document), key);
    StoredIsValue(Navigate(document, Split(key)));
    OverlayWins(root, document, Split(key));
  }
}
