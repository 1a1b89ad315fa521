/**
 * The namespace helper `_recurseFeedDefaultNamespace`: a walk over a nested
 * translation object that hands every child the dotted path leading to it.
 */
module Namespace {
  import JsString
  import opened Wrappers

  /** A JavaScript value inside a translation object: `null`, a string, or a nested object. */
  datatype Tree = Null | Leaf(text: string) | Node(children: map<string, Tree>)

  /** The path handed to the child `key`: the key itself at top level, `path.key` below. */
  function ChildPath(path: string, key: string): (r: string)
    ensures path == "" ==> r == key
    ensures path != "" ==> r == path + "." + key && |r| == |path| + |key| + 1
  {
    if path != "" then path + "." + key else key
  }

  /**
   * The walk as written: every child of an object is replaced by its own
   * walk, and a non-object is replaced by its path only when it is both
   * `null` and `""`, a test no value passes.
   */
  function FeedAsWritten(data: Tree, path: string): (r: Tree)
    ensures r.Node? <==> data.Node?
    ensures r.Node? ==> r.children.Keys == data.children.Keys
    ensures data.Null? ==> r.Null?
    decreases data
  {
    match data
    case Node(c) => Node(map k | k in c :: FeedAsWritten(c[k], ChildPath(path, k)))
    case _ => if data.Null? && data == Leaf("") then Leaf(path) else data
  }

  /** The walk as written hands back exactly what it was given. */
  lemma {:induction false} FeedAsWrittenIsIdentity(data: Tree, path: string)
    ensures FeedAsWritten(data, path) == data
    decreases data
  {
    match data
    case Node(c) =>
      forall k | k in c ensures FeedAsWritten(c[k], ChildPath(path, k)) == c[k] {
        FeedAsWrittenIsIdentity(c[k], ChildPath(path, k));
      }
      assert (map k | k in c :: FeedAsWritten(c[k], ChildPath(path, k))) == c;
    case Null =>
    case Leaf(_) =>
  }

  /**
   * `_recurseFeedDefaultNamespace(data, path)`, with an omitted `path` given
   * as `""`: the `for…in` loop reassigns each key of an object to the walk
   * of its value; a non-object goes through the leaf test.
   */
  method FeedDefaultNamespace(data: Tree, path: string) returns (r: Tree)
    ensures r == FeedAsWritten(data, path)
    ensures r == data
    decreases data
  {
    if data.Node? {
      var children := data.children;
      var keys := children.Keys;
      while keys != {}
        invariant keys <= data.children.Keys && children.Keys == data.children.Keys
        invariant forall k :: k in data.children && k !in keys ==> children[k] == FeedAsWritten(data.children[k], ChildPath(path, k))
        invariant forall k :: k in keys ==> children[k] == data.children[k]
        decreases keys
      {
        var k :| k in keys;
        var v := FeedDefaultNamespace(data.children[k], ChildPath(path, k));
        children := children[k := v];
        keys := keys - {k};
      }
      assert children == map k | k in data.children :: FeedAsWritten(data.children[k], ChildPath(path, k));
      r := Node(children);
    } else {
      r := data;
    }
    FeedAsWrittenIsIdentity(data, path);
  }

  /**
   * The walk its documentation describes: an empty or `null` value becomes
   * the dotted path that leads to it, and every other value is kept.
   */
  function FillEmptyLeaves(data: Tree, path: string): (r: Tree)
    ensures r.Node? <==> data.Node?
    ensures r.Node? ==> r.children.Keys == data.children.Keys
    ensures !r.Null? && (r.Leaf? ==> r.text != "" || path == "")
    decreases data
  {
    match data
    case Node(c) => Node(map k | k in c :: FillEmptyLeaves(c[k], ChildPath(path, k)))
    case Null => Leaf(path)
    case Leaf(v) => if v == "" then Leaf(path) else data
  }

  /** Whether some value in the object is empty or `null`. */
  predicate HasEmptyLeaf(data: Tree)
    decreases data
  {
    match data
    case Node(c) => exists k :: k in c && HasEmptyLeaf(c[k])
    case Null => true
    case Leaf(v) => v == ""
  }

  /** The same objects with the same keys at every level; values may differ. */
  predicate SameShape(a: Tree, b: Tree)
    decreases a
  {
    match a
    case Node(c) => b.Node? && b.children.Keys == c.Keys && forall k :: k in c ==> SameShape(c[k], b.children[k])
    case _ => !b.Node?
  }

  /** The value reached by following the keys `ks` from `data`, if there is one. */
  function Lookup(data: Tree, ks: seq<string>): Option<Tree>
    decreases |ks|
  {
    if ks == [] then Some(data)
    else if data.Node? && ks[0] in data.children then Lookup(data.children[ks[0]], ks[1..])
    else None
  }

  /** The path handed down to the value at `ks`, starting from `path`. */
  function DottedPath(path: string, ks: seq<string>): string
    decreases |ks|
  {
    if ks == [] then path else DottedPath(ChildPath(path, ks[0]), ks[1..])
  }

  /** Filling keeps every key at every level. */
  lemma {:induction false} FillKeepsShape(data: Tree, path: string)
    ensures SameShape(data, FillEmptyLeaves(data, path))
    decreases data
  {
    match data
    case Node(c) =>
      forall k | k in c ensures SameShape(c[k], FillEmptyLeaves(data, path).children[k]) {
        FillKeepsShape(c[k], ChildPath(path, k));
      }
    case Null =>
    case Leaf(_) =>
  }

  /**
   * The value at `ks` after filling: an empty or `null` value is replaced
   * by its dotted path, and any other non-object value is kept.
   */
  lemma {:induction false} FillLeafAt(data: Tree, path: string, ks: seq<string>, x: Tree)
    requires Lookup(data, ks) == Some(x) && !x.Node?
    ensures Lookup(FillEmptyLeaves(data, path), ks)
         == Some(if x == Null || x == Leaf("") then Leaf(DottedPath(path, ks)) else x)
    decreases |ks|
  {
    if ks != [] {
      FillLeafAt(data.children[ks[0]], ChildPath(path, ks[0]), ks[1..], x);
    }
  }

  /** Below a non-empty path, the dotted path is the keys joined with `.` after it. */
  lemma {:induction false} DottedPathJoin(path: string, ks: seq<string>)
    requires path != "" && ks != []
    ensures DottedPath(path, ks) == path + "." + JsString.Join(ks, '.')
    decreases |ks|
  {
    if |ks| > 1 {
      DottedPathJoin(path + "." + ks[0], ks[1..]);
      assert path + "." + ks[0] + "." + JsString.Join(ks[1..], '.') == path + "." + (ks[0] + ['.'] + JsString.Join(ks[1..], '.'));
    }
  }

  /** From the top level, the dotted path of a value is its keys joined with `.`, when the first key is not empty. */
  lemma TopLevelDottedPath(ks: seq<string>)
    requires ks != [] && ks[0] != ""
    ensures DottedPath("", ks) == JsString.Join(ks, '.')
  {
    if |ks| > 1 {
      DottedPathJoin(ks[0], ks[1..]);
    }
  }

  /** Filling an object without empty or `null` values changes nothing. */
  lemma {:induction false} FillWithoutEmptyIsIdentity(data: Tree, path: string)
    requires !HasEmptyLeaf(data)
    ensures FillEmptyLeaves(data, path) == data
    decreases data
  {
    match data
    case Node(c) =>
      forall k | k in c ensures FillEmptyLeaves(c[k], ChildPath(path, k)) == c[k] {
        FillWithoutEmptyIsIdentity(c[k], ChildPath(path, k));
      }
      assert (map k | k in c :: FillEmptyLeaves(c[k], ChildPath(path, k))) == c;
    case Null =>
    case Leaf(_) =>
  }

  /** Filling an object with one key fills its one value below that key's path. */
  lemma FillOneChild(path: string, a: string, t: Tree)
    ensures FillEmptyLeaves(Node(map[a := t]), path) == Node(map[a := FillEmptyLeaves(t, ChildPath(path, a))])
  {
    var c := map[a := t];
    assert (map k | k in c :: FillEmptyLeaves(c[k], ChildPath(path, k))) == map[a := FillEmptyLeaves(t, ChildPath(path, a))];
  }

  /** Filling an object with two empty values gives each its own path. */
  lemma FillTwoEmpty(path: string, a: string, b: string)
    requires a != b
    ensures FillEmptyLeaves(Node(map[a := Leaf(""), b := Leaf("")]), path)
         == Node(map[a := Leaf(ChildPath(path, a)), b := Leaf(ChildPath(path, b))])
  {
    var c := map[a := Leaf(""), b := Leaf("")];
    var m := map k | k in c :: FillEmptyLeaves(c[k], ChildPath(path, k));
    assert m.Keys == {a, b};
    assert m == map[a := Leaf(ChildPath(path, a)), b := Leaf(ChildPath(path, b))];
  }

  /** The example in the documentation of the walk, filled from the top level. */
  lemma FillDocumentedExample()
    ensures FillEmptyLeaves(Node(map["NS1" := Node(map["NS2" := Node(map["VAL1" := Leaf(""), "VAL2" := Leaf("")])])]), "")
         == Node(map["NS1" := Node(map["NS2" := Node(map["VAL1" := Leaf("NS1.NS2.VAL1"), "VAL2" := Leaf("NS1.NS2.VAL2")])])])
  {
    var inner := Node(map["VAL1" := Leaf(""), "VAL2" := Leaf("")]);
    FillOneChild("", "NS1", Node(map["NS2" := inner]));
    assert ChildPath("", "NS1") == "NS1";
    FillOneChild("NS1", "NS2", inner);
    assert ChildPath("NS1", "NS2") == "NS1.NS2";
    FillTwoEmpty("NS1.NS2", "VAL1", "VAL2");
    assert ChildPath("NS1.NS2", "VAL1") == "NS1.NS2.VAL1";
    assert ChildPath("NS1.NS2", "VAL2") == "NS1.NS2.VAL2";
  }

  /** As written, an empty value in the documentation's own example is left empty instead of getting its path. */
  lemma FeedMissesEmptyLeaf()
    ensures FeedAsWritten(Node(map["NS1" := Leaf("")]), "") == Node(map["NS1" := Leaf("")])
    ensures FillEmptyLeaves(Node(map["NS1" := Leaf("")]), "") == Node(map["NS1" := Leaf("NS1")])
  {
    FeedAsWrittenIsIdentity(Node(map["NS1" := Leaf("")]), "");
    assert FillEmptyLeaves(Node(map["NS1" := Leaf("")]), "") == Node(map["NS1" := Leaf("NS1")]);
  }
}
