/**
 * Translation trees with any property names: when a flattened key leads back to its leaf
 * (nftopia-frontend/utils/translation-validator.ts and nftopia-frontend/hooks/useTranslation.ts).
 */
module TranslationNames {
  import opened Common
  import opened Strings
  import opened Translations

  /** The properties of every object have different names; they may be empty or contain dots. */
  predicate Unique(kids: Kids) {
    match kids
    case Nil => true
    case Cons(k, tree, rest) => Get(rest, k).None? && (tree.Node? ==> Unique(tree.kids)) && Unique(rest)
  }

  /** The key flattening gives the leaf at a path: an empty prefix is left out, and so is the dot behind it. */
  function FlatKey(prefix: string, path: seq<string>): string
    requires path != []
    decreases |path|
  {
    if |path| == 1 then Extend(prefix, path[0]) else FlatKey(Extend(prefix, path[0]), path[1..])
  }

  predicate LeafPath(kids: Kids, path: seq<string>) {
    path != [] && Walk(Node(kids), path).Some? && Walk(Node(kids), path).value.Leaf?
  }

  /** No name has a dot, and an object under the empty name is not at the top. */
  predicate Sturdy(path: seq<string>)
    requires path != []
  {
    (forall k :: k in path ==> '.' !in k) && (path[0] != "" || |path| == 1)
  }

  // ----- Paths -----

  /** Splitting undoes joining exactly for parts without the separator. */
  lemma SplitJoinIff(parts: seq<string>, sep: char)
    requires parts != []
    ensures Split(Join(parts, sep), sep) == parts <==> forall p :: p in parts ==> sep !in p
  {
    if forall p :: p in parts ==> sep !in p {
      SplitJoin(parts, sep);
    }
  }

  lemma {:induction false} FlatKeyJoins(prefix: string, path: seq<string>)
    requires path != [] && prefix != ""
    ensures FlatKey(prefix, path) == prefix + "." + Join(path, '.')
    decreases |path|
  {
    if |path| > 1 {
      FlatKeyJoins(Extend(prefix, path[0]), path[1..]);
      var rest := Join(path[1..], '.');
      assert prefix + "." + path[0] + "." + rest == prefix + "." + (path[0] + "." + rest);
    }
  }

  /** From the top the key is the joined path, except that leading empty names are lost. */
  lemma {:induction false} TopKey(path: seq<string>)
    requires path != []
    ensures if path[0] != "" || |path| == 1 then FlatKey("", path) == Join(path, '.') else |FlatKey("", path)| < |Join(path, '.')|
    decreases |path|
  {
    if |path| > 1 {
      if path[0] == "" {
        TopKey(path[1..]);
      } else {
        FlatKeyJoins(path[0], path[1..]);
      }
    }
  }

  /** The parts of a flattened key are the path it came from exactly for sturdy paths. */
  lemma SplitsBackIff(path: seq<string>)
    requires path != []
    ensures Split(FlatKey("", path), '.') == path <==> Sturdy(path)
  {
    TopKey(path);
    if path[0] != "" || |path| == 1 {
      SplitJoinIff(path, '.');
    } else {
      JoinSplit(FlatKey("", path), '.');
    }
  }

  // ----- Trees -----

  /** Every flattened key is that of a leaf, whose value it holds. */
  lemma {:induction false} FlatKeyHasLeaf(kids: Kids, prefix: string, key: string) returns (path: seq<string>)
    requires Unique(kids) && key in Flat(kids, prefix)
    ensures LeafPath(kids, path) && FlatKey(prefix, path) == key
    ensures Walk(Node(kids), path) == Some(Leaf(Flat(kids, prefix)[key]))
    decreases kids
  {
    var Cons(k, tree, rest) := kids;
    if key in Flat(rest, prefix) {
      path := FlatKeyHasLeaf(rest, prefix, key);
      assert path[0] != k;
    } else if tree.Leaf? {
      path := [k];
      assert Walk(tree, path[1..]) == Some(tree);
    } else {
      var inner := FlatKeyHasLeaf(tree.kids, Extend(prefix, k), key);
      path := [k] + inner;
      assert path[1..] == inner;
    }
  }

  lemma {:induction false} LeafIsFlattened(kids: Kids, prefix: string, path: seq<string>)
    requires LeafPath(kids, path)
    ensures FlatKey(prefix, path) in Flat(kids, prefix)
    decreases kids
  {
    var Cons(k, tree, rest) := kids;
    if path[0] != k {
      assert Walk(Node(rest), path) == Walk(Node(kids), path);
      LeafIsFlattened(rest, prefix, path);
    } else {
      assert Walk(Node(kids), path) == Walk(tree, path[1..]);
      if tree.Node? {
        LeafIsFlattened(tree.kids, Extend(prefix, k), path[1..]);
      }
    }
  }

  /** The leaf's flattened key leads the lookup along the leaf's own path, and holds the leaf's own value. */
  predicate FoundAgain(kids: Kids, path: seq<string>)
    requires LeafPath(kids, path)
  {
    var key := FlatKey("", path);
    && Split(key, '.') == path
    && key in Flat(kids, "") && Flat(kids, "")[key] == Walk(Node(kids), path).value.value
  }

  ghost predicate AllSturdy(kids: Kids) {
    forall path :: LeafPath(kids, path) ==> Sturdy(path)
  }

  /**
   * Every leaf of a tree is found again under its flattened key exactly when no name on a path to
   * a leaf has a dot and no object at the top has the empty name.
   */
  lemma EveryLeafFoundIff(kids: Kids)
    requires Unique(kids)
    ensures (forall path :: LeafPath(kids, path) ==> FoundAgain(kids, path)) <==> AllSturdy(kids)
  {
    forall path | LeafPath(kids, path)
      ensures FoundAgain(kids, path) ==> Sturdy(path)
      ensures AllSturdy(kids) ==> FoundAgain(kids, path)
    {
      SplitsBackIff(path);
      if AllSturdy(kids) {
        LeafIsFlattened(kids, "", path);
        var from := FlatKeyHasLeaf(kids, "", FlatKey("", path));
        SplitsBackIff(from);
      }
    }
  }

  /** What flattening and lookup say of the leaf's key, compared by value only. */
  predicate Agrees(kids: Kids, path: seq<string>)
    requires LeafPath(kids, path)
  {
    var key := FlatKey("", path);
    && key in Flat(kids, "") && Flat(kids, "")[key] == Walk(Node(kids), path).value.value
    && Walk(Node(kids), Split(key, '.')) == Walk(Node(kids), path)
  }

  ghost predicate DifferentLeaves(kids: Kids) {
    forall p, q :: LeafPath(kids, p) && LeafPath(kids, q) && Walk(Node(kids), p) == Walk(Node(kids), q) ==> p == q
  }

  /**
   * By value: for trees whose leaves all differ, flattening and lookup agree on every leaf under
   * the same condition. (Leaves that are equal can stand in for one another unnoticed.)
   */
  lemma FlatAgreesWithLookupIff(kids: Kids)
    requires Unique(kids) && DifferentLeaves(kids)
    ensures (forall path :: LeafPath(kids, path) ==> Agrees(kids, path)) <==> AllSturdy(kids)
  {
    EveryLeafFoundIff(kids);
    forall path | LeafPath(kids, path) && Agrees(kids, path)
      ensures Sturdy(path)
    {
      assert LeafPath(kids, Split(FlatKey("", path), '.'));
      SplitsBackIff(path);
    }
    assert AllSturdy(kids) ==> forall path :: LeafPath(kids, path) ==> FoundAgain(kids, path) && Agrees(kids, path);
  }

  /** With a dotted property name the two can disagree: the flattened key names another leaf. */
  lemma DottedNameBreaksLookup()
    ensures var kids := Cons("a", Node(Cons("b", Leaf(Text("walked")), Nil)), Cons("a.b", Leaf(Text("flat")), Nil));
            && Flat(kids, "")["a.b"] == Text("flat")
            && Walk(Node(kids), Split("a.b", '.')) == Some(Leaf(Text("walked")))
  {
    assert "a.b" == "a" + "." + "b";
    SplitFirst("a", "b", '.');
    SplitFirst("b", "", '.');
  }

  /** An object at the top with the empty name: its leaf is flattened to a key that lookup does not find. */
  lemma EmptyNameBreaksLookup()
    ensures var kids := Cons("", Node(Cons("b", Leaf(Text("lost")), Nil)), Nil);
            && Flat(kids, "")["b"] == Text("lost") && Walk(Node(kids), Split("b", '.')).None?
  {
    SplitFirst("b", "", '.');
  }
}
