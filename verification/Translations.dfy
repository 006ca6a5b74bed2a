/**
 * Translation trees: flattening to dotted keys, validation of two languages, and lookup
 * with the English fallback (nftopia-frontend/utils/translation-validator.ts and
 * nftopia-frontend/hooks/useTranslation.ts).
 */
module Translations {
  import opened Common
  import opened Strings

  datatype Value = Text(text: string) | Null | Number(n: int) | Boolean(b: bool) | Array

  /** A parsed locale file: an object's properties are kept in order. */
  datatype Tree = Leaf(value: Value) | Node(kids: Kids)
  datatype Kids = Nil | Cons(key: string, tree: Tree, rest: Kids)

  function Get(kids: Kids, key: string): Option<Tree> {
    match kids
    case Nil => None
    case Cons(k, tree, rest) => if k == key then Some(tree) else Get(rest, key)
  }

  /** Property names are non-empty, without dots, and different from each other, at every level. */
  predicate Clean(kids: Kids) {
    match kids
    case Nil => true
    case Cons(k, tree, rest) => k != "" && '.' !in k && Get(rest, k).None? && (tree.Node? ==> Clean(tree.kids)) && Clean(rest)
  }

  predicate AllText(kids: Kids) {
    match kids
    case Nil => true
    case Cons(_, tree, rest) => (if tree.Node? then AllText(tree.kids) else tree.value.Text?) && AllText(rest)
  }

  // ----- Flattening -----

  function Extend(prefix: string, key: string): string {
    if prefix != "" then prefix + "." + key else key
  }

  function FlatTree(key: string, tree: Tree): map<string, Value>
    decreases tree
  {
    match tree
    case Leaf(value) => map[key := value]
    case Node(kids) => Flat(kids, key)
  }

  /** Later properties overwrite earlier ones with the same dotted key. */
  function Flat(kids: Kids, prefix: string): map<string, Value>
    decreases kids
  {
    match kids
    case Nil => map[]
    case Cons(k, tree, rest) => FlatTree(Extend(prefix, k), tree) + Flat(rest, prefix)
  }

  lemma Overwriting(a: map<string, Value>, b: map<string, Value>, c: map<string, Value>)
    ensures a + b + c == a + (b + c)
  {
  }

  method FlattenObject(obj: Kids, prefix: string) returns (flattened: map<string, Value>)
    ensures flattened == Flat(obj, prefix)
    decreases obj
  {
    flattened := map[];
    var todo := obj;
    while todo.Cons?
      invariant todo == obj || todo < obj
      invariant flattened + Flat(todo, prefix) == Flat(obj, prefix)
      decreases todo
    {
      var newKey := Extend(prefix, todo.key);
      Overwriting(flattened, FlatTree(newKey, todo.tree), Flat(todo.rest, prefix));
      if todo.tree.Node? {
        var inner := FlattenObject(todo.tree.kids, newKey);
        flattened := flattened + inner;
      } else {
        assert flattened + map[newKey := todo.tree.value] == flattened[newKey := todo.tree.value];
        flattened := flattened[newKey := todo.tree.value];
      }
      todo := todo.rest;
    }
  }

  // ----- Looking a path up -----

  function Walk(tree: Tree, path: seq<string>): Option<Tree>
    decreases |path|
  {
    if path == [] then Some(tree)
    else if tree.Node? && Get(tree.kids, path[0]).Some? then Walk(Get(tree.kids, path[0]).value, path[1..])
    else None
  }

  function DottedKey(prefix: string, path: seq<string>): string
    requires path != []
  {
    Extend(prefix, Join(path, '.'))
  }

  lemma DottedKeyStep(prefix: string, path: seq<string>)
    requires |path| > 1 && path[0] != ""
    ensures DottedKey(prefix, path) == DottedKey(Extend(prefix, path[0]), path[1..])
  {
  }

  /** A path of names as they occur in clean trees. */
  predicate CleanPath(path: seq<string>) {
    path != [] && forall k :: k in path ==> k != "" && '.' !in k
  }

  lemma DottedKeyInjective(prefix: string, p: seq<string>, q: seq<string>)
    requires CleanPath(p) && CleanPath(q) && DottedKey(prefix, p) == DottedKey(prefix, q)
    ensures p == q
  {
    var j, k := Join(p, '.'), Join(q, '.');
    assert j == k by {
      if prefix != "" {
        var n := |prefix| + 1;
        assert (prefix + "." + j)[n..] == j && (prefix + "." + k)[n..] == k;
      }
    }
    SplitJoin(p, '.');
    SplitJoin(q, '.');
  }

  lemma {:induction false} GetIsClean(kids: Kids, key: string)
    requires Clean(kids) && Get(kids, key).Some?
    ensures key != "" && '.' !in key
    ensures Get(kids, key).value.Node? ==> Clean(Get(kids, key).value.kids)
    decreases kids
  {
    if kids.key != key {
      GetIsClean(kids.rest, key);
    }
  }

  /** Every flattened key spells the path of a leaf, and holds that leaf. */
  lemma {:induction false} FlatKeyHasPath(kids: Kids, prefix: string, key: string) returns (path: seq<string>)
    requires Clean(kids) && key in Flat(kids, prefix)
    ensures CleanPath(path) && key == DottedKey(prefix, path)
    ensures Walk(Node(kids), path) == Some(Leaf(Flat(kids, prefix)[key]))
    decreases kids
  {
    var Cons(k, tree, rest) := kids;
    if key in Flat(rest, prefix) {
      path := FlatKeyHasPath(rest, prefix, key);
      assert path[0] != k;
    } else if tree.Leaf? {
      path := [k];
      assert Walk(tree, path[1..]) == Some(tree);
    } else {
      var inner := FlatKeyHasPath(tree.kids, Extend(prefix, k), key);
      path := [k] + inner;
      assert path[1..] == inner;
      DottedKeyStep(prefix, path);
    }
  }

  lemma {:induction false} LeafHasFlatKey(kids: Kids, prefix: string, path: seq<string>)
    requires Clean(kids) && CleanPath(path)
    requires Walk(Node(kids), path).Some? && Walk(Node(kids), path).value.Leaf?
    ensures DottedKey(prefix, path) in Flat(kids, prefix)
    decreases kids
  {
    var Cons(k, tree, rest) := kids;
    if path[0] == k {
      if tree.Node? {
        assert |path| > 1;
        DottedKeyStep(prefix, path);
        assert forall n :: n in path[1..] ==> n in path;
        LeafHasFlatKey(tree.kids, Extend(prefix, k), path[1..]);
      } else {
        assert path == [k];
      }
    } else {
      assert Walk(Node(rest), path) == Walk(Node(kids), path);
      LeafHasFlatKey(rest, prefix, path);
    }
  }

  /**
   * Flattening is one-to-one between leaf paths and dotted keys, and agrees with lookup: a
   * key is flattened exactly when walking its parts ends at a leaf, and holds that leaf.
   */
  lemma FlatIsLookup(kids: Kids, key: string)
    requires Clean(kids)
    ensures var found := Walk(Node(kids), Split(key, '.'));
            && (key in Flat(kids, "") <==> found.Some? && found.value.Leaf?)
            && (key in Flat(kids, "") ==> found == Some(Leaf(Flat(kids, "")[key])))
  {
    var parts := Split(key, '.');
    if key in Flat(kids, "") {
      var path := FlatKeyHasPath(kids, "", key);
      SplitJoin(path, '.');
    }
    var found := Walk(Node(kids), parts);
    if found.Some? && found.value.Leaf? {
      WalkIsClean(kids, parts);
      LeafHasFlatKey(kids, "", parts);
      JoinSplit(key, '.');
    }
  }

  lemma {:induction false} WalkIsClean(kids: Kids, path: seq<string>)
    requires Clean(kids) && path != [] && Walk(Node(kids), path).Some?
    ensures CleanPath(path)
    decreases |path|
  {
    GetIsClean(kids, path[0]);
    var child := Get(kids, path[0]).value;
    if |path| > 1 {
      WalkIsClean(child.kids, path[1..]);
    }
    assert path == [path[0]] + path[1..];
  }

  lemma {:induction false} FlatIsText(kids: Kids, prefix: string, key: string)
    requires AllText(kids) && key in Flat(kids, prefix)
    ensures Flat(kids, prefix)[key].Text?
    decreases kids
  {
    var Cons(k, tree, rest) := kids;
    if key in Flat(rest, prefix) {
      FlatIsText(rest, prefix, key);
    } else if tree.Node? {
      FlatIsText(tree.kids, Extend(prefix, k), key);
    }
  }

  // ----- Validation -----

  function TypeOf(v: Value): string {
    match v
    case Text(_) => "string"
    case Null => "null"
    case Number(_) => "number"
    case Boolean(_) => "boolean"
    case Array => "array"
  }

  /** Leaves of the same kind: two texts, two numbers, and so on; `null` and arrays are kinds of their own. */
  predicate SameKind(v: Value, w: Value) {
    v.Text? == w.Text? && v.Null? == w.Null? && v.Number? == w.Number? && v.Boolean? == w.Boolean? && v.Array? == w.Array?
  }

  lemma SameTypeIff(v: Value, w: Value)
    ensures TypeOf(v) == TypeOf(w) <==> SameKind(v, w)
  {
    assert |TypeOf(Text(""))| == 6 && |TypeOf(Array)| == 5;
  }

  datatype Validation = Validation(missing: seq<string>, inconsistent: seq<string>, emptyEn: seq<string>, emptyFr: seq<string>, isValid: bool)

  predicate Blank(v: Value) {
    v == Text("") || v == Null
  }

  ghost predicate SameKeysAndTypes(en: map<string, Value>, fr: map<string, Value>) {
    en.Keys == fr.Keys && forall key :: key in en ==> SameKind(en[key], fr[key])
  }

  /** The keys of the first map that the second lacks. */
  method KeysMissing(a: map<string, Value>, b: map<string, Value>) returns (missing: seq<string>)
    ensures forall key :: key in missing <==> key in a && key !in b
  {
    missing := [];
    var todo := a.Keys;
    while todo != {}
      invariant todo <= a.Keys
      invariant forall key :: key in missing <==> key in a && key !in todo && key !in b
      decreases |todo|
    {
      var key :| key in todo;
      if key !in b {
        missing := missing + [key];
      }
      todo := todo - {key};
    }
  }

  method KeysWithOtherType(a: map<string, Value>, b: map<string, Value>) returns (found: seq<string>)
    ensures forall key :: key in found <==> key in a && key in b && !SameKind(a[key], b[key])
  {
    found := [];
    var todo := a.Keys;
    while todo != {}
      invariant todo <= a.Keys
      invariant forall key :: key in found <==> key in a && key !in todo && key in b && !SameKind(a[key], b[key])
      decreases |todo|
    {
      var key :| key in todo;
      if key in b {
        SameTypeIff(a[key], b[key]);
      }
      if key in b && TypeOf(a[key]) != TypeOf(b[key]) {
        found := found + [key];
      }
      todo := todo - {key};
    }
  }

  method BlankKeys(a: map<string, Value>) returns (found: seq<string>)
    ensures forall key :: key in found <==> key in a && Blank(a[key])
  {
    found := [];
    var todo := a.Keys;
    while todo != {}
      invariant todo <= a.Keys
      invariant forall key :: key in found <==> key in a && key !in todo && Blank(a[key])
      decreases |todo|
    {
      var key :| key in todo;
      if Blank(a[key]) {
        found := found + [key];
      }
      todo := todo - {key};
    }
  }

  method ValidateTranslations(en: Kids, fr: Kids) returns (r: Validation)
    ensures var enFlat, frFlat := Flat(en, ""), Flat(fr, "");
            && (forall key :: key in r.missing <==> (key in enFlat) != (key in frFlat))
            && (forall key :: key in r.inconsistent <==> key in enFlat && key in frFlat && !SameKind(enFlat[key], frFlat[key]))
            && (forall key :: key in r.emptyEn <==> key in enFlat && enFlat[key] in {Text(""), Null})
            && (forall key :: key in r.emptyFr <==> key in frFlat && frFlat[key] in {Text(""), Null})
            && (r.isValid <==> SameKeysAndTypes(enFlat, frFlat))
  {
    var enFlat := FlattenObject(en, "");
    var frFlat := FlattenObject(fr, "");
    var missingInFr := KeysMissing(enFlat, frFlat);
    var missingInEn := KeysMissing(frFlat, enFlat);
    var inconsistent := KeysWithOtherType(enFlat, frFlat);
    var emptyEn := BlankKeys(enFlat);
    var emptyFr := BlankKeys(frFlat);
    r := Validation(missingInFr + missingInEn, inconsistent, emptyEn, emptyFr,
                    missingInFr == [] && missingInEn == [] && inconsistent == []);
    assert missingInFr != [] ==> missingInFr[0] in missingInFr;
    assert missingInEn != [] ==> missingInEn[0] in missingInEn;
    assert inconsistent != [] ==> inconsistent[0] in inconsistent;
  }

  // ----- Translation -----

  datatype Locale = En | Fr | Es | De

  /** The singular form applies. */
  predicate IsOne(locale: Locale, count: int) {
    count == 1 || (locale.Fr? && count == 0)
  }

  predicate Falsy(tree: Tree) {
    tree.Leaf? && (tree.value == Text("") || tree.value == Null || tree.value == Number(0) || tree.value == Boolean(false))
  }

  /** The English walk, given up at the first missing or falsy step. */
  function Fallback(tree: Tree, path: seq<string>): Option<Tree>
    decreases |path|
  {
    if path == [] then Some(tree)
    else if tree.Node? && Get(tree.kids, path[0]).Some? && !Falsy(Get(tree.kids, path[0]).value)
      then Fallback(Get(tree.kids, path[0]).value, path[1..])
    else None
  }

  predicate HasPlural(tree: Tree) {
    && tree.Node?
    && Get(tree.kids, "one").Some? && !Falsy(Get(tree.kids, "one").value)
    && Get(tree.kids, "other").Some? && !Falsy(Get(tree.kids, "other").value)
  }

  /** Plural choice and interpolation; reading a property of `null` throws. */
  function Finish(locale: Locale, tree: Tree, key: string, count: Option<int>, fill: string -> string): Result<string, string> {
    if count.Some? && tree == Leaf(Null) then Err("TypeError")
    else
      var chosen := if count.Some? && HasPlural(tree) then
                      Get(tree.kids, if IsOne(locale, count.value) then "one" else "other").value
                    else tree;
      Ok(if chosen.Leaf? && chosen.value.Text? then fill(chosen.value.text) else key)
  }

  function Translate(locale: Locale, own: Tree, en: Tree, key: string, count: Option<int>, fill: string -> string): Result<string, string> {
    var path := Split(key, '.');
    match Walk(own, path)
    case Some(tree) => Finish(locale, tree, key, count, fill)
    case None =>
      match Fallback(en, path)
      case Some(tree) => Finish(locale, tree, key, count, fill)
      case None => Ok(key)
  }

  /** `t`, loop by loop. */
  method T(locale: Locale, own: Tree, en: Tree, key: string, count: Option<int>, fill: string -> string)
    returns (r: Result<string, string>)
    ensures r == Translate(locale, own, en, key, count, fill)
  {
    var keys := Split(key, '.');
    var translation := own;
    var i := 0;
    while i < |keys|
      invariant i <= |keys|
      invariant Walk(own, keys) == Walk(translation, keys[i..])
    {
      if translation.Node? && Get(translation.kids, keys[i]).Some? {
        translation := Get(translation.kids, keys[i]).value;
      } else {
        var fallback := en;
        var j := 0;
        while j < |keys|
          invariant j <= |keys|
          invariant Fallback(en, keys) == Fallback(fallback, keys[j..])
        {
          if !fallback.Node? || Get(fallback.kids, keys[j]).None? || Falsy(Get(fallback.kids, keys[j]).value) {
            return Ok(key);
          }
          fallback := Get(fallback.kids, keys[j]).value;
          j := j + 1;
        }
        r := Finish(locale, fallback, key, count, fill);
        return;
      }
      i := i + 1;
    }
    r := Finish(locale, translation, key, count, fill);
  }

  // ----- What validation promises -----

  /** A language answers a key with its own text. */
  ghost predicate Answers(locale: Locale, own: Kids, en: Kids, key: string) {
    && key in Flat(own, "") && Flat(own, "")[key].Text?
    && forall count, fill: string -> string :: Translate(locale, Node(own), Node(en), key, count, fill) == Ok(fill(Flat(own, "")[key].text))
  }

  lemma OwnLeafAnswers(locale: Locale, own: Kids, en: Kids, key: string)
    requires Clean(own) && AllText(own) && key in Flat(own, "")
    ensures Answers(locale, own, en, key)
  {
    FlatIsLookup(own, key);
    FlatIsText(own, "", key);
  }

  ghost predicate BothAnswer(en: Kids, fr: Kids, key: string) {
    Answers(Fr, fr, en, key) && Answers(En, en, en, key)
  }

  lemma BothAnswerText(en: Kids, fr: Kids, key: string)
    requires BothAnswer(en, fr, key)
    ensures key in Flat(en, "") && key in Flat(fr, "") && SameKind(Flat(en, "")[key], Flat(fr, "")[key])
  {
  }

  /**
   * Validation passes exactly when, for every key of either language and any count, French
   * answers with its own leaf and so does English: never the fallback, never the raw key.
   */
  lemma ValidIffBothAnswer(en: Kids, fr: Kids)
    requires Clean(en) && Clean(fr) && AllText(en) && AllText(fr)
    ensures SameKeysAndTypes(Flat(en, ""), Flat(fr, ""))
       <==> forall key :: key in Flat(en, "") || key in Flat(fr, "") ==> BothAnswer(en, fr, key)
  {
    var enFlat, frFlat := Flat(en, ""), Flat(fr, "");
    if SameKeysAndTypes(enFlat, frFlat) {
      forall key | key in enFlat || key in frFlat
        ensures BothAnswer(en, fr, key)
      {
        assert key in enFlat.Keys && key in frFlat.Keys;
        OwnLeafAnswers(Fr, fr, en, key);
        OwnLeafAnswers(En, en, en, key);
      }
    }
    if forall key :: key in enFlat || key in frFlat ==> BothAnswer(en, fr, key) {
      forall key | key in enFlat || key in frFlat
        ensures key in enFlat && key in frFlat && SameKind(enFlat[key], frFlat[key])
      {
        BothAnswerText(en, fr, key);
      }
      assert enFlat.Keys == frFlat.Keys;
    }
  }

  lemma {:induction false} FallbackIsWalk(tree: Tree, path: seq<string>)
    ensures Fallback(tree, path).Some? ==> Fallback(tree, path) == Walk(tree, path)
    ensures Walk(tree, path).Some? && Walk(tree, path).value.Leaf? && path != [] ==>
              (Fallback(tree, path).Some? <==> Walk(tree, path).value.value !in {Text(""), Null, Number(0), Boolean(false)})
    decreases |path|
  {
    if path != [] && tree.Node? && Get(tree.kids, path[0]).Some? {
      FallbackIsWalk(Get(tree.kids, path[0]).value, path[1..]);
    }
  }

  /** A translation throws exactly for a counted message whose own value is `null`: the fallback never ends at one. */
  lemma ThrowsIff(locale: Locale, own: Tree, en: Tree, key: string, count: Option<int>, fill: string -> string)
    ensures Translate(locale, own, en, key, count, fill).Err? <==> count.Some? && Walk(own, Split(key, '.')) == Some(Leaf(Null))
    ensures Translate(locale, own, en, key, count, fill).Err? ==> Translate(locale, own, en, key, count, fill) == Err("TypeError")
  {
    FallbackIsWalk(en, Split(key, '.'));
  }

  /**
   * Where the French text of an English key comes from: its own leaf if it has one; else the
   * raw key if French has an object there or the English leaf is empty; else the English leaf.
   */
  lemma TextComesFrom(en: Kids, fr: Kids, key: string, fill: string -> string)
    requires Clean(en) && Clean(fr) && AllText(en) && AllText(fr) && key in Flat(en, "")
    ensures Flat(en, "")[key].Text?
    ensures key in Flat(fr, "") ==> Flat(fr, "")[key].Text?
    ensures var shown := Translate(Fr, Node(fr), Node(en), key, None, fill);
            if key in Flat(fr, "") then shown == Ok(fill(Flat(fr, "")[key].text))
            else if Walk(Node(fr), Split(key, '.')).Some? || Flat(en, "")[key].text == "" then shown == Ok(key)
            else shown == Ok(fill(Flat(en, "")[key].text))
  {
    FlatIsText(en, "", key);
    FlatIsLookup(en, key);
    FlatIsLookup(fr, key);
    FallbackIsWalk(Node(en), Split(key, '.'));
    if key in Flat(fr, "") {
      OwnLeafAnswers(Fr, fr, en, key);
    }
  }

  /** The two forms of a counted message; each is empty or shown. */
  lemma PluralShown(own: Kids, en: Kids, key: string, count: int, fill: string -> string)
    requires Clean(own) && AllText(own) && key + ".one" in Flat(own, "") && key + ".other" in Flat(own, "")
    ensures var one, other := Flat(own, "")[key + ".one"], Flat(own, "")[key + ".other"];
            && one.Text? && other.Text?
            && Translate(Fr, Node(own), Node(en), key, Some(count), fill)
               == Ok(if one.text == "" || other.text == "" then key
                     else fill(if count == 0 || count == 1 then one.text else other.text))
  {
    FlatIsText(own, "", key + ".one");
    FlatIsText(own, "", key + ".other");
    assert key + "." + "one" == key + ".one" && key + "." + "other" == key + ".other";
    PluralForm(own, key, "one");
    PluralForm(own, key, "other");
    FinishPlural(Walk(Node(own), Split(key, '.')).value, Flat(own, "")[key + ".one"].text, Flat(own, "")[key + ".other"].text, key, count, fill);
  }

  lemma FinishPlural(node: Tree, one: string, other: string, key: string, count: int, fill: string -> string)
    requires node.Node? && Get(node.kids, "one") == Some(Leaf(Text(one))) && Get(node.kids, "other") == Some(Leaf(Text(other)))
    ensures Finish(Fr, node, key, Some(count), fill)
         == Ok(if one == "" || other == "" then key else fill(if count == 0 || count == 1 then one else other))
  {
  }

  /**
   * Plurals of a valid pair: where English has a counted message, French shows its own form,
   * singular for 0 and 1, exactly when both its forms are non-empty (which validation does
   * not require); otherwise it shows the raw key.
   */
  lemma PluralOfValidPair(en: Kids, fr: Kids, key: string, count: int, fill: string -> string)
    requires Clean(en) && Clean(fr) && AllText(en) && AllText(fr) && SameKeysAndTypes(Flat(en, ""), Flat(fr, ""))
    requires key + ".one" in Flat(en, "") && key + ".other" in Flat(en, "")
    ensures key + ".one" in Flat(fr, "") && key + ".other" in Flat(fr, "")
    ensures var one, other := Flat(fr, "")[key + ".one"], Flat(fr, "")[key + ".other"];
            && one.Text? && other.Text?
            && Translate(Fr, Node(fr), Node(en), key, Some(count), fill)
               == Ok(if one.text == "" || other.text == "" then key
                     else fill(if count == 0 || count == 1 then one.text else other.text))
  {
    assert key + ".one" in Flat(en, "").Keys && key + ".other" in Flat(en, "").Keys;
    PluralShown(fr, en, key, count, fill);
  }

  lemma PluralForm(kids: Kids, key: string, form: string)
    requires Clean(kids) && '.' !in form && key + "." + form in Flat(kids, "")
    ensures var found := Walk(Node(kids), Split(key, '.'));
            && found.Some? && found.value.Node?
            && Get(found.value.kids, form) == Some(Leaf(Flat(kids, "")[key + "." + form]))
  {
    var whole := key + "." + form;
    FlatIsLookup(kids, whole);
    JoinSplit(key, '.');
    var parts := Split(key, '.');
    JoinAppend(parts, form);
    SplitJoin(parts + [form], '.');
    WalkAppend(Node(kids), parts, form);
  }

  lemma {:induction false} JoinAppend(parts: seq<string>, last: string)
    requires parts != []
    ensures Join(parts + [last], '.') == Join(parts, '.') + "." + last
    decreases |parts|
  {
    if |parts| == 1 {
      assert (parts + [last])[1..] == [last];
    } else {
      assert (parts + [last])[1..] == parts[1..] + [last];
      JoinAppend(parts[1..], last);
    }
  }

  lemma {:induction false} WalkAppend(tree: Tree, path: seq<string>, last: string)
    requires Walk(tree, path + [last]).Some?
    ensures Walk(tree, path).Some? && Walk(tree, path).value.Node?
    ensures Get(Walk(tree, path).value.kids, last) == Walk(tree, path + [last])
    decreases |path|
  {
    if path == [] {
      assert Walk(Get(tree.kids, last).value, (path + [last])[1..]) == Get(tree.kids, last);
    } else {
      assert (path + [last])[1..] == path[1..] + [last];
      WalkAppend(Get(tree.kids, path[0]).value, path[1..], last);
    }
  }
}
