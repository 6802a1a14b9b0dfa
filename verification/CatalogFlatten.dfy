/** Flattening a nested translation catalog to dotted keys. */
module CatalogFlatten {
  import opened Results
  import opened Text
  import JsMap

  // A catalog value; the entries of an object in the order Object.entries lists them.
  datatype Node = Leaf(text: string) | Object(entries: seq<Entry>) | Other
  datatype Entry = Entry(key: string, value: Node)

  datatype FlattenError = MustBeObject(prefix: string) | MustBeTextOrObject(key: string)

  type Flat = JsMap.Map<string, string>

  function FullKey(prefix: string, key: string): string {
    if prefix == "" then key else prefix + "." + key
  }

  function FlattenValue(value: Node, fullKey: string, out: Flat): Result<Flat, FlattenError>
    decreases value
  {
    match value
    case Leaf(text) => Ok(out.Set(fullKey, text))
    case Object(nested) => FlattenEntries(nested, fullKey, out)
    case Other => Throws(MustBeTextOrObject(fullKey))
  }

  function FlattenEntries(entries: seq<Entry>, prefix: string, out: Flat): Result<Flat, FlattenError>
    decreases entries
  {
    if entries == [] then Ok(out)
    else
      var first := FlattenValue(entries[0].value, FullKey(prefix, entries[0].key), out);
      if first.Throws? then first else FlattenEntries(entries[1..], prefix, first.value)
  }

  // The Map that the recursion fills.
  class FlatCatalog {
    var out: Flat

    constructor ()
      ensures out == JsMap.Empty()
    {
      out := JsMap.Empty();
    }

    method FlattenControlUiCatalog(value: Node, prefix: string) returns (error: Option<FlattenError>)
      modifies this
      ensures !value.Object? ==> error == Some(MustBeObject(prefix)) && out == old(out)
      ensures value.Object? ==>
        match FlattenEntries(value.entries, prefix, old(out))
        case Ok(flat) => error == None && out == flat
        case Throws(e) => error == Some(e)
      decreases value
    {
      if !value.Object? {
        return Some(MustBeObject(prefix));
      }
      ghost var whole := FlattenEntries(value.entries, prefix, out);
      assert value.entries[0..] == value.entries;
      for i := 0 to |value.entries|
        invariant whole == FlattenEntries(value.entries[i..], prefix, out)
      {
        var Entry(key, nested) := value.entries[i];
        assert value.entries[i..][0] == Entry(key, nested) && value.entries[i..][1..] == value.entries[i + 1..];
        var fullKey := FullKey(prefix, key);
        if nested.Leaf? {
          out := out.Set(fullKey, nested.text);
        } else if nested.Other? {
          return Some(MustBeTextOrObject(fullKey));
        } else {
          error := FlattenControlUiCatalog(nested, fullKey);
          if error.Some? {
            return;
          }
        }
      }
      return None;
    }
  }

  // ----- the leaves of a catalog

  type Path = seq<string>

  function Prepend(key: string, leaves: seq<(Path, string)>): seq<(Path, string)> {
    seq(|leaves|, i requires 0 <= i < |leaves| => ([key] + leaves[i].0, leaves[i].1))
  }

  function LeavesOf(value: Node): seq<(Path, string)>
    decreases value
  {
    match value
    case Leaf(text) => [([], text)]
    case Object(nested) => Leaves(nested)
    case Other => []
  }

  function Leaves(entries: seq<Entry>): seq<(Path, string)>
    decreases entries
  {
    if entries == [] then [] else Prepend(entries[0].key, LeavesOf(entries[0].value)) + Leaves(entries[1..])
  }

  /** Only texts and objects, at every level. */
  predicate IsTree(value: Node)
    decreases value
  {
    match value
    case Leaf(text) => true
    case Object(nested) => AreTrees(nested)
    case Other => false
  }

  predicate AreTrees(entries: seq<Entry>)
    decreases entries
  {
    entries == [] || (IsTree(entries[0].value) && AreTrees(entries[1..]))
  }

  predicate Has(entries: seq<Entry>, key: string) {
    exists i :: 0 <= i < |entries| && entries[i].key == key
  }

  /** At every level the keys are distinct, not empty and free of dots. */
  predicate IsClean(value: Node)
    decreases value
  {
    value.Object? ==> CleanKeys(value.entries)
  }

  predicate CleanKeys(entries: seq<Entry>)
    decreases entries
  {
    entries == [] ||
    (&& entries[0].key != "" && '.' !in entries[0].key && !Has(entries[1..], entries[0].key)
     && IsClean(entries[0].value) && CleanKeys(entries[1..]))
  }

  function Named(prefix: string, path: Path): string
    decreases |path|
  {
    if path == [] then prefix else Named(FullKey(prefix, path[0]), path[1..])
  }

  function SetAll(out: Flat, prefix: string, leaves: seq<(Path, string)>): Flat
    decreases |leaves|
  {
    if leaves == [] then out else SetAll(out.Set(Named(prefix, leaves[0].0), leaves[0].1), prefix, leaves[1..])
  }

  lemma {:induction false} SetAllConcat(out: Flat, prefix: string, a: seq<(Path, string)>, b: seq<(Path, string)>)
    ensures SetAll(out, prefix, a + b) == SetAll(SetAll(out, prefix, a), prefix, b)
    decreases |a|
  {
    if a == [] {
      assert a + b == b;
    } else {
      assert (a + b)[1..] == a[1..] + b;
      SetAllConcat(out.Set(Named(prefix, a[0].0), a[0].1), prefix, a[1..], b);
    }
  }

  lemma {:induction false} SetAllPrepend(out: Flat, prefix: string, key: string, leaves: seq<(Path, string)>)
    ensures SetAll(out, prefix, Prepend(key, leaves)) == SetAll(out, FullKey(prefix, key), leaves)
    decreases |leaves|
  {
    if leaves != [] {
      assert Prepend(key, leaves)[1..] == Prepend(key, leaves[1..]);
      assert ([key] + leaves[0].0)[1..] == leaves[0].0;
      SetAllPrepend(out.Set(Named(FullKey(prefix, key), leaves[0].0), leaves[0].1), prefix, key, leaves[1..]);
    }
  }

  /** Flattening writes the leaves in order under their joined paths, and fails exactly on a value that is neither text
      nor object. */
  lemma {:induction false} FlattenSetsLeaves(entries: seq<Entry>, prefix: string, out: Flat)
    ensures FlattenEntries(entries, prefix, out).Ok? <==> AreTrees(entries)
    ensures AreTrees(entries) ==> FlattenEntries(entries, prefix, out) == Ok(SetAll(out, prefix, Leaves(entries)))
    decreases entries
  {
    if entries != [] {
      var key, value := entries[0].key, entries[0].value;
      FlattenValueSetsLeaves(value, FullKey(prefix, key), out);
      if IsTree(value) {
        var inner := SetAll(out, FullKey(prefix, key), LeavesOf(value));
        FlattenSetsLeaves(entries[1..], prefix, inner);
        SetAllConcat(out, prefix, Prepend(key, LeavesOf(value)), Leaves(entries[1..]));
        SetAllPrepend(out, prefix, key, LeavesOf(value));
      }
    }
  }

  lemma {:induction false} FlattenValueSetsLeaves(value: Node, fullKey: string, out: Flat)
    ensures FlattenValue(value, fullKey, out).Ok? <==> IsTree(value)
    ensures IsTree(value) ==> FlattenValue(value, fullKey, out) == Ok(SetAll(out, fullKey, LeavesOf(value)))
    decreases value
  {
    match value
    case Leaf(text) => assert LeavesOf(value)[1..] == [] && Named(fullKey, []) == fullKey;
    case Object(nested) => FlattenSetsLeaves(nested, fullKey, out);
    case Other =>
  }

  // The path of the first value that is neither text nor object.
  function OtherOf(value: Node): Option<Path>
    decreases value
  {
    match value
    case Leaf(text) => None
    case Object(nested) => OtherAmong(nested)
    case Other => Some([])
  }

  function OtherAmong(entries: seq<Entry>): Option<Path>
    decreases entries
  {
    if entries == [] then None
    else
      var first := OtherOf(entries[0].value);
      if first.Some? then Some([entries[0].key] + first.value) else OtherAmong(entries[1..])
  }

  /** A catalog that cannot be flattened is rejected for the first such value, under its joined path. */
  lemma {:induction false} FlattenReportsFirst(entries: seq<Entry>, prefix: string, out: Flat)
    ensures match OtherAmong(entries)
      case None => FlattenEntries(entries, prefix, out).Ok?
      case Some(path) => FlattenEntries(entries, prefix, out) == Throws(MustBeTextOrObject(Named(prefix, path)))
    decreases entries
  {
    if entries != [] {
      var key, value := entries[0].key, entries[0].value;
      ValueReportsFirst(value, FullKey(prefix, key), out);
      var first := FlattenValue(value, FullKey(prefix, key), out);
      if first.Ok? {
        FlattenReportsFirst(entries[1..], prefix, first.value);
      } else {
        var path := OtherOf(value).value;
        assert ([key] + path)[1..] == path;
      }
    }
  }

  lemma {:induction false} ValueReportsFirst(value: Node, fullKey: string, out: Flat)
    ensures match OtherOf(value)
      case None => FlattenValue(value, fullKey, out).Ok?
      case Some(path) => FlattenValue(value, fullKey, out) == Throws(MustBeTextOrObject(Named(fullKey, path)))
    decreases value
  {
    if value.Object? { FlattenReportsFirst(value.entries, fullKey, out); }
  }

  // ----- distinct leaves get distinct keys

  predicate CleanPath(path: Path) {
    path != [] && forall k :: k in path ==> k != "" && '.' !in k
  }

  // Keys that are not empty and hold no dot, and no two leaves under the same path.
  ghost predicate CleanLeaves(leaves: seq<(Path, string)>) {
    && (forall i :: 0 <= i < |leaves| ==> forall k :: k in leaves[i].0 ==> k != "" && '.' !in k)
    && (forall i, j :: 0 <= i < j < |leaves| ==> leaves[i].0 != leaves[j].0)
  }

  lemma {:induction false} LeavesAreClean(entries: seq<Entry>)
    requires CleanKeys(entries)
    ensures CleanLeaves(Leaves(entries))
    ensures forall i :: 0 <= i < |Leaves(entries)| ==>
      Leaves(entries)[i].0 != [] && Has(entries, Leaves(entries)[i].0[0])
    decreases entries
  {
    if entries != [] {
      var Entry(key, value) := entries[0];
      var rest := entries[1..];
      LeavesAreClean(rest);
      LeavesOfAreClean(value);
      PrependIsClean(key, LeavesOf(value));
      forall k | Has(rest, k) ensures Has(entries, k) {
        var i :| 0 <= i < |rest| && rest[i].key == k;
        assert entries[i + 1].key == k;
      }
      ConcatIsClean(Prepend(key, LeavesOf(value)), Leaves(rest), key);
    }
  }

  lemma {:induction false} LeavesOfAreClean(value: Node)
    requires IsClean(value)
    ensures CleanLeaves(LeavesOf(value))
    decreases value
  {
    if value.Object? { LeavesAreClean(value.entries); }
  }

  lemma PrependIsClean(key: string, leaves: seq<(Path, string)>)
    requires key != "" && '.' !in key && CleanLeaves(leaves)
    ensures CleanLeaves(Prepend(key, leaves))
  {
    var p := Prepend(key, leaves);
    forall i, j | 0 <= i < j < |p| ensures p[i].0 != p[j].0 {
      assert p[i].0[1..] == leaves[i].0 && p[j].0[1..] == leaves[j].0;
    }
  }

  lemma ConcatIsClean(a: seq<(Path, string)>, b: seq<(Path, string)>, key: string)
    requires CleanLeaves(a) && CleanLeaves(b)
    requires forall i :: 0 <= i < |a| ==> a[i].0 != [] && a[i].0[0] == key
    requires forall i :: 0 <= i < |b| ==> b[i].0 != [] && b[i].0[0] != key
    ensures CleanLeaves(a + b)
  {
  }

  lemma {:induction false} NamedFrom(prefix: string, path: Path)
    requires CleanPath(path) && prefix != ""
    ensures Named(prefix, path) == prefix + "." + Join(path, ".")
    decreases |path|
  {
    var next := prefix + "." + path[0];
    if |path| == 1 {
      assert Named(prefix, path) == Named(next, []);
    } else {
      assert CleanPath(path[1..]) by { forall k | k in path[1..] ensures k in path {} }
      NamedFrom(next, path[1..]);
      assert next + "." + Join(path[1..], ".") == prefix + "." + (path[0] + "." + Join(path[1..], "."));
    }
  }

  lemma NamedIsJoined(path: Path)
    requires CleanPath(path)
    ensures Named("", path) == Join(path, ".")
  {
    if |path| == 1 {
      assert Named("", path) == Named(path[0], []);
    } else {
      assert path[0] in path;
      assert CleanPath(path[1..]) by { forall k | k in path[1..] ensures k in path {} }
      NamedFrom(path[0], path[1..]);
    }
  }

  lemma {:induction false} SplitClean(s: string)
    requires '.' !in s
    ensures Split(s, '.') == [s]
  {
    if s != [] {
      SplitClean(s[1..]);
      assert s == [s[0]] + s[1..] && [s] + [] == [s];
    }
  }

  /** Splitting a joined path at its dots gives the path back. */
  lemma {:induction false} SplitUndoesJoin(path: Path)
    requires CleanPath(path)
    ensures Split(Join(path, "."), '.') == path
  {
    assert path[0] in path;
    if |path| == 1 {
      SplitClean(path[0]);
      assert path == [path[0]];
    } else {
      assert CleanPath(path[1..]) by { forall k | k in path[1..] ensures k in path {} }
      SplitUndoesJoin(path[1..]);
      SplitConcat(path[0], Join(path[1..], "."), '.');
      SplitClean(path[0]);
      assert path == [path[0]] + path[1..];
    }
  }

  ghost predicate DistinctNames(leaves: seq<(Path, string)>) {
    forall i, j :: 0 <= i < j < |leaves| ==> Named("", leaves[i].0) != Named("", leaves[j].0)
  }

  lemma {:induction false} SetAllDistinct(out: Flat, leaves: seq<(Path, string)>, done: seq<(Path, string)>)
    requires DistinctNames(done + leaves)
    requires Records(out, done)
    ensures Records(SetAll(out, "", leaves), done + leaves)
    decreases |leaves|
  {
    if leaves == [] {
      assert done + leaves == done;
    } else {
      var leaf := leaves[0];
      var all, more := done + leaves, done + [leaf];
      assert all == more + leaves[1..];
      assert Records(out.Set(Named("", leaf.0), leaf.1), more) by {
        forall i | 0 <= i < |done| ensures Named("", done[i].0) != Named("", leaf.0) {
          assert all[i] == done[i] && all[|done|] == leaf;
        }
      }
      SetAllDistinct(out.Set(Named("", leaf.0), leaf.1), leaves[1..], more);
    }
  }

  /** The map holds exactly these leaves, in this order, each under its joined path. */
  ghost predicate Records(out: Flat, leaves: seq<(Path, string)>) {
    && out.Valid() && |out.keys| == |leaves|
    && forall i :: 0 <= i < |leaves| ==>
      out.keys[i] == Named("", leaves[i].0) && out.Get(out.keys[i]) == Some(leaves[i].1)
  }

  // ----- when two leaves share a key

  // The dotted pieces of all keys of a path, in order.
  function Pieces(path: Path): seq<string> {
    if path == [] then [] else Split(path[0], '.') + Pieces(path[1..])
  }

  /** What is left of a path once its keys are joined: leading empty keys vanish, and a dot in a key is a boundary. */
  function Segments(path: Path): seq<string> {
    if path != [] && path[0] == "" then Segments(path[1..]) else Pieces(path)
  }

  lemma {:induction false} NamedFromSplits(prefix: string, path: Path)
    requires prefix != ""
    ensures Named(prefix, path) != ""
    ensures Split(Named(prefix, path), '.') == Split(prefix, '.') + Pieces(path)
    decreases |path|
  {
    if path == [] {
      PiecesTogether(Split(prefix, '.'), [], []);
    } else {
      var next := FullKey(prefix, path[0]);
      SplitConcat(prefix, path[0], '.');
      NamedFromSplits(next, path[1..]);
      PiecesTogether(Split(prefix, '.'), Split(path[0], '.'), Pieces(path[1..]));
    }
  }

  lemma PiecesTogether(a: seq<string>, b: seq<string>, c: seq<string>)
    ensures a + b + c == a + (b + c)
    ensures a + [] == a
  {
  }

  lemma {:induction false} NamedSplits(path: Path)
    ensures Segments(path) == [] <==> Named("", path) == ""
    ensures Segments(path) != [] ==> Split(Named("", path), '.') == Segments(path)
    decreases |path|
  {
    if path != [] {
      if path[0] == "" {
        NamedSplits(path[1..]);
      } else {
        NamedFromSplits(path[0], path[1..]);
      }
    }
  }

  /** Two paths share a key exactly when they have the same segments. */
  lemma SameNameIff(p: Path, q: Path)
    ensures Named("", p) == Named("", q) <==> Segments(p) == Segments(q)
  {
    NamedSplits(p);
    NamedSplits(q);
    JoinSplit(Named("", p), '.');
    JoinSplit(Named("", q), '.');
  }

  ghost predicate DistinctSegments(leaves: seq<(Path, string)>) {
    forall i, j :: 0 <= i < j < |leaves| ==> Segments(leaves[i].0) != Segments(leaves[j].0)
  }

  /** Flattening keeps every leaf, in order and under a key of its own, exactly when no two leaves have the same
      segments. */
  lemma FlattenKeepsLeavesIff(entries: seq<Entry>)
    requires AreTrees(entries)
    ensures FlattenEntries(entries, "", JsMap.Empty()).Ok?
    ensures Records(FlattenEntries(entries, "", JsMap.Empty()).value, Leaves(entries)) <==>
      DistinctSegments(Leaves(entries))
  {
    var leaves := Leaves(entries);
    FlattenSetsLeaves(entries, "", JsMap.Empty());
    forall i, j | 0 <= i < j < |leaves|
      ensures Named("", leaves[i].0) == Named("", leaves[j].0) <==> Segments(leaves[i].0) == Segments(leaves[j].0)
    {
      SameNameIff(leaves[i].0, leaves[j].0);
    }
    RecordsIffDistinct(leaves);
  }

  lemma RecordsIffDistinct(leaves: seq<(Path, string)>)
    ensures Records(SetAll(JsMap.Empty(), "", leaves), leaves) <==> DistinctNames(leaves)
  {
    if DistinctNames(leaves) {
      assert [] + leaves == leaves;
      SetAllDistinct(JsMap.Empty(), leaves, []);
    }
    if Records(SetAll(JsMap.Empty(), "", leaves), leaves) {
      RecordedNamesDiffer(SetAll(JsMap.Empty(), "", leaves), leaves);
    }
  }

  lemma RecordedNamesDiffer(out: Flat, leaves: seq<(Path, string)>)
    requires Records(out, leaves)
    ensures DistinctNames(leaves)
  {
    forall i, j | 0 <= i < j < |leaves| ensures Named("", leaves[i].0) != Named("", leaves[j].0) {
      assert out.keys[i] != out.keys[j];
    }
  }

  // The text of the last leaf that is written under a key.
  function LastText(leaves: seq<(Path, string)>, key: string): Option<string> {
    if leaves == [] then None
    else
      var last := leaves[|leaves| - 1];
      if Named("", last.0) == key then Some(last.1) else LastText(leaves[..|leaves| - 1], key)
  }

  /** Whatever the keys, a key holds the text of the last leaf written under it. */
  lemma LastLeafWins(entries: seq<Entry>, key: string)
    requires AreTrees(entries)
    ensures FlattenEntries(entries, "", JsMap.Empty()).Ok?
    ensures FlattenEntries(entries, "", JsMap.Empty()).value.Get(key) == LastText(Leaves(entries), key)
  {
    FlattenSetsLeaves(entries, "", JsMap.Empty());
    LastIsSet(Leaves(entries), key);
  }

  lemma {:induction false} LastIsSet(leaves: seq<(Path, string)>, key: string)
    ensures SetAll(JsMap.Empty(), "", leaves).Get(key) == LastText(leaves, key)
  {
    if leaves != [] {
      var init, last := leaves[..|leaves| - 1], leaves[|leaves| - 1];
      assert leaves == init + [last];
      LastIsSet(init, key);
      SetAllConcat(JsMap.Empty(), "", init, [last]);
      SetOne(SetAll(JsMap.Empty(), "", init), last);
    }
  }

  lemma SetOne(out: Flat, leaf: (Path, string))
    ensures SetAll(out, "", [leaf]) == out.Set(Named("", leaf.0), leaf.1)
  {
    assert [leaf][1..] == [];
  }

  /** With clean keys no two leaves share a key: each leaf is found under its joined path, and nothing else is. */
  lemma FlattenNeverMerges(entries: seq<Entry>)
    requires AreTrees(entries) && CleanKeys(entries)
    ensures FlattenEntries(entries, "", JsMap.Empty()).Ok?
    ensures Records(FlattenEntries(entries, "", JsMap.Empty()).value, Leaves(entries))
    ensures forall i :: 0 <= i < |Leaves(entries)| ==>
      Named("", Leaves(entries)[i].0) == Join(Leaves(entries)[i].0, ".")
  {
    var leaves := Leaves(entries);
    LeavesAreClean(entries);
    forall i | 0 <= i < |leaves| ensures Segments(leaves[i].0) == leaves[i].0 { CleanIsSegments(leaves[i].0); }
    FlattenKeepsLeavesIff(entries);
    forall i | 0 <= i < |leaves| ensures Named("", leaves[i].0) == Join(leaves[i].0, ".") {
      NamedIsJoined(leaves[i].0);
    }
  }

  lemma CleanIsSegments(path: Path)
    requires CleanPath(path)
    ensures Segments(path) == path
  {
    NamedSplits(path);
    NamedIsJoined(path);
    SplitUndoesJoin(path);
    assert path[0] in path;
  }

  /** A dotted key, and an empty one, can merge two leaves; a dotted key that meets no other does not. */
  lemma UncleanKeysMerge()
    ensures var dotted := [Entry("a.b", Leaf("x")), Entry("a", Object([Entry("b", Leaf("y"))]))];
      FlattenEntries(dotted, "", JsMap.Empty()) == Ok(JsMap.Map(["a.b"], map["a.b" := "y"]))
    ensures var empty := [Entry("", Object([Entry("a", Leaf("x"))])), Entry("a", Leaf("y"))];
      FlattenEntries(empty, "", JsMap.Empty()) == Ok(JsMap.Map(["a"], map["a" := "y"]))
    ensures var alone := [Entry("a.b", Leaf("x"))];
      !CleanKeys(alone) && FlattenEntries(alone, "", JsMap.Empty()) == Ok(JsMap.Map(["a.b"], map["a.b" := "x"]))
  {
    var dotted := [Entry("a.b", Leaf("x")), Entry("a", Object([Entry("b", Leaf("y"))]))];
    var empty := [Entry("", Object([Entry("a", Leaf("x"))])), Entry("a", Leaf("y"))];
    var start: Flat := JsMap.Empty();
    assert dotted[1..] == [Entry("a", Object([Entry("b", Leaf("y"))]))] && empty[1..] == [Entry("a", Leaf("y"))];
    assert FullKey("a", "b") == "a.b";
    assert FlattenEntries([Entry("b", Leaf("y"))], "a", start.Set("a.b", "x"))
      == Ok(start.Set("a.b", "x").Set("a.b", "y"));
    assert FlattenEntries([Entry("a", Leaf("x"))], "", start) == Ok(start.Set("a", "x"));
    assert start.Set("a.b", "x").Set("a.b", "y") == JsMap.Map(["a.b"], map["a.b" := "y"]);
    assert start.Set("a", "x").Set("a", "y") == JsMap.Map(["a"], map["a" := "y"]);
    assert start.Set("a.b", "x") == JsMap.Map(["a.b"], map["a.b" := "x"]);
    assert '.' == "a.b"[1];
  }
}
