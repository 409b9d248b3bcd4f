/** Configuration as nested objects, and as one row per dotted key. */
module ConfigTree {
  import opened Wrappers

  /** A leaf is anything that is not a plain object: arrays and nulls included. */
  datatype Json<V> = Leaf(value: V) | Obj(fields: map<string, Json<V>>)

  datatype Row<V> = Row(key: string, value: V)

  // -- Dotted keys ------------------------------------------------------------

  function Extended(prefix: string, key: string): string {
    if prefix == "" then key else prefix + "." + key
  }

  function Dotted(prefix: string, path: seq<string>): string
    decreases |path|
  {
    if |path| == 0 then prefix else Dotted(Extended(prefix, path[0]), path[1..])
  }

  /** Splitting at every dot. */
  function Split(key: string): (parts: seq<string>)
    ensures |parts| > 0
  {
    if |key| == 0 then [""]
    else
      var before, c := Split(key[..|key| - 1]), key[|key| - 1];
      if c == '.' then before + [""] else before[|before| - 1 := before[|before| - 1] + [c]]
  }

  lemma {:induction false} SplitPlain(key: string)
    requires '.' !in key
    ensures Split(key) == [key]
  {
    if |key| > 0 {
      SplitPlain(key[..|key| - 1]);
      assert key == key[..|key| - 1] + [key[|key| - 1]];
      assert key[|key| - 1] in key;
    }
  }

  lemma {:induction false} SplitExtended(prefix: string, key: string)
    requires '.' !in key
    ensures Split(prefix + "." + key) == Split(prefix) + [key]
  {
    var whole := prefix + "." + key;
    if |key| == 0 {
      assert whole[..|whole| - 1] == prefix;
    } else {
      var init, c := key[..|key| - 1], key[|key| - 1];
      assert key == init + [c] && c in key;
      SplitExtended(prefix, init);
      assert whole[..|whole| - 1] == prefix + "." + init;
      assert (Split(prefix) + [init])[|Split(prefix)| := init + [c]] == Split(prefix) + [key];
    }
  }

  predicate PlainKeys(path: seq<string>) {
    forall i :: 0 <= i < |path| ==> '.' !in path[i]
  }

  lemma HeadMoved(parts: seq<string>, path: seq<string>)
    requires |path| > 0
    ensures parts + [path[0]] + path[1..] == parts + path
  {
  }

  lemma {:induction false} SplitDotted(prefix: string, path: seq<string>)
    requires prefix != "" && PlainKeys(path)
    ensures Split(Dotted(prefix, path)) == Split(prefix) + path
    decreases |path|
  {
    if |path| > 0 {
      SplitExtended(prefix, path[0]);
      SplitDotted(Extended(prefix, path[0]), path[1..]);
      HeadMoved(Split(prefix), path);
    } else {
      assert Split(prefix) + path == Split(prefix);
    }
  }

  /** A path whose keys are free of dots is recovered from its row's key, unless an empty key leads somewhere. */
  lemma PathRecovered(path: seq<string>)
    requires |path| > 0 && PlainKeys(path) && (path[0] == "" ==> |path| == 1)
    ensures Split(Dotted("", path)) == path
  {
    SplitPlain(path[0]);
    assert Dotted("", path) == Dotted(path[0], path[1..]);
    if path[0] != "" {
      assert PlainKeys(path[1..]);
      SplitDotted(path[0], path[1..]);
      assert [path[0]] + path[1..] == path;
    } else {
      assert path == [""];
    }
  }

  /** A row key never starts with a dot when no key holds one. */
  lemma {:induction false} NoLeadingDot(prefix: string, path: seq<string>)
    requires PlainKeys(path) && (prefix == "" || prefix[0] != '.')
    ensures Dotted(prefix, path) == "" || Dotted(prefix, path)[0] != '.'
    decreases |path|
  {
    if |path| > 0 {
      assert path[0] != "" ==> path[0][0] in path[0];
      NoLeadingDot(Extended(prefix, path[0]), path[1..]);
    }
  }

  lemma {:induction false} SplitHead(key: string)
    ensures |Split(key)| == 1 ==> Split(key)[0] == key
    ensures |Split(key)| > 1 && Split(key)[0] == "" ==> key != "" && key[0] == '.'
  {
    if |key| > 0 {
      assert key == key[..|key| - 1] + [key[|key| - 1]];
      SplitHead(key[..|key| - 1]);
    }
  }

  // -- Leaves -----------------------------------------------------------------

  /** What is at a path, if it leads to a leaf. */
  function At<V>(j: Json<V>, path: seq<string>): Option<V>
    decreases |path|
  {
    match j
    case Leaf(value) => if |path| == 0 then Some(value) else None
    case Obj(fields) => if |path| == 0 || path[0] !in fields then None else At(fields[path[0]], path[1..])
  }

  /** No key holds a dot. */
  ghost predicate DotFree<V(!new)>(j: Json<V>) {
    j.Obj? ==> forall k :: k in j.fields ==> '.' !in k && DotFree(j.fields[k])
  }

  /** No object inside is empty. */
  ghost predicate Full<V(!new)>(j: Json<V>) {
    j.Obj? ==> forall k :: k in j.fields ==> j.fields[k] != Obj(map[]) && Full(j.fields[k])
  }

  /** An empty key of the whole, if there is one, leads straight to a leaf. */
  predicate EmptyKeyEnds<V>(j: Json<V>) {
    j.Obj? && "" in j.fields ==> j.fields[""].Leaf?
  }

  ghost predicate Storable<V(!new)>(j: Json<V>) {
    j.Obj? && DotFree(j) && Full(j) && EmptyKeyEnds(j)
  }

  lemma {:induction false} DotFreePaths<V(!new)>(j: Json<V>, path: seq<string>)
    requires DotFree(j) && At(j, path).Some?
    ensures PlainKeys(path)
    decreases |path|
  {
    if |path| > 0 {
      DotFreePaths(j.fields[path[0]], path[1..]);
      assert path == [path[0]] + path[1..];
    }
  }

  lemma {:induction false} FullHasLeaf<V(!new)>(j: Json<V>) returns (path: seq<string>)
    requires Full(j) && j != Obj(map[])
    ensures At(j, path).Some?
    decreases j
  {
    match j
    case Leaf(_) => path := [];
    case Obj(fields) =>
      assert fields.Keys != {};
      var k :| k in fields;
      var rest := FullHasLeaf(fields[k]);
      path := [k] + rest;
      assert path[1..] == rest;
  }

  // -- Flattening -------------------------------------------------------------

  ghost predicate Names<V(!new)>(j: Json<V>, prefix: string, key: string, value: V) {
    exists path :: At(j, path) == Some(value) && Dotted(prefix, path) == key
  }

  /** Every leaf below `j` has its row. */
  ghost predicate Covers<V(!new)>(j: Json<V>, prefix: string, rows: map<string, V>) {
    forall path :: At(j, path).Some? ==> Dotted(prefix, path) in rows
  }

  /** Every row that was not there before is some leaf's. */
  ghost predicate OnlyLeaves<V(!new)>(j: Json<V>, prefix: string, before: map<string, V>, after: map<string, V>) {
    forall key :: key in after ==> (key in before && after[key] == before[key]) || Names(j, prefix, key, after[key])
  }

  ghost predicate Flattened<V(!new)>(j: Json<V>, prefix: string, before: map<string, V>, after: map<string, V>) {
    before.Keys <= after.Keys && Covers(j, prefix, after) && OnlyLeaves(j, prefix, before, after)
  }

  lemma NamesBelow<V(!new)>(fields: map<string, Json<V>>, k: string, prefix: string, key: string, value: V)
    requires k in fields && Names(fields[k], Extended(prefix, k), key, value)
    ensures Names(Obj(fields), prefix, key, value)
  {
    var path :| At(fields[k], path) == Some(value) && Dotted(Extended(prefix, k), path) == key;
    assert ([k] + path)[1..] == path;
    assert At(Obj(fields), [k] + path) == Some(value) && Dotted(prefix, [k] + path) == key;
  }

  /** Writes a row per leaf into the rows there are. */
  method Flatten<V(!new)>(j: Json<V>, prefix: string, out: map<string, V>) returns (after: map<string, V>)
    ensures Flattened(j, prefix, out, after)
    decreases j
  {
    match j
    case Leaf(value) =>
      after := out[prefix := value];
      assert At(j, []) == Some(value) && Dotted(prefix, []) == prefix;
    case Obj(fields) =>
      after := out;
      var todo := fields.Keys;
      while todo != {}
        invariant todo <= fields.Keys && out.Keys <= after.Keys
        invariant forall k :: k in fields && k !in todo ==> Covers(fields[k], Extended(prefix, k), after)
        invariant OnlyLeaves(j, prefix, out, after)
        decreases todo
      {
        var key :| key in todo;
        ghost var before := after;
        after := Flatten(fields[key], Extended(prefix, key), after);
        OneMoreKey(fields, key, prefix, out, before, after);
        todo := todo - {key};
      }
  }

  lemma OneMoreKey<V(!new)>(fields: map<string, Json<V>>, key: string, prefix: string, out: map<string, V>,
                            before: map<string, V>, after: map<string, V>)
    requires key in fields && OnlyLeaves(Obj(fields), prefix, out, before)
    requires Flattened(fields[key], Extended(prefix, key), before, after)
    ensures OnlyLeaves(Obj(fields), prefix, out, after)
  {
    forall row | row in after
      ensures (row in out && after[row] == out[row]) || Names(Obj(fields), prefix, row, after[row])
    {
      if Names(fields[key], Extended(prefix, key), row, after[row]) {
        NamesBelow(fields, key, prefix, row, after[row]);
      }
    }
  }

  // -- Unflattening -----------------------------------------------------------

  /** Sets the leaf at a path, making objects on the way where there are none. */
  function Insert<V>(j: Json<V>, path: seq<string>, value: V): Json<V>
    requires j.Obj? && |path| > 0
    decreases |path|
  {
    if |path| == 1 then Obj(j.fields[path[0] := Leaf(value)])
    else
      var next := if path[0] in j.fields && j.fields[path[0]].Obj? then j.fields[path[0]] else Obj(map[]);
      Obj(j.fields[path[0] := Insert(next, path[1..], value)])
  }

  function Unflattened<V>(rows: seq<Row<V>>): (j: Json<V>)
    ensures j.Obj?
  {
    if |rows| == 0 then Obj(map[])
    else
      var last := rows[|rows| - 1];
      Insert(Unflattened(rows[..|rows| - 1]), Split(last.key), last.value)
  }

  method Unflatten<V>(rows: seq<Row<V>>) returns (root: Json<V>)
    ensures root == Unflattened(rows)
  {
    root := Obj(map[]);
    for i := 0 to |rows|
      invariant root == Unflattened(rows[..i])
    {
      assert rows[..i + 1][..i] == rows[..i];
      root := Insert(root, Split(rows[i].key), rows[i].value);
    }
    assert rows[..|rows|] == rows;
  }

  // -- Round trip -------------------------------------------------------------

  /** Everything in `part` is in `whole`, and objects are objects in both. */
  ghost predicate PartOf<V(!new)>(part: Json<V>, whole: Json<V>)
    decreases part
  {
    match part
    case Leaf(value) => whole == part
    case Obj(fields) =>
      && whole.Obj? && fields.Keys <= whole.fields.Keys
      && forall k :: k in fields ==> PartOf(fields[k], whole.fields[k])
  }

  lemma {:induction false} InsertStaysPart<V(!new)>(part: Json<V>, whole: Json<V>, path: seq<string>, value: V)
    requires part.Obj? && PartOf(part, whole) && At(whole, path) == Some(value)
    ensures |path| > 0
    ensures PartOf(Insert(part, path, value), whole)
    ensures At(Insert(part, path, value), path) == Some(value)
    decreases |path|
  {
    if |path| > 1 {
      var child := whole.fields[path[0]];
      assert path[1..] != [];
      assert child.Obj?;
      var next := if path[0] in part.fields then part.fields[path[0]] else Obj(map[]);
      assert path[0] in part.fields ==> PartOf(part.fields[path[0]], child);
      InsertStaysPart(next, child, path[1..], value);
    } else {
      assert path == [path[0]];
      assert path[1..] == [];
      assert At(whole.fields[path[0]], []) == Some(value);
    }
  }

  lemma {:induction false} InsertKeepsLeaves<V(!new)>(part: Json<V>, whole: Json<V>, path: seq<string>, value: V, other: seq<string>)
    requires part.Obj? && PartOf(part, whole) && At(whole, path) == Some(value) && |path| > 0
    requires At(part, other).Some?
    ensures At(Insert(part, path, value), other).Some?
    decreases |path|
  {
    if other[0] == path[0] {
      var child := whole.fields[path[0]];
      assert PartOf(part.fields[path[0]], child);
      if |path| > 1 {
        assert child.Obj?;
        InsertKeepsLeaves(part.fields[path[0]], child, path[1..], value, other[1..]);
      } else {
        assert path[1..] == [];
        assert child.Leaf?;
        assert part.fields[path[0]].Leaf?;
        assert other[1..] == [];
      }
    }
  }

  /** A part that has every leaf of a whole without empty objects is the whole. */
  lemma {:induction false} EveryLeafIsEverything<V(!new)>(part: Json<V>, whole: Json<V>)
    requires PartOf(part, whole) && Full(whole)
    requires forall path :: At(whole, path).Some? ==> At(part, path).Some?
    ensures part == whole
    decreases whole
  {
    if whole.Obj? {
      forall k | k in whole.fields
        ensures k in part.fields && part.fields[k] == whole.fields[k]
      {
        var child := whole.fields[k];
        var leaf := FullHasLeaf(child);
        assert ([k] + leaf)[1..] == leaf;
        assert At(whole, [k] + leaf).Some?;
        assert At(part, [k] + leaf).Some?;
        forall path | At(child, path).Some?
          ensures At(part.fields[k], path).Some?
        {
          assert ([k] + path)[1..] == path;
          assert At(whole, [k] + path).Some?;
          assert At(part, [k] + path).Some?;
        }
        EveryLeafIsEverything(part.fields[k], child);
      }
      assert part.fields == whole.fields;
    }
  }

  /** Rows in any order, one for each flattened key. */
  ghost predicate RowsOf<V(!new)>(rows: seq<Row<V>>, flat: map<string, V>) {
    && (forall i :: 0 <= i < |rows| ==> rows[i].key in flat && rows[i].value == flat[rows[i].key])
    && (forall key :: key in flat ==> exists i :: 0 <= i < |rows| && rows[i].key == key)
  }

  /** Every row is the row of the leaf its key spells. */
  ghost predicate RowsSpell<V(!new)>(j: Json<V>, rows: seq<Row<V>>) {
    forall i :: 0 <= i < |rows| ==> At(j, Split(rows[i].key)) == Some(rows[i].value)
  }

  lemma {:induction false} RowsBuildPart<V(!new)>(j: Json<V>, rows: seq<Row<V>>)
    requires j.Obj? && RowsSpell(j, rows)
    ensures PartOf(Unflattened(rows), j)
    ensures forall i :: 0 <= i < |rows| ==> At(Unflattened(rows), Split(rows[i].key)).Some?
  {
    if |rows| > 0 {
      var init, last := rows[..|rows| - 1], rows[|rows| - 1];
      RowsBuildPart(j, init);
      InsertStaysPart(Unflattened(init), j, Split(last.key), last.value);
      forall i | 0 <= i < |init|
        ensures At(Unflattened(rows), Split(rows[i].key)).Some?
      {
        assert init[i] == rows[i];
        InsertKeepsLeaves(Unflattened(init), j, Split(last.key), last.value, Split(rows[i].key));
      }
    }
  }

  lemma LeafEnds<V>(j: Json<V>, path: seq<string>)
    requires j.Leaf? && At(j, path).Some?
    ensures |path| == 0
  {
  }

  lemma StorablePath<V(!new)>(j: Json<V>, path: seq<string>)
    requires Storable(j) && At(j, path).Some?
    ensures Split(Dotted("", path)) == path
  {
    DotFreePaths(j, path);
    if path[0] == "" {
      LeafEnds(j.fields[""], path[1..]);
    }
    PathRecovered(path);
  }

  lemma StorableRoundTrip<V(!new)>(j: Json<V>, flat: map<string, V>, rows: seq<Row<V>>)
    requires Storable(j) && Flattened(j, "", map[], flat) && RowsOf(rows, flat)
    ensures Unflattened(rows) == j
  {
    forall i | 0 <= i < |rows|
      ensures At(j, Split(rows[i].key)) == Some(rows[i].value)
    {
      assert Names(j, "", rows[i].key, rows[i].value);
      var path :| At(j, path) == Some(rows[i].value) && Dotted("", path) == rows[i].key;
      StorablePath(j, path);
    }
    RowsBuildPart(j, rows);
    forall path | At(j, path).Some?
      ensures At(Unflattened(rows), path).Some?
    {
      assert Dotted("", path) in flat;
      var i :| 0 <= i < |rows| && rows[i].key == Dotted("", path);
      StorablePath(j, path);
    }
    EveryLeafIsEverything(Unflattened(rows), j);
  }

  // -- What cannot round-trip -------------------------------------------------

  lemma {:induction false} SplitHasNoDots(key: string)
    ensures PlainKeys(Split(key))
  {
    if |key| > 0 {
      SplitHasNoDots(key[..|key| - 1]);
    }
  }

  lemma {:induction false} InsertStaysTidy<V(!new)>(j: Json<V>, path: seq<string>, value: V)
    requires j.Obj? && DotFree(j) && Full(j) && |path| > 0 && PlainKeys(path)
    ensures DotFree(Insert(j, path, value)) && Full(Insert(j, path, value))
    ensures Insert(j, path, value) != Obj(map[])
    decreases |path|
  {
    assert path[0] in Insert(j, path, value).fields;
    if |path| > 1 {
      var next := if path[0] in j.fields && j.fields[path[0]].Obj? then j.fields[path[0]] else Obj(map[]);
      InsertStaysTidy(next, path[1..], value);
    }
  }

  lemma {:induction false} UnflattenedIsTidy<V(!new)>(rows: seq<Row<V>>)
    ensures DotFree(Unflattened(rows)) && Full(Unflattened(rows))
    ensures (forall i :: 0 <= i < |rows| ==> rows[i].key == "" || rows[i].key[0] != '.') ==> EmptyKeyEnds(Unflattened(rows))
  {
    if |rows| > 0 {
      var init, last := rows[..|rows| - 1], rows[|rows| - 1];
      UnflattenedIsTidy(init);
      SplitHasNoDots(last.key);
      SplitHead(last.key);
      InsertStaysTidy(Unflattened(init), Split(last.key), last.value);
      assert forall i :: 0 <= i < |init| ==> init[i] == rows[i];
      assert last == rows[|rows| - 1];
    }
  }

  /**
   However an object is flattened and in whatever order its rows come back, it is rebuilt exactly when
   no key holds a dot, no object inside it is empty, and an empty key at its top does not lead further.
   In particular every object with non-empty keys free of dots and no empty object inside survives.
   */
  lemma RoundTrip<V(!new)>(j: Json<V>, flat: map<string, V>, rows: seq<Row<V>>)
    requires j.Obj? && Flattened(j, "", map[], flat) && RowsOf(rows, flat)
    ensures Unflattened(rows) == j <==> Storable(j)
  {
    if Storable(j) {
      StorableRoundTrip(j, flat, rows);
    } else {
      UnflattenedIsTidy(rows);
      if DotFree(j) {
        forall i | 0 <= i < |rows|
          ensures rows[i].key == "" || rows[i].key[0] != '.'
        {
          assert Names(j, "", rows[i].key, rows[i].value);
          var path :| At(j, path) == Some(rows[i].value) && Dotted("", path) == rows[i].key;
          DotFreePaths(j, path);
          NoLeadingDot("", path);
        }
      }
    }
  }
}
