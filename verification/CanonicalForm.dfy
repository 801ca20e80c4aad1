/**
 `json.dumps(..., sort_keys=True)`: objects are printed with their keys in order.  The canonical text
 determines, and is determined by, what the value means (`CanonicalIsInjective`).
 */
module CanonicalForm {
  import opened Wrappers
  import opened Sorting
  import opened Text
  import opened JsonText

  // ---------------------------------------------------------------- what a value means

  ghost function Meaning(j: Json): Value
    decreases j, 1
  {
    match j
    case Null => VNull
    case Bool(b) => VBool(b)
    case Int(n) => VInt(n)
    case Float(repr) => VFloat(repr)
    case Str(s) => VStr(s)
    case Arr(items) => VArr(MeaningItems(items))
    case Obj(fields) => VObj(MeaningFields(fields))
  }

  ghost function MeaningItems(items: seq<Json>): (vs: seq<Value>)
    ensures |vs| == |items|
    decreases items, 0
  {
    if items == [] then [] else [Meaning(items[0])] + MeaningItems(items[1..])
  }

  ghost function MeaningFields(fields: seq<Field>): map<string, Value>
    decreases fields, 0
  {
    if fields == [] then map[] else MeaningFields(fields[1..])[fields[0].key := Meaning(fields[0].value)]
  }

  lemma {:induction false} MeaningItemAt(items: seq<Json>, i: nat)
    requires i < |items|
    ensures MeaningItems(items)[i] == Meaning(items[i])
  {
    if i > 0 {
      MeaningItemAt(items[1..], i - 1);
    }
  }

  lemma {:induction false} MeaningFieldAt(fields: seq<Field>, i: nat)
    requires DistinctKeys(fields) && i < |fields|
    ensures fields[i].key in MeaningFields(fields)
    ensures MeaningFields(fields)[fields[i].key] == Meaning(fields[i].value)
  {
    if i > 0 {
      MeaningFieldAt(fields[1..], i - 1);
    }
  }

  lemma {:induction false} MeaningKeys(fields: seq<Field>, key: string)
    ensures key in MeaningFields(fields) <==> exists i :: 0 <= i < |fields| && fields[i].key == key
  {
    if fields != [] {
      MeaningKeys(fields[1..], key);
      if i :| 0 <= i < |fields| && fields[i].key == key {
        assert i > 0 ==> fields[1..][i - 1].key == key;
      }
      if i :| 0 <= i < |fields[1..]| && fields[1..][i].key == key {
        assert fields[i + 1].key == key;
      }
    }
  }

  // ---------------------------------------------------------------- sort_keys

  const BY_KEY: (Field, Field) -> bool := (a: Field, b: Field) => AtMost(a.key, b.key)

  lemma KeyOrder()
    ensures TotalPreorder(BY_KEY)
  {
    forall a: Field, b: Field ensures BY_KEY(a, b) || BY_KEY(b, a) {
      AtMostTotal(a.key, b.key);
    }
    forall a: Field, b: Field, c: Field | BY_KEY(a, b) && BY_KEY(b, c) ensures BY_KEY(a, c) {
      AtMostTransitive(a.key, b.key, c.key);
    }
  }

  /** The value with every object's fields in key order. */
  function SortKeys(j: Json): Json
    decreases j, 1
  {
    match j
    case Arr(items) => Arr(SortItems(items))
    case Obj(fields) => Obj(StableSort(BY_KEY, SortValues(fields)))
    case _ => j
  }

  function SortItems(items: seq<Json>): (r: seq<Json>)
    ensures |r| == |items|
    decreases items, 0
  {
    if items == [] then [] else [SortKeys(items[0])] + SortItems(items[1..])
  }

  function SortValues(fields: seq<Field>): (r: seq<Field>)
    ensures |r| == |fields|
    decreases fields, 0
  {
    if fields == [] then []
    else [Field(fields[0].key, SortKeys(fields[0].value))] + SortValues(fields[1..])
  }

  /** The canonical text. */
  function Canonical(j: Json): string {
    Print(SortKeys(j))
  }

  lemma {:induction false} SortItemAt(items: seq<Json>, i: nat)
    requires i < |items|
    ensures SortItems(items)[i] == SortKeys(items[i])
  {
    if i > 0 {
      SortItemAt(items[1..], i - 1);
    }
  }

  lemma {:induction false} SortValueAt(fields: seq<Field>, i: nat)
    requires i < |fields|
    ensures SortValues(fields)[i] == Field(fields[i].key, SortKeys(fields[i].value))
  {
    if i > 0 {
      SortValueAt(fields[1..], i - 1);
    }
  }

  lemma SortValuesDistinct(fields: seq<Field>)
    requires DistinctKeys(fields)
    ensures DistinctKeys(SortValues(fields))
  {
    forall i, j | 0 <= i < j < |fields| ensures SortValues(fields)[i].key != SortValues(fields)[j].key {
      SortValueAt(fields, i);
      SortValueAt(fields, j);
    }
  }

  // ---------------------------------------------------------------- fields as a set

  /** A list of fields with distinct keys, sorted: same fields, strictly increasing. */
  lemma SortedFields(fields: seq<Field>)
    requires DistinctKeys(fields)
    ensures var ys := StableSort(BY_KEY, fields);
            && DistinctKeys(ys)
            && (forall f :: f in ys <==> f in fields)
            && (forall i, j :: 0 <= i < j < |ys| ==> !BY_KEY(ys[j], ys[i]))
  {
    KeyOrder();
    StableSortMeetsDefinition(BY_KEY, fields);
    StableSortMembers(BY_KEY, fields);
    var ys := StableSort(BY_KEY, fields);
    forall i, j | 0 <= i < j < |ys| ensures ys[i].key != ys[j].key {
      if ys[i].key == ys[j].key {
        SameKeySameField(fields, ys[i], ys[j]);
        TwiceInSorted(fields, ys, i, j);
      }
    }
    forall i, j | 0 <= i < j < |ys| ensures !BY_KEY(ys[j], ys[i]) {
      assert BY_KEY(ys[i], ys[j]);
      AtMostTotal(ys[i].key, ys[j].key);
    }
  }

  lemma SameKeySameField(fields: seq<Field>, f: Field, g: Field)
    requires DistinctKeys(fields) && f in fields && g in fields && f.key == g.key
    ensures f == g
  {
    var i :| 0 <= i < |fields| && fields[i] == f;
    var j :| 0 <= j < |fields| && fields[j] == g;
    assert i == j;
  }

  lemma {:induction false} CountAtMostOne(fields: seq<Field>, f: Field)
    requires DistinctKeys(fields)
    ensures multiset(fields)[f] <= 1
  {
    if fields != [] {
      assert fields == [fields[0]] + fields[1..];
      CountAtMostOne(fields[1..], f);
      if f == fields[0] {
        assert f !in fields[1..];
        assert f !in multiset(fields[1..]);
      }
    }
  }

  lemma TwiceInSorted(fields: seq<Field>, ys: seq<Field>, i: nat, j: nat)
    requires DistinctKeys(fields) && multiset(ys) == multiset(fields)
    requires i < j < |ys|
    ensures ys[i] != ys[j]
  {
    if ys[i] == ys[j] {
      CountedTwice(ys, i, j);
      CountAtMostOne(fields, ys[i]);
    }
  }

  /** Objects with the same fields mean the same. */
  lemma SameFieldsSameMeaning(fs: seq<Field>, gs: seq<Field>)
    requires DistinctKeys(fs) && DistinctKeys(gs)
    requires forall f :: f in fs <==> f in gs
    ensures MeaningFields(fs) == MeaningFields(gs)
  {
    forall key ensures key in MeaningFields(fs) <==> key in MeaningFields(gs) {
      MeaningKeys(fs, key);
      MeaningKeys(gs, key);
      if i :| 0 <= i < |fs| && fs[i].key == key {
        assert fs[i] in gs;
        var j :| 0 <= j < |gs| && gs[j] == fs[i];
        assert gs[j].key == key;
      }
      if i :| 0 <= i < |gs| && gs[i].key == key {
        assert gs[i] in fs;
        var j :| 0 <= j < |fs| && fs[j] == gs[i];
        assert fs[j].key == key;
      }
    }
    forall key | key in MeaningFields(fs) ensures MeaningFields(fs)[key] == MeaningFields(gs)[key] {
      MeaningKeys(fs, key);
      var i :| 0 <= i < |fs| && fs[i].key == key;
      assert fs[i] in gs;
      var j :| 0 <= j < |gs| && gs[j] == fs[i];
      MeaningFieldAt(fs, i);
      MeaningFieldAt(gs, j);
    }
  }

  // ---------------------------------------------------------------- sorting keys keeps the meaning

  lemma {:induction false} SortKeysKeeps(j: Json)
    requires WellFormed(j)
    ensures WellFormed(SortKeys(j)) && Meaning(SortKeys(j)) == Meaning(j)
    decreases j, 1
  {
    match j
    case Arr(items) =>
      SortItemsKeep(items);
    case Obj(fields) =>
      SortValuesKeep(fields);
      SortValuesDistinct(fields);
      var fs := SortValues(fields);
      SortedFields(fs);
      var ys := StableSort(BY_KEY, fs);
      SameFieldsSameMeaning(ys, fs);
      forall i | 0 <= i < |ys| ensures WellFormed(ys[i].value) {
        assert ys[i] in ys;
        var k :| 0 <= k < |fs| && fs[k] == ys[i];
      }
    case _ =>
  }

  lemma {:induction false} SortItemsKeep(items: seq<Json>)
    requires forall i :: 0 <= i < |items| ==> WellFormed(items[i])
    ensures forall i :: 0 <= i < |items| ==> WellFormed(SortItems(items)[i])
    ensures MeaningItems(SortItems(items)) == MeaningItems(items)
    decreases items, 0
  {
    if items != [] {
      SortKeysKeeps(items[0]);
      SortItemsKeep(items[1..]);
      assert SortItems(items)[1..] == SortItems(items[1..]);
    }
  }

  lemma {:induction false} SortValuesKeep(fields: seq<Field>)
    requires forall i :: 0 <= i < |fields| ==> WellFormed(fields[i].value)
    ensures forall i :: 0 <= i < |fields| ==> WellFormed(SortValues(fields)[i].value)
    ensures MeaningFields(SortValues(fields)) == MeaningFields(fields)
    decreases fields, 0
  {
    if fields != [] {
      SortKeysKeeps(fields[0].value);
      SortValuesKeep(fields[1..]);
      assert SortValues(fields)[1..] == SortValues(fields[1..]);
    }
  }

  // ---------------------------------------------------------------- the order of the keys

  /** In every object, at every depth, the keys ascend strictly in code-point order. */
  ghost predicate KeysAscend(j: Json) {
    match j
    case Arr(items) => forall i :: 0 <= i < |items| ==> KeysAscend(items[i])
    case Obj(fields) =>
      && (forall i, k :: 0 <= i < k < |fields| ==> Precedes(fields[i].key, fields[k].key))
      && (forall i :: 0 <= i < |fields| ==> KeysAscend(fields[i].value))
    case _ => true
  }

  lemma {:induction false} SortedKeysAscend(j: Json)
    requires WellFormed(j)
    ensures KeysAscend(SortKeys(j))
    decreases j
  {
    match j
    case Arr(items) =>
      forall i | 0 <= i < |items| ensures KeysAscend(SortItems(items)[i]) {
        SortItemAt(items, i);
        SortedKeysAscend(items[i]);
      }
    case Obj(fields) =>
      var fs := SortValues(fields);
      SortValuesDistinct(fields);
      SortedFields(fs);
      KeyOrder();
      StableSortMeetsDefinition(BY_KEY, fs);
      var ys := StableSort(BY_KEY, fs);
      forall i, k | 0 <= i < k < |ys| ensures Precedes(ys[i].key, ys[k].key) {
        assert BY_KEY(ys[i], ys[k]);
        AtMostIsLexicographic(ys[i].key, ys[k].key);
      }
      forall i | 0 <= i < |ys| ensures KeysAscend(ys[i].value) {
        assert ys[i] in ys;
        var k :| 0 <= k < |fs| && fs[k] == ys[i];
        SortValueAt(fields, k);
        SortedKeysAscend(fields[k].value);
      }
    case _ =>
  }

  // ---------------------------------------------------------------- the meaning determines the text

  lemma {:induction false} MeaningDeterminesSorted(a: Json, b: Json)
    requires WellFormed(a) && WellFormed(b) && Meaning(a) == Meaning(b)
    ensures SortKeys(a) == SortKeys(b)
    decreases a, 1
  {
    match a
    case Arr(items) =>
      var others := b.items;
      forall i | 0 <= i < |items| ensures SortItems(items)[i] == SortItems(others)[i] {
        MeaningItemAt(items, i);
        MeaningItemAt(others, i);
        MeaningDeterminesSorted(items[i], others[i]);
        SortItemAt(items, i);
        SortItemAt(others, i);
      }
    case Obj(fields) =>
      forall f | f in fields ensures Field(f.key, SortKeys(f.value)) in SortValues(b.fields) {
        var i :| 0 <= i < |fields| && fields[i] == f;
        var j := Counterpart(fields, b.fields, i);
        MeaningDeterminesSorted(fields[i].value, b.fields[j].value);
        SortValueAt(b.fields, j);
      }
      forall g | g in b.fields ensures Field(g.key, SortKeys(g.value)) in SortValues(fields) {
        var j :| 0 <= j < |b.fields| && b.fields[j] == g;
        var i := Counterpart(b.fields, fields, j);
        MeaningDeterminesSorted(fields[i].value, b.fields[j].value);
        SortValueAt(fields, i);
      }
      SameSortedFields(fields, b.fields);
    case _ =>
  }

  /** The position of the field with the same key. */
  lemma Counterpart(fs: seq<Field>, gs: seq<Field>, i: nat) returns (j: nat)
    requires DistinctKeys(fs) && DistinctKeys(gs) && i < |fs|
    requires MeaningFields(fs) == MeaningFields(gs)
    ensures j < |gs| && gs[j].key == fs[i].key && Meaning(gs[j].value) == Meaning(fs[i].value)
  {
    MeaningFieldAt(fs, i);
    MeaningKeys(gs, fs[i].key);
    j :| 0 <= j < |gs| && gs[j].key == fs[i].key;
    MeaningFieldAt(gs, j);
  }

  lemma SameSortedFields(fs: seq<Field>, gs: seq<Field>)
    requires DistinctKeys(fs) && DistinctKeys(gs)
    requires forall f :: f in fs ==> Field(f.key, SortKeys(f.value)) in SortValues(gs)
    requires forall g :: g in gs ==> Field(g.key, SortKeys(g.value)) in SortValues(fs)
    ensures StableSort(BY_KEY, SortValues(fs)) == StableSort(BY_KEY, SortValues(gs))
  {
    var xs, ys := SortValues(fs), SortValues(gs);
    forall x ensures x in xs <==> x in ys {
      if x in xs {
        var i :| 0 <= i < |xs| && xs[i] == x;
        SortValueAt(fs, i);
        assert fs[i] in fs;
      }
      if x in ys {
        var i :| 0 <= i < |ys| && ys[i] == x;
        SortValueAt(gs, i);
        assert gs[i] in gs;
      }
    }
    SortValuesDistinct(fs);
    SortValuesDistinct(gs);
    SortedFields(xs);
    SortedFields(ys);
    KeyOrder();
    var us, vs := StableSort(BY_KEY, xs), StableSort(BY_KEY, ys);
    forall x ensures x in us <==> x in vs {
      assert x in us <==> x in xs;
      assert x in vs <==> x in ys;
    }
    StrictlySortedUnique(BY_KEY, us, vs);
  }

  /** Two values have the same canonical text exactly when they mean the same. */
  lemma CanonicalIsInjective(a: Json, b: Json)
    requires WellFormed(a) && WellFormed(b)
    ensures Canonical(a) == Canonical(b) <==> Meaning(a) == Meaning(b)
  {
    SortKeysKeeps(a);
    SortKeysKeeps(b);
    if Canonical(a) == Canonical(b) {
      PrintIsInjective(SortKeys(a), SortKeys(b));
    }
    if Meaning(a) == Meaning(b) {
      MeaningDeterminesSorted(a, b);
    }
  }

  /** Reading the canonical text back gives a value that means the same. */
  lemma CanonicalRoundTrip(j: Json)
    requires WellFormed(j)
    ensures var r := ParseValue(Canonical(j));
            r.Some? && r.value.1 == "" && Meaning(r.value.0) == Meaning(j)
  {
    SortKeysKeeps(j);
    ParsePrint(SortKeys(j), "");
    assert Canonical(j) + "" == Canonical(j);
  }

  // ---------------------------------------------------------------- which tree and which text it is

  /** Sorting leaves a tree alone whose keys ascend already. */
  lemma {:induction false} AscendingIsSorted(j: Json)
    requires WellFormed(j) && KeysAscend(j)
    ensures SortKeys(j) == j
    decreases j
  {
    match j
    case Arr(items) =>
      forall i | 0 <= i < |items| ensures SortItems(items)[i] == items[i] {
        SortItemAt(items, i);
        AscendingIsSorted(items[i]);
      }
      assert SortItems(items) == items;
    case Obj(fields) =>
      forall i | 0 <= i < |fields| ensures SortValues(fields)[i] == fields[i] {
        SortValueAt(fields, i);
        AscendingIsSorted(fields[i].value);
      }
      assert SortValues(fields) == fields;
      SortedFields(fields);
      KeyOrder();
      forall i, k | 0 <= i < k < |fields| ensures !BY_KEY(fields[k], fields[i]) {
        AtMostIsLexicographic(fields[i].key, fields[k].key);
        AtMostTotal(fields[i].key, fields[k].key);
      }
      StrictlySortedUnique(BY_KEY, fields, StableSort(BY_KEY, fields));
    case _ =>
  }

  /** The canonical text is that of the one tree that means the same and whose keys ascend at every depth. */
  lemma CanonicalPrintsTheSortedTree(j: Json, k: Json)
    requires WellFormed(j) && WellFormed(k)
    requires KeysAscend(k) && Meaning(k) == Meaning(j)
    ensures Canonical(j) == Print(k)
  {
    MeaningDeterminesSorted(j, k);
    AscendingIsSorted(k);
  }

  lemma TwoFieldsText(f: Field, g: Field)
    ensures Print(Obj([f, g]))
            == "{" + Quote(f.key) + ":" + Print(f.value) + "," + (Quote(g.key) + ":" + Print(g.value) + "}")
  {
    ObjectTexts(g, []);
    ObjectTexts(f, [g]);
    assert [g] + [] == [g] && [f] + [g] == [f, g];
    var last := Quote(g.key) + ":" + Print(g.value) + "}";
    assert Print(Obj([g])) == "{" + last && Print(Obj([g]))[1..] == last;
  }

  lemma TwoFieldsMeaning(f: Field, g: Field)
    ensures MeaningFields([f, g]) == map[][g.key := Meaning(g.value)][f.key := Meaning(f.value)]
  {
    assert [f, g][1..] == [g] && [g][1..] == [];
    assert MeaningFields([g]) == MeaningFields([])[g.key := Meaning(g.value)];
  }

  lemma TwoFieldsSorted(f: Field, g: Field)
    requires WellFormed(f.value) && WellFormed(g.value) && Precedes(g.key, f.key)
    ensures var k := Obj([Field(g.key, SortKeys(g.value)), Field(f.key, SortKeys(f.value))]);
            WellFormed(Obj([f, g])) && WellFormed(k) && KeysAscend(k) && Meaning(k) == Meaning(Obj([f, g]))
  {
    AtMostIsLexicographic(g.key, f.key);
    AtMostIsLexicographic(f.key, g.key);
    KeysDiffer(g.key, f.key);
    SortKeysKeeps(f.value);
    SortKeysKeeps(g.value);
    SortedKeysAscend(f.value);
    SortedKeysAscend(g.value);
    TwoFieldsMeaning(f, g);
    TwoFieldsMeaning(Field(g.key, SortKeys(g.value)), Field(f.key, SortKeys(f.value)));
  }

  lemma KeysDiffer(a: string, b: string)
    requires Precedes(a, b)
    ensures a != b
  {
    if k :| 0 <= k < |a| && k < |b| && a[..k] == b[..k] && a[k] < b[k] {
      assert a[k] != b[k];
    }
  }

  /** An object of two fields in the wrong order. */
  lemma TwoFieldsSwap(f: Field, g: Field)
    requires WellFormed(f.value) && WellFormed(g.value) && Precedes(g.key, f.key)
    ensures Canonical(Obj([f, g]))
            == "{" + Quote(g.key) + ":" + Canonical(g.value) + "," + (Quote(f.key) + ":" + Canonical(f.value) + "}")
  {
    var f', g' := Field(f.key, SortKeys(f.value)), Field(g.key, SortKeys(g.value));
    TwoFieldsSorted(f, g);
    CanonicalPrintsTheSortedTree(Obj([f, g]), Obj([g', f']));
    TwoFieldsText(g', f');
  }

  /** An instance to the letter: `{"id":"echo","version":"1.0.0"}`. */
  lemma CanonicalSample()
    ensures Canonical(Obj([Field("version", Str("1.0.0")), Field("id", Str("echo"))]))
            == "{" + "\"id\"" + ":" + "\"echo\"" + "," + ("\"version\"" + ":" + "\"1.0.0\"" + "}")
  {
    var f, g := Field("version", Str("1.0.0")), Field("id", Str("echo"));
    assert Precedes("id", "version") by {
      assert "id"[..0] == "version"[..0] && "id"[0] < "version"[0];
    }
    TwoFieldsSwap(f, g);
    QuotedId();
    QuotedName();
    QuotedVersionKey();
    QuotedVersion();
    assert Canonical(Str("echo")) == Quote("echo");
    assert Canonical(Str("1.0.0")) == Quote("1.0.0");
  }

  lemma QuotedId()
    ensures Quote("id") == "\"id\""
  {
    PlainText("id");
  }

  lemma QuotedVersionKey()
    ensures Quote("version") == "\"version\""
  {
    PlainText("version");
  }

  lemma QuotedName()
    ensures Quote("echo") == "\"echo\""
  {
    PlainText("echo");
  }

  lemma QuotedVersion()
    ensures Quote("1.0.0") == "\"1.0.0\""
  {
    PlainText("1.0.0");
  }
}
