/**
 Catalogs as src/store.py keeps them: insertion-ordered dictionaries keyed by manifest id, read from
 and written to JSON files, in two layers (an immutable base and a rewritable local file).

 A dictionary is the list of its values, with pairwise different ids.  The reference is `Layers`, a
 pair of maps each with the order of its keys; `ReplayMatchesLayers` shows that every sequence of
 store operations on files gives the results and the merged view, order included, of the same
 operations on that pair.
 */
module Catalog {
  import opened Wrappers
  import opened Manifests

  // ---------------------------------------------------------------- ordered dictionaries

  function Lookup(c: seq<Manifest>, id: string): Option<Manifest> {
    if c == [] then None
    else if c[0].id == id then Some(c[0])
    else Lookup(c[1..], id)
  }

  predicate Has(c: seq<Manifest>, id: string) {
    Lookup(c, id).Some?
  }

  predicate Distinct(c: seq<Manifest>) {
    c == [] || (!Has(c[1..], c[0].id) && Distinct(c[1..]))
  }

  /** `d[m.id] = m`: in place when the key exists, at the end otherwise. */
  function Put(c: seq<Manifest>, m: Manifest): seq<Manifest> {
    if c == [] then [m]
    else if c[0].id == m.id then [m] + c[1..]
    else [c[0]] + Put(c[1..], m)
  }

  /** `d.pop(id, None)` */
  function Drop(c: seq<Manifest>, id: string): seq<Manifest> {
    if c == [] then []
    else if c[0].id == id then c[1..]
    else [c[0]] + Drop(c[1..], id)
  }

  /** `merged = dict(base); merged.update(local)` */
  function Merge(base: seq<Manifest>, local: seq<Manifest>): seq<Manifest>
    decreases |local|
  {
    if local == [] then base else Merge(Put(base, local[0]), local[1..])
  }

  /** The keys, in insertion order. */
  function Ids(c: seq<Manifest>): seq<string> {
    if c == [] then [] else [c[0].id] + Ids(c[1..])
  }

  lemma {:induction false} LookupFindsItsId(c: seq<Manifest>, id: string)
    ensures Has(c, id) ==> Lookup(c, id).value.id == id && Lookup(c, id).value in c
    ensures Has(c, id) <==> id in Ids(c)
  {
    if c != [] {
      LookupFindsItsId(c[1..], id);
    }
  }

  lemma {:induction false} LookupIsTheEntry(c: seq<Manifest>, id: string, m: Manifest)
    requires Distinct(c)
    ensures Lookup(c, id) == Some(m) <==> m in c && m.id == id
  {
    if c != [] {
      LookupIsTheEntry(c[1..], id, m);
      LookupIsTheEntry(c[1..], c[0].id, m);
    }
  }

  lemma {:induction false} PutSpec(c: seq<Manifest>, m: Manifest, id: string)
    ensures Lookup(Put(c, m), id) == if id == m.id then Some(m) else Lookup(c, id)
    ensures Ids(Put(c, m)) == if Has(c, m.id) then Ids(c) else Ids(c) + [m.id]
    ensures Distinct(c) ==> Distinct(Put(c, m))
  {
    if c != [] {
      PutSpec(c[1..], m, id);
      PutSpec(c[1..], m, c[0].id);
    }
  }

  lemma {:induction false} DropSpec(c: seq<Manifest>, gone: string, id: string)
    requires Distinct(c)
    ensures Lookup(Drop(c, gone), id) == if id == gone then None else Lookup(c, id)
    ensures Ids(Drop(c, gone)) == Without(Ids(c), {gone})
    ensures Distinct(Drop(c, gone))
  {
    if c != [] {
      DropSpec(c[1..], gone, id);
      DropSpec(c[1..], gone, c[0].id);
      if c[0].id == gone {
        LookupFindsItsId(c[1..], gone);
        NothingToDrop(Ids(c[1..]), {gone});
      }
    }
  }

  /** The keys that are not in a set, in their order. */
  function Without(keys: seq<string>, gone: set<string>): seq<string> {
    if keys == [] then [] else (if keys[0] in gone then [] else [keys[0]]) + Without(keys[1..], gone)
  }

  lemma {:induction false} NothingToDrop(keys: seq<string>, gone: set<string>)
    requires forall k :: k in keys ==> k !in gone
    ensures Without(keys, gone) == keys
  {
    if keys != [] {
      NothingToDrop(keys[1..], gone);
    }
  }

  lemma {:induction false} MergeSpec(base: seq<Manifest>, local: seq<Manifest>, id: string)
    requires Distinct(local)
    ensures Lookup(Merge(base, local), id) == if Has(local, id) then Lookup(local, id) else Lookup(base, id)
    ensures Distinct(base) ==> Distinct(Merge(base, local))
    decreases |local|
  {
    if local != [] {
      PutSpec(base, local[0], id);
      MergeSpec(Put(base, local[0]), local[1..], id);
    }
  }

  /** Base entries keep their places; entries only the local layer has follow in local order. */
  lemma {:induction false} MergeOrder(base: seq<Manifest>, local: seq<Manifest>)
    requires Distinct(local)
    ensures Ids(Merge(base, local)) == Ids(base) + Without(Ids(local), Keys(base))
    decreases |local|
  {
    if local != [] {
      var m, rest := local[0], local[1..];
      PutSpec(base, m, m.id);
      LookupFindsItsId(base, m.id);
      LookupFindsItsId(rest, m.id);
      MergeOrder(Put(base, m), rest);
      IrrelevantKey(Ids(rest), Keys(base), m.id);
      assert Keys(Put(base, m)) == Keys(base) + {m.id};
    }
  }

  function Keys(c: seq<Manifest>): set<string> {
    set id | id in Ids(c)
  }

  lemma {:induction false} IrrelevantKey(keys: seq<string>, gone: set<string>, id: string)
    requires id !in keys
    ensures Without(keys, gone + {id}) == Without(keys, gone)
  {
    if keys != [] {
      IrrelevantKey(keys[1..], gone, id);
    }
  }

  // ---------------------------------------------------------------- catalog files

  datatype Item = NotADict | Dict(m: Manifest)

  /** What `json.loads` can find at a catalog path.  A bare list is `RootNotADict`. */
  datatype CatalogFile =
    | Missing
    | Unparsable
    | RootNotADict
    | NoCapabilities
    | CapabilitiesNotAList
    | Items(items: seq<Item>)

  function LoadItems(valid: Schema, items: seq<Item>, out: seq<Manifest>): Result<seq<Manifest>>
    decreases |items|
  {
    if items == [] then Ok(out)
    else match items[0]
      case NotADict => LoadItems(valid, items[1..], out)
      case Dict(m) =>
        if !valid(m) then Err(BadManifest)
        else LoadItems(valid, items[1..], if m.id == "" then out else Put(out, m))
  }

  function Load(valid: Schema, file: CatalogFile): Result<seq<Manifest>> {
    match file
    case Missing => Ok([])
    case NoCapabilities => Ok([])
    case Items(items) => LoadItems(valid, items, [])
    case _ => Err(BadManifest)
  }

  function AsItems(c: seq<Manifest>): seq<Item> {
    seq(|c|, i requires 0 <= i < |c| => Dict(c[i]))
  }

  function Save(c: seq<Manifest>): CatalogFile {
    Items(AsItems(c))
  }

  /** Everything that can be in memory after a successful load. */
  ghost predicate Good(valid: Schema, c: seq<Manifest>) {
    Distinct(c) && forall m :: m in c ==> valid(m) && m.id != ""
  }

  lemma {:induction false} PutMembers(c: seq<Manifest>, m: Manifest)
    ensures forall x :: x in Put(c, m) ==> x == m || x in c
  {
    if c != [] {
      PutMembers(c[1..], m);
    }
  }

  lemma {:induction false} DropMembers(c: seq<Manifest>, id: string)
    ensures forall x :: x in Drop(c, id) ==> x in c
  {
    if c != [] {
      DropMembers(c[1..], id);
    }
  }

  lemma PutGood(valid: Schema, c: seq<Manifest>, m: Manifest)
    requires Good(valid, c) && valid(m) && m.id != ""
    ensures Good(valid, Put(c, m))
  {
    PutSpec(c, m, m.id);
    PutMembers(c, m);
  }

  lemma DropGood(valid: Schema, c: seq<Manifest>, id: string)
    requires Good(valid, c)
    ensures Good(valid, Drop(c, id))
  {
    DropSpec(c, id, id);
    DropMembers(c, id);
  }

  lemma {:induction false} LoadItemsGood(valid: Schema, items: seq<Item>, out: seq<Manifest>)
    requires Good(valid, out)
    ensures LoadItems(valid, items, out).Ok? ==> Good(valid, LoadItems(valid, items, out).value)
    decreases |items|
  {
    if items != [] {
      match items[0]
      case NotADict =>
        LoadItemsGood(valid, items[1..], out);
      case Dict(m) =>
        if valid(m) {
          if m.id != "" {
            PutGood(valid, out, m);
          }
          LoadItemsGood(valid, items[1..], if m.id == "" then out else Put(out, m));
        }
    }
  }

  lemma LoadGood(valid: Schema, file: CatalogFile)
    ensures Load(valid, file).Ok? ==> Good(valid, Load(valid, file).value)
  {
    if file.Items? {
      LoadItemsGood(valid, file.items, []);
    }
  }

  // ---- what a catalog file says

  ghost predicate ItemHas(items: seq<Item>, k: int, id: string) {
    0 <= k < |items| && items[k].Dict? && items[k].m.id == id
  }

  ghost predicate LastItem(items: seq<Item>, k: int, id: string) {
    ItemHas(items, k, id) && forall j :: k < j < |items| ==> !ItemHas(items, j, id)
  }

  /** The first item called `a` comes before every item called `b`. */
  ghost predicate ComesFirst(items: seq<Item>, a: string, b: string) {
    exists k :: ItemHas(items, k, a) && forall j :: 0 <= j <= k ==> !ItemHas(items, j, b)
  }

  lemma {:induction false} ItemsLoadWhenValid(valid: Schema, items: seq<Item>, out: seq<Manifest>)
    ensures LoadItems(valid, items, out).Ok? <==> forall k :: 0 <= k < |items| && items[k].Dict? ==> valid(items[k].m)
    ensures LoadItems(valid, items, out).Err? ==> LoadItems(valid, items, out).error == BadManifest
    decreases |items|
  {
    if items != [] {
      var rest := items[1..];
      assert forall k :: 0 <= k < |rest| ==> rest[k] == items[k + 1];
      match items[0]
      case NotADict => ItemsLoadWhenValid(valid, rest, out);
      case Dict(m) => if valid(m) { ItemsLoadWhenValid(valid, rest, if m.id == "" then out else Put(out, m)); }
      assert forall k :: 0 < k < |items| ==> items[k] == rest[k - 1];
    }
  }

  /** The last item called `id` gives its value, whatever was there before. */
  lemma {:induction false} LastItemCounts(valid: Schema, items: seq<Item>, out: seq<Manifest>, id: string)
    requires id != "" && LoadItems(valid, items, out).Ok?
    ensures var found := Lookup(LoadItems(valid, items, out).value, id);
            && (forall k :: LastItem(items, k, id) ==> found == Some(items[k].m))
            && ((forall k :: !ItemHas(items, k, id)) ==> found == Lookup(out, id))
    decreases |items|
  {
    if items != [] {
      var rest := items[1..];
      var out' := if items[0].Dict? && items[0].m.id != "" then Put(out, items[0].m) else out;
      if items[0].Dict? && items[0].m.id != "" {
        PutSpec(out, items[0].m, id);
      }
      assert LoadItems(valid, items, out) == LoadItems(valid, rest, out');
      LastItemCounts(valid, rest, out', id);
      assert forall k :: ItemHas(rest, k, id) ==> ItemHas(items, k + 1, id);
      forall k | LastItem(items, k, id) ensures Lookup(LoadItems(valid, items, out).value, id) == Some(items[k].m) {
        if k > 0 {
          assert LastItem(rest, k - 1, id);
        }
      }
      if forall k :: !ItemHas(items, k, id) {
        assert !ItemHas(items, 0, id);
      }
    }
  }

  lemma {:induction false} DistinctIds(c: seq<Manifest>)
    requires Distinct(c)
    ensures forall i, j :: 0 <= i < j < |Ids(c)| ==> Ids(c)[i] != Ids(c)[j]
  {
    if c != [] {
      DistinctIds(c[1..]);
      LookupFindsItsId(c[1..], c[0].id);
    }
  }

  lemma LaterItemsComeFirst(items: seq<Item>, a: string, b: string)
    requires items != [] && ComesFirst(items[1..], a, b) && !ItemHas(items, 0, b)
    ensures ComesFirst(items, a, b)
  {
    var rest := items[1..];
    var k :| ItemHas(rest, k, a) && forall j :: 0 <= j <= k ==> !ItemHas(rest, j, b);
    assert ItemHas(items, k + 1, a);
    forall j | 0 <= j <= k + 1 ensures !ItemHas(items, j, b) {
      assert j > 0 ==> !ItemHas(rest, j - 1, b);
    }
  }

  /** Ids keep the places they have; new ones follow in the order of their first items. */
  lemma {:induction false} FirstItemsGiveOrder(valid: Schema, items: seq<Item>, out: seq<Manifest>)
    requires Distinct(out) && LoadItems(valid, items, out).Ok?
    ensures var ids, n := Ids(LoadItems(valid, items, out).value), |Ids(out)|;
            && Ids(out) <= ids
            && (forall i, j :: 0 <= i < j < |ids| ==> ids[i] != ids[j])
            && (forall i :: n <= i < |ids| ==> ids[i] != "")
            && (forall i, j :: n <= i < j < |ids| ==> ComesFirst(items, ids[i], ids[j]))
    decreases |items|
  {
    if items == [] {
      DistinctIds(out);
    } else {
      var rest := items[1..];
      var out' := if items[0].Dict? && items[0].m.id != "" then Put(out, items[0].m) else out;
      var ids, n := Ids(LoadItems(valid, items, out).value), |Ids(out)|;
      if items[0].Dict? && items[0].m.id != "" {
        PutSpec(out, items[0].m, "");
        LookupFindsItsId(out, items[0].m.id);
      }
      assert LoadItems(valid, items, out) == LoadItems(valid, rest, out');
      FirstItemsGiveOrder(valid, rest, out');
      if items[0].Dict? && items[0].m.id != "" {
        var x :| 0 <= x < |Ids(out')| && Ids(out')[x] == items[0].m.id;
        assert ids[x] == items[0].m.id && x <= n;
      }
      forall i, j | n <= i < j < |ids| ensures ComesFirst(items, ids[i], ids[j]) {
        assert !ItemHas(items, 0, ids[j]);
        if i >= |Ids(out')| {
          LaterItemsComeFirst(items, ids[i], ids[j]);
        } else {
          assert ItemHas(items, 0, ids[i]);
        }
      }
    }
  }

  /**
   What loading comes to.  A missing file and one without a list are empty; a list loads exactly when every
   object in it is valid, whatever else it holds; the last object with an id is its value, and ids stand in
   the order of their first objects.
   */
  lemma LoadDecides(valid: Schema, file: CatalogFile, id: string)
    requires id != ""
    ensures var r := Load(valid, file);
            && (r.Ok? <==> || file == Missing || file == NoCapabilities
                           || (file.Items? && forall k :: 0 <= k < |file.items| && file.items[k].Dict? ==> valid(file.items[k].m)))
            && (r.Err? ==> r.error == BadManifest)
            && (r.Ok? && !file.Items? ==> r.value == [])
            && (r.Ok? && file.Items? ==>
                  && (forall k :: LastItem(file.items, k, id) ==> Lookup(r.value, id) == Some(file.items[k].m))
                  && ((forall k :: !ItemHas(file.items, k, id)) ==> Lookup(r.value, id) == None)
                  && (forall i, j :: 0 <= i < j < |Ids(r.value)| ==> ComesFirst(file.items, Ids(r.value)[i], Ids(r.value)[j])))
  {
    if file.Items? {
      ItemsLoadWhenValid(valid, file.items, []);
      if Load(valid, file).Ok? {
        LastItemCounts(valid, file.items, [], id);
        FirstItemsGiveOrder(valid, file.items, []);
      }
    }
  }

  lemma {:induction false} PutAppends(c: seq<Manifest>, m: Manifest)
    requires !Has(c, m.id)
    ensures Put(c, m) == c + [m]
  {
    if c != [] {
      PutAppends(c[1..], m);
      assert c == [c[0]] + c[1..];
    }
  }

  lemma {:induction false} DistinctPrefix(c: seq<Manifest>, d: seq<Manifest>, id: string)
    ensures Distinct(c + d) ==> Distinct(c)
    ensures Distinct(c + d) && d != [] ==> !Has(c, d[0].id)
    ensures Lookup(c + d, id) == if Has(c, id) then Lookup(c, id) else Lookup(d, id)
  {
    if c == [] {
      assert c + d == d;
    } else {
      assert (c + d)[1..] == c[1..] + d;
      DistinctPrefix(c[1..], d, id);
      DistinctPrefix(c[1..], d, c[0].id);
      if d != [] {
        DistinctPrefix(c[1..], d, d[0].id);
        assert Lookup(d, d[0].id).Some?;
      }
    }
  }

  lemma {:induction false} LoadAsItems(valid: Schema, out: seq<Manifest>, c: seq<Manifest>)
    requires Good(valid, out + c)
    ensures LoadItems(valid, AsItems(c), out) == Ok(out + c)
    decreases |c|
  {
    if c == [] {
      assert out + c == out;
    } else {
      assert c[0] in out + c;
      DistinctPrefix(out, c, c[0].id);
      PutAppends(out, c[0]);
      assert (out + [c[0]]) + c[1..] == out + c;
      assert AsItems(c)[1..] == AsItems(c[1..]);
      LoadAsItems(valid, out + [c[0]], c[1..]);
    }
  }

  /** Writing a catalog and loading it back gives the same ordered dictionary. */
  lemma SaveLoadRoundTrip(valid: Schema, c: seq<Manifest>)
    requires Good(valid, c)
    ensures Load(valid, Save(c)) == Ok(c)
  {
    assert [] + c == c;
    LoadAsItems(valid, [], c);
  }

  // ---------------------------------------------------------------- store operations on files

  datatype StoreOp =
    | Upsert(m: Manifest)
    | Delete(id: string)
    | SetEnabled(id: string, enabled: bool)
    | RemoveCapability(id: string)   // the catalog half of CapabilityResolver.remove
    | Reset

  function LoadMerged(valid: Schema, base: CatalogFile, local: CatalogFile): Result<seq<Manifest>> {
    var b :- Load(valid, base);
    var l :- Load(valid, local);
    Ok(Merge(b, l))
  }

  function UpsertFile(valid: Schema, local: CatalogFile, m: Manifest): (CatalogFile, Result<bool>) {
    if !valid(m) || m.id == "" then (local, Err(BadManifest))
    else match Load(valid, local)
      case Err(e) => (local, Err(e))
      case Ok(l) => (Save(Put(l, m)), Ok(true))
  }

  function DeleteFile(valid: Schema, local: CatalogFile, id: string): (CatalogFile, Result<bool>) {
    match Load(valid, local)
    case Err(e) => (local, Err(e))
    case Ok(l) => if Has(l, id) then (Save(Drop(l, id)), Ok(true)) else (local, Ok(false))
  }

  function SetEnabledFile(valid: Schema, base: CatalogFile, local: CatalogFile, id: string, enabled: bool)
    : (CatalogFile, Result<bool>)
  {
    match LoadMerged(valid, base, local)
    case Err(e) => (local, Err(e))
    case Ok(merged) =>
      match Lookup(merged, id)
      case None => (local, Err(NotFound))
      case Some(m) => UpsertFile(valid, local, m.(enabled := Some(enabled)))
  }

  function RemoveFile(valid: Schema, base: CatalogFile, local: CatalogFile, id: string): (CatalogFile, Result<bool>) {
    match LoadMerged(valid, base, local)
    case Err(e) => (local, Err(e))
    case Ok(merged) =>
      if !Has(merged, id) then (local, Ok(false))
      else match DeleteFile(valid, local, id)
        case (local', Ok(true)) => (local', Ok(true))
        case (_, Ok(false)) => SetEnabledFile(valid, base, local, id, false)
        case (_, Err(e)) => (local, Err(e))
  }

  function ApplyFile(valid: Schema, base: CatalogFile, local: CatalogFile, op: StoreOp): (CatalogFile, Result<bool>) {
    match op
    case Upsert(m) => UpsertFile(valid, local, m)
    case Delete(id) => DeleteFile(valid, local, id)
    case SetEnabled(id, b) => SetEnabledFile(valid, base, local, id, b)
    case RemoveCapability(id) => RemoveFile(valid, base, local, id)
    case Reset => (Missing, Ok(true))
  }

  /**
   An operation that fails or finds nothing to do leaves the file alone, and nothing but a reset
   replaces a local file that does not load.
   */
  lemma FailuresLeaveTheFile(valid: Schema, base: CatalogFile, local: CatalogFile, op: StoreOp)
    ensures var (f, r) := ApplyFile(valid, base, local, op);
            && (r != Ok(true) ==> f == local)
            && (Load(valid, local).Err? && op != Reset ==> f == local && r == Err(BadManifest))
  {
    LoadDecides(valid, local, "x");
    LoadDecides(valid, base, "x");
  }

  // ---------------------------------------------------------------- the two-layer reference

  /** An insertion-ordered dictionary: a map and the order of its keys. */
  datatype Ordered = Ordered(keys: seq<string>, at: map<string, Manifest>) {

    /** A new key goes to the end; an old one keeps its place. */
    ghost function With(id: string, m: Manifest): Ordered {
      Ordered(if id in at then keys else keys + [id], at[id := m])
    }

    ghost function Less(id: string): Ordered {
      Ordered(Without(keys, {id}), at - {id})
    }

    /** `dict(this)` updated with another one. */
    ghost function UpdatedWith(other: Ordered): Ordered {
      Ordered(keys + Without(other.keys, at.Keys), at + other.at)
    }
  }

  const EMPTY := Ordered([], map[])

  /** The specification: two ordered dictionaries; the local layer wins. */
  datatype Layers = Layers(base: Ordered, local: Ordered) {

    /** Base keys in base order, then those only the local layer has, in local order. */
    ghost function View(): Ordered {
      base.UpdatedWith(local)
    }
  }

  ghost function ApplyLayers(valid: Schema, s: Layers, op: StoreOp): (Layers, Result<bool>) {
    match op
    case Upsert(m) =>
      if !valid(m) || m.id == "" then (s, Err(BadManifest)) else (s.(local := s.local.With(m.id, m)), Ok(true))
    case Delete(id) => (s.(local := s.local.Less(id)), Ok(id in s.local.at))
    case SetEnabled(id, b) =>
      if id !in s.View().at then (s, Err(NotFound))
      else
        var m := s.View().at[id].(enabled := Some(b));
        if valid(m) then (s.(local := s.local.With(id, m)), Ok(true)) else (s, Err(BadManifest))
    case RemoveCapability(id) =>
      if id in s.local.at then (s.(local := s.local.Less(id)), Ok(true))
      else if id in s.base.at then
        var m := s.base.at[id].(enabled := Some(false));
        if valid(m) then (s.(local := s.local.With(id, m)), Ok(true)) else (s, Err(BadManifest))
      else (s, Ok(false))
    case Reset => (s.(local := EMPTY), Ok(true))
  }

  /** A catalog as the reference sees it. */
  ghost function AsOrdered(c: seq<Manifest>): Ordered {
    Ordered(Ids(c), AsMap(c))
  }

  ghost function AsMap(c: seq<Manifest>): map<string, Manifest> {
    if c == [] then map[] else AsMap(c[1..])[c[0].id := c[0]]
  }

  lemma {:induction false} AsMapLookup(c: seq<Manifest>, id: string)
    ensures id in AsMap(c) <==> Has(c, id)
    ensures Has(c, id) ==> AsMap(c)[id] == Lookup(c, id).value && AsMap(c)[id].id == id
  {
    if c != [] {
      AsMapLookup(c[1..], id);
    }
  }

  lemma PutIsWith(c: seq<Manifest>, m: Manifest)
    ensures AsOrdered(Put(c, m)) == AsOrdered(c).With(m.id, m)
  {
    var d, e := AsMap(Put(c, m)), AsMap(c)[m.id := m];
    forall id ensures (id in d <==> id in e) && (id in d ==> d[id] == e[id]) {
      PutSpec(c, m, id);
      AsMapLookup(c, id);
      AsMapLookup(Put(c, m), id);
    }
    assert d == e;
    PutSpec(c, m, m.id);
    AsMapLookup(c, m.id);
  }

  lemma DropIsLess(c: seq<Manifest>, gone: string)
    requires Distinct(c)
    ensures AsOrdered(Drop(c, gone)) == AsOrdered(c).Less(gone)
  {
    var d, e := AsMap(Drop(c, gone)), AsMap(c) - {gone};
    forall id ensures (id in d <==> id in e) && (id in d ==> d[id] == e[id]) {
      DropSpec(c, gone, id);
      AsMapLookup(c, id);
      AsMapLookup(Drop(c, gone), id);
    }
    assert d == e;
    DropSpec(c, gone, gone);
  }

  lemma MergeIsUpdate(base: seq<Manifest>, local: seq<Manifest>)
    requires Distinct(local)
    ensures AsOrdered(Merge(base, local)) == AsOrdered(base).UpdatedWith(AsOrdered(local))
  {
    var d, e := AsMap(Merge(base, local)), AsMap(base) + AsMap(local);
    forall id ensures (id in d <==> id in e) && (id in d ==> d[id] == e[id]) {
      MergeSpec(base, local, id);
      AsMapLookup(base, id);
      AsMapLookup(local, id);
      AsMapLookup(Merge(base, local), id);
    }
    assert d == e;
    MergeOrder(base, local);
    MapKeys(base);
  }

  lemma MapKeys(c: seq<Manifest>)
    ensures AsMap(c).Keys == Keys(c)
  {
    forall id ensures id in AsMap(c) <==> id in Ids(c) {
      AsMapLookup(c, id);
      LookupFindsItsId(c, id);
    }
  }

  ghost predicate Represents(valid: Schema, base: CatalogFile, local: CatalogFile, s: Layers) {
    && Load(valid, base).Ok? && AsOrdered(Load(valid, base).value) == s.base
    && Load(valid, local).Ok? && AsOrdered(Load(valid, local).value) == s.local
  }

  lemma UpsertMatches(valid: Schema, base: CatalogFile, local: CatalogFile, s: Layers, m: Manifest)
    requires Represents(valid, base, local, s)
    ensures var (f, r) := UpsertFile(valid, local, m);
            var (s', r') := ApplyLayers(valid, s, Upsert(m));
            r == r' && Represents(valid, base, f, s')
  {
    LoadGood(valid, local);
    var l := Load(valid, local).value;
    if valid(m) && m.id != "" {
      PutGood(valid, l, m);
      SaveLoadRoundTrip(valid, Put(l, m));
      PutIsWith(l, m);
    }
  }

  lemma DeleteMatches(valid: Schema, base: CatalogFile, local: CatalogFile, s: Layers, id: string)
    requires Represents(valid, base, local, s)
    ensures var (f, r) := DeleteFile(valid, local, id);
            var (s', r') := ApplyLayers(valid, s, Delete(id));
            r == r' && Represents(valid, base, f, s')
  {
    LoadGood(valid, local);
    var l := Load(valid, local).value;
    AsMapLookup(l, id);
    if Has(l, id) {
      DropGood(valid, l, id);
      SaveLoadRoundTrip(valid, Drop(l, id));
      DropIsLess(l, id);
    } else {
      LookupFindsItsId(l, id);
      NothingToDrop(Ids(l), {id});
      assert s.local.at - {id} == s.local.at;
    }
  }

  lemma MergedMatches(valid: Schema, base: CatalogFile, local: CatalogFile, s: Layers, id: string)
    requires Represents(valid, base, local, s)
    ensures LoadMerged(valid, base, local).Ok?
    ensures AsOrdered(LoadMerged(valid, base, local).value) == s.View()
    ensures var found := Lookup(LoadMerged(valid, base, local).value, id);
            found.Some? <==> id in s.base.at || id in s.local.at
    ensures var found := Lookup(LoadMerged(valid, base, local).value, id);
            found.Some? ==> found.value == s.View().at[id] && found.value.id == id
  {
    LoadGood(valid, base);
    LoadGood(valid, local);
    var b, l := Load(valid, base).value, Load(valid, local).value;
    MergeIsUpdate(b, l);
    AsMapLookup(Merge(b, l), id);
  }

  /** One operation on the files does what it does on the two dictionaries, order included, with the same result. */
  lemma ApplyMatches(valid: Schema, base: CatalogFile, local: CatalogFile, s: Layers, op: StoreOp)
    requires Represents(valid, base, local, s)
    ensures var (f, r) := ApplyFile(valid, base, local, op);
            var (s', r') := ApplyLayers(valid, s, op);
            r == r' && Represents(valid, base, f, s')
  {
    match op
    case Upsert(m) => UpsertMatches(valid, base, local, s, m);
    case Delete(id) => DeleteMatches(valid, base, local, s, id);
    case SetEnabled(id, b) => SetEnabledMatches(valid, base, local, s, id, b);
    case RemoveCapability(id) =>
      MergedMatches(valid, base, local, s, id);
      DeleteMatches(valid, base, local, s, id);
      SetEnabledMatches(valid, base, local, s, id, false);
    case Reset =>
  }

  lemma SetEnabledMatches(valid: Schema, base: CatalogFile, local: CatalogFile, s: Layers, id: string, b: bool)
    requires Represents(valid, base, local, s)
    ensures var (f, r) := SetEnabledFile(valid, base, local, id, b);
            var (s', r') := ApplyLayers(valid, s, SetEnabled(id, b));
            r == r' && Represents(valid, base, f, s')
  {
    MergedMatches(valid, base, local, s, id);
    var merged := LoadMerged(valid, base, local).value;
    if Has(merged, id) {
      var m := Lookup(merged, id).value.(enabled := Some(b));
      UpsertMatches(valid, base, local, s, m);
      LoadGood(valid, base);
      LoadGood(valid, local);
      MergeSpec(Load(valid, base).value, Load(valid, local).value, id);
      LookupFindsItsId(Load(valid, base).value, id);
      LookupFindsItsId(Load(valid, local).value, id);
    }
  }

  function ReplayFiles(valid: Schema, base: CatalogFile, local: CatalogFile, ops: seq<StoreOp>): CatalogFile
    decreases |ops|
  {
    if ops == [] then local
    else ReplayFiles(valid, base, ApplyFile(valid, base, local, ops[0]).0, ops[1..])
  }

  ghost function ReplayLayers(valid: Schema, s: Layers, ops: seq<StoreOp>): Layers
    decreases |ops|
  {
    if ops == [] then s else ReplayLayers(valid, ApplyLayers(valid, s, ops[0]).0, ops[1..])
  }

  /**
   Any sequence of operations gives the merged view of the same sequence on the two dictionaries: the
   same entries in the same order.
   */
  lemma {:induction false} ReplayMatchesLayers(
      valid: Schema, base: CatalogFile, local: CatalogFile, s: Layers, ops: seq<StoreOp>)
    requires Represents(valid, base, local, s)
    ensures var f := ReplayFiles(valid, base, local, ops);
            && Represents(valid, base, f, ReplayLayers(valid, s, ops))
            && LoadMerged(valid, base, f).Ok?
            && AsOrdered(LoadMerged(valid, base, f).value) == ReplayLayers(valid, s, ops).View()
    ensures ReplayLayers(valid, s, ops).base == s.base
    decreases |ops|
  {
    if ops == [] {
      MergedMatches(valid, base, local, s, "");
    } else {
      ApplyMatches(valid, base, local, s, ops[0]);
      ReplayMatchesLayers(valid, base, ApplyFile(valid, base, local, ops[0]).0,
                          ApplyLayers(valid, s, ops[0]).0, ops[1..]);
    }
  }

  // ---------------------------------------------------------------- removal and the base layer

  /** Removing an override uncovers the base entry. */
  lemma RemoveUncoversBase(valid: Schema, base: CatalogFile, local: CatalogFile, id: string)
    requires Load(valid, base).Ok? && Load(valid, local).Ok?
    requires Has(Load(valid, base).value, id) && Has(Load(valid, local).value, id)
    ensures var (f, r) := RemoveFile(valid, base, local, id);
            && r == Ok(true)
            && LoadMerged(valid, base, f).Ok?
            && Lookup(LoadMerged(valid, base, f).value, id) == Lookup(Load(valid, base).value, id)
  {
    var s := Layers(AsOrdered(Load(valid, base).value), AsOrdered(Load(valid, local).value));
    ApplyMatches(valid, base, local, s, RemoveCapability(id));
    AsMapLookup(Load(valid, base).value, id);
    AsMapLookup(Load(valid, local).value, id);
    var f := RemoveFile(valid, base, local, id).0;
    MergedMatches(valid, base, f, ApplyLayers(valid, s, RemoveCapability(id)).0, id);
  }

  /** Removing a base-only entry disables it, and `enforce_run` then refuses it on any channel. */
  lemma RemoveDisablesBaseEntry(valid: Schema, base: CatalogFile, local: CatalogFile, id: string, channel: Option<string>)
    requires SchemaLike(valid)
    requires Load(valid, base).Ok? && Load(valid, local).Ok?
    requires Has(Load(valid, base).value, id) && !Has(Load(valid, local).value, id)
    ensures var (f, r) := RemoveFile(valid, base, local, id);
            && r == Ok(true)
            && LoadMerged(valid, base, f).Ok?
            && var found := Lookup(LoadMerged(valid, base, f).value, id);
               found.Some? && Policy.EnforceRun(found.value, channel) == Err(PolicyDenied)
  {
    var b := Load(valid, base).value;
    var s := Layers(AsOrdered(b), AsOrdered(Load(valid, local).value));
    ApplyMatches(valid, base, local, s, RemoveCapability(id));
    AsMapLookup(b, id);
    AsMapLookup(Load(valid, local).value, id);
    LoadGood(valid, base);
    LookupFindsItsId(b, id);
    var f := RemoveFile(valid, base, local, id).0;
    MergedMatches(valid, base, f, ApplyLayers(valid, s, RemoveCapability(id)).0, id);
  }

  /** Two removals of a base-only entry cancel out: the entry is back as shipped. */
  lemma RemoveTwiceRestoresBase(valid: Schema, base: CatalogFile, local: CatalogFile, id: string)
    requires SchemaLike(valid)
    requires Load(valid, base).Ok? && Load(valid, local).Ok?
    requires Has(Load(valid, base).value, id) && !Has(Load(valid, local).value, id)
    ensures var f := ReplayFiles(valid, base, local, [RemoveCapability(id), RemoveCapability(id)]);
            && LoadMerged(valid, base, f).Ok?
            && Lookup(LoadMerged(valid, base, f).value, id) == Lookup(Load(valid, base).value, id)
  {
    RemoveDisablesBaseEntry(valid, base, local, id, None);
    var f := RemoveFile(valid, base, local, id).0;
    var ops := [RemoveCapability(id), RemoveCapability(id)];
    assert ops[1..] == [RemoveCapability(id)] && ops[1..][1..] == [];
    assert ReplayFiles(valid, base, local, ops) == ReplayFiles(valid, base, f, ops[1..]);
    assert ReplayFiles(valid, base, f, ops[1..]) == RemoveFile(valid, base, f, id).0;
    var b := Load(valid, base).value;
    var s := Layers(AsOrdered(b), AsOrdered(Load(valid, local).value));
    ApplyMatches(valid, base, local, s, RemoveCapability(id));
    AsMapLookup(b, id);
    AsMapLookup(Load(valid, local).value, id);
    LoadGood(valid, base);
    LookupFindsItsId(b, id);
    AsMapLookup(Load(valid, f).value, id);
    RemoveUncoversBase(valid, base, f, id);
  }
}
