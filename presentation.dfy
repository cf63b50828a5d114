/** Data the calendar page is rendered from: a colour per cabinet, cycling
    through a fixed palette, and the service variants grouped by the cabinet
    types their service requires. */
module Presentation {
  import opened Common
  import opened Models
  import opened Sorting
  import opened Text

  // --------------------------------------------------------- cabinet colours

  datatype CabinetColor = CabinetColor(bg: string, border: string, text: string)

  const Palette: seq<CabinetColor> := [
    CabinetColor("#3498db", "#2980b9", "#ffffff"),
    CabinetColor("#e74c3c", "#c0392b", "#ffffff"),
    CabinetColor("#2ecc71", "#27ae60", "#ffffff"),
    CabinetColor("#f39c12", "#d68910", "#ffffff"),
    CabinetColor("#9b59b6", "#8e44ad", "#ffffff"),
    CabinetColor("#1abc9c", "#16a085", "#ffffff"),
    CabinetColor("#e67e22", "#d35400", "#ffffff"),
    CabinetColor("#34495e", "#2c3e50", "#ffffff"),
    CabinetColor("#16a085", "#138d75", "#ffffff"),
    CabinetColor("#c0392b", "#a93226", "#ffffff"),
    CabinetColor("#2980b9", "#2471a3", "#ffffff"),
    CabinetColor("#8e44ad", "#7d3c98", "#ffffff"),
    CabinetColor("#d35400", "#ba4a00", "#ffffff"),
    CabinetColor("#27ae60", "#229954", "#ffffff"),
    CabinetColor("#2c3e50", "#1b2631", "#ffffff")
  ]

  /** `generate_cabinet_colors`: the cabinet at position i gets palette entry
      i mod 15; a later cabinet with the same id overwrites an earlier one. */
  function CabinetColors(cabinets: seq<Cabinet>): (r: map<Id, CabinetColor>)
    ensures r.Keys == set c | c in cabinets :: c.id
    ensures forall id :: id in r ==> r[id] in Palette && r[id].text == "#ffffff"
  {
    if cabinets == [] then map[]
    else
      var n := |cabinets| - 1;
      CabinetColors(cabinets[..n])[cabinets[n].id := Palette[n % |Palette|]]
  }

  predicate DistinctCabinetIds(cabinets: seq<Cabinet>) {
    forall i, j :: 0 <= i < j < |cabinets| ==> cabinets[i].id != cabinets[j].id
  }

  /** With distinct ids, the i-th cabinet's colour is palette entry i mod 15. */
  lemma {:induction false} CabinetColorsAt(cabinets: seq<Cabinet>, i: nat)
    requires DistinctCabinetIds(cabinets) && i < |cabinets|
    ensures CabinetColors(cabinets)[cabinets[i].id] == Palette[i % 15]
    decreases |cabinets|
  {
    var n := |cabinets| - 1;
    if i < n {
      var prefix := cabinets[..n];
      assert prefix[i] == cabinets[i];
      CabinetColorsAt(prefix, i);
    }
  }

  /** The 15 palette backgrounds are pairwise different. */
  lemma PaletteDistinct()
    ensures forall i, j :: 0 <= i < j < |Palette| ==> Palette[i].bg != Palette[j].bg
  {
  }

  /** Cabinets fewer than 15 positions apart get different background colours. */
  lemma NearbyCabinetsDiffer(cabinets: seq<Cabinet>, i: nat, j: nat)
    requires DistinctCabinetIds(cabinets) && i < j < |cabinets| && j - i < 15
    ensures CabinetColors(cabinets)[cabinets[i].id].bg != CabinetColors(cabinets)[cabinets[j].id].bg
  {
    CabinetColorsAt(cabinets, i);
    CabinetColorsAt(cabinets, j);
    ResiduesDiffer(i, j);
    PaletteDistinct();
  }

  lemma ResiduesDiffer(i: nat, j: nat)
    requires i < j && j - i < 15
    ensures i % 15 != j % 15
  {
    var q, r, d := i / 15, i % 15, j - i;
    assert i == 15 * q + r;
    if r + d < 15 {
      assert j == 15 * q + (r + d);
      assert j % 15 == r + d;
    } else {
      assert j == 15 * (q + 1) + (r + d - 15);
      assert j % 15 == r + d - 15;
    }
  }

  // ---------------------------------------------------- service variant groups

  datatype GroupKey = TypeKey(typeId: Id) | Unassigned

  datatype VariantGroup = VariantGroup(key: GroupKey, labelText: string, variants: seq<ServiceVariant>)

  const UnassignedLabel: string := "Без привязки к кабинету"

  /** Every variant's service and every cabinet type a service requires are
      stored (foreign keys). */
  predicate CatalogLinked(cat: Catalog) {
    (forall v :: v in cat.variants ==> FindService(cat.services, v.service).Some?)
    && (forall s, t :: s in cat.services && t in s.requiredCabinetTypes ==> FindCabinetType(cat.cabinetTypes, t).Some?)
  }

  function FindCabinetType(rows: seq<CabinetType>, id: int): (r: Option<CabinetType>)
    ensures r.Some? ==> r.value in rows && r.value.id == id
    ensures r.None? ==> forall t :: t in rows ==> t.id != id
  {
    if rows == [] then None
    else if rows[0].id == id then Some(rows[0])
    else FindCabinetType(rows[1..], id)
  }

  /** The cabinet types of the variant's service, in stored order. */
  function RequiredTypes(cat: Catalog, v: ServiceVariant): seq<Id>
    requires CatalogLinked(cat) && v in cat.variants
  {
    FindService(cat.services, v.service).value.requiredCabinetTypes
  }

  /** The groups a variant belongs in: one per cabinet type its service
      requires, or the unassigned group when it requires none. */
  predicate BelongsTo(cat: Catalog, v: ServiceVariant, key: GroupKey)
    requires CatalogLinked(cat) && v in cat.variants
  {
    if RequiredTypes(cat, v) == [] then key == Unassigned
    else key.TypeKey? && key.typeId in RequiredTypes(cat, v)
  }

  /** The keys the grouping loop visits for one variant, in order. */
  function KeysOf(cat: Catalog, v: ServiceVariant): (r: seq<GroupKey>)
    requires CatalogLinked(cat) && v in cat.variants
    ensures r != []
    ensures forall k :: k in r <==> BelongsTo(cat, v, k)
  {
    var types := RequiredTypes(cat, v);
    if types == [] then [Unassigned]
    else
      var r := seq(|types|, i requires 0 <= i < |types| => TypeKey(types[i]));
      assert forall i :: 0 <= i < |types| ==> r[i] == TypeKey(types[i]);
      r
  }

  function LowerKey(name: string): seq<int> { CodePoints(ToLower(name)) }

  function CabinetNames(cabinets: seq<Cabinet>, typeId: Id): (r: seq<string>)
    ensures forall n :: n in r <==> exists c :: c in cabinets && c.cabinetType == typeId && c.name == n
  {
    if cabinets == [] then []
    else (if cabinets[0].cabinetType == typeId then [cabinets[0].name] else []) + CabinetNames(cabinets[1..], typeId)
  }

  /** Names of the given cabinets of one type, sorted case-insensitively. */
  function NamesOfType(cabinets: seq<Cabinet>, typeId: Id): (r: seq<string>)
    ensures forall n :: n in r <==> exists c :: c in cabinets && c.cabinetType == typeId && c.name == n
    ensures SortedBy(r, LowerKey)
  {
    SortByMembers(CabinetNames(cabinets, typeId), LowerKey);
    SortBySorted(CabinetNames(cabinets, typeId), LowerKey);
    SortBy(CabinetNames(cabinets, typeId), LowerKey)
  }

  /** "Type (name, name, ...)", or the bare type name when no cabinet has it. */
  function TypeLabel(cat: Catalog, cabinets: seq<Cabinet>, typeId: Id): string
    requires FindCabinetType(cat.cabinetTypes, typeId).Some?
  {
    var name := FindCabinetType(cat.cabinetTypes, typeId).value.name;
    var names := NamesOfType(cabinets, typeId);
    if names == [] then name else name + " (" + Join(names, ", ") + ")"
  }

  function LabelOf(cat: Catalog, cabinets: seq<Cabinet>, key: GroupKey): string
    requires key.TypeKey? ==> FindCabinetType(cat.cabinetTypes, key.typeId).Some?
  {
    match key
    case Unassigned => UnassignedLabel
    case TypeKey(t) => TypeLabel(cat, cabinets, t)
  }

  function IndexOfKey(groups: seq<VariantGroup>, key: GroupKey): (r: Option<nat>)
    ensures r.Some? ==> r.value < |groups| && groups[r.value].key == key
    ensures r.None? ==> forall i :: 0 <= i < |groups| ==> groups[i].key != key
  {
    if groups == [] then None
    else if groups[0].key == key then Some(0)
    else match IndexOfKey(groups[1..], key)
      case None => None
      case Some(k) => Some(k + 1)
  }

  /** `groups.setdefault(key, ...)['variants'].append(v)`: a new group is
      labelled when it is created. */
  function AddTo(groups: seq<VariantGroup>, key: GroupKey, labelText: string, v: ServiceVariant): seq<VariantGroup> {
    match IndexOfKey(groups, key)
    case Some(k) => groups[k := groups[k].(variants := groups[k].variants + [v])]
    case None => groups + [VariantGroup(key, labelText, [v])]
  }

  function AddAll(cat: Catalog, cabinets: seq<Cabinet>, groups: seq<VariantGroup>, keys: seq<GroupKey>, v: ServiceVariant): seq<VariantGroup>
    requires forall k :: k in keys && k.TypeKey? ==> FindCabinetType(cat.cabinetTypes, k.typeId).Some?
    decreases |keys|
  {
    if keys == [] then groups
    else AddAll(cat, cabinets, AddTo(groups, keys[0], LabelOf(cat, cabinets, keys[0]), v), keys[1..], v)
  }

  lemma KeysOfLinked(cat: Catalog, v: ServiceVariant)
    requires CatalogLinked(cat) && v in cat.variants
    ensures forall k :: k in KeysOf(cat, v) && k.TypeKey? ==> FindCabinetType(cat.cabinetTypes, k.typeId).Some?
  {
    var s := FindService(cat.services, v.service).value;
    assert RequiredTypes(cat, v) == s.requiredCabinetTypes;
  }

  /** The grouping loop over the variants, before de-duplication. */
  function Collect(cat: Catalog, cabinets: seq<Cabinet>, variants: seq<ServiceVariant>): seq<VariantGroup>
    requires CatalogLinked(cat) && forall v :: v in variants ==> v in cat.variants
  {
    if variants == [] then []
    else
      var n := |variants| - 1;
      KeysOfLinked(cat, variants[n]);
      AddAll(cat, cabinets, Collect(cat, cabinets, variants[..n]), KeysOf(cat, variants[n]), variants[n])
  }

  ghost predicate DistinctVariantIds(variants: seq<ServiceVariant>) {
    forall i, j :: 0 <= i < j < |variants| ==> variants[i].id != variants[j].id
  }

  /** The de-duplication loop: keeps the first variant with each id not yet
      seen, in order. */
  function UniqueById(vs: seq<ServiceVariant>, seen: set<Id>): (r: seq<ServiceVariant>)
    ensures forall v :: v in r ==> v in vs && v.id !in seen
  {
    if vs == [] then []
    else if vs[0].id in seen then UniqueById(vs[1..], seen)
    else [vs[0]] + UniqueById(vs[1..], seen + {vs[0].id})
  }

  /** No id repeats after de-duplication. */
  lemma {:induction false} UniqueByIdDistinct(vs: seq<ServiceVariant>, seen: set<Id>)
    ensures DistinctVariantIds(UniqueById(vs, seen))
    decreases |vs|
  {
    if vs != [] {
      if vs[0].id in seen {
        UniqueByIdDistinct(vs[1..], seen);
      } else {
        var rest := UniqueById(vs[1..], seen + {vs[0].id});
        UniqueByIdDistinct(vs[1..], seen + {vs[0].id});
        var r := [vs[0]] + rest;
        forall i, j | 0 <= i < j < |r| ensures r[i].id != r[j].id {
          assert r[j] == rest[j - 1] && r[j] in rest;
          if i > 0 { assert r[i] == rest[i - 1]; }
        }
      }
    }
  }

  /** Nothing is lost by de-duplication: an id not yet seen keeps a variant. */
  lemma {:induction false} UniqueByIdCovers(vs: seq<ServiceVariant>, seen: set<Id>, v: ServiceVariant)
    requires v in vs && v.id !in seen
    ensures exists w :: w in UniqueById(vs, seen) && w.id == v.id
    decreases |vs|
  {
    var r := UniqueById(vs, seen);
    assert v == vs[0] || v in vs[1..] by { assert vs == [vs[0]] + vs[1..]; }
    if vs[0].id in seen {
      UniqueByIdCovers(vs[1..], seen, v);
    } else if v.id == vs[0].id {
      assert r[0] in r;
    } else {
      UniqueByIdCovers(vs[1..], seen + {vs[0].id}, v);
      var w :| w in UniqueById(vs[1..], seen + {vs[0].id}) && w.id == v.id;
      assert w in r;
    }
  }

  function GroupSortKey(g: VariantGroup): seq<int> {
    [if g.key.Unassigned? then 1 else 0] + LowerKey(g.labelText)
  }

  function Deduplicated(groups: seq<VariantGroup>): (r: seq<VariantGroup>)
    ensures |r| == |groups|
    ensures forall i :: 0 <= i < |groups| ==>
      r[i].key == groups[i].key && r[i].labelText == groups[i].labelText
      && r[i].variants == UniqueById(groups[i].variants, {})
  {
    seq(|groups|, i requires 0 <= i < |groups| => groups[i].(variants := UniqueById(groups[i].variants, {})))
  }

  /** `build_service_variant_groups`: grouped, de-duplicated, then sorted by
      (is unassigned, lower-cased label). */
  function BuildServiceVariantGroups(cat: Catalog, variants: seq<ServiceVariant>, cabinets: seq<Cabinet>): seq<VariantGroup>
    requires CatalogLinked(cat) && forall v :: v in variants ==> v in cat.variants
  {
    SortBy(Deduplicated(Collect(cat, cabinets, variants)), GroupSortKey)
  }

  // ----------------------------------------------------- grouping properties

  predicate DistinctKeys(groups: seq<VariantGroup>) {
    forall i, j :: 0 <= i < j < |groups| ==> groups[i].key != groups[j].key
  }

  /** Every group is non-empty and labelled after its key. */
  ghost predicate Labelled(cat: Catalog, cabinets: seq<Cabinet>, groups: seq<VariantGroup>) {
    forall g :: g in groups ==>
      (g.variants != []
       && (g.key.TypeKey? ==> FindCabinetType(cat.cabinetTypes, g.key.typeId).Some?)
       && g.labelText == LabelOf(cat, cabinets, g.key))
  }

  /** A variant sits in a group only when the key is one of its own. */
  ghost predicate Placed(cat: Catalog, groups: seq<VariantGroup>, allowed: seq<ServiceVariant>)
    requires CatalogLinked(cat) && forall v :: v in allowed ==> v in cat.variants
  {
    forall g, w :: g in groups && w in g.variants ==> w in allowed && BelongsTo(cat, w, g.key)
  }

  /** What the grouping loop keeps true. */
  ghost predicate Sound(cat: Catalog, cabinets: seq<Cabinet>, groups: seq<VariantGroup>, allowed: seq<ServiceVariant>)
    requires CatalogLinked(cat) && forall v :: v in allowed ==> v in cat.variants
  {
    DistinctKeys(groups) && Labelled(cat, cabinets, groups) && Placed(cat, groups, allowed)
  }

  /** Every key of `keys` has a group holding `w`. */
  ghost predicate Covers(groups: seq<VariantGroup>, w: ServiceVariant, keys: seq<GroupKey>) {
    forall k :: k in keys ==> exists g :: g in groups && g.key == k && w in g.variants
  }

  lemma AddToDistinct(groups: seq<VariantGroup>, key: GroupKey, labelText: string, v: ServiceVariant)
    requires DistinctKeys(groups)
    ensures DistinctKeys(AddTo(groups, key, labelText, v))
  {
  }

  lemma AddToLabelled(cat: Catalog, cabinets: seq<Cabinet>, groups: seq<VariantGroup>, key: GroupKey, v: ServiceVariant)
    requires Labelled(cat, cabinets, groups)
    requires key.TypeKey? ==> FindCabinetType(cat.cabinetTypes, key.typeId).Some?
    ensures Labelled(cat, cabinets, AddTo(groups, key, LabelOf(cat, cabinets, key), v))
  {
    var r := AddTo(groups, key, LabelOf(cat, cabinets, key), v);
    forall g | g in r ensures g.variants != [] && (g.key.TypeKey? ==> FindCabinetType(cat.cabinetTypes, g.key.typeId).Some?)
                              && g.labelText == LabelOf(cat, cabinets, g.key)
    {
      var j :| 0 <= j < |r| && r[j] == g;
      if j < |groups| { assert groups[j] in groups; }
    }
  }

  lemma AddToPlaced(cat: Catalog, groups: seq<VariantGroup>, allowed: seq<ServiceVariant>, key: GroupKey, labelText: string, v: ServiceVariant)
    requires CatalogLinked(cat) && forall w :: w in allowed ==> w in cat.variants
    requires Placed(cat, groups, allowed)
    requires v in allowed && BelongsTo(cat, v, key)
    ensures Placed(cat, AddTo(groups, key, labelText, v), allowed)
  {
    var r := AddTo(groups, key, labelText, v);
    forall g, w | g in r && w in g.variants ensures w in allowed && BelongsTo(cat, w, g.key) {
      var j :| 0 <= j < |r| && r[j] == g;
      if j < |groups| {
        assert groups[j] in groups;
        if w !in groups[j].variants {
          assert w == v;
        }
      }
    }
  }

  lemma AddToCovers(groups: seq<VariantGroup>, key: GroupKey, labelText: string, v: ServiceVariant)
    ensures var r := AddTo(groups, key, labelText, v);
      (exists g :: g in r && g.key == key && v in g.variants)
      && (forall h, w :: h in groups && w in h.variants ==> exists g :: g in r && g.key == h.key && w in g.variants)
  {
    var r := AddTo(groups, key, labelText, v);
    match IndexOfKey(groups, key) {
      case Some(k) =>
        assert r[k] in r && v in r[k].variants;
      case None =>
        assert r[|groups|] in r;
    }
    forall h, w | h in groups && w in h.variants ensures exists g :: g in r && g.key == h.key && w in g.variants {
      var j :| 0 <= j < |groups| && groups[j] == h;
      assert r[j] in r && w in r[j].variants;
    }
  }

  lemma {:induction false} AddAllSound(cat: Catalog, cabinets: seq<Cabinet>, groups: seq<VariantGroup>, allowed: seq<ServiceVariant>,
                                       keys: seq<GroupKey>, v: ServiceVariant)
    requires CatalogLinked(cat) && forall w :: w in allowed ==> w in cat.variants
    requires Sound(cat, cabinets, groups, allowed)
    requires v in allowed && forall k :: k in keys ==> BelongsTo(cat, v, k)
    requires forall k :: k in keys && k.TypeKey? ==> FindCabinetType(cat.cabinetTypes, k.typeId).Some?
    ensures var r := AddAll(cat, cabinets, groups, keys, v);
      Sound(cat, cabinets, r, allowed)
      && Covers(r, v, keys)
      && (forall h, w :: h in groups && w in h.variants ==> exists g :: g in r && g.key == h.key && w in g.variants)
    decreases |keys|
  {
    if keys != [] {
      var next := AddTo(groups, keys[0], LabelOf(cat, cabinets, keys[0]), v);
      AddToDistinct(groups, keys[0], LabelOf(cat, cabinets, keys[0]), v);
      AddToLabelled(cat, cabinets, groups, keys[0], v);
      AddToPlaced(cat, groups, allowed, keys[0], LabelOf(cat, cabinets, keys[0]), v);
      AddToCovers(groups, keys[0], LabelOf(cat, cabinets, keys[0]), v);
      AddAllSound(cat, cabinets, next, allowed, keys[1..], v);
      var r := AddAll(cat, cabinets, next, keys[1..], v);
      forall k | k in keys ensures exists g :: g in r && g.key == k && v in g.variants {
        if k != keys[0] {
          assert k in keys[1..];
        } else {
          var h :| h in next && h.key == keys[0] && v in h.variants;
        }
      }
      forall h, w | h in groups && w in h.variants ensures exists g :: g in r && g.key == h.key && w in g.variants {
        var h' :| h' in next && h'.key == h.key && w in h'.variants;
      }
    }
  }

  /** Placement in a list of allowed variants survives growing that list. */
  lemma PlacedWiden(cat: Catalog, groups: seq<VariantGroup>, small: seq<ServiceVariant>, big: seq<ServiceVariant>)
    requires CatalogLinked(cat) && forall v :: v in big ==> v in cat.variants
    requires forall v :: v in small ==> v in big
    requires Placed(cat, groups, small)
    ensures Placed(cat, groups, big)
  {
  }

  lemma InPrefix<T>(s: seq<T>, x: T)
    requires x in s && x != s[|s| - 1]
    ensures x in s[..|s| - 1]
  {
    var i :| 0 <= i < |s| && s[i] == x;
    assert s[..|s| - 1][i] == x;
  }

  /** After the grouping loop: the groups are sound and every variant is in
      the group of each of its keys. */
  lemma {:induction false} CollectFacts(cat: Catalog, cabinets: seq<Cabinet>, variants: seq<ServiceVariant>)
    requires CatalogLinked(cat) && forall v :: v in variants ==> v in cat.variants
    ensures var r := Collect(cat, cabinets, variants);
      Sound(cat, cabinets, r, variants)
      && forall w, k :: w in variants && BelongsTo(cat, w, k) ==> exists g :: g in r && g.key == k && w in g.variants
    decreases |variants|
  {
    if variants != [] {
      var n := |variants| - 1;
      var prefix := variants[..n];
      var v := variants[n];
      CollectFacts(cat, cabinets, prefix);
      var before := Collect(cat, cabinets, prefix);
      assert forall w :: w in prefix ==> w in variants;
      PlacedWiden(cat, before, prefix, variants);
      KeysOfLinked(cat, v);
      AddAllSound(cat, cabinets, before, variants, KeysOf(cat, v), v);
      var r := Collect(cat, cabinets, variants);
      forall w, k | w in variants && BelongsTo(cat, w, k) ensures exists g :: g in r && g.key == k && w in g.variants {
        if w != v {
          InPrefix(variants, w);
          var h :| h in before && h.key == k && w in h.variants;
        } else {
          assert k in KeysOf(cat, v);
        }
      }
    }
  }

  // ------------------------------------------------- the returned group list

  /** De-duplication keeps keys and labels and leaves no repeated variant. */
  lemma DeduplicatedFacts(cat: Catalog, cabinets: seq<Cabinet>, groups: seq<VariantGroup>, variants: seq<ServiceVariant>)
    requires CatalogLinked(cat) && forall v :: v in variants ==> v in cat.variants
    requires Sound(cat, cabinets, groups, variants)
    ensures var d := Deduplicated(groups);
      Sound(cat, cabinets, d, variants)
      && (forall g :: g in d ==> DistinctVariantIds(g.variants))
  {
    var d := Deduplicated(groups);
    forall g | g in d ensures g.variants != [] && DistinctVariantIds(g.variants)
      && (g.key.TypeKey? ==> FindCabinetType(cat.cabinetTypes, g.key.typeId).Some?)
      && g.labelText == LabelOf(cat, cabinets, g.key)
    {
      var i :| 0 <= i < |d| && d[i] == g;
      var c := groups[i];
      assert c in groups;
      assert c.variants[0] in c.variants;
      UniqueByIdCovers(c.variants, {}, c.variants[0]);
      UniqueByIdDistinct(c.variants, {});
    }
    forall g, w | g in d && w in g.variants ensures w in variants && BelongsTo(cat, w, g.key) {
      var i :| 0 <= i < |d| && d[i] == g;
      assert groups[i] in groups;
    }
  }

  lemma SameIdSame(variants: seq<ServiceVariant>, u: ServiceVariant, w: ServiceVariant)
    requires DistinctVariantIds(variants)
    requires u in variants && w in variants && u.id == w.id
    ensures u == w
  {
    var a :| 0 <= a < |variants| && variants[a] == u;
    var b :| 0 <= b < |variants| && variants[b] == w;
    assert variants[a].id == variants[b].id;
  }

  /** With distinct variant ids, de-duplication keeps every variant. */
  lemma DeduplicatedCovers(groups: seq<VariantGroup>, variants: seq<ServiceVariant>, w: ServiceVariant, k: GroupKey)
    requires DistinctVariantIds(variants)
    requires forall g, u :: g in groups && u in g.variants ==> u in variants
    requires w in variants && exists g :: g in groups && g.key == k && w in g.variants
    ensures exists g :: g in Deduplicated(groups) && g.key == k && w in g.variants
  {
    var d := Deduplicated(groups);
    var c :| c in groups && c.key == k && w in c.variants;
    var i :| 0 <= i < |groups| && groups[i] == c;
    assert forall u :: u in c.variants ==> u in variants;
    UniqueByIdKeeps(c.variants, variants, w);
    assert d[i] == c.(variants := UniqueById(c.variants, {}));
    assert d[i] in d;
  }

  /** With ids distinct across `variants`, de-duplicating any list drawn from
      it drops nothing. */
  lemma UniqueByIdKeeps(vs: seq<ServiceVariant>, variants: seq<ServiceVariant>, w: ServiceVariant)
    requires DistinctVariantIds(variants)
    requires forall u :: u in vs ==> u in variants
    requires w in vs
    ensures w in UniqueById(vs, {})
  {
    UniqueByIdCovers(vs, {}, w);
    var u :| u in UniqueById(vs, {}) && u.id == w.id;
    SameIdSame(variants, u, w);
  }

  /** The groups `build_service_variant_groups` returns: distinct keys; each
      group non-empty, free of repeated variants and labelled after its key;
      a variant appears exactly in the groups of the cabinet types its
      service requires, or in the unassigned group when there are none. */
  lemma BuildGroupsContents(cat: Catalog, variants: seq<ServiceVariant>, cabinets: seq<Cabinet>)
    requires CatalogLinked(cat) && forall v :: v in variants ==> v in cat.variants
    requires DistinctVariantIds(variants)
    ensures var r := BuildServiceVariantGroups(cat, variants, cabinets);
      Sound(cat, cabinets, r, variants)
      && (forall g :: g in r ==> DistinctVariantIds(g.variants))
      && (forall w, k :: w in variants && BelongsTo(cat, w, k) ==> exists g :: g in r && g.key == k && w in g.variants)
  {
    var collected := Collect(cat, cabinets, variants);
    var deduped := Deduplicated(collected);
    var r := SortBy(deduped, GroupSortKey);
    CollectFacts(cat, cabinets, variants);
    DeduplicatedFacts(cat, cabinets, collected, variants);
    SortByMembers(deduped, GroupSortKey);
    assert DistinctBy(deduped, (g: VariantGroup) => g.key);
    SortByDistinct(deduped, GroupSortKey, (g: VariantGroup) => g.key);
    forall w, k | w in variants && BelongsTo(cat, w, k) ensures exists g :: g in r && g.key == k && w in g.variants {
      DeduplicatedCovers(collected, variants, w, k);
    }
  }

  /** LexLe on keys with a leading element compares that element first. */
  lemma LexLeTail(x: int, y: int, a: seq<int>, b: seq<int>)
    ensures LexLe([x] + a, [y] + b) <==> x < y || (x == y && LexLe(a, b))
  {
    assert ([x] + a)[1..] == a && ([y] + b)[1..] == b;
  }

  /** In a list sorted by `GroupSortKey` with distinct keys, a group before
      another is a cabinet-type group, and when both are, their labels are
      in order. */
  lemma UnassignedFirst(r: seq<VariantGroup>, i: int, j: int)
    requires SortedBy(r, GroupSortKey) && DistinctBy(r, (g: VariantGroup) => g.key)
    requires 0 <= i < j < |r|
    ensures r[i].key.TypeKey?
    ensures r[j].key.TypeKey? ==> LexLe(LowerKey(r[i].labelText), LowerKey(r[j].labelText))
  {
    var x := if r[i].key.Unassigned? then 1 else 0;
    var y := if r[j].key.Unassigned? then 1 else 0;
    LexLeTail(x, y, LowerKey(r[i].labelText), LowerKey(r[j].labelText));
    assert r[i].key != r[j].key;
  }

  /** The returned groups are ordered: the unassigned group, if any, comes
      last, and the cabinet-type groups come in case-insensitive label order. */
  lemma BuildGroupsOrder(cat: Catalog, variants: seq<ServiceVariant>, cabinets: seq<Cabinet>)
    requires CatalogLinked(cat) && forall v :: v in variants ==> v in cat.variants
    ensures var r := BuildServiceVariantGroups(cat, variants, cabinets);
      (forall i :: 0 <= i < |r| - 1 ==> r[i].key.TypeKey?)
      && (forall i, j :: 0 <= i < j < |r| && r[j].key.TypeKey? ==> LexLe(LowerKey(r[i].labelText), LowerKey(r[j].labelText)))
  {
    var collected := Collect(cat, cabinets, variants);
    var deduped := Deduplicated(collected);
    var r := SortBy(deduped, GroupSortKey);
    CollectFacts(cat, cabinets, variants);
    SortBySorted(deduped, GroupSortKey);
    assert DistinctBy(deduped, (g: VariantGroup) => g.key);
    SortByDistinct(deduped, GroupSortKey, (g: VariantGroup) => g.key);
    forall i, j | 0 <= i < j < |r| && r[j].key.TypeKey? ensures LexLe(LowerKey(r[i].labelText), LowerKey(r[j].labelText)) {
      UnassignedFirst(r, i, j);
    }
    forall i | 0 <= i < |r| - 1 ensures r[i].key.TypeKey? {
      UnassignedFirst(r, i, i + 1);
    }
  }
}
