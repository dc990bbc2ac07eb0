/** What the visitor methods of `SensorVisitor.js` compute, as functions of
    a parse node's child texts (`ctx.getChild(i).getText()` is `node[i]`)
    and of the store's contents. */
module SensorRules {
  import opened Optional
  import opened Strings
  import opened Sensors
  import opened SensorStore

  /** The message of the TypeError raised by reading a property of
      `null` or `undefined`. */
  const TypeError: string := "TypeError"

  // ---------------------------------------------------------------- sensor groups

  /** The texts of children `index`, `index + 2`, ... up to the first `;`. */
  function GroupMembers(node: seq<string>, index: nat): seq<string>
    decreases |node| - index
  {
    if index >= |node| || node[index] == ";" then [] else [node[index]] + GroupMembers(node, index + 2)
  }

  /** Member `k` is child `index + 2k`, and no member is `;`. */
  lemma {:induction false} GroupMembersSpec(node: seq<string>, index: nat)
    ensures forall k :: 0 <= k < |GroupMembers(node, index)| ==>
      index + 2 * k < |node| && GroupMembers(node, index)[k] == node[index + 2 * k] != ";"
    decreases |node| - index
  {
    if !(index >= |node| || node[index] == ";") {
      GroupMembersSpec(node, index + 2);
      var m := GroupMembers(node, index);
      var r := GroupMembers(node, index + 2);
      assert m == [node[index]] + r;
      forall k | 0 <= k < |m|
        ensures index + 2 * k < |node| && m[k] == node[index + 2 * k] != ";"
      {
        if k > 0 {
          assert m[k] == r[k - 1];
        }
      }
    }
  }

  /** The scan stopped at the end of the children or at a `;`. */
  lemma {:induction false} GroupMembersStop(node: seq<string>, index: nat)
    ensures var n := |GroupMembers(node, index)|;
      index + 2 * n >= |node| || node[index + 2 * n] == ";"
    decreases |node| - index
  {
    if !(index >= |node| || node[index] == ";") {
      GroupMembersStop(node, index + 2);
    }
  }

  // ---------------------------------------------------------------- dimensions

  /** The geometry type normalised: first character upper-cased, the rest
      lower-cased. */
  function Capitalized(s: string): (r: string)
    ensures |r| == |s|
    ensures |s| > 0 ==> r[0] == UpperChar(s[0])
    ensures forall i :: 1 <= i < |s| ==> r[i] == LowerChar(s[i])
  {
    if s == [] then [] else [UpperChar(s[0])] + Lower(s[1..])
  }

  /** Normalising ignores the case the type was written in, and a
      normalised type stays as it is. */
  lemma CapitalizedIgnoresCase(s: string, t: string)
    requires Lower(s) == Lower(t)
    ensures Capitalized(s) == Capitalized(t)
    ensures Capitalized(Capitalized(s)) == Capitalized(s)
  {
    if s != [] {
      assert LowerChar(s[0]) == LowerChar(t[0]);
      assert UpperChar(s[0]) == UpperChar(t[0]);
      forall i | 1 <= i < |s| ensures Capitalized(s)[i] == Capitalized(t)[i] {
        assert Lower(s)[i] == Lower(t)[i];
      }
    }
  }

  const GeometryKeyword: string := "GEOMETRY"
  const CategoricalKeyword: string := "CATEGORICAL"

  /** The keyword checks accept the keywords written in any mix of cases
      and nothing else. */
  lemma KeywordsInAnyCase(s: string)
    ensures Upper(s) == GeometryKeyword <==>
      |s| == |GeometryKeyword| &&
      forall i :: 0 <= i < |s| ==> s[i] == GeometryKeyword[i] || s[i] == LowerChar(GeometryKeyword[i])
    ensures Upper(s) == CategoricalKeyword <==>
      |s| == |CategoricalKeyword| &&
      forall i :: 0 <= i < |s| ==> s[i] == CategoricalKeyword[i] || s[i] == LowerChar(CategoricalKeyword[i])
  {
    UpperMatches(s, GeometryKeyword);
    UpperMatches(s, CategoricalKeyword);
  }

  /** `{ id, type, displayString }`, the display string present only when
      the node has three children. */
  function DimPropOf(node: seq<string>): (p: DimProp)
    requires |node| >= 2
    ensures p.id == node[0] && p.kind == node[1]
    ensures p.displayString.Some? <==> |node| == 3
    ensures |node| == 3 ==> p.displayString == Some(node[2])
  {
    DimProp(node[0], node[1], if |node| == 3 then Some(node[2]) else None)
  }

  predicate PropertyNodes(nodes: seq<seq<string>>) {
    forall k :: 0 <= k < |nodes| ==> |nodes[k]| >= 2
  }

  function DimProps(nodes: seq<seq<string>>): (ps: seq<DimProp>)
    requires PropertyNodes(nodes)
    ensures |ps| == |nodes| && forall k :: 0 <= k < |nodes| ==> ps[k] == DimPropOf(nodes[k])
  {
    seq(|nodes|, k requires 0 <= k < |nodes| && PropertyNodes(nodes) => DimPropOf(nodes[k]))
  }

  /** The dimension `name` with one more property. */
  function AddDimProp(dims: map<string, Dimension>, name: string, p: DimProp): (r: map<string, Dimension>)
    requires name in dims
    ensures r.Keys == dims.Keys
    ensures forall n :: n in dims && n != name ==> r[n] == dims[n]
    ensures r[name].kind == dims[name].kind && r[name].properties == dims[name].properties + [p]
  {
    dims[name := dims[name].(properties := dims[name].properties + [p])]
  }

  // ---------------------------------------------------------------- ranges

  const QuoteChars: set<char> := {'\'', '"'}
  const DefaultColor: string := "#808080"

  /** `.replace(/['"]+/g, "")`: every quote character removed. */
  function Unquoted(s: string): (r: string)
    ensures '\'' !in r && '"' !in r
    ensures |r| <= |s|
  {
    RemoveChars(s, QuoteChars)
  }

  /** Quotes are removed wherever they stand: the removal works piece by
      piece. */
  lemma UnquotedAppend(a: string, b: string)
    ensures Unquoted(a + b) == Unquoted(a) + Unquoted(b)
  {
    RemoveCharsAppend(a, b, QuoteChars);
  }

  /** Only quotes are removed: a text is its own unquoting exactly when it
      holds no quote. */
  lemma UnquotedFixedPoint(s: string)
    ensures Unquoted(s) == s <==> '\'' !in s && '"' !in s
  {
    if '\'' !in s && '"' !in s {
      RemoveCharsFree(s, QuoteChars);
    }
  }

  /** A label written between quotes loses exactly the two quotes. */
  lemma UnquotedQuoted(q: char, x: string, q': char)
    requires q in QuoteChars && q' in QuoteChars
    requires '\'' !in x && '"' !in x
    ensures Unquoted([q] + x + [q']) == x
  {
    UnquotedAppend([q] + x, [q']);
    UnquotedAppend([q], x);
    UnquotedFixedPoint(x);
    assert Unquoted([q]) == [] && Unquoted([q']) == [];
  }

  predicate RangeNode(node: seq<string>) {
    |node| >= 2 && (if node[1] == "TO" then |node| >= 5 else |node| >= 3)
  }

  /** The property a range node describes, inside the range `rangeId`. */
  function RangePropOf(rangeId: string, node: seq<string>): (p: RangeProp)
    requires RangeNode(node)
    ensures node[1] == "TO" ==>
      && p.bounds == Interval(node[0], node[2]) && p.caption == Unquoted(node[4])
      && (p.color.Some? <==> |node| == 7) && (|node| == 7 ==> p.color == Some(node[6]))
    ensures node[1] != "TO" ==>
      && p.bounds == Exact(node[0]) && p.caption == Unquoted(node[2])
      && (p.color.Some? <==> |node| == 5) && (|node| == 5 ==> p.color == Some(node[4]))
    ensures p.style == RangeStyle(rangeId + "-" + p.caption, p.color.GetOr(DefaultColor))
    ensures '\'' !in p.caption && '"' !in p.caption
  {
    if node[1] == "TO" then
      var color := if |node| == 7 then Some(node[6]) else None;
      var caption := Unquoted(node[4]);
      RangeProp(Interval(node[0], node[2]), caption, color, RangeStyle(rangeId + "-" + caption, color.GetOr(DefaultColor)))
    else
      var color := if |node| == 5 then Some(node[4]) else None;
      var caption := Unquoted(node[2]);
      RangeProp(Exact(node[0]), caption, color, RangeStyle(rangeId + "-" + caption, color.GetOr(DefaultColor)))
  }

  // ---------------------------------------------------------------- spatial attachment

  /** `ds.find(d => d.id == id)`, as the index of the first match. */
  function FindDimension(ds: seq<SensorDimension>, id: string): (r: Option<nat>)
    decreases |ds|
    ensures r.Some? ==>
      && r.value < |ds| && ds[r.value].Id() == id
      && forall j :: 0 <= j < r.value ==> ds[j].Id() != id
    ensures r.None? ==> forall j :: 0 <= j < |ds| ==> ds[j].Id() != id
  {
    if ds == [] then None
    else if ds[0].Id() == id then Some(0)
    else match FindDimension(ds[1..], id)
      case None => None
      case Some(j) => Some(j + 1)
  }

  /** `sensor.dimensions` once `dimName` is attached under the relation
      `rel`: a new relation entry, or one more entity in the first entry
      with that id. None when that entry is a categorical one, which has no
      `entities` to push onto. */
  function AttachToRelation(ds: seq<SensorDimension>, rel: string, dimName: string): Option<seq<SensorDimension>> {
    match FindDimension(ds, rel)
    case None => Some(ds + [SpatialRelation(rel, [dimName])])
    case Some(i) =>
      if ds[i].SpatialRelation? then Some(ds[i := SpatialRelation(rel, ds[i].entities + [dimName])]) else None
  }

  /** `dim.geomType`: undefined (here empty) for a categorical dimension. */
  function GeomTypeOf(d: Dimension): string {
    if d.kind.Spatial? then d.kind.geomType else ""
  }

  function LayerStyleOf(d: Dimension): string {
    if GeomTypeOf(d) == "Point" then "grayPoint" else "grayPolygon"
  }

  /** The geometry types whose layers also get each measure's polygon
      style. */
  predicate PolygonLike(geomType: string) {
    geomType == "Polygon" || geomType == "Geometry"
  }

  /** The style names each measure contributes to a layer of the given
      geometry type. */
  function MeasureStyles(ms: seq<Measure>, geomType: string): seq<string>
    decreases |ms|
  {
    if ms == [] then []
    else [ms[0].name] + (if PolygonLike(geomType) then [ms[0].name + "_POLYGON"] else [])
         + MeasureStyles(ms[1..], geomType)
  }

  lemma {:induction false} MeasureStylesAppend(ms: seq<Measure>, m: Measure, geomType: string)
    ensures MeasureStyles(ms + [m], geomType) == MeasureStyles(ms, geomType) + MeasureStyles([m], geomType)
    decreases |ms|
  {
    if ms == [] {
      assert ms + [m] == [m];
    } else {
      assert (ms + [m])[1..] == ms[1..] + [m];
      MeasureStylesAppend(ms[1..], m, geomType);
    }
  }

  /** Each measure's name is among the styles a layer gets from the
      measures, and so is its `_POLYGON` style on a polygon-like layer. */
  lemma {:induction false} MeasureStylesSpec(ms: seq<Measure>, geomType: string)
    ensures forall k :: 0 <= k < |ms| ==> ms[k].name in MeasureStyles(ms, geomType)
    ensures PolygonLike(geomType) ==>
      forall k :: 0 <= k < |ms| ==> ms[k].name + "_POLYGON" in MeasureStyles(ms, geomType)
    ensures |MeasureStyles(ms, geomType)| ==
      (if PolygonLike(geomType) then 2 * |ms| else |ms|)
    decreases |ms|
  {
    if ms != [] {
      MeasureStylesSpec(ms[1..], geomType);
      var rest := MeasureStyles(ms[1..], geomType);
      var head := [ms[0].name] + (if PolygonLike(geomType) then [ms[0].name + "_POLYGON"] else []);
      assert MeasureStyles(ms, geomType) == head + rest;
      forall k | 1 <= k < |ms|
        ensures ms[k].name in MeasureStyles(ms, geomType)
        ensures PolygonLike(geomType) ==> ms[k].name + "_POLYGON" in MeasureStyles(ms, geomType)
      {
        assert ms[k] == ms[1..][k - 1];
      }
      if PolygonLike(geomType) {
        assert head[1] == ms[0].name + "_POLYGON";
      }
    }
  }

  /** A measure style is always a measure's name, or that name followed by
      `_POLYGON` on a polygon-like layer. */
  lemma {:induction false} MeasureStylesOnly(ms: seq<Measure>, geomType: string)
    ensures forall x :: x in MeasureStyles(ms, geomType) ==>
      exists k :: 0 <= k < |ms| && (x == ms[k].name || (PolygonLike(geomType) && x == ms[k].name + "_POLYGON"))
    decreases |ms|
  {
    if ms != [] {
      MeasureStylesOnly(ms[1..], geomType);
      var rest := MeasureStyles(ms[1..], geomType);
      var head := [ms[0].name] + (if PolygonLike(geomType) then [ms[0].name + "_POLYGON"] else []);
      assert MeasureStyles(ms, geomType) == head + rest;
      forall x | x in MeasureStyles(ms, geomType)
        ensures exists k :: 0 <= k < |ms| && (x == ms[k].name || (PolygonLike(geomType) && x == ms[k].name + "_POLYGON"))
      {
        if x in rest {
          var k :| 0 <= k < |ms[1..]| && (x == ms[1..][k].name || (PolygonLike(geomType) && x == ms[1..][k].name + "_POLYGON"));
          assert ms[1..][k] == ms[k + 1];
        } else {
          assert x in head;
          assert x == ms[0].name || (PolygonLike(geomType) && x == ms[0].name + "_POLYGON");
        }
      }
    }
  }

  /** The styles of the layer built for a dimension: `grayPolygon` (the
      layer starts without styles) and then those of the measures. */
  function NewLayerStyles(ms: seq<Measure>, geomType: string): seq<string> {
    ["grayPolygon"] + MeasureStyles(ms, geomType)
  }

  /** The product's layers once the layer `id` with `styles` is added: a new
      layer, or the existing one with the styles appended and repeats
      removed. */
  function MergeLayer(layers: map<string, seq<string>>, id: string, styles: seq<string>): map<string, seq<string>> {
    if id !in layers then layers[id := styles] else layers[id := Dedup(layers[id] + styles)]
  }

  /** Merging into an existing layer leaves each style once, loses none,
      and keeps a repeat-free list of existing styles in front. */
  lemma MergeLayerSpec(layers: map<string, seq<string>>, id: string, styles: seq<string>)
    requires id in layers
    ensures var merged := MergeLayer(layers, id, styles)[id];
      && NoDuplicates(merged)
      && (forall x :: x in merged <==> x in layers[id] || x in styles)
      && (NoDuplicates(layers[id]) ==> layers[id] <= merged)
  {
    var all := layers[id] + styles;
    DedupSpec(all);
    if NoDuplicates(layers[id]) {
      DedupPrefix(layers[id], styles);
      DedupOfDistinct(layers[id]);
    }
  }

  datatype SpatialAcc = SpatialAcc(
    dims: seq<SensorDimension>,               // sensor.dimensions
    layers: map<string, seq<string>>,         // the product's layers
    maps: map<string, MapState>,              // the product's maps
    failure: Option<string>)                  // the message thrown, if any

  /** One turn of the loop of visitAddSpatialDimensionToSensor. */
  function SpatialStep(acc: SpatialAcc, dimName: string, rel: string, dimensions: map<string, Dimension>,
                       measures: seq<Measure>, defaultMap: string): SpatialAcc
  {
    if dimName !in dimensions then acc.(failure := Some("Dimension " + dimName + " not found!"))
    else match AttachToRelation(acc.dims, rel, dimName)
      case None => acc.(failure := Some(TypeError))
      case Some(ds) =>
        var dim := dimensions[dimName];
        if defaultMap !in acc.maps then acc.(dims := ds, failure := Some(TypeError))
        else
          var m := acc.maps[defaultMap];
          var maps := acc.maps[defaultMap := m.(layers := m.layers + [MapLayer(dimName, LayerStyleOf(dim), |m.layers|)])];
          SpatialAcc(ds, MergeLayer(acc.layers, dimName, NewLayerStyles(measures, GeomTypeOf(dim))), maps, None)
  }

  /** The loop from cursor `index`, two children at a time, until the end
      or the first throw. */
  function SpatialRun(node: seq<string>, index: nat, acc: SpatialAcc, rel: string,
                      dimensions: map<string, Dimension>, measures: seq<Measure>, defaultMap: string): SpatialAcc
    decreases |node| - index
  {
    if index >= |node| || acc.failure.Some? then acc
    else SpatialRun(node, index + 2, SpatialStep(acc, node[index], rel, dimensions, measures, defaultMap),
                    rel, dimensions, measures, defaultMap)
  }

  /** The children at cursor positions `index`, `index + 2`, ... */
  function CursorTexts(node: seq<string>, index: nat): seq<string>
    decreases |node| - index
  {
    if index >= |node| then [] else [node[index]] + CursorTexts(node, index + 2)
  }

  /** The entities recorded under the relation `rel`. */
  function Entities(ds: seq<SensorDimension>, rel: string): seq<string> {
    match FindDimension(ds, rel)
    case None => []
    case Some(i) => if ds[i].SpatialRelation? then ds[i].entities else []
  }

  /** How many entries of `ds` have the id `rel`. */
  function CountId(ds: seq<SensorDimension>, rel: string): nat
    decreases |ds|
  {
    if ds == [] then 0 else (if ds[0].Id() == rel then 1 else 0) + CountId(ds[1..], rel)
  }

  lemma {:induction false} CountIdAppend(ds: seq<SensorDimension>, d: SensorDimension, rel: string)
    ensures CountId(ds + [d], rel) == CountId(ds, rel) + (if d.Id() == rel then 1 else 0)
    decreases |ds|
  {
    if ds == [] {
      assert [d][1..] == [];
    } else {
      assert (ds + [d])[1..] == ds[1..] + [d];
      CountIdAppend(ds[1..], d, rel);
    }
  }

  lemma {:induction false} CountIdUpdate(ds: seq<SensorDimension>, i: nat, d: SensorDimension, rel: string)
    requires i < |ds| && d.Id() == ds[i].Id()
    ensures CountId(ds[i := d], rel) == CountId(ds, rel)
    decreases |ds|
  {
    if i > 0 {
      assert ds[i := d][1..] == ds[1..][i - 1 := d];
      CountIdUpdate(ds[1..], i - 1, d, rel);
    }
  }

  lemma {:induction false} CountIdNone(ds: seq<SensorDimension>, rel: string)
    requires FindDimension(ds, rel).None?
    ensures CountId(ds, rel) == 0
    decreases |ds|
  {
    if ds != [] {
      assert ds[0].Id() != rel;
      assert FindDimension(ds[1..], rel).None?;
      CountIdNone(ds[1..], rel);
    }
  }

  /** One attachment adds the entity at the end of the relation's list and
      keeps at most one entry per relation id. */
  lemma AttachSpec(ds: seq<SensorDimension>, rel: string, dimName: string)
    requires AttachToRelation(ds, rel, dimName).Some?
    ensures var r := AttachToRelation(ds, rel, dimName).value;
      && Entities(r, rel) == Entities(ds, rel) + [dimName]
      && (CountId(ds, rel) <= 1 ==> CountId(r, rel) == 1)
      && |ds| <= |r| <= |ds| + 1
      && (forall j :: 0 <= j < |ds| && ds[j].Id() != rel ==> r[j] == ds[j])
  {
    var r := AttachToRelation(ds, rel, dimName).value;
    match FindDimension(ds, rel)
    case None =>
      FindAppended(ds, SpatialRelation(rel, [dimName]), rel);
      CountIdNone(ds, rel);
      CountIdAppend(ds, SpatialRelation(rel, [dimName]), rel);
    case Some(i) =>
      FindUpdated(ds, i, SpatialRelation(rel, ds[i].entities + [dimName]), rel);
      CountIdUpdate(ds, i, SpatialRelation(rel, ds[i].entities + [dimName]), rel);
      CountAtLeastOne(ds, i, rel);
  }

  lemma FindAppended(ds: seq<SensorDimension>, d: SensorDimension, rel: string)
    requires FindDimension(ds, rel).None? && d.Id() == rel
    ensures FindDimension(ds + [d], rel) == Some(|ds|)
  {
    var r := FindDimension(ds + [d], rel);
    assert (ds + [d])[|ds|].Id() == rel;
    assert forall j :: 0 <= j < |ds| ==> (ds + [d])[j] == ds[j];
  }

  lemma FindUpdated(ds: seq<SensorDimension>, i: nat, d: SensorDimension, rel: string)
    requires FindDimension(ds, rel) == Some(i) && d.Id() == rel
    ensures FindDimension(ds[i := d], rel) == Some(i)
  {
    var r := FindDimension(ds[i := d], rel);
    assert ds[i := d][i].Id() == rel;
    assert forall j :: 0 <= j < i ==> ds[i := d][j] == ds[j];
  }

  lemma {:induction false} CountAtLeastOne(ds: seq<SensorDimension>, i: nat, rel: string)
    requires i < |ds| && ds[i].Id() == rel
    ensures CountId(ds, rel) >= 1
    decreases |ds|
  {
    if i > 0 {
      CountAtLeastOne(ds[1..], i - 1, rel);
    }
  }

  /** A spatial attachment that throws nothing records every listed
      dimension, in order, under the relation, and keeps one entry for it. */
  lemma {:induction false} SpatialRunEntities(node: seq<string>, index: nat, acc: SpatialAcc, rel: string,
                                              dimensions: map<string, Dimension>, measures: seq<Measure>, defaultMap: string)
    requires acc.failure.None?
    requires SpatialRun(node, index, acc, rel, dimensions, measures, defaultMap).failure.None?
    ensures var r := SpatialRun(node, index, acc, rel, dimensions, measures, defaultMap);
      && Entities(r.dims, rel) == Entities(acc.dims, rel) + CursorTexts(node, index)
      && (CountId(acc.dims, rel) <= 1 ==> CountId(r.dims, rel) <= 1)
      && (forall j :: 0 <= j < |acc.dims| && acc.dims[j].Id() != rel ==> j < |r.dims| && r.dims[j] == acc.dims[j])
    decreases |node| - index
  {
    if index < |node| {
      var next := SpatialStep(acc, node[index], rel, dimensions, measures, defaultMap);
      assert next.failure.None?;
      AttachSpec(acc.dims, rel, node[index]);
      SpatialRunEntities(node, index + 2, next, rel, dimensions, measures, defaultMap);
    }
  }

  /** A dimension the store does not know stops the attachment with
      `Dimension ... not found!` before anything changes for it. */
  lemma SpatialUnknownThrows(acc: SpatialAcc, dimName: string, rel: string, dimensions: map<string, Dimension>,
                             measures: seq<Measure>, defaultMap: string)
    requires dimName !in dimensions
    ensures SpatialStep(acc, dimName, rel, dimensions, measures, defaultMap) ==
      acc.(failure := Some("Dimension " + dimName + " not found!"))
  {
  }

  // ---------------------------------------------------------------- categorical attachment

  /** Where the cursor starts and which group applies: child 4 with no
      group when child 3 is `(`, else child 5 with child 3 as the group. */
  function CategoricalStart(node: seq<string>): (s: (nat, Option<string>))
    requires |node| >= 4
    ensures node[3] == "(" ==> s == (4, None)
    ensures node[3] != "(" ==> s == (5, Some(node[3]))
  {
    if node[3] == "(" then (4, None) else (5, Some(node[3]))
  }

  /** `dim.field`: undefined (None) for a spatial dimension. */
  function FieldOf(d: Dimension): Option<string> {
    if d.kind.Categorical? then Some(d.kind.field) else None
  }

  /** The categories a custom range gives, bounds kept as text. */
  function Categories(props: seq<RangeProp>): (cs: seq<Category>)
    ensures |cs| == |props|
    ensures forall k :: 0 <= k < |props| ==> cs[k].caption == props[k].caption
    ensures forall k :: 0 <= k < |props| ==>
      (cs[k].value.Some? <==> props[k].bounds.Exact?) &&
      (props[k].bounds.Exact? ==> cs[k].value == Some(props[k].bounds.value))
    ensures forall k :: 0 <= k < |props| ==>
      (cs[k].low.Some? <==> props[k].bounds.Interval?) && (cs[k].high.Some? <==> props[k].bounds.Interval?) &&
      (props[k].bounds.Interval? ==>
        cs[k].low == Some(props[k].bounds.minValue) && cs[k].high == Some(props[k].bounds.maxValue))
  {
    seq(|props|, k requires 0 <= k < |props| =>
      match props[k].bounds
      case Interval(lo, hi) => Category(None, Some(lo), Some(hi), props[k].caption)
      case Exact(v) => Category(Some(v), None, None, props[k].caption))
  }

  /** One turn of the categorical loop: the entry it adds and where the
      cursor goes next, or the message it throws. */
  datatype Step = Entry(entry: SensorDimension, next: nat) | Fail(message: string)

  /** The turn at cursor `index`: the dimension named there must exist; a
      `RANGE` clause after it names a range that must exist and moves the
      cursor 4 on, otherwise it moves 2 on. */
  function CategoricalStep(node: seq<string>, index: nat, group: Option<string>,
                           dimensions: map<string, Dimension>, ranges: map<string, seq<RangeProp>>): (s: Step)
    requires index < |node|
    ensures node[index] !in dimensions ==> s == Fail("Dimension " + node[index] + " not found!")
    ensures node[index] in dimensions && index + 1 < |node| && node[index + 1] == "RANGE" && index + 2 < |node| ==>
      (node[index + 2] !in ranges <==> s == Fail("Range " + node[index + 2] + " not found!"))
    ensures s.Entry? <==>
      && node[index] in dimensions && index + 1 < |node|
      && (node[index + 1] == "RANGE" ==> index + 2 < |node| && node[index + 2] in ranges)
    ensures s.Entry? ==>
      && index + 1 < |node|
      && s.next == index + (if node[index + 1] == "RANGE" then 4 else 2)
      && s.entry.CategoricalEntry? && s.entry.id == node[index] && node[index] in dimensions
      && s.entry.field == FieldOf(dimensions[node[index]]) && s.entry.groupId == group
      && (s.entry.categories.Some? <==> node[index + 1] == "RANGE")
      && (node[index + 1] == "RANGE" ==>
            index + 2 < |node| && node[index + 2] in ranges &&
            s.entry.categories == Some(Categories(ranges[node[index + 2]])))
    ensures s.Fail? ==>
      || s.message == "Dimension " + node[index] + " not found!"
      || s.message == TypeError
      || (index + 2 < |node| && s.message == "Range " + node[index + 2] + " not found!")
  {
    if node[index] !in dimensions then Fail("Dimension " + node[index] + " not found!")
    else if index + 1 >= |node| then Fail(TypeError)
    else
      var custom := node[index + 1] == "RANGE";
      if custom && index + 2 >= |node| then Fail(TypeError)
      else if custom && node[index + 2] !in ranges then Fail("Range " + node[index + 2] + " not found!")
      else
        Entry(CategoricalEntry(node[index], FieldOf(dimensions[node[index]]), group,
                               if custom then Some(Categories(ranges[node[index + 2]])) else None),
              index + (if custom then 4 else 2))
  }

  /** The entries a categorical attachment adds, and the message it throws. */
  datatype Run = Run(added: seq<SensorDimension>, failure: Option<string>)

  /** The loop of visitAddCategoricalDimensionToSensor from cursor `index`
      until the end of the children or the first throw. */
  function CategoricalRun(node: seq<string>, index: nat, group: Option<string>,
                          dimensions: map<string, Dimension>, ranges: map<string, seq<RangeProp>>): Run
    decreases |node| - index
  {
    if index >= |node| then Run([], None)
    else match CategoricalStep(node, index, group, dimensions, ranges)
      case Fail(message) => Run([], Some(message))
      case Entry(entry, next) =>
        var rest := CategoricalRun(node, next, group, dimensions, ranges);
        Run([entry] + rest.added, rest.failure)
  }

  /** One turn of the loop: an entry followed by the rest of the run, or
      the end of the run with the message thrown. */
  lemma RunTurn(node: seq<string>, index: nat, group: Option<string>,
                dimensions: map<string, Dimension>, ranges: map<string, seq<RangeProp>>)
    requires index < |node|
    ensures var s := CategoricalStep(node, index, group, dimensions, ranges);
      var r := CategoricalRun(node, index, group, dimensions, ranges);
      && (s.Fail? ==> r == Run([], Some(s.message)))
      && (s.Entry? ==> r == Run([s.entry] + CategoricalRun(node, s.next, group, dimensions, ranges).added,
                                CategoricalRun(node, s.next, group, dimensions, ranges).failure))
  {
  }

  /** Every entry names a known dimension, carries that dimension's field
      and the group. */
  predicate EntriesOf(added: seq<SensorDimension>, group: Option<string>, dimensions: map<string, Dimension>) {
    forall k :: 0 <= k < |added| ==>
      && added[k].CategoricalEntry?
      && added[k].id in dimensions
      && added[k].field == FieldOf(dimensions[added[k].id])
      && added[k].groupId == group
  }

  /** Every added entry names a known dimension and carries that
      dimension's field and the group. */
  lemma {:induction false} CategoricalRunSpec(node: seq<string>, index: nat, group: Option<string>,
                                              dimensions: map<string, Dimension>, ranges: map<string, seq<RangeProp>>)
    ensures EntriesOf(CategoricalRun(node, index, group, dimensions, ranges).added, group, dimensions)
    decreases |node| - index
  {
    if index < |node| {
      var s := CategoricalStep(node, index, group, dimensions, ranges);
      if s.Entry? {
        CategoricalRunSpec(node, s.next, group, dimensions, ranges);
        var rest := CategoricalRun(node, s.next, group, dimensions, ranges);
        assert CategoricalRun(node, index, group, dimensions, ranges).added == [s.entry] + rest.added;
      }
    }
  }

  /** An attachment throws nothing only if every dimension it reaches is
      known; the first unknown one ends it with `Dimension ... not found!`. */
  lemma UnknownDimensionThrows(node: seq<string>, index: nat, group: Option<string>,
                               dimensions: map<string, Dimension>, ranges: map<string, seq<RangeProp>>)
    requires index < |node| && node[index] !in dimensions
    ensures CategoricalRun(node, index, group, dimensions, ranges) == Run([], Some("Dimension " + node[index] + " not found!"))
  {
  }

  // ---------------------------------------------------------------- measurements

  datatype MeasureOptions = MeasureOptions(units: Option<string>, icon: Option<string>, range: Option<string>)

  const NoOptions: MeasureOptions := MeasureOptions(None, None, None)

  /** One `property value` pair: UNITS, ICON and RANGE are stored without
      quotes, any other key is skipped. */
  function WithOption(o: MeasureOptions, key: string, value: string): MeasureOptions {
    if key == "UNITS" then o.(units := Some(Unquoted(value)))
    else if key == "ICON" then o.(icon := Some(Unquoted(value)))
    else if key == "RANGE" then o.(range := Some(Unquoted(value)))
    else o
  }

  /** The option loop from cursor `index`: None when a key has no value
      child (`getChild(index + 1)` is null). */
  function ScanOptions(node: seq<string>, index: nat, o: MeasureOptions): Option<MeasureOptions>
    decreases |node| - index
  {
    if index >= |node| then Some(o)
    else if index + 1 >= |node| then None
    else ScanOptions(node, index + 2, WithOption(o, node[index], node[index + 1]))
  }

  predicate QuoteFree(o: MeasureOptions) {
    && (o.units.Some? ==> '\'' !in o.units.value && '"' !in o.units.value)
    && (o.icon.Some? ==> '\'' !in o.icon.value && '"' !in o.icon.value)
    && (o.range.Some? ==> '\'' !in o.range.value && '"' !in o.range.value)
  }

  /** Stored option values never hold a quote. */
  lemma {:induction false} ScanOptionsQuoteFree(node: seq<string>, index: nat, o: MeasureOptions)
    requires QuoteFree(o)
    requires ScanOptions(node, index, o).Some?
    ensures QuoteFree(ScanOptions(node, index, o).value)
    decreases |node| - index
  {
    if index < |node| {
      ScanOptionsQuoteFree(node, index + 2, WithOption(o, node[index], node[index + 1]));
    }
  }

  /** Without a UNITS key among the pairs the units stay as they were. */
  lemma {:induction false} ScanOptionsKeepsUnits(node: seq<string>, index: nat, o: MeasureOptions)
    requires forall k :: index <= k < |node| && (k - index) % 2 == 0 ==> node[k] != "UNITS"
    requires ScanOptions(node, index, o).Some?
    ensures ScanOptions(node, index, o).value.units == o.units
    decreases |node| - index
  {
    if index < |node| {
      ScanOptionsKeepsUnits(node, index + 2, WithOption(o, node[index], node[index + 1]));
    }
  }

  /** The measure a measurement node adds: lower-cased name, type, options. */
  function MeasureOf(node: seq<string>, o: MeasureOptions): (m: Measure)
    requires |node| >= 2
    ensures m.name == Lower(node[0]) && m.kind == node[1]
    ensures m.units == o.units && m.icon == o.icon && m.range == o.range
  {
    Measure(Lower(node[0]), node[1], o.units, o.icon, o.range)
  }

  /** `store.getRange(sensorProps.range)`: the properties of the range the
      measure names, when it exists. */
  function CustomRange(range: Option<string>, ranges: map<string, seq<RangeProp>>): Option<seq<RangeProp>> {
    if range.Some? && range.value in ranges then Some(ranges[range.value]) else None
  }

  /** The names of the styles a measurement adds to the product: those of
      its custom range's properties, then the point and polygon styles. */
  function MeasurementStyles(name: string, custom: Option<seq<RangeProp>>): (ss: seq<string>)
    ensures |ss| >= 2 && ss[|ss| - 2..] == [name, name + "_POLYGON"]
    ensures custom.None? ==> |ss| == 2
    ensures custom.Some? ==>
      && |ss| == |custom.value| + 2
      && forall k :: 0 <= k < |custom.value| ==> ss[k] == custom.value[k].style.name
  {
    var ranged := if custom.Some? then seq(|custom.value|, k requires 0 <= k < |custom.value| => custom.value[k].style.name) else [];
    ranged + [name, name + "_POLYGON"]
  }

  // ---------------------------------------------------------------- map box and deployment

  /** `text.split(",")` destructured as `[lat, lon]`; `lon` is undefined
      (None) when there is no comma. */
  function LatLon(text: string): (r: (string, Option<string>))
  {
    var parts := Split(text, ',');
    (parts[0], if |parts| >= 2 then Some(parts[1]) else None)
  }

  lemma SplitPair(a: string, b: string)
    requires ',' !in a && ',' !in b
    ensures Split(a + [','] + b, ',') == [a, b]
  {
    SplitOfPlain(b);
    SplitPrefixed(a, b);
  }

  lemma {:induction false} SplitOfPlain(b: string)
    requires ',' !in b
    ensures Split(b, ',') == [b]
    decreases |b|
  {
    if b != [] {
      SplitOfPlain(b[1..]);
      assert [b[0]] + b[1..] == b;
    }
  }

  lemma {:induction false} SplitPrefixed(a: string, b: string)
    requires ',' !in a && Split(b, ',') == [b]
    ensures Split(a + [','] + b, ',') == [a, b]
    decreases |a|
  {
    if a == [] {
      assert a + [','] + b == [','] + b;
      assert ([','] + b)[1..] == b;
    } else {
      var s := a + [','] + b;
      assert s[1..] == a[1..] + [','] + b;
      SplitPrefixed(a[1..], b);
      assert [a[0]] + a[1..] == a;
    }
  }

  /** A `lat,lon` box reads back as its two coordinates. */
  lemma LatLonOfPair(a: string, b: string)
    requires ',' !in a && ',' !in b
    ensures LatLon(a + [','] + b) == (a, Some(b))
  {
    SplitPair(a, b);
  }

  /** The centre a box node sets: coordinates from child 4 and zoom from
      child 7 when child 3 is `[`, otherwise from children 3 and 5. */
  function BoxCenter(node: seq<string>): (c: Center)
    requires |node| >= 4 && (if node[3] == "[" then |node| >= 8 else |node| >= 6)
    ensures node[3] == "[" ==> c == Center(LatLon(node[4]).0, LatLon(node[4]).1, node[7])
    ensures node[3] != "[" ==> c == Center(LatLon(node[3]).0, LatLon(node[3]).1, node[5])
  {
    var hasBracket := node[3] == "[";
    var coords := LatLon(if hasBracket then node[4] else node[3]);
    Center(coords.0, coords.1, if hasBracket then node[7] else node[5])
  }

  /** `.slice(1, -1)`: the text without its first and last character. */
  function Unwrapped(s: string): (r: string)
    ensures |s| >= 2 ==> r == s[1..|s| - 1]
    ensures |s| < 2 ==> r == ""
  {
    if |s| >= 2 then s[1..|s| - 1] else ""
  }

  /** Unwrapping a quoted text gives the text back. */
  lemma UnwrappedQuoted(open: char, x: string, close: char)
    ensures Unwrapped([open] + x + [close]) == x
  {
    var s := [open] + x + [close];
    assert s[1..|s| - 1] == x;
  }
}
