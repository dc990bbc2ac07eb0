/** The store the sensor-DSL visitor reads and fills. `store.js`,
    `Product.js` and `Map.js` are not part of this model: the store is
    abstracted as maps of dimensions, ranges, layers and maps, the
    visitor's "current" cursors, and the lists the product accumulates. */
module SensorStore {
  import opened Optional
  import opened Sensors

  /** A dimension created by `CREATE ... DIMENSION`, keyed by its name. */
  datatype DimKind = Spatial(geomType: string) | Categorical(field: string)

  /** `{ id, type, displayString? }` pushed on a dimension's properties. */
  datatype DimProp = DimProp(id: string, kind: string, displayString: Option<string>)

  datatype Dimension = Dimension(kind: DimKind, properties: seq<DimProp>)

  /** The bounds of a range property: `min TO max` or a single value. */
  datatype Bounds = Interval(minValue: string, maxValue: string) | Exact(value: string)

  /** The GeoJSON style of a range property: its name and its (fill and
      stroke) colour. */
  datatype RangeStyle = RangeStyle(name: string, color: string)

  datatype RangeProp = RangeProp(bounds: Bounds, caption: string, color: Option<string>, style: RangeStyle)

  /** A layer added to a map: name, style and position. */
  datatype MapLayer = MapLayer(name: string, style: string, order: nat)

  datatype Center = Unset | Center(lat: string, lon: Option<string>, zoom: string)

  datatype MapState = MapState(center: Center, layers: seq<MapLayer>)

  /** Everything the store holds, as one value. */
  datatype StoreState = StoreState(
    dimensions: map<string, Dimension>,
    ranges: map<string, seq<RangeProp>>,
    currentDimension: Option<string>,
    currentRange: Option<string>,
    currentEntity: Option<string>,
    currentSensor: Sensor?,
    sensorGroups: seq<(string, seq<string>)>,
    layers: map<string, seq<string>>,     // layer id -> its available styles
    styles: seq<string>,                  // names of the styles added to the product
    maps: map<string, MapState>,
    deployment: seq<(string, string)>)

  class Store {
    var dimensions: map<string, Dimension>
    var ranges: map<string, seq<RangeProp>>
    var currentDimension: Option<string>
    var currentRange: Option<string>
    var currentEntity: Option<string>
    var currentSensor: Sensor?
    var sensorGroups: seq<(string, seq<string>)>
    var layers: map<string, seq<string>>
    var styles: seq<string>
    var maps: map<string, MapState>
    var deployment: seq<(string, string)>

    function State(): StoreState
      reads this
    {
      StoreState(dimensions, ranges, currentDimension, currentRange, currentEntity, currentSensor,
                 sensorGroups, layers, styles, maps, deployment)
    }

    constructor ()
      ensures State() == StoreState(map[], map[], None, None, None, null, [], map[], [], map[], [])
    {
      dimensions, ranges := map[], map[];
      currentDimension, currentRange, currentEntity, currentSensor := None, None, None, null;
      sensorGroups, layers, styles, maps, deployment := [], map[], [], map[], [];
    }
  }

  // ---------------------------------------------------------------- de-duplication

  predicate NoDuplicates<T(==)>(s: seq<T>) {
    forall i, j :: 0 <= i < j < |s| ==> s[i] != s[j]
  }

  /** `[...new Set(s)]`: the first occurrence of each element, in order. */
  function Dedup<T(==)>(s: seq<T>): (r: seq<T>)
    decreases |s|
  {
    if s == [] then []
    else
      var d := Dedup(s[..|s| - 1]);
      if s[|s| - 1] in d then d else d + [s[|s| - 1]]
  }

  /** De-duplication keeps exactly the elements, each once. */
  lemma {:induction false} DedupSpec<T>(s: seq<T>)
    ensures NoDuplicates(Dedup(s))
    ensures forall x :: x in Dedup(s) <==> x in s
    decreases |s|
  {
    if s != [] {
      var init := s[..|s| - 1];
      DedupSpec(init);
      assert s == init + [s[|s| - 1]];
    }
  }

  /** A list without repeats is left as it is. */
  lemma {:induction false} DedupOfDistinct<T>(s: seq<T>)
    requires NoDuplicates(s)
    ensures Dedup(s) == s
    decreases |s|
  {
    if s != [] {
      var init := s[..|s| - 1];
      DedupOfDistinct(init);
      assert s[|s| - 1] !in init;
      assert s == init + [s[|s| - 1]];
    }
  }

  lemma DedupIdempotent<T>(s: seq<T>)
    ensures Dedup(Dedup(s)) == Dedup(s)
  {
    DedupSpec(s);
    DedupOfDistinct(Dedup(s));
  }

  /** First-occurrence order: de-duplicating a longer list only adds
      elements after those of its prefix. */
  lemma {:induction false} DedupPrefix<T>(a: seq<T>, b: seq<T>)
    ensures Dedup(a) <= Dedup(a + b)
    decreases |b|
  {
    if b == [] {
      assert a + b == a;
    } else {
      var b' := b[..|b| - 1];
      DedupPrefix(a, b');
      assert (a + b)[..|a + b| - 1] == a + b';
    }
  }
}
