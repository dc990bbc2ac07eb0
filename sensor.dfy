/** `Sensor.js` of the sensor DSL: a sensor with the names derived from its
    id, its defaults, and the measurements and dimensions attached to it. */
module Sensors {
  import opened Optional
  import opened Strings

  /** An entry of `sensor.dimensions`: a spatial relation grouping the
      spatial dimensions attached under one name, or one categorical
      dimension. */
  datatype SensorDimension =
    | SpatialRelation(id: string, entities: seq<string>)
    | CategoricalEntry(id: string, field: Option<string>, groupId: Option<string>,
                       categories: Option<seq<Category>>)
  {
    /** `d.id`, which both kinds carry. */
    function Id(): string {
      match this
      case SpatialRelation(id, _) => id
      case CategoricalEntry(id, _, _, _) => id
    }
  }

  /** A category taken from a range property; the bound texts are kept as
      written (the float parsing is not modelled). */
  datatype Category = Category(value: Option<string>, low: Option<string>, high: Option<string>, caption: string)

  /** An entry of `sensor.measureData`: name, type and the optional units,
      icon and range. */
  datatype Measure = Measure(name: string, kind: string, units: Option<string>,
                             icon: Option<string>, range: Option<string>)

  const DefaultInterval: int := 1000
  const DefaultGeometry: string := "Point"

  /** The names the constructor derives from the id. */
  function EntityName(id: string): string { id + "Entity" }
  function MeasurementEntity(id: string): string { id + "Measurement" }
  function DefaultMapName(id: string): string { Lower(id) + "-map" }
  function DefaultLayerName(id: string): string { Lower(id) + "-layer" }

  /** `interval || 1000`: `interval` comes from parseInt, None standing for
      NaN; NaN and 0 are falsy. */
  function IntervalOrDefault(interval: Option<int>): (t: int)
    ensures t != 0
    ensures interval.Some? && interval.value != 0 ==> t == interval.value
    ensures interval.None? || interval.value == 0 ==> t == DefaultInterval
  {
    match interval
    case Some(n) => if n != 0 then n else DefaultInterval
    case None => DefaultInterval
  }

  /** `geom || "Point"`: the empty string is falsy. */
  function GeometryOrDefault(geom: string): (g: string)
    ensures g != ""
    ensures geom != "" ==> g == geom
  {
    if geom == "" then DefaultGeometry else geom
  }

  /** The derived names keep the id as written in the entity names and
      lower-cased in the map and layer names, so two ids that differ only in
      case share their default map and layer. */
  lemma DerivedNames(id: string)
    ensures EntityName(id)[..|id|] == id && MeasurementEntity(id)[..|id|] == id
    ensures DefaultMapName(id)[..|id|] == Lower(id) && DefaultLayerName(id)[..|id|] == Lower(id)
    ensures DefaultMapName(id) == DefaultMapName(Lower(id))
  {
    assert Lower(Lower(id)) == Lower(id);
  }

  class Sensor {
    const id: string
    const entity: string
    const defaultMap: string
    const defaultLayer: string
    const time: int
    const isMoving: bool
    const factTableEntity: string
    const geom: string
    var measureData: seq<Measure>
    var dimensions: seq<SensorDimension>

    /** The constructor once its id check has passed (`!id` is false). */
    constructor (id: string, interval: Option<int>, moving: bool, geom: string)
      requires id != ""
      ensures this.id == id
      ensures entity == EntityName(id) && factTableEntity == MeasurementEntity(id)
      ensures defaultMap == DefaultMapName(id) && defaultLayer == DefaultLayerName(id)
      ensures time == IntervalOrDefault(interval)
      ensures isMoving == moving
      ensures this.geom == GeometryOrDefault(geom)
      ensures measureData == [] && dimensions == []
    {
      this.id := id;
      entity := id + "Entity";
      defaultMap := Lower(id) + "-map";
      defaultLayer := Lower(id) + "-layer";
      time := IntervalOrDefault(interval);
      isMoving := moving;
      factTableEntity := id + "Measurement";
      this.geom := GeometryOrDefault(geom);
      measureData := [];
      dimensions := [];
    }

    method AddDimension(dimension: SensorDimension)
      modifies this
      ensures dimensions == old(dimensions) + [dimension]
      ensures measureData == old(measureData)
    {
      dimensions := dimensions + [dimension];
    }

    method AddMeasureData(measure: Measure)
      modifies this
      ensures measureData == old(measureData) + [measure]
      ensures dimensions == old(dimensions)
    {
      measureData := measureData + [measure];
    }
  }

  /** `new Sensor(id, ...)`: an empty id throws (null here) and builds nothing. */
  method NewSensor(id: string, interval: Option<int>, moving: bool, geom: string) returns (s: Sensor?)
    ensures s == null <==> id == ""
    ensures s != null ==>
      && fresh(s) && s.id == id && s.entity == EntityName(id)
      && s.factTableEntity == MeasurementEntity(id) && s.defaultMap == DefaultMapName(id)
      && s.defaultLayer == DefaultLayerName(id) && s.time == IntervalOrDefault(interval)
      && s.isMoving == moving && s.geom == GeometryOrDefault(geom)
      && s.measureData == [] && s.dimensions == []
  {
    if id == "" {
      return null;
    }
    s := new Sensor(id, interval, moving, geom);
  }
}
