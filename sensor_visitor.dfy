/** The visitor rules of `SensorVisitor.js`, run against the store. A
    parse node is the sequence of its children's texts; a rule that throws
    ends with `Thrown` and leaves whatever it had already changed. */
module SensorVisitor {
  import opened Optional
  import opened Strings
  import opened Sensors
  import opened SensorStore
  import opened SensorRules

  /** How a visit ends: normally, or with the value it throws. */
  datatype Outcome = Done | Thrown(message: string)

  function OutcomeOf(failure: Option<string>): (o: Outcome)
    ensures o.Done? <==> failure.None?
    ensures failure.Some? ==> o == Thrown(failure.value)
  {
    if failure.Some? then Thrown(failure.value) else Done
  }

  class Visitor {
    const store: Store

    constructor (store: Store)
      ensures this.store == store
    {
      this.store := store;
    }

    // -------------------------------------------------------------- sensor groups

    /** visitCreateSensorGroup: the group named by child 1, its members read
        from child 3 on. */
    method VisitCreateSensorGroup(node: seq<string>)
      requires |node| >= 2
      modifies store
      ensures store.State() ==
        old(store.State()).(sensorGroups := old(store.sensorGroups) + [(node[1], GroupMembers(node, 3))])
    {
      var sensorName := node[1];
      var index := 3;
      var sensors: seq<string> := [];
      while index < |node|
        invariant index >= 3
        invariant sensors + GroupMembers(node, index) == GroupMembers(node, 3)
        decreases |node| - index
      {
        var sensor := node[index];
        if sensor == ";" {
          break;
        }
        assert GroupMembers(node, index) == [sensor] + GroupMembers(node, index + 2);
        sensors := sensors + [sensor];
        index := index + 2;
      }
      assert GroupMembers(node, index) == [];
      assert sensors == GroupMembers(node, 3);
      store.sensorGroups := store.sensorGroups + [(sensorName, sensors)];
    }

    // -------------------------------------------------------------- dimensions

    /** visitDimPropertyDefinition: one more property on the current
        dimension. */
    method VisitDimPropertyDefinition(node: seq<string>)
      requires |node| >= 2
      requires store.currentDimension.Some? && store.currentDimension.value in store.dimensions
      modifies store
      ensures store.State() == old(store.State()).(
        dimensions := AddDimProp(old(store.dimensions), old(store.currentDimension.value), DimPropOf(node)))
    {
      var hasDisplayString := |node| == 3;
      var dimProps := DimProp(node[0], node[1], if hasDisplayString then Some(node[2]) else None);
      var name := store.currentDimension.value;
      var dim := store.dimensions[name];
      store.dimensions := store.dimensions[name := dim.(properties := dim.properties + [dimProps])];
    }

    /** The visit of a dimension's property children, in order. */
    method VisitDimProperties(propertyNodes: seq<seq<string>>)
      requires PropertyNodes(propertyNodes)
      requires store.currentDimension.Some? && store.currentDimension.value in store.dimensions
      modifies store
      ensures var name := old(store.currentDimension.value);
        var dim := old(store.dimensions[name]);
        store.State() == old(store.State()).(
          dimensions := old(store.dimensions)[name := dim.(properties := dim.properties + DimProps(propertyNodes))])
    {
      var name := store.currentDimension.value;
      var dim := store.dimensions[name];
      var k := 0;
      assert dim.properties + DimProps(propertyNodes)[..0] == dim.properties;
      assert store.dimensions[name := dim] == store.dimensions;
      while k < |propertyNodes|
        invariant 0 <= k <= |propertyNodes|
        invariant store.dimensions == old(store.dimensions)[name := dim.(properties := dim.properties + DimProps(propertyNodes)[..k])]
        invariant store.State() == old(store.State()).(dimensions := store.dimensions)
      {
        ghost var before := store.dimensions;
        VisitDimPropertyDefinition(propertyNodes[k]);
        assert DimProps(propertyNodes)[..k + 1] == DimProps(propertyNodes)[..k] + [DimPropOf(propertyNodes[k])];
        assert store.dimensions == before[name := before[name].(properties := before[name].properties + [DimPropOf(propertyNodes[k])])];
        assert before[name].properties + [DimPropOf(propertyNodes[k])] == dim.properties + DimProps(propertyNodes)[..k + 1];
        k := k + 1;
      }
      assert DimProps(propertyNodes)[..k] == DimProps(propertyNodes);
    }

    /** visitCreateSpatialDimension; `propertyNodes` are its property
        children. */
    method VisitCreateSpatialDimension(node: seq<string>, propertyNodes: seq<seq<string>>) returns (outcome: Outcome)
      requires |node| >= 7 && PropertyNodes(propertyNodes)
      modifies store
      ensures node[2] in old(store.dimensions) ==>
        outcome == Thrown("Dimension " + node[2] + " already exists!") && store.State() == old(store.State())
      ensures node[2] !in old(store.dimensions) && Upper(node[4]) != GeometryKeyword ==>
        outcome == Thrown("Dimension " + node[2] + " is not a spatial dimension!") && store.State() == old(store.State())
      ensures node[2] !in old(store.dimensions) && Upper(node[4]) == GeometryKeyword ==>
        && outcome == Done
        && store.State() == old(store.State()).(
             dimensions := old(store.dimensions)[node[2] := Dimension(Spatial(Capitalized(node[6])), DimProps(propertyNodes))],
             currentDimension := None, currentEntity := None)
    {
      var dimensionName := node[2];
      if dimensionName in store.dimensions {
        return Thrown("Dimension " + dimensionName + " already exists!");
      }
      if Upper(node[4]) != GeometryKeyword {
        return Thrown("Dimension " + dimensionName + " is not a spatial dimension!");
      }
      var parsedGeomType := Capitalized(node[6]);
      store.dimensions := store.dimensions[dimensionName := Dimension(Spatial(parsedGeomType), [])];
      store.currentDimension := Some(dimensionName);
      VisitDimProperties(propertyNodes);
      assert [] + DimProps(propertyNodes) == DimProps(propertyNodes);
      store.currentDimension := None;
      store.currentEntity := None;
      return Done;
    }

    /** visitCreateCategoricalDimension; `propertyNodes` are its property
        children. Unlike the spatial rule it leaves the current entity. */
    method VisitCreateCategoricalDimension(node: seq<string>, propertyNodes: seq<seq<string>>) returns (outcome: Outcome)
      requires |node| >= 7 && PropertyNodes(propertyNodes)
      modifies store
      ensures node[2] in old(store.dimensions) ==>
        outcome == Thrown("Dimension " + node[2] + " already exists!") && store.State() == old(store.State())
      ensures node[2] !in old(store.dimensions) && Upper(node[0]) != CategoricalKeyword ==>
        outcome == Thrown("Dimension " + node[2] + " is not a categorical dimension!") && store.State() == old(store.State())
      ensures node[2] !in old(store.dimensions) && Upper(node[0]) == CategoricalKeyword ==>
        && outcome == Done
        && store.State() == old(store.State()).(
             dimensions := old(store.dimensions)[node[2] := Dimension(Categorical(node[6]), DimProps(propertyNodes))],
             currentDimension := None)
    {
      var dimensionName := node[2];
      if dimensionName in store.dimensions {
        return Thrown("Dimension " + dimensionName + " already exists!");
      }
      if Upper(node[0]) != CategoricalKeyword {
        return Thrown("Dimension " + dimensionName + " is not a categorical dimension!");
      }
      var propField := node[6];
      store.dimensions := store.dimensions[dimensionName := Dimension(Categorical(propField), [])];
      store.currentDimension := Some(dimensionName);
      VisitDimProperties(propertyNodes);
      assert [] + DimProps(propertyNodes) == DimProps(propertyNodes);
      store.currentDimension := None;
      return Done;
    }

    // -------------------------------------------------------------- ranges

    /** visitRangeProperty: one more property on the current range. */
    method VisitRangeProperty(node: seq<string>)
      requires RangeNode(node)
      requires store.currentRange.Some? && store.currentRange.value in store.ranges
      modifies store
      ensures var id := old(store.currentRange.value);
        store.State() == old(store.State()).(
          ranges := old(store.ranges)[id := old(store.ranges[id]) + [RangePropOf(id, node)]])
    {
      var rangeId := store.currentRange.value;
      var rangeProps: RangeProp;
      if node[1] == "TO" {
        var hasColor := |node| == 7;
        var color := if hasColor then node[6] else DefaultColor;
        var caption := Unquoted(node[4]);
        rangeProps := RangeProp(Interval(node[0], node[2]), caption, if hasColor then Some(node[6]) else None,
                                RangeStyle(rangeId + "-" + caption, color));
      } else {
        var hasColor := |node| == 5;
        var color := if hasColor then node[4] else DefaultColor;
        var caption := Unquoted(node[2]);
        rangeProps := RangeProp(Exact(node[0]), caption, if hasColor then Some(node[4]) else None,
                                RangeStyle(rangeId + "-" + caption, color));
      }
      store.ranges := store.ranges[rangeId := store.ranges[rangeId] + [rangeProps]];
    }

    // -------------------------------------------------------------- spatial attachment

    /** The styles of the layer built for a dimension, the loop over the
        sensor's measures. */
    method LayerStyles(measures: seq<Measure>, geomType: string) returns (styles: seq<string>)
      ensures styles == NewLayerStyles(measures, geomType)
    {
      styles := ["grayPolygon"];
      var i := 0;
      while i < |measures|
        invariant 0 <= i <= |measures|
        invariant styles == ["grayPolygon"] + MeasureStyles(measures[..i], geomType)
      {
        var measure := measures[i];
        styles := styles + [measure.name];
        if PolygonLike(geomType) {
          styles := styles + [measure.name + "_POLYGON"];
        }
        MeasureStylesAppend(measures[..i], measure, geomType);
        assert measures[..i + 1] == measures[..i] + [measure];
        i := i + 1;
      }
      assert measures[..i] == measures;
    }

    /** One turn of the loop of visitAddSpatialDimensionToSensor. */
    method AttachSpatial(sensor: Sensor, dimName: string, rel: string) returns (failure: Option<string>)
      modifies store, sensor
      ensures var a := SpatialStep(SpatialAcc(old(sensor.dimensions), old(store.layers), old(store.maps), None),
                                   dimName, rel, old(store.dimensions), old(sensor.measureData), sensor.defaultMap);
        && sensor.dimensions == a.dims && sensor.measureData == old(sensor.measureData)
        && store.State() == old(store.State()).(layers := a.layers, maps := a.maps)
        && failure == a.failure
    {
      if dimName !in store.dimensions {
        return Some("Dimension " + dimName + " not found!");
      }
      var dim := store.dimensions[dimName];
      var found := FindDimension(sensor.dimensions, rel);
      if found.None? {
        sensor.dimensions := sensor.dimensions + [SpatialRelation(rel, [dimName])];
      } else if sensor.dimensions[found.value].SpatialRelation? {
        var entry := sensor.dimensions[found.value];
        sensor.dimensions := sensor.dimensions[found.value := SpatialRelation(rel, entry.entities + [dimName])];
      } else {
        return Some(TypeError);
      }
      var geomType := GeomTypeOf(dim);
      var styles := LayerStyles(sensor.measureData, geomType);
      if sensor.defaultMap !in store.maps {
        return Some(TypeError);
      }
      var m := store.maps[sensor.defaultMap];
      store.maps := store.maps[sensor.defaultMap := m.(layers := m.layers + [MapLayer(dimName, LayerStyleOf(dim), |m.layers|)])];
      if dimName !in store.layers {
        store.layers := store.layers[dimName := styles];
      } else {
        store.layers := store.layers[dimName := Dedup(store.layers[dimName] + styles)];
      }
      return None;
    }

    /** visitAddSpatialDimensionToSensor: the dimensions from child 5 on,
        every other child, attached under the relation named by child 3. */
    method VisitAddSpatialDimensionToSensor(node: seq<string>) returns (outcome: Outcome)
      requires |node| >= 4 && store.currentSensor != null
      modifies store, store.currentSensor
      ensures var sensor := old(store.currentSensor);
        var r := SpatialRun(node, 5, SpatialAcc(old(sensor.dimensions), old(store.layers), old(store.maps), None),
                            node[3], old(store.dimensions), old(sensor.measureData), sensor.defaultMap);
        && sensor.dimensions == r.dims && sensor.measureData == old(sensor.measureData)
        && store.State() == old(store.State()).(layers := r.layers, maps := r.maps)
        && outcome == OutcomeOf(r.failure)
    {
      var sensor := store.currentSensor;
      var dimRelName := node[3];
      ghost var dimensions := store.dimensions;
      ghost var measures := sensor.measureData;
      ghost var result := SpatialRun(node, 5, SpatialAcc(sensor.dimensions, store.layers, store.maps, None),
                                     dimRelName, dimensions, measures, sensor.defaultMap);
      var index := 5;
      while index < |node|
        invariant index >= 5
        invariant sensor.measureData == measures
        invariant store.State() == old(store.State()).(layers := store.layers, maps := store.maps)
        invariant result == SpatialRun(node, index, SpatialAcc(sensor.dimensions, store.layers, store.maps, None),
                                       dimRelName, dimensions, measures, sensor.defaultMap)
        decreases |node| - index
      {
        var failure := AttachSpatial(sensor, node[index], dimRelName);
        if failure.Some? {
          return Thrown(failure.value);
        }
        index := index + 2;
      }
      return Done;
    }

    // -------------------------------------------------------------- categorical attachment

    /** visitAddCategoricalDimensionToSensor: the dimensions from the start
        cursor on, each followed by its optional `RANGE` clause. */
    method VisitAddCategoricalDimensionToSensor(node: seq<string>) returns (outcome: Outcome)
      requires |node| >= 4 && store.currentSensor != null
      modifies store.currentSensor
      ensures var sensor := old(store.currentSensor);
        var start := CategoricalStart(node);
        var r := CategoricalRun(node, start.0, start.1, old(store.dimensions), old(store.ranges));
        && sensor.dimensions == old(sensor.dimensions) + r.added
        && sensor.measureData == old(sensor.measureData)
        && outcome == OutcomeOf(r.failure)
    {
      var sensor := store.currentSensor;
      var dimGroup: Option<string> := Some(node[3]);
      var index := 5;
      if node[3] == "(" {
        index := 4;
        dimGroup := None;
      }
      ghost var dims, ranges := store.dimensions, store.ranges;
      ghost var result := CategoricalRun(node, index, dimGroup, dims, ranges);
      while index < |node|
        invariant sensor.measureData == old(sensor.measureData)
        invariant sensor.dimensions + CategoricalRun(node, index, dimGroup, dims, ranges).added
          == old(sensor.dimensions) + result.added
        invariant CategoricalRun(node, index, dimGroup, dims, ranges).failure == result.failure
        decreases |node| - index
      {
        var step := CategoricalStep(node, index, dimGroup, store.dimensions, store.ranges);
        RunTurn(node, index, dimGroup, dims, ranges);
        if step.Fail? {
          return Thrown(step.message);
        }
        ghost var rest := CategoricalRun(node, step.next, dimGroup, dims, ranges).added;
        assert (sensor.dimensions + [step.entry]) + rest == sensor.dimensions + ([step.entry] + rest);
        sensor.AddDimension(step.entry);
        index := step.next;
      }
      return Done;
    }

    // -------------------------------------------------------------- measurements

    /** The option loop of visitCreateMeasurementProperty; None when a key
        has no value child. */
    method ScanMeasureOptions(node: seq<string>) returns (options: Option<MeasureOptions>)
      ensures options == ScanOptions(node, 2, NoOptions)
    {
      var o := NoOptions;
      var index := 2;
      while index < |node|
        invariant index >= 2
        invariant ScanOptions(node, index, o) == ScanOptions(node, 2, NoOptions)
        decreases |node| - index
      {
        if index + 1 >= |node| {
          return None;
        }
        var property := node[index];
        var value := node[index + 1];
        if property == "UNITS" {
          o := o.(units := Some(Unquoted(value)));
        } else if property == "ICON" {
          o := o.(icon := Some(Unquoted(value)));
        } else if property == "RANGE" {
          o := o.(range := Some(Unquoted(value)));
        }
        index := index + 2;
      }
      return Some(o);
    }

    /** visitCreateMeasurementProperty: the measure named by child 0 (lower
        case), typed by child 1, with the options from child 2 on; its name
        joins the default layer's styles and its styles join the product. */
    method VisitCreateMeasurementProperty(node: seq<string>) returns (outcome: Outcome)
      requires |node| >= 2 && store.currentSensor != null
      modifies store, store.currentSensor
      ensures var sensor := old(store.currentSensor);
        var scanned := ScanOptions(node, 2, NoOptions);
        && sensor.dimensions == old(sensor.dimensions)
        && (scanned.None? ==>
              && outcome == Thrown(TypeError) && sensor.measureData == old(sensor.measureData)
              && store.State() == old(store.State()).(currentEntity := Some(MeasurementEntity(sensor.id))))
        && (scanned.Some? ==> sensor.measureData == old(sensor.measureData) + [MeasureOf(node, scanned.value)])
    ensures var sensor := old(store.currentSensor);
        var scanned := ScanOptions(node, 2, NoOptions);
        scanned.Some? && sensor.defaultLayer !in old(store.layers) ==>
          && outcome == Thrown(TypeError)
          && store.State() == old(store.State()).(currentEntity := Some(MeasurementEntity(sensor.id)))
      ensures var sensor := old(store.currentSensor);
        var scanned := ScanOptions(node, 2, NoOptions);
        var name := Lower(node[0]);
        scanned.Some? && sensor.defaultLayer in old(store.layers) ==>
          && outcome == Done
          && store.State() == old(store.State()).(
               currentEntity := Some(MeasurementEntity(sensor.id)),
               layers := old(store.layers)[sensor.defaultLayer := old(store.layers[sensor.defaultLayer]) + [name]],
               styles := old(store.styles) + MeasurementStyles(name, CustomRange(scanned.value.range, old(store.ranges))))
    {
      var sensor := store.currentSensor;
      store.currentEntity := Some(sensor.id + "Measurement");
      var sensorName := Lower(node[0]);
      var sensorType := node[1];
      var options := ScanMeasureOptions(node);
      if options.None? {
        return Thrown(TypeError);
      }
      var o := options.value;
      sensor.AddMeasureData(Measure(sensorName, sensorType, o.units, o.icon, o.range));
      if sensor.defaultLayer !in store.layers {
        return Thrown(TypeError);
      }
      store.layers := store.layers[sensor.defaultLayer := store.layers[sensor.defaultLayer] + [sensorName]];
      var customRange := CustomRange(o.range, store.ranges);
      if customRange.Some? {
        AddRangeStyles(customRange.value);
      }
      store.styles := store.styles + [sensorName, sensorName + "_POLYGON"];
      return Done;
    }

    /** The styles of a custom range's properties, added to the product in
        order. */
    method AddRangeStyles(props: seq<RangeProp>)
      modifies store
      ensures store.State() == old(store.State()).(
        styles := old(store.styles) + seq(|props|, j requires 0 <= j < |props| => props[j].style.name))
    {
      var k := 0;
      while k < |props|
        invariant 0 <= k <= |props|
        invariant store.styles == old(store.styles) + seq(k, j requires 0 <= j < k => props[j].style.name)
        invariant store.State() == old(store.State()).(styles := store.styles)
      {
        store.styles := store.styles + [props[k].style.name];
        k := k + 1;
      }
    }

    // -------------------------------------------------------------- map box and deployment

    /** visitAddBBXToSensor: the centre of the sensor's default map. */
    method VisitAddBBXToSensor(node: seq<string>) returns (outcome: Outcome)
      requires |node| >= 4 && (if node[3] == "[" then |node| >= 8 else |node| >= 6)
      requires store.currentSensor != null
      modifies store
      ensures var mapName := old(store.currentSensor).defaultMap;
        mapName !in old(store.maps) ==> outcome == Thrown(TypeError) && store.State() == old(store.State())
      ensures var mapName := old(store.currentSensor).defaultMap;
        mapName in old(store.maps) ==>
          && outcome == Done
          && store.State() == old(store.State()).(
               maps := old(store.maps)[mapName := old(store.maps[mapName]).(center := BoxCenter(node))])
    {
      var sensor := store.currentSensor;
      var hasBracket := node[3] == "[";
      var coords := LatLon(if hasBracket then node[4] else node[3]);
      var zoom := if hasBracket then node[7] else node[5];
      if sensor.defaultMap !in store.maps {
        return Thrown(TypeError);
      }
      var m := store.maps[sensor.defaultMap];
      store.maps := store.maps[sensor.defaultMap := m.(center := Center(coords.0, coords.1, zoom))];
      return Done;
    }

    /** visitDeploymentProperty: the key and value, each without its
        enclosing quotes. */
    method VisitDeploymentProperty(node: seq<string>)
      requires |node| >= 2
      modifies store
      ensures store.State() == old(store.State()).(
        deployment := old(store.deployment) + [(Unwrapped(node[0]), Unwrapped(node[1]))])
    {
      var key := if |node[0]| >= 2 then node[0][1..|node[0]| - 1] else "";
      var value := if |node[1]| >= 2 then node[1][1..|node[1]| - 1] else "";
      store.deployment := store.deployment + [(key, value)];
    }
  }
}
