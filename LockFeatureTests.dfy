/**
 * The data selection of the lock tests: a feature type with instances, chosen at random,
 * and the gml:id of one of its instances.
 */
module LockFeatureTests {
  import opened Wrappers
  import opened Xml
  import opened FeatureTypes
  import opened DataSampling

  /** The type descriptions that report instances, in the iteration order of the type table. */
  function AvailableTypes(entries: seq<(QName, FeatureTypeInfo)>): (r: seq<FeatureTypeInfo>)
    reads InfoObjects(entries)
    ensures forall t :: t in r ==> t.instantiated && exists i :: 0 <= i < |entries| && entries[i].1 == t
    ensures forall i :: 0 <= i < |entries| && entries[i].1.instantiated ==> entries[i].1 in r
    ensures |r| <= |entries|
  {
    if entries == [] then []
    else
      var last := entries[|entries| - 1];
      var init := entries[..|entries| - 1];
      assert InfoObjects(init) <= InfoObjects(entries) by {
        forall o | o in InfoObjects(init) ensures o in InfoObjects(entries) {
          var i :| 0 <= i < |init| && init[i].1 == o;
          assert entries[i] == init[i];
        }
      }
      var rest := AvailableTypes(init);
      assert forall i :: 0 <= i < |init| ==> init[i] == entries[i];
      if last.1.instantiated then rest + [last.1] else rest
  }

  /**
   * selectRandomFeatureType: the name of a randomly drawn type that has instances; None when
   * no type has any. The draw is a choice among the available types.
   */
  method SelectRandomFeatureType(entries: seq<(QName, FeatureTypeInfo)>) returns (r: Option<QName>)
    ensures AvailableTypes(entries) == [] ==> r.None?
    ensures r.Some? ==> exists i :: 0 <= i < |entries| && entries[i].1.instantiated && entries[i].1.typeName == r
    ensures AvailableTypes(entries) != [] ==>
      exists t :: t in AvailableTypes(entries) && t.typeName == r
  {
    var availableTypes: seq<FeatureTypeInfo> := [];
    var i := 0;
    while i < |entries|
      invariant 0 <= i <= |entries|
      invariant availableTypes == AvailableTypes(entries[..i])
    {
      assert entries[..i + 1][..i] == entries[..i];
      if entries[i].1.instantiated {
        availableTypes := availableTypes + [entries[i].1];
      }
      i := i + 1;
    }
    assert entries[..i] == entries;
    if availableTypes == [] {
      return None;
    }
    var k :| 0 <= k < |availableTypes|;
    var chosen := availableTypes[k];
    assert chosen in AvailableTypes(entries);
    ghost var j :| 0 <= j < |entries| && entries[j].1 == chosen;
    r := chosen.typeName;
    assert entries[j].1.instantiated && entries[j].1.typeName == r;
  }

  /** With every type named, the selection is None exactly when no type has instances. */
  lemma SelectionFailsIffNoneAvailable(entries: seq<(QName, FeatureTypeInfo)>)
    requires forall i :: 0 <= i < |entries| ==> entries[i].1.typeName.Some?
    ensures AvailableTypes(entries) == [] <==> forall i :: 0 <= i < |entries| ==> !entries[i].1.instantiated
    ensures forall t :: t in AvailableTypes(entries) ==> t.typeName.Some?
  {
  }

  /**
   * fetchRandomFeatureIdentifier: at most one entry, from the gml:id of a randomly drawn instance
   * to its type. instanceIds gives the gml:id of each instance the service returns for a type;
   * drawing from an empty response throws.
   */
  method FetchRandomFeatureIdentifier(entries: seq<(QName, FeatureTypeInfo)>, instanceIds: QName -> seq<string>)
    returns (r: Result<map<string, QName>>)
    ensures AvailableTypes(entries) == [] ==> r == Ok(map[])
    ensures r.Err? ==> r.error.IllegalArgument?
    ensures r.Err? ==> exists t :: t in AvailableTypes(entries) && t.typeName.Some? && instanceIds(t.typeName.value) == []
    ensures (AvailableTypes(entries) != [] &&
             forall t :: t in AvailableTypes(entries) ==> t.typeName.Some? && instanceIds(t.typeName.value) != []) ==>
      r.Ok? && |r.value| == 1
    ensures (AvailableTypes(entries) != [] &&
             forall t :: t in AvailableTypes(entries) ==> t.typeName.Some? && instanceIds(t.typeName.value) == []) ==>
      r.Err?
    ensures r == Ok(map[]) ==> AvailableTypes(entries) == [] || exists t :: t in AvailableTypes(entries) && t.typeName.None?
    ensures r.Ok? ==> |r.value| <= 1
    ensures r.Ok? ==> forall id :: id in r.value ==>
      id in instanceIds(r.value[id]) &&
      exists i :: 0 <= i < |entries| && entries[i].1.instantiated && entries[i].1.typeName == Some(r.value[id])
  {
    var featureId: map<string, QName> := map[];
    var featureType := SelectRandomFeatureType(entries);
    if featureType.Some? {
      var ids := instanceIds(featureType.value);
      if ids == [] {
        return Err(IllegalArgument("bound must be positive"));
      }
      var k :| 0 <= k < |ids|;
      featureId := featureId[ids[k] := featureType.value];
    }
    return Ok(featureId);
  }

  /** A single type with instances is always the one selected. */
  method SelectOnlyAvailableType(river: QName) returns (r: Option<QName>)
    ensures r == Some(river)
  {
    var typeInfo := new FeatureTypeInfo();
    typeInfo.SetTypeName(river);
    typeInfo.SetInstantiated(true);
    r := SelectRandomFeatureType([(river, typeInfo)]);
    assert AvailableTypes([(river, typeInfo)]) == [typeInfo];
  }

  /** A single type with instances, whose response holds one feature, yields that feature's gml:id. */
  method FetchWithOneInstance(river: QName, id: string) returns (r: Result<map<string, QName>>)
    ensures r == Ok(map[id := river])
  {
    var typeInfo := new FeatureTypeInfo();
    typeInfo.SetTypeName(river);
    typeInfo.SetInstantiated(true);
    assert AvailableTypes([(river, typeInfo)]) == [typeInfo];
    r := FetchRandomFeatureIdentifier([(river, typeInfo)], q => [id]);
    var k :| k in r.value.Keys;
    assert k == id && r.value[k] == river;
    assert r.value.Keys == {id} by {
      forall x | x in r.value.Keys ensures x == id {
      }
    }
    assert r.value == map[id := river];
  }

  /** A single type with instances whose response holds no feature makes the draw throw. */
  method FetchFromEmptyResponse(river: QName) returns (r: Result<map<string, QName>>)
    ensures r.Err? && r.error.IllegalArgument?
  {
    var typeInfo := new FeatureTypeInfo();
    typeInfo.SetTypeName(river);
    typeInfo.SetInstantiated(true);
    assert AvailableTypes([(river, typeInfo)]) == [typeInfo];
    r := FetchRandomFeatureIdentifier([(river, typeInfo)], q => []);
  }

  /** A single type without instances yields no identifier. */
  method FetchWithoutInstances(river: QName, instanceIds: QName -> seq<string>) returns (r: Result<map<string, QName>>)
    ensures r == Ok(map[])
  {
    var typeInfo := new FeatureTypeInfo();
    typeInfo.SetTypeName(river);
    typeInfo.SetInstantiated(false);
    SelectionFailsIffNoneAvailable([(river, typeInfo)]);
    r := FetchRandomFeatureIdentifier([(river, typeInfo)], instanceIds);
  }
}
