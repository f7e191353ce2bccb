/** Sampling the feature data a service offers, with caches of derived extents. */
module DataSampling {
  import opened Wrappers
  import opened Xml
  import opened FeatureTypes

  /** A bounding box in some CRS (geometry itself is not modelled). */
  datatype Envelope = Envelope(crs: string, lower: seq<real>, upper: seq<real>)

  /** A time period (temporal primitives are not modelled beyond their end points). */
  datatype Period = Period(begin: string, end: string)

  /** A feature type and one of its properties, the key of the temporal-extent cache. */
  datatype FeatureProperty = FeatureProperty(featureType: QName, property: QName)

  const DEFAULT_MAX_FEATURES: int := 25

  /** No two entries of the type table have the same name. */
  predicate DistinctKeys(entries: seq<(QName, FeatureTypeInfo)>)
  {
    forall i, j :: 0 <= i < j < |entries| ==> entries[i].0 != entries[j].0
  }

  predicate DistinctIds(ids: seq<string>)
  {
    forall i, j :: 0 <= i < j < |ids| ==> ids[i] != ids[j]
  }

  /** Distinct identifiers form a set of the same size. */
  lemma {:induction false} DistinctCardinality(ids: seq<string>)
    requires DistinctIds(ids)
    ensures |set id | id in ids| == |ids|
  {
    if ids != [] {
      var rest := ids[1..];
      DistinctCardinality(rest);
      assert (set id | id in ids) == (set id | id in rest) + {ids[0]};
      assert ids[0] !in (set id | id in rest);
    }
  }

  /** A set smaller than the set of all identifiers misses one of them. */
  lemma MissingId(ids: seq<string>, chosen: set<string>)
    requires chosen <= (set id | id in ids) && |chosen| < |set id | id in ids|
    ensures exists k :: 0 <= k < |ids| && ids[k] !in chosen
  {
    var all := set id | id in ids;
    var missing := all - chosen;
    assert all == chosen + missing;
    assert |missing| > 0;
    var x :| x in missing;
    var k :| 0 <= k < |ids| && ids[k] == x;
  }

  /** The position of the type in the table. */
  function IndexOfType(entries: seq<(QName, FeatureTypeInfo)>, featureType: QName): (r: Option<nat>)
    ensures r.Some? ==> r.value < |entries| && entries[r.value].0 == featureType
    ensures r.None? ==> forall i :: 0 <= i < |entries| ==> entries[i].0 != featureType
  {
    if entries == [] then None
    else if entries[|entries| - 1].0 == featureType then Some(|entries| - 1)
    else IndexOfType(entries[..|entries| - 1], featureType)
  }

  /** An entry getFeatureId considers: its name matches the type exactly when asked to, and it has instances. */
  predicate Qualifies(entry: (QName, FeatureTypeInfo), featureType: QName, matchFeatureType: bool)
    reads entry.1
  {
    (entry.0 == featureType) == matchFeatureType && entry.1.instantiated
  }

  function InfoObjects(entries: seq<(QName, FeatureTypeInfo)>): set<FeatureTypeInfo>
  {
    set i | 0 <= i < |entries| :: entries[i].1
  }

  /** The first entry, in iteration order, that getFeatureId considers. */
  function FirstQualifying(entries: seq<(QName, FeatureTypeInfo)>, featureType: QName, matchFeatureType: bool, from: nat): (r: Option<nat>)
    requires from <= |entries|
    reads InfoObjects(entries)
    ensures r.Some? ==> from <= r.value < |entries| && Qualifies(entries[r.value], featureType, matchFeatureType)
    ensures forall i :: from <= i < (if r.Some? then r.value else |entries|) ==>
      !Qualifies(entries[i], featureType, matchFeatureType)
    decreases |entries| - from
  {
    if from == |entries| then None
    else if Qualifies(entries[from], featureType, matchFeatureType) then Some(from)
    else FirstQualifying(entries, featureType, matchFeatureType, from + 1)
  }

  /** Whether a file deletion can fail: the file is on disk. */
  predicate OnDisk(entry: (QName, FeatureTypeInfo))
    reads entry.1
  {
    entry.1.sampleData.Some? && entry.1.sampleData.value.onDisk
  }

  /**
   * The sample file named by a feature type's entry: None when the table has no entry for the
   * type (featureInfo.get returns null), Some(None) when the entry names no file.
   */
  function SampleFileOf(entries: seq<(QName, FeatureTypeInfo)>, featureType: QName): (r: Option<Option<SampleFile>>)
    reads InfoObjects(entries)
    ensures r.None? <==> forall i :: 0 <= i < |entries| ==> entries[i].0 != featureType
    ensures r.Some? ==> exists i :: 0 <= i < |entries| && entries[i].0 == featureType && r.value == entries[i].1.sampleData
  {
    var idx := IndexOfType(entries, featureType);
    if idx.None? then None else Some(entries[idx.value].1.sampleData)
  }

  /**
   * getSpatialExtent as a step on the cache: the extent and the cache afterwards. Reading the
   * sample file of a type without an entry, or of an entry without a file, throws a
   * NullPointerException; a file that is not on disk yields no extent, and that absence is cached.
   */
  function SpatialExtentStep(cache: map<QName, Option<Envelope>>, featureType: QName, hasGeometryProperties: bool,
                             file: Option<Option<SampleFile>>, computed: Option<Envelope>): (r: Result<(Option<Envelope>, map<QName, Option<Envelope>>)>)
    ensures featureType in cache && cache[featureType].Some? ==> r == Ok((cache[featureType], cache))
    ensures !(featureType in cache && cache[featureType].Some?) && !hasGeometryProperties ==> r == Ok((None, cache))
    ensures (!(featureType in cache && cache[featureType].Some?) && hasGeometryProperties) ==>
      (r.Err? <==> file.None? || file.value.None?) && (r.Err? ==> r.error.NullPointer?)
    ensures (!(featureType in cache && cache[featureType].Some?) && hasGeometryProperties && r.Ok?) ==>
      r.value.1 == cache[featureType := r.value.0] &&
      r.value.0 == (if file.value.value.onDisk then computed else None)
  {
    if featureType in cache && cache[featureType].Some? then Ok((cache[featureType], cache))
    else if !hasGeometryProperties then Ok((None, cache))
    else if file.None? then Err(NullPointer("no feature type entry"))
    else if file.value.None? then Err(NullPointer("no sample data file"))
    else
      var envelope := if file.value.value.onDisk then computed else None;
      Ok((envelope, cache[featureType := envelope]))
  }

  /** Once an extent has been computed, later calls return it whatever they would compute. */
  lemma SpatialExtentCached(cache: map<QName, Option<Envelope>>, featureType: QName,
                            hasGeom1: bool, file1: Option<Option<SampleFile>>, computed1: Option<Envelope>,
                            hasGeom2: bool, file2: Option<Option<SampleFile>>, computed2: Option<Envelope>)
    requires SpatialExtentStep(cache, featureType, hasGeom1, file1, computed1).Ok?
    requires SpatialExtentStep(cache, featureType, hasGeom1, file1, computed1).value.0.Some?
    ensures var (first, cache1) := SpatialExtentStep(cache, featureType, hasGeom1, file1, computed1).value;
      SpatialExtentStep(cache1, featureType, hasGeom2, file2, computed2) == Ok((first, cache1))
  {
  }

  /**
   * getTemporalExtentOfProperty as a step on the cache. A type without an entry throws a
   * NullPointerException; an entry without a file makes the parser throw IllegalArgumentException;
   * a file that is missing or cannot be parsed is wrapped in a RuntimeException.
   */
  function TemporalExtentStep(cache: map<FeatureProperty, Option<Period>>, key: FeatureProperty,
                              file: Option<Option<SampleFile>>, parsed: bool, computed: Option<Period>): (r: Result<(Option<Period>, map<FeatureProperty, Option<Period>>)>)
    ensures key in cache && cache[key].Some? ==> r == Ok((cache[key], cache))
    ensures !(key in cache && cache[key].Some?) ==>
      (r.Err? <==> file.None? || file.value.None? || !file.value.value.onDisk || !parsed)
    ensures (!(key in cache && cache[key].Some?) && file.None?) ==> r.Err? && r.error.NullPointer?
    ensures (!(key in cache && cache[key].Some?) && file == Some(None)) ==> r.Err? && r.error.IllegalArgument?
    ensures (!(key in cache && cache[key].Some?) && file.Some? && file.value.Some? && r.Err?) ==> r.error.Runtime?
    ensures (!(key in cache && cache[key].Some?) && r.Ok?) ==> r.value == (computed, cache[key := computed])
  {
    if key in cache && cache[key].Some? then Ok((cache[key], cache))
    else if file.None? then Err(NullPointer("no feature type entry"))
    else if file.value.None? then Err(IllegalArgument("File cannot be null"))
    else if !file.value.value.onDisk || !parsed then Err(Runtime("Failed to parse data file"))
    else Ok((computed, cache[key := computed]))
  }

  /** Once a period has been computed, later calls return it whatever they would compute. */
  lemma TemporalExtentCached(cache: map<FeatureProperty, Option<Period>>, key: FeatureProperty,
                             file1: Option<Option<SampleFile>>, parsed1: bool, computed1: Option<Period>,
                             file2: Option<Option<SampleFile>>, parsed2: bool, computed2: Option<Period>)
    requires TemporalExtentStep(cache, key, file1, parsed1, computed1).Ok?
    requires TemporalExtentStep(cache, key, file1, parsed1, computed1).value.0.Some?
    ensures var (first, cache1) := TemporalExtentStep(cache, key, file1, parsed1, computed1).value;
      TemporalExtentStep(cache1, key, file2, parsed2, computed2) == Ok((first, cache1))
  {
  }

  class DataSampler {
    var maxFeatures: int
    /** The feature types of the capabilities document, in map iteration order. */
    var featureInfo: seq<(QName, FeatureTypeInfo)>
    var spatialExtents: map<QName, Option<Envelope>>
    var temporalPropertyExtents: map<FeatureProperty, Option<Period>>

    /** A sampler over the feature types read from the capabilities document; the caches start empty. */
    constructor (featureInfo: seq<(QName, FeatureTypeInfo)>)
      requires DistinctKeys(featureInfo)
      ensures this.featureInfo == featureInfo && maxFeatures == DEFAULT_MAX_FEATURES
      ensures spatialExtents == map[] && temporalPropertyExtents == map[]
    {
      this.featureInfo := featureInfo;
      maxFeatures := DEFAULT_MAX_FEATURES;
      spatialExtents := map[];
      temporalPropertyExtents := map[];
    }

    /** The constructor's guard: only a wfs:WFS_Capabilities document is accepted. */
    static method Create(rootLocalName: Option<string>, featureInfo: seq<(QName, FeatureTypeInfo)>) returns (r: Result<DataSampler>)
      requires DistinctKeys(featureInfo)
      ensures r.Err? <==> rootLocalName != Some("WFS_Capabilities")
      ensures r.Ok? ==> fresh(r.value) && r.value.featureInfo == featureInfo && r.value.maxFeatures == DEFAULT_MAX_FEATURES
    {
      if rootLocalName.None? || rootLocalName.value != "WFS_Capabilities" {
        return Err(IllegalArgument("Did not supply a WFS capabilities document"));
      }
      var sampler := new DataSampler(featureInfo);
      return Ok(sampler);
    }

    /** setMaxFeatures: only a positive limit replaces the current one. */
    method SetMaxFeatures(max: int)
      modifies this
      ensures maxFeatures == if max > 0 then max else old(maxFeatures)
      ensures featureInfo == old(featureInfo) && spatialExtents == old(spatialExtents)
      ensures temporalPropertyExtents == old(temporalPropertyExtents)
    {
      if max > 0 {
        maxFeatures := max;
      }
    }

    /**
     * selectRandomFeatureIdentifiers: without a sample file on disk the set is empty; otherwise
     * it holds min(numId, number of sampled features) distinct identifiers of sampled features.
     * An unknown type throws.
     */
    method SelectRandomFeatureIdentifiers(featureType: QName, numId: int) returns (r: Result<set<string>>)
      requires forall i :: 0 <= i < |featureInfo| && featureInfo[i].1.sampleData.Some? ==>
        DistinctIds(featureInfo[i].1.sampleData.value.memberIds)
      ensures IndexOfType(featureInfo, featureType).None? <==> r.Err?
      ensures r.Ok? ==>
        var info := featureInfo[IndexOfType(featureInfo, featureType).value].1;
        (info.sampleData.None? || !info.sampleData.value.onDisk ==> r.value == {}) &&
        (info.sampleData.Some? && info.sampleData.value.onDisk ==>
          var ids := info.sampleData.value.memberIds;
          r.value <= (set id | id in ids) &&
          |r.value| == (if numId <= 0 then 0 else if numId > |ids| then |ids| else numId))
    {
      var index := IndexOfType(featureInfo, featureType);
      if index.None? {
        return Err(NullPointer("no information about " + featureType.local));
      }
      var typeInfo := featureInfo[index.value].1;
      var dataFile := typeInfo.sampleData;
      var idSet: set<string> := {};
      if dataFile.None? || !dataFile.value.onDisk {
        return Ok(idSet);
      }
      var ids := dataFile.value.memberIds;
      var sampleSize := |ids|;
      var wanted := if numId > sampleSize then sampleSize else numId;
      DistinctCardinality(ids);
      while |idSet| < wanted
        invariant idSet <= (set id | id in ids)
        invariant |idSet| <= (if wanted < 0 then 0 else wanted)
        decreases sampleSize - |idSet|
      {
        MissingId(ids, idSet);
        var randomInt :| 0 <= randomInt < sampleSize && ids[randomInt] !in idSet;
        idSet := idSet + {ids[randomInt]};
      }
      return Ok(idSet);
    }

    /**
     * getFeatureId: the first gml:id in the sample file of the first instantiated entry whose name
     * equals the type exactly when matchFeatureType holds; None when there is no such entry or its
     * file cannot be read. A missing file reference or an empty sample throws.
     */
    method GetFeatureId(featureType: QName, matchFeatureType: bool) returns (r: Result<Option<string>>)
      ensures FirstQualifying(featureInfo, featureType, matchFeatureType, 0).None? ==> r == Ok(None)
      ensures FirstQualifying(featureInfo, featureType, matchFeatureType, 0).Some? ==>
        var file := featureInfo[FirstQualifying(featureInfo, featureType, matchFeatureType, 0).value].1.sampleData;
        (file.None? ==> r.Err? && r.error.NullPointer?) &&
        (file.Some? && !file.value.onDisk ==> r == Ok(None)) &&
        (file.Some? && file.value.onDisk && file.value.memberIds == [] ==> r.Err? && r.error.IndexOutOfBounds?) &&
        (file.Some? && file.value.onDisk && file.value.memberIds != [] ==> r == Ok(Some(file.value.memberIds[0])))
    {
      var featureId: Option<string> := None;
      var i := 0;
      while i < |featureInfo|
        invariant 0 <= i <= |featureInfo|
        invariant FirstQualifying(featureInfo, featureType, matchFeatureType, 0) == FirstQualifying(featureInfo, featureType, matchFeatureType, i)
      {
        var entry := featureInfo[i];
        if (entry.0 == featureType) != matchFeatureType || !entry.1.instantiated {
          i := i + 1;
          continue;
        }
        var dataFile := entry.1.sampleData;
        if dataFile.None? {
          return Err(NullPointer("no sample data file"));
        }
        if dataFile.value.onDisk {
          if |dataFile.value.memberIds| == 0 {
            return Err(IndexOutOfBounds("no feature identifiers in the sample data"));
          }
          featureId := Some(dataFile.value.memberIds[0]);
        }
        break;
      }
      return Ok(featureId);
    }

    /** deleteData: true iff every sample file on disk was deleted; deleted[i] is the outcome for entry i. */
    method DeleteData(deleted: seq<bool>) returns (allDeleted: bool)
      requires |deleted| == |featureInfo|
      ensures allDeleted <==> forall i :: 0 <= i < |featureInfo| && OnDisk(featureInfo[i]) ==> deleted[i]
    {
      allDeleted := true;
      var i := 0;
      while i < |featureInfo|
        invariant 0 <= i <= |featureInfo|
        invariant allDeleted <==> forall j :: 0 <= j < i && OnDisk(featureInfo[j]) ==> deleted[j]
      {
        var file := featureInfo[i].1.sampleData;
        if file.Some? && file.value.onDisk {
          if !deleted[i] {
            allDeleted := false;
          }
        }
        i := i + 1;
      }
    }

    /**
     * getSpatialExtent: a cached extent is returned; otherwise the type's sample file is read and
     * the result cached (see SpatialExtentStep).
     */
    method GetSpatialExtent(featureType: QName, hasGeometryProperties: bool, computed: Option<Envelope>) returns (r: Result<Option<Envelope>>)
      modifies this
      ensures var step := SpatialExtentStep(old(spatialExtents), featureType, hasGeometryProperties,
                                            SampleFileOf(featureInfo, featureType), computed);
        (step.Err? ==> r == Err(step.error) && spatialExtents == old(spatialExtents)) &&
        (step.Ok? ==> r == Ok(step.value.0) && spatialExtents == step.value.1)
      ensures featureInfo == old(featureInfo) && maxFeatures == old(maxFeatures)
      ensures temporalPropertyExtents == old(temporalPropertyExtents)
    {
      if featureType in spatialExtents && spatialExtents[featureType].Some? {
        return Ok(spatialExtents[featureType]);
      }
      if !hasGeometryProperties {
        return Ok(None);
      }
      var file := SampleFileOf(featureInfo, featureType);
      if file.None? {
        return Err(NullPointer("no feature type entry"));
      }
      if file.value.None? {
        return Err(NullPointer("no sample data file"));
      }
      var envelope := if file.value.value.onDisk then computed else None;
      spatialExtents := spatialExtents[featureType := envelope];
      return Ok(envelope);
    }

    /**
     * getTemporalExtentOfProperty: a cached period is returned; otherwise the type's sample file is
     * parsed and the result cached (see TemporalExtentStep).
     */
    method GetTemporalExtentOfProperty(featureType: QName, property: QName, parsed: bool, computed: Option<Period>) returns (r: Result<Option<Period>>)
      modifies this
      ensures var step := TemporalExtentStep(old(temporalPropertyExtents), FeatureProperty(featureType, property),
                                             SampleFileOf(featureInfo, featureType), parsed, computed);
        (step.Err? ==> r == Err(step.error) && temporalPropertyExtents == old(temporalPropertyExtents)) &&
        (step.Ok? ==> r == Ok(step.value.0) && temporalPropertyExtents == step.value.1)
      ensures featureInfo == old(featureInfo) && maxFeatures == old(maxFeatures) && spatialExtents == old(spatialExtents)
    {
      var key := FeatureProperty(featureType, property);
      if key in temporalPropertyExtents && temporalPropertyExtents[key].Some? {
        return Ok(temporalPropertyExtents[key]);
      }
      var file := SampleFileOf(featureInfo, featureType);
      if file.None? {
        return Err(NullPointer("no feature type entry"));
      }
      if file.value.None? {
        return Err(IllegalArgument("File cannot be null"));
      }
      if !file.value.value.onDisk || !parsed {
        return Err(Runtime("Failed to parse data file"));
      }
      temporalPropertyExtents := temporalPropertyExtents[key := computed];
      return Ok(computed);
    }
  }
}
