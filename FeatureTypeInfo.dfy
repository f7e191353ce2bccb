/** What the suite knows about one feature type offered by the service. */
module FeatureTypes {
  import opened Wrappers
  import opened Xml

  /**
   * A saved file of sample features: whether it is (still) on disk, the gml:id of each
   * wfs:member in document order, and the values of each simple property.
   */
  datatype SampleFile = SampleFile(onDisk: bool, memberIds: seq<string>)

  class FeatureTypeInfo {
    var typeName: Option<QName>
    var instantiated: bool
    var supportedCrsList: seq<string>
    var sampleData: Option<SampleFile>

    /** A new instance: no name yet, no CRS identifiers, not instantiated, no sample data. */
    constructor ()
      ensures typeName.None? && !instantiated && supportedCrsList == [] && sampleData.None?
    {
      typeName := None;
      instantiated := false;
      supportedCrsList := [];
      sampleData := None;
    }

    /** addCRSIdentifiers: the identifiers are appended, in order, after the existing ones. */
    method AddCrsIdentifiers(crsIdentifiers: seq<string>)
      modifies this
      ensures supportedCrsList == old(supportedCrsList) + crsIdentifiers
      ensures typeName == old(typeName) && instantiated == old(instantiated) && sampleData == old(sampleData)
    {
      supportedCrsList := supportedCrsList + crsIdentifiers;
    }

    method SetTypeName(name: QName)
      modifies this
      ensures typeName == Some(name)
      ensures instantiated == old(instantiated) && supportedCrsList == old(supportedCrsList) && sampleData == old(sampleData)
    {
      typeName := Some(name);
    }

    method SetInstantiated(available: bool)
      modifies this
      ensures instantiated == available
      ensures typeName == old(typeName) && supportedCrsList == old(supportedCrsList) && sampleData == old(sampleData)
    {
      instantiated := available;
    }

    method SetSampleData(file: Option<SampleFile>)
      modifies this
      ensures sampleData == file
      ensures typeName == old(typeName) && instantiated == old(instantiated) && supportedCrsList == old(supportedCrsList)
    {
      sampleData := file;
    }

    /** getDefaultCRS: the first supported CRS; with none, List.get(0) throws. */
    function DefaultCrs(): (r: Result<string>)
      reads this
      ensures supportedCrsList == [] <==> r.Err?
      ensures r.Err? ==> r.error.IndexOutOfBounds?
      ensures r.Ok? ==> r.value == supportedCrsList[0] && r.value in supportedCrsList
    {
      if |supportedCrsList| == 0 then Err(IndexOutOfBounds("Index 0 out of bounds for length 0"))
      else Ok(supportedCrsList[0])
    }
  }

  /** A fresh type that is given CRS identifiers has the first of them as default. */
  method DefaultCrsAfterAdd(crs: seq<string>) returns (r: Result<string>)
    ensures crs != [] ==> r == Ok(crs[0])
    ensures crs == [] ==> r.Err?
  {
    var info := new FeatureTypeInfo();
    info.AddCrsIdentifiers(crs);
    r := info.DefaultCrs();
  }
}
