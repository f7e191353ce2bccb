/** Validation of the test run arguments handed to the suite controller. */
module TestNgController {
  import opened Wrappers
  import opened Strings
  import opened Xml

  /** The argument keys of which at least one must be present (TestRunArg names, lower case). */
  const IUT := "iut"
  const WFS := "wfs"

  /** Element.getElementsByTagName("entry"): the descendant elements named "entry", in document order. */
  function EntryElements(nodes: seq<Node>): (r: seq<Node>)
    ensures forall e :: e in r ==> e in nodes && e.Element? && NodeName(e) == "entry"
    ensures forall e :: e in nodes && e.Element? && NodeName(e) == "entry" ==> e in r
  {
    if nodes == [] then []
    else
      var rest := EntryElements(nodes[1..]);
      assert forall e :: e in nodes <==> e == nodes[0] || e in nodes[1..];
      if nodes[0].Element? && NodeName(nodes[0]) == "entry" then [nodes[0]] + rest else rest
  }

  /** An entry as a (key, value) pair: its key attribute and its trimmed text. */
  function EntryArg(e: Node): (r: (string, string))
    ensures IsTrimmed(r.1)
  {
    TrimIsTrimmed(TextContent(e));
    (Attribute(e, "key"), Trim(TextContent(e)))
  }

  /** The arguments of the entries, in document order. */
  function EntryArgs(entries: seq<Node>): (r: seq<(string, string)>)
    ensures |r| == |entries|
    ensures forall i :: 0 <= i < |entries| ==> r[i] == EntryArg(entries[i])
  {
    seq(|entries|, i requires 0 <= i < |entries| => EntryArg(entries[i]))
  }

  /** The map the (key, value) pairs make when put in order, the later pair winning. */
  function ArgsOf(pairs: seq<(string, string)>): (r: map<string, string>)
  {
    if pairs == [] then map[]
    else
      var last := pairs[|pairs| - 1];
      ArgsOf(pairs[..|pairs| - 1])[last.0 := last.1]
  }

  /**
   * validateTestRunArgs: the document element must be "properties" and hold at least one entry;
   * the arguments must name "iut" or "wfs". The argument map is returned on success.
   */
  method ValidateTestRunArgs(docElement: Option<Node>) returns (r: Result<map<string, string>>)
    ensures (docElement.None? || NodeName(docElement.value) != "properties") ==> r.Err? && r.error.IllegalArgument?
    ensures docElement.Some? && NodeName(docElement.value) == "properties" ==>
      var entries := EntryElements(Descendants(docElement.value));
      var args := ArgsOf(EntryArgs(entries));
      (entries == [] ==> r.Err? && r.error.IllegalArgument?) &&
      (entries != [] && IUT !in args && WFS !in args ==> r.Err? && r.error.IllegalArgument?) &&
      (entries != [] && (IUT in args || WFS in args) ==> r == Ok(args))
  {
    if docElement.None? || NodeName(docElement.value) != "properties" {
      return Err(IllegalArgument("Input is not an XML properties document."));
    }
    var entries := EntryElements(Descendants(docElement.value));
    if |entries| == 0 {
      return Err(IllegalArgument("No test run arguments found."));
    }
    var args := CollectArgs(entries);
    if !(IUT in args || WFS in args) {
      return Err(IllegalArgument("Missing argument: 'iut' or 'wfs' must be present."));
    }
    return Ok(args);
  }

  /** The loop that puts each entry's key and trimmed text into the argument map. */
  method CollectArgs(entries: seq<Node>) returns (args: map<string, string>)
    ensures args == ArgsOf(EntryArgs(entries))
  {
    ghost var pairs := EntryArgs(entries);
    args := map[];
    var i := 0;
    while i < |entries|
      invariant 0 <= i <= |entries|
      invariant args == ArgsOf(pairs[..i])
    {
      var entry := EntryArg(entries[i]);
      assert pairs[..i + 1][..i] == pairs[..i];
      args := args[entry.0 := entry.1];
      i := i + 1;
    }
    assert pairs[..i] == pairs;
  }

  /** Every argument value is trimmed. */
  lemma {:induction false} ArgsAreTrimmed(entries: seq<Node>)
    ensures forall k :: k in ArgsOf(EntryArgs(entries)) ==> IsTrimmed(ArgsOf(EntryArgs(entries))[k])
  {
    var pairs := EntryArgs(entries);
    ValuesTrimmed(pairs);
  }

  lemma {:induction false} ValuesTrimmed(pairs: seq<(string, string)>)
    requires forall i :: 0 <= i < |pairs| ==> IsTrimmed(pairs[i].1)
    ensures forall k :: k in ArgsOf(pairs) ==> IsTrimmed(ArgsOf(pairs)[k])
    decreases |pairs|
  {
    if pairs != [] {
      var n := |pairs| - 1;
      assert forall i :: 0 <= i < n ==> pairs[..n][i] == pairs[i];
      ValuesTrimmed(pairs[..n]);
    }
  }

  /** Pair i is the last one carrying key. */
  predicate LastWithKey(pairs: seq<(string, string)>, i: int, key: string)
  {
    0 <= i < |pairs| && pairs[i].0 == key &&
    forall j :: i < j < |pairs| ==> pairs[j].0 != key
  }

  /** A key is present iff some pair carries it. */
  lemma {:induction false} ArgsKeys(pairs: seq<(string, string)>, key: string)
    ensures key in ArgsOf(pairs) <==> exists i :: 0 <= i < |pairs| && pairs[i].0 == key
    decreases |pairs|
  {
    if pairs != [] {
      var n := |pairs| - 1;
      ArgsKeys(pairs[..n], key);
      assert forall i :: 0 <= i < n ==> pairs[..n][i] == pairs[i];
    }
  }

  /** The value of a key is that of the last pair carrying it: a later duplicate overrides. */
  lemma {:induction false} ArgsLastWins(pairs: seq<(string, string)>, i: int, key: string)
    requires LastWithKey(pairs, i, key)
    ensures key in ArgsOf(pairs) && ArgsOf(pairs)[key] == pairs[i].1
    decreases |pairs|
  {
    var n := |pairs| - 1;
    if i < n {
      var init := pairs[..n];
      assert init[i] == pairs[i];
      assert forall j :: i < j < |init| ==> init[j] == pairs[j];
      ArgsLastWins(init, i, key);
    }
  }
}
