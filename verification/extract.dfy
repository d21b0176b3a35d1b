/**
 Decoding of the two input data sets into records: one NEO per row of the NEO table, and
 one close approach per data entry of the close-approach document.

 Python raises `KeyError` for a missing column and `ValueError` for number text that
 `float` rejects; both end the whole load. Here they are `Failure` results, and each
 decoder reports the first error in the order Python evaluates the lookups.
 */
module Extract {
  import opened Wrappers
  import opened Models

  /** One row of the NEO table, as `csv.DictReader` yields it: column name to cell text. */
  type Row = map<string, string>

  /** Python's `float` on text: `None` where it raises `ValueError`. */
  type FloatParser = string -> Option<real>

  datatype LoadError = KeyError(key: string) | ValueError(text: string)

  /** The columns of the NEO table that `load_neos` reads. */
  const NeoTableColumns: set<string> := {"pdes", "name", "diameter", "pha"}

  /** The hazard markers that mean "not hazardous"; any other text means hazardous. */
  const NotHazardousMarkers: seq<string> := ["", "N"]

  /** `row['name'] or None`. */
  function NameFromCell(cell: string): Option<string> {
    if cell == "" then None else Some(cell)
  }

  /** `float(cell) if cell else math.nan`. */
  function DiameterFromCell(parse: FloatParser, cell: string): Result<Diameter, LoadError> {
    if cell == "" then Success(Unknown)
    else match parse(cell)
      case Some(km) => Success(Known(km))
      case None => Failure(ValueError(cell))
  }

  /** `False if cell in ["", "N"] else True`. */
  function HazardousFromCell(cell: string): bool {
    cell !in NotHazardousMarkers
  }

  /**
   The NEO that `load_neos` builds from one row. The lookups run in Python's order:
   `name`, `diameter` (and its parse), `pha`, `pdes`.
   */
  function DecodeNeo(parse: FloatParser, row: Row): (r: Result<NearEarthObject, LoadError>)
    ensures r.Success? <==>
      NeoTableColumns <= row.Keys && (row["diameter"] == "" || parse(row["diameter"]).Some?)
    ensures r.Success? ==>
      && r.value.designation == row["pdes"]
      && (r.value.name == None <==> row["name"] == "")
      && (r.value.name.Some? ==> r.value.name.value == row["name"])
      && (r.value.diameter == Unknown <==> row["diameter"] == "")
      && (r.value.diameter.Known? ==> parse(row["diameter"]) == Some(r.value.diameter.km))
      && (!r.value.hazardous <==> row["pha"] == "" || row["pha"] == "N")
      && r.value.approaches == []
    ensures "name" !in row ==> r == Failure(KeyError("name"))
    ensures "name" in row && "diameter" !in row ==> r == Failure(KeyError("diameter"))
    ensures r.Failure? && r.error.ValueError? ==> r.error.text == row["diameter"] != ""
    ensures r.Failure? && r.error.KeyError? ==> r.error.key in NeoTableColumns && r.error.key !in row
  {
    if "name" !in row then Failure(KeyError("name"))
    else if "diameter" !in row then Failure(KeyError("diameter"))
    else match DiameterFromCell(parse, row["diameter"])
      case Failure(e) => Failure(e)
      case Success(diameter) =>
        if "pha" !in row then Failure(KeyError("pha"))
        else if "pdes" !in row then Failure(KeyError("pdes"))
        else Success(NewNeo(row["pdes"], NameFromCell(row["name"]), diameter, HazardousFromCell(row["pha"])))
  }

  /** A row's columns other than the four `load_neos` reads play no part in its NEO. */
  lemma DecodeNeoReadsOnlyItsColumns(parse: FloatParser, row: Row)
    ensures DecodeNeo(parse, row) == DecodeNeo(parse, map k | k in row && k in NeoTableColumns :: row[k])
  {
  }

  /**
   The row that lists an NEO's fields in the table's format: `diameterText` is the number
   text of a known diameter, and a hazardous NEO is marked `Y`.
   */
  function NeoRow(n: NearEarthObject, diameterText: string): Row {
    map[
      "pdes" := n.designation,
      "name" := NameText(n.name),
      "diameter" := if n.diameter.Known? then diameterText else "",
      "pha" := if n.hazardous then "Y" else "N"]
  }

  /**
   Decoding inverts `NeoRow` for every freshly built NEO whose name is not the empty
   string (an empty name cell decodes as an absent name).
   */
  lemma NeoRowRoundTrip(parse: FloatParser, n: NearEarthObject, diameterText: string)
    requires n.name != Some("") && n.approaches == []
    requires n.diameter.Known? ==> diameterText != "" && parse(diameterText) == Some(n.diameter.km)
    ensures DecodeNeo(parse, NeoRow(n, diameterText)) == Success(n)
  {
  }

  /** Example: only the exact texts `""` and `"N"` mean not hazardous; the lower-case `n` does not. */
  lemma HazardMarkerIsCaseSensitive()
    ensures !HazardousFromCell("") && !HazardousFromCell("N")
    ensures HazardousFromCell("n") && HazardousFromCell("Y") && HazardousFromCell("No")
  {
  }

  /**
   `load_neos`: one NEO per row, in row order, or the error of the first row that does
   not decode.
   */
  method LoadNeos(parse: FloatParser, rows: seq<Row>) returns (r: Result<seq<NearEarthObject>, LoadError>)
    ensures r.Success? <==> forall i :: 0 <= i < |rows| ==> DecodeNeo(parse, rows[i]).Success?
    ensures r.Success? ==> |r.value| == |rows|
    ensures r.Success? ==> forall i :: 0 <= i < |rows| ==> DecodeNeo(parse, rows[i]) == Success(r.value[i])
    ensures r.Failure? ==>
      exists k :: 0 <= k < |rows| && DecodeNeo(parse, rows[k]) == Failure(r.error)
        && forall j :: 0 <= j < k ==> DecodeNeo(parse, rows[j]).Success?
  {
    var neos: seq<NearEarthObject> := [];
    var i := 0;
    while i < |rows|
      invariant 0 <= i <= |rows|
      invariant |neos| == i
      invariant forall j :: 0 <= j < i ==> DecodeNeo(parse, rows[j]) == Success(neos[j])
    {
      var d := DecodeNeo(parse, rows[i]);
      if d.Failure? {
        return Failure(d.error);
      }
      neos := neos + [d.value];
      i := i + 1;
    }
    return Success(neos);
  }

  function Min(a: nat, b: nat): nat {
    if a <= b then a else b
  }

  /** The dictionary built from the first `n` pairs of `zip(fields, entry)`. */
  function ZipPrefix(fields: seq<string>, entry: seq<string>, n: nat): map<string, string>
    requires n <= |fields| && n <= |entry|
  {
    if n == 0 then map[] else ZipPrefix(fields, entry, n - 1)[fields[n - 1] := entry[n - 1]]
  }

  /** The keys of the first `n` pairs are the first `n` field names. */
  lemma {:induction false} ZipPrefixKeys(fields: seq<string>, entry: seq<string>, n: nat)
    requires n <= |fields| && n <= |entry|
    ensures forall k :: k in ZipPrefix(fields, entry, n) <==> k in fields[..n]
  {
    if n > 0 {
      ZipPrefixKeys(fields, entry, n - 1);
      assert fields[..n] == fields[..n - 1] + [fields[n - 1]];
    }
  }

  /**
   `dict(zip(fields, entry))`: `zip` stops at the shorter list; a later key overrides. The
   keys are exactly the field names among the first `min(|fields|, |entry|)`.
   */
  function ZipDict(fields: seq<string>, entry: seq<string>): (m: map<string, string>)
    ensures forall k :: k in m <==> k in fields[..Min(|fields|, |entry|)]
  {
    ZipPrefixKeys(fields, entry, Min(|fields|, |entry|));
    ZipPrefix(fields, entry, Min(|fields|, |entry|))
  }

  /** Position `i` is the last of the first `n` positions that holds the field name `fields[i]`. */
  predicate IsLastOccurrence(fields: seq<string>, n: nat, i: nat)
    requires i < n <= |fields|
  {
    forall j :: i < j < n ==> fields[j] != fields[i]
  }

  /** In the first `n` pairs, a field name holds the value at its last position. */
  lemma {:induction false} ZipPrefixLastValue(fields: seq<string>, entry: seq<string>, n: nat, i: nat)
    requires n <= |fields| && n <= |entry|
    requires i < n && IsLastOccurrence(fields, n, i)
    ensures fields[i] in ZipPrefix(fields, entry, n) && ZipPrefix(fields, entry, n)[fields[i]] == entry[i]
  {
    if i < n - 1 {
      assert fields[n - 1] != fields[i];
      assert IsLastOccurrence(fields, n - 1, i);
      ZipPrefixLastValue(fields, entry, n - 1, i);
    }
  }

  /**
   A field name has an entry in the zipped record exactly when it is among the first
   `min(|fields|, |entry|)` field names, and then it holds the value at the LAST position
   that names it: a repeated field name keeps its later value.
   */
  lemma ZipDictSpec(fields: seq<string>, entry: seq<string>)
    ensures forall k :: k in ZipDict(fields, entry) <==>
      exists i :: 0 <= i < Min(|fields|, |entry|) && fields[i] == k
    ensures forall i :: 0 <= i < Min(|fields|, |entry|) && IsLastOccurrence(fields, Min(|fields|, |entry|), i) ==>
      ZipDict(fields, entry)[fields[i]] == entry[i]
  {
    var n := Min(|fields|, |entry|);
    var m := ZipDict(fields, entry);
    forall k | k in m
      ensures exists i :: 0 <= i < n && fields[i] == k
    {
      assert k in fields[..n];
      var i :| 0 <= i < n && fields[..n][i] == k;
      assert fields[i] == k;
    }
    forall k | exists i :: 0 <= i < n && fields[i] == k
      ensures k in m
    {
      var i :| 0 <= i < n && fields[i] == k;
      assert fields[..n][i] == k;
    }
    forall i | 0 <= i < n && IsLastOccurrence(fields, n, i)
      ensures m[fields[i]] == entry[i]
    {
      ZipPrefixLastValue(fields, entry, n, i);
    }
  }

  /** The data entry that lists a keyed record's values in the order of `fields`. */
  function EntryFor(fields: seq<string>, record: map<string, string>): (entry: seq<string>)
    ensures |entry| == |fields|
  {
    seq(|fields|, i requires 0 <= i < |fields| => if fields[i] in record then record[fields[i]] else "")
  }

  /** Zipping a field list with the entry laid out for it gives back the record's values. */
  lemma ZipDictOfEntryFor(fields: seq<string>, record: map<string, string>, k: string)
    requires k in fields && k in record
    ensures k in ZipDict(fields, EntryFor(fields, record))
    ensures ZipDict(fields, EntryFor(fields, record))[k] == record[k]
  {
    var entry := EntryFor(fields, record);
    var n := |fields|;
    ZipDictSpec(fields, entry);
    var i :| 0 <= i < n && fields[i] == k;
    while i + 1 < n && exists j :: i < j < n && fields[j] == k
      invariant 0 <= i < n && fields[i] == k
      decreases n - i
    {
      var j :| i < j < n && fields[j] == k;
      i := j;
    }
    assert IsLastOccurrence(fields, n, i);
  }

  /** The field names `load_approaches` reads from each zipped record. */
  const ApproachFields: seq<string> := ["des", "cd", "dist", "v_rel"]

  /**
   The close approach built from one zipped record. The lookups run in Python's order:
   `des`, `cd`, `dist` (and its parse), `v_rel` (and its parse).
   */
  function DecodeApproachRecord(h: Helpers, parse: FloatParser, rec: map<string, string>): (r: Result<CloseApproach, LoadError>)
    ensures r.Success? <==>
      (forall k :: k in ApproachFields ==> k in rec) && parse(rec["dist"]).Some? && parse(rec["v_rel"]).Some?
    ensures r.Success? ==>
      && r.value.designation == rec["des"]
      && r.value.time == h.cdToDatetime(rec["cd"])
      && Some(r.value.distance) == parse(rec["dist"])
      && Some(r.value.velocity) == parse(rec["v_rel"])
      && r.value.neo == None
    ensures "des" !in rec ==> r == Failure(KeyError("des"))
    ensures r.Failure? && r.error.KeyError? ==> r.error.key in ApproachFields && r.error.key !in rec
    ensures r.Failure? && r.error.ValueError? ==>
      || ("dist" in rec && r.error.text == rec["dist"] && parse(rec["dist"]).None?)
      || ("v_rel" in rec && r.error.text == rec["v_rel"] && parse(rec["v_rel"]).None?)
  {
    if "des" !in rec then Failure(KeyError("des"))
    else if "cd" !in rec then Failure(KeyError("cd"))
    else if "dist" !in rec then Failure(KeyError("dist"))
    else match parse(rec["dist"])
      case None => Failure(ValueError(rec["dist"]))
      case Some(distance) =>
        if "v_rel" !in rec then Failure(KeyError("v_rel"))
        else match parse(rec["v_rel"])
          case None => Failure(ValueError(rec["v_rel"]))
          case Some(velocity) => Success(NewApproach(h, rec["des"], rec["cd"], distance, velocity))
  }

  /**
   One data entry of the close-approach document, decoded against the document's field list.
   Only the field names that `zip` pairs with a value count: a `KeyError` names one of the
   four approach fields that is not among the first `min(|fields|, |entry|)` names, and a
   decoded entry has all four among them. An entry whose zipped names lack `des` fails with
   that key first.
   */
  function DecodeApproach(h: Helpers, parse: FloatParser, fields: seq<string>, entry: seq<string>): (r: Result<CloseApproach, LoadError>)
    ensures r.Success? ==> forall k :: k in ApproachFields ==> k in fields[..Min(|fields|, |entry|)]
    ensures r.Failure? && r.error.KeyError? ==>
      r.error.key in ApproachFields && r.error.key !in fields[..Min(|fields|, |entry|)]
    ensures "des" !in fields[..Min(|fields|, |entry|)] ==> r == Failure(KeyError("des"))
  {
    DecodeApproachRecord(h, parse, ZipDict(fields, entry))
  }

  /**
   Decoding inverts the entry layout: whatever the order of the field list, and whatever
   other fields it has, an entry laid out from the four values decodes to the approach
   built from them.
   */
  lemma ApproachEntryRoundTrip(h: Helpers, parse: FloatParser, fields: seq<string>,
                               des: string, cd: string, distText: string, velText: string, distance: real, velocity: real)
    requires "des" in fields && "cd" in fields && "dist" in fields && "v_rel" in fields
    requires parse(distText) == Some(distance) && parse(velText) == Some(velocity)
    ensures DecodeApproach(h, parse, fields, EntryFor(fields, map["des" := des, "cd" := cd, "dist" := distText, "v_rel" := velText]))
         == Success(NewApproach(h, des, cd, distance, velocity))
  {
    var record := map["des" := des, "cd" := cd, "dist" := distText, "v_rel" := velText];
    ZipDictOfEntryFor(fields, record, "des");
    ZipDictOfEntryFor(fields, record, "cd");
    ZipDictOfEntryFor(fields, record, "dist");
    ZipDictOfEntryFor(fields, record, "v_rel");
  }

  /**
   The parsed close-approach document: its `fields` and `data` members, each `None` when
   the document has no such key.
   */
  datatype CadDocument = CadDocument(fields: Option<seq<string>>, data: Option<seq<seq<string>>>)

  /**
   `load_approaches`: one approach per data entry, in entry order, or the first error.
   The `data` member is read before the loop and `fields` only inside it, so a document
   without `fields` loads when it has no data entries.
   */
  method LoadApproaches(h: Helpers, parse: FloatParser, doc: CadDocument) returns (r: Result<seq<CloseApproach>, LoadError>)
    ensures doc.data.None? ==> r == Failure(KeyError("data"))
    ensures doc.data == Some([]) ==> r == Success([])
    ensures doc.data.Some? && doc.data.value != [] && doc.fields.None? ==> r == Failure(KeyError("fields"))
    ensures doc.data.Some? && doc.fields.Some? ==>
      var data, fields := doc.data.value, doc.fields.value;
      && (r.Success? <==> forall i :: 0 <= i < |data| ==> DecodeApproach(h, parse, fields, data[i]).Success?)
      && (r.Success? ==>
            |r.value| == |data|
            && forall i :: 0 <= i < |data| ==> DecodeApproach(h, parse, fields, data[i]) == Success(r.value[i]))
      && (r.Failure? ==>
            exists k :: 0 <= k < |data| && DecodeApproach(h, parse, fields, data[k]) == Failure(r.error)
              && forall j :: 0 <= j < k ==> DecodeApproach(h, parse, fields, data[j]).Success?)
  {
    if doc.data.None? {
      return Failure(KeyError("data"));
    }
    var data := doc.data.value;
    var approaches: seq<CloseApproach> := [];
    var i := 0;
    while i < |data|
      invariant 0 <= i <= |data|
      invariant |approaches| == i
      invariant i > 0 ==> doc.fields.Some?
      invariant doc.fields.Some? ==>
        forall j :: 0 <= j < i ==> DecodeApproach(h, parse, doc.fields.value, data[j]) == Success(approaches[j])
    {
      if doc.fields.None? {
        return Failure(KeyError("fields"));
      }
      var a := DecodeApproach(h, parse, doc.fields.value, data[i]);
      if a.Failure? {
        return Failure(a.error);
      }
      approaches := approaches + [a.value];
      i := i + 1;
    }
    return Success(approaches);
  }
}
