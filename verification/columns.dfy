/**
 What the output columns say about the input cells: decoding a row or an entry, linking
 the approach to its NEO, and projecting it for output, composed.
 */
module Columns {
  import opened Wrappers
  import opened Models
  import Extract
  import Write

  /**
   The NEO columns of an output row, in terms of the NEO table row it came from: the
   designation and name cells come out unchanged (an empty name cell stays empty), the
   hazard flag is false exactly for the cells `""` and `"N"`, and the diameter is NaN
   exactly when its cell is empty or holds a zero.
   */
  lemma NeoColumnsFromRow(h: Helpers, parse: Extract.FloatParser, row: Extract.Row, a: CloseApproach)
    requires Extract.DecodeNeo(parse, row).Success?
    ensures var e := Write.CsvEntry(h, a.(neo := Some(Extract.DecodeNeo(parse, row).value)));
      && e["designation"] == Write.Str(row["pdes"])
      && e["name"] == Write.Str(row["name"])
      && (e["potentially_hazardous"] == Write.Bool(false) <==> row["pha"] == "" || row["pha"] == "N")
      && (e["diameter_km"] == Write.NaN <==> row["diameter"] == "" || parse(row["diameter"]) == Some(0.0))
      && (e["diameter_km"] != Write.NaN ==> e["diameter_km"].Num? && parse(row["diameter"]) == Some(e["diameter_km"].x))
  {
  }

  /**
   The approach columns of an output row, in terms of the zipped record it came from: the
   distance and velocity are the parsed cells and the time string renders the parsed
   `cd` cell, whatever NEO the approach is linked to.
   */
  lemma ApproachColumnsFromRecord(h: Helpers, parse: Extract.FloatParser, rec: map<string, string>, n: NearEarthObject)
    requires Extract.DecodeApproachRecord(h, parse, rec).Success?
    ensures var e := Write.CsvEntry(h, Extract.DecodeApproachRecord(h, parse, rec).value.(neo := Some(n)));
      && e["datetime_utc"] == Write.Str(h.datetimeToStr(h.cdToDatetime(rec["cd"])))
      && Some(e["distance_au"].x) == parse(rec["dist"])
      && Some(e["velocity_km_s"].x) == parse(rec["v_rel"])
      && e["designation"] == Write.Str(n.designation)
  {
  }

  /**
   An approach as loaded has no NEO, so neither writer accepts it before the database has
   linked it: the CSV writer raises at it after the header, the JSON writer writes nothing.
   */
  lemma LoadedApproachIsNotWritable(h: Helpers, parse: Extract.FloatParser, fields: seq<string>,
                                    data: seq<seq<string>>)
    requires data != []
    requires forall i :: 0 <= i < |data| ==> Extract.DecodeApproach(h, parse, fields, data[i]).Success?
    ensures var results := seq(|data|, i requires 0 <= i < |data| => Extract.DecodeApproach(h, parse, fields, data[i]).value);
      && Write.WriteJson(h, results) == Failure(0)
      && Write.WriteCsv(h, results) == Write.CsvOutput(Write.CsvFieldnames, [], Some(0))
  {
  }

  /** Example: the zipped record of the Eros approach entry. */
  lemma ErosRecord()
    ensures Extract.ZipDict(["des", "cd", "dist", "v_rel"], ["433", "2020-Jan-01 00:00", "0.15", "5.2"])
         == map["des" := "433", "cd" := "2020-Jan-01 00:00", "dist" := "0.15", "v_rel" := "5.2"]
  {
    var fields := ["des", "cd", "dist", "v_rel"];
    var entry := ["433", "2020-Jan-01 00:00", "0.15", "5.2"];
    assert Extract.ZipPrefix(fields, entry, 1) == map["des" := "433"];
    assert Extract.ZipPrefix(fields, entry, 2) == map["des" := "433", "cd" := "2020-Jan-01 00:00"];
    assert Extract.ZipPrefix(fields, entry, 3) == map["des" := "433", "cd" := "2020-Jan-01 00:00", "dist" := "0.15"];
    assert Extract.Min(|fields|, |entry|) == 4;
  }

  /**
   Example: the NEO "433 Eros" and its approach of 2020-Jan-01, decoded from their input cells,
   linked and written: the CSV line carries the cells in column order.
   */
  lemma ErosRoundTrip(h: Helpers, parse: Extract.FloatParser)
    requires parse("16.84") == Some(16.84) && parse("0.15") == Some(0.15) && parse("5.2") == Some(5.2)
    ensures var neo := Extract.DecodeNeo(parse, map["pdes" := "433", "name" := "Eros", "diameter" := "16.84", "pha" := "N"]);
      var ca := Extract.DecodeApproach(h, parse, ["des", "cd", "dist", "v_rel"], ["433", "2020-Jan-01 00:00", "0.15", "5.2"]);
      && neo == Success(NewNeo("433", Some("Eros"), Known(16.84), false))
      && ca == Success(NewApproach(h, "433", "2020-Jan-01 00:00", 0.15, 5.2))
      && Write.CsvLine(Write.CsvEntry(h, ca.value.(neo := Some(neo.value))))
         == [Write.Str(h.datetimeToStr(h.cdToDatetime("2020-Jan-01 00:00"))), Write.Num(0.15), Write.Num(5.2),
             Write.Str("433"), Write.Str("Eros"), Write.Num(16.84), Write.Bool(false)]
  {
    var row := map["pdes" := "433", "name" := "Eros", "diameter" := "16.84", "pha" := "N"];
    var rec := map["des" := "433", "cd" := "2020-Jan-01 00:00", "dist" := "0.15", "v_rel" := "5.2"];
    ErosRecord();
    var neo := NewNeo("433", Some("Eros"), Known(16.84), false);
    assert Extract.DecodeNeo(parse, row) == Success(neo);
    var ca := NewApproach(h, "433", "2020-Jan-01 00:00", 0.15, 5.2);
    assert Extract.DecodeApproachRecord(h, parse, rec) == Success(ca);
    Write.CsvLineOfApproach(h, ca.(neo := Some(neo)));
  }
}
