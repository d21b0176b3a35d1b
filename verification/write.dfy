/**
 The projection of a stream of linked close approaches onto output rows: a flat CSV row of
 seven columns, or a JSON entry that nests the NEO's fields under `neo`.

 Both writers dereference each approach's NEO. An approach without one makes Python raise
 `AttributeError` at that element: the CSV writer has by then written its header and the
 rows before it, while the JSON writer, which dumps only after the loop, writes nothing.
 */
module Write {
  import opened Wrappers
  import opened Models

  /** A value as it is handed to `csv.DictWriter` or `json.dump`. */
  datatype Value = Str(s: string) | Num(x: real) | NaN | Bool(b: bool) | Obj(members: map<string, Value>)

  /** The CSV column order. */
  const CsvFieldnames: seq<string> :=
    ["datetime_utc", "distance_au", "velocity_km_s", "designation", "name", "diameter_km", "potentially_hazardous"]

  /** The columns that come from the approach itself; in JSON they stay at the top level. */
  const ApproachColumns: set<string> := {"datetime_utc", "distance_au", "velocity_km_s"}

  /** The columns that come from the linked NEO; in JSON they are nested under `neo`. */
  const NeoColumns: set<string> := {"designation", "name", "diameter_km", "potentially_hazardous"}

  predicate Linked(a: CloseApproach) {
    a.neo.Some?
  }

  /**
   `neo.name if neo.name else ''`: both an absent and an empty name print as `''`. This is
   the same text `fullname` prints after the designation.
   */
  function NameOut(name: Option<string>): (s: string)
    ensures s == "" <==> name == None || name == Some("")
    ensures s != "" ==> name == Some(s)
  {
    NameText(name)
  }

  /**
   `neo.diameter if neo.diameter else math.nan`: a zero diameter is falsy and prints as
   NaN; an unknown diameter already is NaN, which is truthy, and stays NaN.
   */
  function DiameterOut(d: Diameter): (v: Value)
    ensures v == NaN <==> d == Unknown || d == Known(0.0)
    ensures v != NaN ==> d.Known? && v == Num(d.km)
  {
    match d
    case Known(km) => if km != 0.0 then Num(km) else NaN
    case Unknown => NaN
  }

  /** The dictionary `write_to_csv` fills for one approach. */
  function CsvEntry(h: Helpers, a: CloseApproach): (e: map<string, Value>)
    requires Linked(a)
    ensures e.Keys == ApproachColumns + NeoColumns
  {
    var n := a.neo.value;
    map[
      "datetime_utc" := Str(TimeStr(h, a)),
      "distance_au" := Num(a.distance),
      "velocity_km_s" := Num(a.velocity),
      "designation" := Str(n.designation),
      "name" := Str(NameOut(n.name)),
      "diameter_km" := DiameterOut(n.diameter),
      "potentially_hazardous" := Bool(n.hazardous)]
  }

  /**
   The cells `csv.DictWriter` writes for one dictionary: its values in column order, with
   the empty string for a missing column. `DictWriter` raises `ValueError` for a key that
   is not a column; this function drops such keys instead, which never matters here,
   because every dictionary the writer is given (`CsvEntry`) has exactly the seven column
   keys.
   */
  function CsvLine(e: map<string, Value>): (line: seq<Value>)
    ensures |line| == |CsvFieldnames|
  {
    seq(|CsvFieldnames|, i requires 0 <= i < |CsvFieldnames| =>
      if CsvFieldnames[i] in e then e[CsvFieldnames[i]] else Str(""))
  }

  /** A dictionary with every column is written as its values in the header's order. */
  lemma CsvLineInColumnOrder(e: map<string, Value>)
    requires forall k :: k in CsvFieldnames ==> k in e
    ensures CsvLine(e) == [e["datetime_utc"], e["distance_au"], e["velocity_km_s"],
      e["designation"], e["name"], e["diameter_km"], e["potentially_hazardous"]]
  {
  }

  /**
   The CSV line of a linked approach: its time string, distance and velocity, then the
   NEO's designation, name, diameter and hazard flag, in that order.
   */
  lemma CsvLineOfApproach(h: Helpers, a: CloseApproach)
    requires Linked(a)
    ensures CsvEntry(h, a).Keys == set k | k in CsvFieldnames
    ensures var n := a.neo.value;
      CsvLine(CsvEntry(h, a)) == [Str(TimeStr(h, a)), Num(a.distance), Num(a.velocity),
        Str(n.designation), Str(NameOut(n.name)), DiameterOut(n.diameter), Bool(n.hazardous)]
  {
    CsvLineInColumnOrder(CsvEntry(h, a));
  }

  /**
   The dictionary `write_to_json` appends for one approach: the approach's own columns at
   the top level, and the NEO's columns in a nested `neo` object.
   */
  function JsonEntry(h: Helpers, a: CloseApproach): (v: Value)
    requires Linked(a)
    ensures v.Obj? && v.members.Keys == ApproachColumns + {"neo"}
    ensures v.members["neo"].Obj? && v.members["neo"].members.Keys == NeoColumns
  {
    var n := a.neo.value;
    Obj(map[
      "datetime_utc" := Str(TimeStr(h, a)),
      "distance_au" := Num(a.distance),
      "velocity_km_s" := Num(a.velocity),
      "neo" := Obj(map[
        "designation" := Str(n.designation),
        "name" := Str(NameOut(n.name)),
        "diameter_km" := DiameterOut(n.diameter),
        "potentially_hazardous" := Bool(n.hazardous)])])
  }

  /**
   The JSON entry of an approach holds the CSV row's values: the approach columns at the
   top level, and the NEO columns, unchanged, under `neo`.
   */
  lemma JsonEntryNestsCsvEntry(h: Helpers, a: CloseApproach)
    requires Linked(a)
    ensures forall k :: k in ApproachColumns ==> JsonEntry(h, a).members[k] == CsvEntry(h, a)[k]
    ensures JsonEntry(h, a).members["neo"] == Obj(map k | k in NeoColumns :: CsvEntry(h, a)[k])
  {
    var e := CsvEntry(h, a);
    var neo := JsonEntry(h, a).members["neo"].members;
    assert neo == map k | k in NeoColumns :: e[k];
  }

  /** Lifts the members of an entry's `neo` object to the top level, in place of `neo`. */
  function Flatten(v: Value): map<string, Value>
    requires v.Obj? && "neo" in v.members && v.members["neo"].Obj?
  {
    (v.members - {"neo"}) + v.members["neo"].members
  }

  /** The JSON entry and the CSV row of an approach carry the same value under every column. */
  lemma JsonFlattensToCsv(h: Helpers, a: CloseApproach)
    requires Linked(a)
    ensures Flatten(JsonEntry(h, a)) == CsvEntry(h, a)
  {
    var v := JsonEntry(h, a);
    var f := Flatten(v);
    var e := CsvEntry(h, a);
    assert f.Keys == e.Keys;
  }

  /** Position `k` holds the first approach that has no NEO. */
  predicate IsFirstUnlinked(results: seq<CloseApproach>, k: nat) {
    k < |results| && !Linked(results[k]) && forall j :: 0 <= j < k ==> Linked(results[j])
  }

  function ShiftIndex(k: Option<nat>): Option<nat> {
    match k
    case Some(i) => Some(i + 1)
    case None => None
  }

  /** The output of `write_to_csv`: the header, the rows written, and where it raised, if it did. */
  datatype CsvOutput = CsvOutput(header: seq<string>, rows: seq<seq<Value>>, failedAt: Option<nat>)

  /**
   The rows `write_to_csv` writes before it completes or raises, and where it raised. It
   raises only at an approach with no NEO, after exactly the rows before it.
   */
  function CsvRows(h: Helpers, results: seq<CloseApproach>): (out: (seq<seq<Value>>, Option<nat>))
    ensures out.1.None? ==> |out.0| == |results|
    ensures out.1.Some? ==> out.1.value == |out.0| < |results| && !Linked(results[out.1.value])
    decreases |results|
  {
    if results == [] then ([], None)
    else if !Linked(results[0]) then ([], Some(0))
    else
      var (rows, failedAt) := CsvRows(h, results[1..]);
      ([CsvLine(CsvEntry(h, results[0]))] + rows, ShiftIndex(failedAt))
  }

  /**
   `write_to_csv`: the header is the fixed column list; the writer either writes one row per
   approach, or raises at an approach with no NEO after writing one row per earlier approach.
   */
  function WriteCsv(h: Helpers, results: seq<CloseApproach>): (out: CsvOutput)
    ensures out.header == CsvFieldnames
    ensures out.failedAt.None? ==> |out.rows| == |results|
    ensures out.failedAt.Some? ==> out.failedAt.value == |out.rows| < |results| && !Linked(results[out.failedAt.value])
  {
    var (rows, failedAt) := CsvRows(h, results);
    CsvOutput(CsvFieldnames, rows, failedAt)
  }

  /** Each row the CSV writer writes is the CSV line of the approach at the same position. */
  lemma {:induction false} CsvRowsContent(h: Helpers, results: seq<CloseApproach>)
    ensures var rows := CsvRows(h, results).0;
      forall i :: 0 <= i < |rows| ==> Linked(results[i]) && rows[i] == CsvLine(CsvEntry(h, results[i]))
    decreases |results|
  {
    if results != [] && Linked(results[0]) {
      CsvRowsContent(h, results[1..]);
      var rows := CsvRows(h, results[1..]).0;
      var rows' := CsvRows(h, results).0;
      assert rows' == [CsvLine(CsvEntry(h, results[0]))] + rows;
      forall i | 0 <= i < |rows'|
        ensures Linked(results[i]) && rows'[i] == CsvLine(CsvEntry(h, results[i]))
      {
        if i > 0 {
          assert rows'[i] == rows[i - 1];
          assert results[i] == results[1..][i - 1];
        }
      }
    }
  }

  /**
   `write_to_csv` always writes the header in the fixed column order, then one row per
   approach in input order, each the CSV line of that approach. It stops, raising, at the
   first approach with no NEO, having written exactly the rows before it; it completes
   exactly when every approach is linked.
   */
  lemma WriteCsvSpec(h: Helpers, results: seq<CloseApproach>)
    ensures var out := WriteCsv(h, results);
      && out.header == CsvFieldnames
      && (out.failedAt.None? <==> forall i :: 0 <= i < |results| ==> Linked(results[i]))
      && (out.failedAt.Some? ==> IsFirstUnlinked(results, out.failedAt.value))
      && |out.rows| == (if out.failedAt.Some? then out.failedAt.value else |results|)
      && forall i :: 0 <= i < |out.rows| ==> Linked(results[i]) && out.rows[i] == CsvLine(CsvEntry(h, results[i]))
  {
    CsvRowsContent(h, results);
  }

  /**
   `write_to_json`: the list it dumps, one entry per approach, or the position of an approach
   with no NEO, where it raised before dumping.
   */
  function WriteJson(h: Helpers, results: seq<CloseApproach>): (r: Result<seq<Value>, nat>)
    ensures r.Success? ==> |r.value| == |results|
    ensures r.Failure? ==> r.error < |results| && !Linked(results[r.error])
    decreases |results|
  {
    if results == [] then Success([])
    else if !Linked(results[0]) then Failure(0)
    else match WriteJson(h, results[1..])
      case Success(entries) => Success([JsonEntry(h, results[0])] + entries)
      case Failure(k) => Failure(k + 1)
  }

  /**
   `write_to_json` completes exactly when every approach is linked; otherwise it raises at
   the first approach with no NEO.
   */
  lemma {:induction false} WriteJsonOutcome(h: Helpers, results: seq<CloseApproach>)
    ensures WriteJson(h, results).Success? <==> forall i :: 0 <= i < |results| ==> Linked(results[i])
    ensures WriteJson(h, results).Failure? ==> IsFirstUnlinked(results, WriteJson(h, results).error)
    decreases |results|
  {
    if results != [] && Linked(results[0]) {
      WriteJsonOutcome(h, results[1..]);
      assert forall i :: 1 <= i < |results| ==> results[i] == results[1..][i - 1];
    }
  }

  /** When `write_to_json` completes, it has one entry per approach, in input order. */
  lemma {:induction false} WriteJsonEntries(h: Helpers, results: seq<CloseApproach>)
    requires WriteJson(h, results).Success?
    ensures |WriteJson(h, results).value| == |results|
    ensures forall i :: 0 <= i < |results| ==>
      Linked(results[i]) && WriteJson(h, results).value[i] == JsonEntry(h, results[i])
    decreases |results|
  {
    if results != [] {
      WriteJsonEntries(h, results[1..]);
      var rest := WriteJson(h, results[1..]).value;
      var out := WriteJson(h, results).value;
      assert out == [JsonEntry(h, results[0])] + rest;
      forall i | 0 <= i < |results|
        ensures Linked(results[i]) && out[i] == JsonEntry(h, results[i])
      {
        if i > 0 {
          assert out[i] == rest[i - 1];
          assert results[i] == results[1..][i - 1];
        }
      }
    }
  }

  /** The two writers stop at the same approach: the first one with no NEO. */
  lemma CsvAndJsonFailTogether(h: Helpers, results: seq<CloseApproach>)
    ensures WriteJson(h, results).Failure? <==> WriteCsv(h, results).failedAt.Some?
    ensures WriteJson(h, results).Failure? ==> WriteCsv(h, results).failedAt == Some(WriteJson(h, results).error)
    ensures WriteJson(h, results).Failure? ==> IsFirstUnlinked(results, WriteJson(h, results).error)
  {
    WriteCsvSpec(h, results);
    WriteJsonOutcome(h, results);
    var out := WriteJson(h, results);
    if out.Failure? {
      FirstUnlinkedIsUnique(results, out.error, WriteCsv(h, results).failedAt.value);
    }
  }

  /**
   When the JSON writer completes, so does the CSV writer, and each CSV row is the
   flattened JSON entry at the same position.
   */
  lemma {:induction false} CsvRowsAreFlattenedJson(h: Helpers, results: seq<CloseApproach>)
    requires WriteJson(h, results).Success?
    ensures var rows, entries := WriteCsv(h, results).rows, WriteJson(h, results).value;
      && |rows| == |entries|
      && forall i :: 0 <= i < |entries| ==>
           entries[i].Obj? && "neo" in entries[i].members && entries[i].members["neo"].Obj?
           && rows[i] == CsvLine(Flatten(entries[i]))
  {
    WriteCsvSpec(h, results);
    WriteJsonOutcome(h, results);
    WriteJsonEntries(h, results);
    var entries := WriteJson(h, results).value;
    var rows := WriteCsv(h, results).rows;
    forall i | 0 <= i < |entries|
      ensures entries[i].Obj? && "neo" in entries[i].members && entries[i].members["neo"].Obj?
      ensures rows[i] == CsvLine(Flatten(entries[i]))
    {
      JsonFlattensToCsv(h, results[i]);
    }
  }

  lemma FirstUnlinkedIsUnique(results: seq<CloseApproach>, k: nat, l: nat)
    requires IsFirstUnlinked(results, k) && IsFirstUnlinked(results, l)
    ensures k == l
  {
  }
}
