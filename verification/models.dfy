/**
 The two record types of the system: a near-Earth object (NEO) and one close approach of
 an NEO to Earth, with the display helpers `fullname` and `time_str`.

 Python's object graph links a `CloseApproach` to its NEO and an NEO to its approaches.
 Here both are values: an approach's `neo` holds the linked NEO's record, and an NEO's
 `approaches` holds approach records. Both start empty; filling them in is the job of the
 database, which is not part of this model.
 */
module Models {
  import opened Wrappers
  import PyRepr

  /** An approach instant as `cd_to_datetime` returns it; the data has minute granularity. */
  datatype DateTime = DateTime(year: int, month: int, day: int, hour: int, minute: int)

  /**
   The two functions of the `helpers` module that the records call. That module is not
   part of this model, so they are supplied by the caller and nothing is assumed of them.
   */
  datatype Helpers = Helpers(cdToDatetime: string -> DateTime, datetimeToStr: DateTime -> string)

  /** A diameter in kilometres; `Unknown` stands for the `math.nan` of a missing value. */
  datatype Diameter = Known(km: real) | Unknown

  datatype NearEarthObject = NearEarthObject(
    designation: string,
    name: Option<string>,
    diameter: Diameter,
    hazardous: bool,
    approaches: seq<CloseApproach>)

  datatype CloseApproach = CloseApproach(
    designation: string,
    time: DateTime,
    distance: real,
    velocity: real,
    neo: Option<NearEarthObject>)

  /** `NearEarthObject(designation, name, diameter, hazardous)`. */
  function NewNeo(designation: string, name: Option<string>, diameter: Diameter, hazardous: bool): (n: NearEarthObject)
    ensures n.designation == designation && n.name == name
    ensures n.diameter == diameter && n.hazardous == hazardous
    ensures n.approaches == []
  {
    NearEarthObject(designation, name, diameter, hazardous, [])
  }

  /** `CloseApproach(designation, time, distance, velocity)`: the time text is parsed once, here. */
  function NewApproach(h: Helpers, designation: string, time: string, distance: real, velocity: real): (a: CloseApproach)
    ensures a.designation == designation && a.time == h.cdToDatetime(time)
    ensures a.distance == distance && a.velocity == velocity
    ensures a.neo == None
  {
    CloseApproach(designation, h.cdToDatetime(time), distance, velocity, None)
  }

  /** The text `fullname` prints after the designation: the name, or nothing when absent. */
  function NameText(name: Option<string>): string {
    match name
    case Some(s) => s
    case None => ""
  }

  /**
   `NearEarthObject.fullname`: the quoted designation, a space, then the name. Reading the
   quoted literal back gives the designation and leaves exactly the space and the name text.
   */
  function FullName(n: NearEarthObject): (r: string)
    ensures PyRepr.ParseRepr(r) == Some((n.designation, " " + NameText(n.name)))
  {
    var q := PyRepr.Repr(n.designation);
    PyRepr.ReprRoundTrip(n.designation, " " + NameText(n.name));
    assert q + " " + NameText(n.name) == q + (" " + NameText(n.name));
    q + " " + NameText(n.name)
  }

  /** A full name starts with the quoted designation and a space, and ends with the name text. */
  lemma FullNameParts(n: NearEarthObject)
    ensures var r := PyRepr.Repr(n.designation);
      && |FullName(n)| == |r| + 1 + |NameText(n.name)|
      && FullName(n)[..|r| + 1] == r + " "
      && FullName(n)[|r| + 1..] == NameText(n.name)
  {
  }

  /**
   Two NEOs with the same full name have the same designation and the same name text;
   an absent name and an empty name are the only names it cannot tell apart.
   */
  lemma FullNameDeterminesDesignation(a: NearEarthObject, b: NearEarthObject)
    requires FullName(a) == FullName(b)
    ensures a.designation == b.designation
    ensures NameText(a.name) == NameText(b.name)
  {
    assert (" " + NameText(a.name))[1..] == NameText(a.name);
    assert (" " + NameText(b.name))[1..] == NameText(b.name);
  }

  /** An absent name and an empty name give the same full name. */
  lemma FullNameConflatesAbsentAndEmpty(n: NearEarthObject)
    ensures FullName(n.(name := None)) == FullName(n.(name := Some("")))
  {
  }

  /** `CloseApproach.time_str`: the helper's rendering of the stored instant. */
  function TimeStr(h: Helpers, a: CloseApproach): string {
    h.datetimeToStr(a.time)
  }

  /** Sanity check: the time string depends on the approach's instant alone. */
  lemma TimeStrDependsOnlyOnTime(h: Helpers, a: CloseApproach, b: CloseApproach)
    requires a.time == b.time
    ensures TimeStr(h, a) == TimeStr(h, b)
  {
  }

  /**
   Sanity check: approach texts that `cd_to_datetime` maps to the same instant give the
   same time string.
   */
  lemma TimeStrOfNewApproach(h: Helpers, des: string, t1: string, t2: string, dist: real, vel: real)
    requires h.cdToDatetime(t1) == h.cdToDatetime(t2)
    ensures TimeStr(h, NewApproach(h, des, t1, dist, vel)) == TimeStr(h, NewApproach(h, des, t2, dist, vel))
  {
  }

  /** Example: the NEO "433 Eros" is displayed as `'433' Eros`. */
  lemma FullNameOfEros()
    ensures FullName(NewNeo("433", Some("Eros"), Known(16.84), false)) == "'433' Eros"
  {
  }
}
