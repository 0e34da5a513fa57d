/**
 * The per-row logic of geocoder_pg.py's main loop: five sanitised cells, the
 * older street-name normaliser with the fixed list of illegal substrings, a
 * query built from the parsed street, the postcode and the locality, and the
 * split of each row into a shapefile record or a row of the incorrect-data
 * sheet.
 */
module GeocodingPg {
  import opened Text
  import opened Wrappers
  import opened Cells
  import opened StreetName
  import opened StreetNamePg
  import opened Geocoding

  /** What a falsy cell is written as. */
  const NoData: string := "BRAK DANYCH"

  /** The status of the stand-in result for a rejected or empty street name (spelling kept). */
  const WrongStreetName: string := "BŁĄD - NIERPAWIDŁOWA NAZWA ULICY"

  /** The substrings that make a street name unusable. */
  const IllegalSubstrings: seq<string> := ["dz.", "ew.", " działki ", " nr ", " obręb ", " ewid "]

  /** `sanitize_n_unicode`: a truthy value as stripped text, a falsy one as the no-data marker. */
  function SanitizeNUnicode(value: Cell): (r: string)
    ensures IsStripped(r)
    ensures !Truthy(value) ==> r == NoData
    ensures Truthy(value) ==> r == Strip(CellText(value))
  {
    if Truthy(value) then StripEnds(CellText(value)); Strip(CellText(value))
    else NoData
  }

  /** The five sanitised cells of a row: name, street and number, postcode, locality, province. */
  datatype PgFields = PgFields(nazwa: string, ulNrOrg: string, kod: string, miejsc: string, woj: string)

  /** Lines 151-155: the first five cells sanitised; a shorter row raises IndexError (None). */
  function ReadPgFields(row: seq<Cell>): (r: Option<PgFields>)
    ensures r.None? <==> |row| < 5
    ensures r.Some? ==> r.value.ulNrOrg == SanitizeNUnicode(row[1]) && r.value.kod == SanitizeNUnicode(row[2])
    ensures r.Some? ==>
      r.value == PgFields(SanitizeNUnicode(row[0]), SanitizeNUnicode(row[1]), SanitizeNUnicode(row[2]),
                          SanitizeNUnicode(row[3]), SanitizeNUnicode(row[4]))
  {
    if |row| < 5 then None
    else Some(PgFields(SanitizeNUnicode(row[0]), SanitizeNUnicode(row[1]), SanitizeNUnicode(row[2]),
                       SanitizeNUnicode(row[3]), SanitizeNUnicode(row[4])))
  }

  /** Line 159: the street name through the older normaliser with every option on. */
  function ParsePgStreet(ulNrOrg: string): Parsed
  {
    NormalizePg(ulNrOrg, IllegalSubstrings, true, true)
  }

  /**
   * Lines 162-163: the query, issued only for a truthy parsed name (accepted
   * and non-empty): the name, the postcode and locality, and the country.
   */
  function PgQuery(ulNr: Parsed, kod: string, miejsc: string): (q: Option<string>)
    ensures q.Some? <==> ulNr.Accepted? && ulNr.name != ""
    ensures q.Some? ==> q.value == Strip(ulNr.name) + ", " + kod + " " + miejsc + ", Polska"
  {
    if ulNr.Accepted? && ulNr.name != "" then Some(Strip(ulNr.name) + ", " + kod + " " + miejsc + ", Polska")
    else None
  }

  /** Lines 169-170: the modified street written out, blank when parsing changed nothing. */
  function ModifiedStreet(ulNr: Parsed, ulNrOrg: string): (m: Parsed)
    ensures ulNr == Accepted(ulNrOrg) ==> m == Accepted("")
    ensures ulNr != Accepted(ulNrOrg) ==> m == ulNr
  {
    if ulNr == Accepted(ulNrOrg) then Accepted("") else ulNr
  }

  /** A shapefile record: the five cells, the modified street and the OSM id. */
  datatype PgPoint = PgPoint(nazwa: string, ulNrOrg: string, ulNr: Parsed, kod: string,
                             miejsc: string, woj: string, osm: string)

  /** A row of the incorrect-data sheet: the cells, the 1-based position and the failure fields. */
  datatype PgFailure = PgFailure(nazwa: string, ulNrOrg: string, ulNr: Parsed, kod: string,
                                 miejsc: string, woj: string, position: int,
                                 status: string, statusCode: int, timeout: int)

  datatype PgOutcome = PgPointOut(point: PgPoint) | PgFailed(failure: PgFailure)

  /** The answer for a row: the geocoder's for a query, else the stand-in failure. */
  function PgAnswer(query: Option<string>, gc: Geocoder): (a: Answer)
    ensures query.None? ==> a == FakeGC(false, WrongStreetName)
    ensures query.Some? ==> a == gc(query.value)
  {
    match query
    case Some(q) => gc(q)
    case None => FakeGC(false, WrongStreetName)
  }

  /** Lines 151-181 for the row at 0-based position `i`; None when the row is too short. */
  function PgRowSpec(i: nat, row: seq<Cell>, gc: Geocoder): Option<PgOutcome>
  {
    match ReadPgFields(row)
    case None => None
    case Some(f) => Some(PgFieldsOutcome(i, f, gc))
  }

  /** Lines 159-181 for a row whose cells were read: parse, query, and pick the sink. */
  function PgFieldsOutcome(i: nat, f: PgFields, gc: Geocoder): PgOutcome
  {
    var ulNr := ParsePgStreet(f.ulNrOrg);
    var ans := PgAnswer(PgQuery(ulNr, f.kod, f.miejsc), gc);
    var shown := ModifiedStreet(ulNr, f.ulNrOrg);
    if ans.ok then PgPointOut(PgPoint(f.nazwa, f.ulNrOrg, shown, f.kod, f.miejsc, f.woj, ans.osm))
    else PgFailed(PgFailure(f.nazwa, f.ulNrOrg, shown, f.kod, f.miejsc, f.woj, i + 1,
                            ans.status, ans.statusCode, ans.timeout))
  }

  /** The record one row's outcome adds to the shapefile: one for a found address. */
  function PgPointPart(o: Option<PgOutcome>): (r: seq<PgPoint>)
    ensures |r| <= 1 && (r != [] <==> o.Some? && o.value.PgPointOut?)
  {
    if o.Some? && o.value.PgPointOut? then [o.value.point] else []
  }

  /** The row one row's outcome adds to the incorrect-data sheet: one for a failed answer. */
  function PgFailurePart(o: Option<PgOutcome>): (r: seq<PgFailure>)
    ensures |r| <= 1 && (r != [] <==> o.Some? && o.value.PgFailed?)
  {
    if o.Some? && o.value.PgFailed? then [o.value.failure] else []
  }

  /** What each of the first `n` rows ends as, in row order. */
  function PgOutcomes(rows: seq<seq<Cell>>, n: nat, gc: Geocoder): (r: seq<Option<PgOutcome>>)
    requires n <= |rows|
    ensures |r| == n && forall k :: 0 <= k < n ==> r[k] == PgRowSpec(k, rows[k], gc)
  {
    seq(n, k requires 0 <= k < n => PgRowSpec(k, rows[k], gc))
  }

  /** The shapefile records that a run of outcomes adds, in order. */
  function PgPointsOf(outs: seq<Option<PgOutcome>>): seq<PgPoint>
  {
    if outs == [] then [] else PgPointsOf(outs[..|outs| - 1]) + PgPointPart(outs[|outs| - 1])
  }

  /** The incorrect-data rows that a run of outcomes adds, in order. */
  function PgFailuresOf(outs: seq<Option<PgOutcome>>): seq<PgFailure>
  {
    if outs == [] then [] else PgFailuresOf(outs[..|outs| - 1]) + PgFailurePart(outs[|outs| - 1])
  }

  /** A row that went through adds to exactly one of the sinks. */
  lemma PgOnePart(o: Option<PgOutcome>)
    requires o.Some?
    ensures |PgPointPart(o)| + |PgFailurePart(o)| == 1
  {
  }

  /** Rows that all went through add exactly one record each, to one sink or the other. */
  lemma {:induction false} PgOneRecordPerRow(outs: seq<Option<PgOutcome>>)
    requires forall k :: 0 <= k < |outs| ==> outs[k].Some?
    ensures |PgPointsOf(outs)| + |PgFailuresOf(outs)| == |outs|
  {
    if outs != [] {
      var init := outs[..|outs| - 1];
      assert forall k :: 0 <= k < |init| ==> init[k] == outs[k];
      PgOneRecordPerRow(init);
      PgOnePart(outs[|outs| - 1]);
    }
  }

  /** One more outcome adds its own part at the end of each sink. */
  lemma PartsSnoc(outs: seq<Option<PgOutcome>>, o: Option<PgOutcome>)
    ensures PgPointsOf(outs + [o]) == PgPointsOf(outs) + PgPointPart(o)
    ensures PgFailuresOf(outs + [o]) == PgFailuresOf(outs) + PgFailurePart(o)
  {
    assert (outs + [o])[..|outs|] == outs;
  }

  /** One more row adds its own part at the end of each sink. */
  lemma PgRecordsStep(rows: seq<seq<Cell>>, n: nat, gc: Geocoder)
    requires n < |rows|
    ensures PgOutcomes(rows, n + 1, gc) == PgOutcomes(rows, n, gc) + [PgRowSpec(n, rows[n], gc)]
    ensures PgPointsOf(PgOutcomes(rows, n + 1, gc))
         == PgPointsOf(PgOutcomes(rows, n, gc)) + PgPointPart(PgRowSpec(n, rows[n], gc))
    ensures PgFailuresOf(PgOutcomes(rows, n + 1, gc))
         == PgFailuresOf(PgOutcomes(rows, n, gc)) + PgFailurePart(PgRowSpec(n, rows[n], gc))
  {
    var a, b := PgOutcomes(rows, n + 1, gc), PgOutcomes(rows, n, gc);
    var o := PgRowSpec(n, rows[n], gc);
    assert a == b + [o];
    PartsSnoc(b, o);
  }

  /** The shapefile's records and the incorrect-data sheet's rows (its header is not modelled). */
  class PgRun {
    var points: seq<PgPoint>
    var failures: seq<PgFailure>

    constructor ()
      ensures points == [] && failures == []
    {
      points := [];
      failures := [];
    }

    /** One pass of the loop body; false when the row is too short and the script raises. */
    method ProcessRow(i: nat, row: seq<Cell>, gc: Geocoder) returns (ok: bool)
      modifies this
      ensures ok <==> PgRowSpec(i, row, gc).Some?
      ensures points == old(points) + PgPointPart(PgRowSpec(i, row, gc))
      ensures failures == old(failures) + PgFailurePart(PgRowSpec(i, row, gc))
      ensures match PgRowSpec(i, row, gc)
        case None => !ok && points == old(points) && failures == old(failures)
        case Some(PgPointOut(p)) => ok && points == old(points) + [p] && failures == old(failures)
        case Some(PgFailed(x)) => ok && failures == old(failures) + [x] && points == old(points)
    {
      var fields := ReadPgFields(row);
      if fields.None? {
        assert PgRowSpec(i, row, gc) == None;
        return false;
      }
      var f := fields.value;
      var ulNr := ParseStreetNamePg(f.ulNrOrg, IllegalSubstrings, true, true);
      var ans := PgAnswer(PgQuery(ulNr, f.kod, f.miejsc), gc);
      var shown := ModifiedStreet(ulNr, f.ulNrOrg);
      if ans.ok {
        var p := PgPoint(f.nazwa, f.ulNrOrg, shown, f.kod, f.miejsc, f.woj, ans.osm);
        assert PgFieldsOutcome(i, f, gc) == PgPointOut(p);
        points := points + [p];
      } else {
        var x := PgFailure(f.nazwa, f.ulNrOrg, shown, f.kod, f.miejsc, f.woj, i + 1,
                           ans.status, ans.statusCode, ans.timeout);
        assert PgFieldsOutcome(i, f, gc) == PgFailed(x);
        failures := failures + [x];
      }
      return true;
    }

    /**
     * The main loop (lines 151-186): every row before `done` went through and
     * added its record, in row order, to the sink its answer chose, until a
     * short row raises.
     */
    method Run(rows: seq<seq<Cell>>, gc: Geocoder) returns (done: nat, ok: bool)
      modifies this
      ensures done <= |rows| && (ok <==> done == |rows|)
      ensures !ok ==> PgRowSpec(done, rows[done], gc).None?
      ensures forall k :: 0 <= k < done ==> PgRowSpec(k, rows[k], gc).Some?
      ensures points == old(points) + PgPointsOf(PgOutcomes(rows, done, gc))
      ensures failures == old(failures) + PgFailuresOf(PgOutcomes(rows, done, gc))
      ensures |points| + |failures| == |old(points)| + |old(failures)| + done
    {
      done := 0;
      while done < |rows|
        invariant done <= |rows|
        invariant forall k :: 0 <= k < done ==> PgRowSpec(k, rows[k], gc).Some?
        invariant points == old(points) + PgPointsOf(PgOutcomes(rows, done, gc))
        invariant failures == old(failures) + PgFailuresOf(PgOutcomes(rows, done, gc))
        invariant |points| + |failures| == |old(points)| + |old(failures)| + done
      {
        ok := ProcessRow(done, rows[done], gc);
        if !ok {
          return;
        }
        var o := PgRowSpec(done, rows[done], gc);
        assert o.Some?;
        forall k | 0 <= k < done + 1
          ensures PgRowSpec(k, rows[k], gc).Some?
        {
          if k == done {
            assert rows[k] == rows[done];
          }
        }
        PgRecordsStep(rows, done, gc);
        Concat3(old(points), PgPointsOf(PgOutcomes(rows, done, gc)), PgPointPart(o));
        Concat3(old(failures), PgFailuresOf(PgOutcomes(rows, done, gc)), PgFailurePart(o));
        done := done + 1;
      }
      ok := true;
    }
  }

  // ----- properties ---------------------------------------------------------

  /**
   * A rejected or empty parsed name issues no query and ends as a failure row
   * carrying the wrong-street status.
   */
  lemma NoQueryForFalsyName(i: nat, row: seq<Cell>, gc: Geocoder)
    requires |row| >= 5
    requires var p := ParsePgStreet(SanitizeNUnicode(row[1])); p.Rejected? || p.name == ""
    ensures PgRowSpec(i, row, gc).Some? && PgRowSpec(i, row, gc).value.PgFailed?
    ensures var x := PgRowSpec(i, row, gc).value.failure;
      x.status == WrongStreetName && x.statusCode == -999 && x.position == i + 1
  {
  }

  /**
   * The query of an accepted name is the normalised name itself, already
   * stripped, followed by the postcode, the locality and the country.
   */
  lemma QueryIsParsedName(ulNrOrg: string, kod: string, miejsc: string)
    requires ParsePgStreet(ulNrOrg).Accepted? && ParsePgStreet(ulNrOrg).name != ""
    ensures PgQuery(ParsePgStreet(ulNrOrg), kod, miejsc) ==
      Some(ParsePgStreet(ulNrOrg).name + ", " + kod + " " + miejsc + ", Polska")
  {
    var n := ParsePgStreet(ulNrOrg).name;
    var removed := Strip(RemoveAbbrevs(ulNrOrg));
    StripEnds(NumberFirstPg(removed));
    StrippedFixpoint(n);
  }

  /** The modified street is blank exactly when parsing changed nothing or gave ''. */
  lemma BlankExactlyWhenUnchanged(ulNr: Parsed, ulNrOrg: string)
    ensures ModifiedStreet(ulNr, ulNrOrg) == Accepted("") <==> ulNr == Accepted(ulNrOrg) || ulNr == Accepted("")
  {
  }

  /** A name with an illegal substring is never queried. */
  lemma IllegalNameNotQueried(ulNrOrg: string, kod: string, miejsc: string)
    requires FilterHit(ulNrOrg, IllegalSubstrings)
    ensures PgQuery(ParsePgStreet(ulNrOrg), kod, miejsc).None?
  {
  }
}
