/**
 * The per-row logic of xl_geocoder.py's main loop: sanitising the address
 * cells, assembling one address from the populated fields, the strict
 * leading-number gate or the progressive comma-shortening search against a
 * geocoder, and the split of each row into a point record or a failure row.
 */
module Geocoding {
  import opened Text
  import opened Wrappers
  import opened Cells
  import opened StreetName

  // ----- the geocoder's answer ----------------------------------------------

  /**
   * What the loop reads of a geocoder result: `ok`, `status`, `status_code`,
   * `timeout` and the OpenStreetMap id `osm`. Coordinates and confidence are
   * provider floats and are not modelled.
   */
  datatype Answer = Answer(ok: bool, status: string, statusCode: int, timeout: int, osm: string)

  /** The geocoding service, abstracted as a function from query to answer. */
  type Geocoder = string -> Answer

  /** `FakeGC(ok, status)`: a stand-in result with the default code, timeout and id. */
  function FakeGC(ok: bool, status: string): (a: Answer)
    ensures a.ok == ok && a.status == status
    ensures a.statusCode == -999 && a.timeout == -999 && a.osm == ""
  {
    Answer(ok, status, -999, -999, "")
  }

  const IncorrectAddress: string := "ERROR - INCORRECT ADDRESS"
  const NoResults: string := "No results"

  // ----- sanitising cells ---------------------------------------------------

  /** `sanitize_value`: a truthy value as stripped text, a falsy one as '' or 'NO DATA'. */
  function SanitizeValue(value: Cell, replaceNone: bool): (r: string)
    ensures IsStripped(r)
    ensures !Truthy(value) ==> r == (if replaceNone then "NO DATA" else "")
    ensures Truthy(value) ==> r == Strip(CellText(value))
  {
    if replaceNone && !Truthy(value) then "NO DATA"
    else if Truthy(value) then StripEnds(CellText(value)); Strip(CellText(value))
    else ""
  }

  // ----- reading the address fields -------------------------------------------

  /** The configured column index of each address role. */
  datatype Roles = Roles(stNameNum: nat, secondary: nat, postal: nat, primary: nat, county: nat, province: nat)

  /** The sanitised address fields of one row. */
  datatype Fields = Fields(stNameNum: string, secondary: string, postal: string,
                           primary: string, county: string, province: string)

  /** The ways a row can make the script raise. */
  datatype RowError =
    | ColumnMissing      // `row[idx[...]]` beyond the row: IndexError
    | ConcatenatedFalse  // `False + ', '` after a rejected street name: TypeError
    | MatchedNone        // `re.match` on a `None` address in strict mode: TypeError

  predicate RolesFit(row: seq<Cell>, roles: Roles)
  {
    roles.stNameNum < |row| && roles.secondary < |row| && roles.postal < |row| &&
    roles.primary < |row| && roles.county < |row| && roles.province < |row|
  }

  /** Lines 157-163: every role's cell, sanitised with `replace_none=False`. */
  function ReadFields(row: seq<Cell>, roles: Roles): (r: Result<Fields, RowError>)
    ensures r.Failure? <==> !RolesFit(row, roles)
    ensures r.Success? ==> r.value.county == SanitizeValue(row[roles.county], false)
    ensures r.Success? ==>
      r.value == Fields(SanitizeValue(row[roles.stNameNum], false), SanitizeValue(row[roles.secondary], false),
                        SanitizeValue(row[roles.postal], false), SanitizeValue(row[roles.primary], false),
                        SanitizeValue(row[roles.county], false), SanitizeValue(row[roles.province], false))
    ensures r.Success? ==> IsStripped(r.value.stNameNum) && IsStripped(r.value.secondary) &&
                           IsStripped(r.value.postal) && IsStripped(r.value.primary) &&
                           IsStripped(r.value.county) && IsStripped(r.value.province)
  {
    if !RolesFit(row, roles) then Failure(ColumnMissing)
    else Success(Fields(
      SanitizeValue(row[roles.stNameNum], false), SanitizeValue(row[roles.secondary], false),
      SanitizeValue(row[roles.postal], false), SanitizeValue(row[roles.primary], false),
      SanitizeValue(row[roles.county], false), SanitizeValue(row[roles.province], false)))
  }

  // ----- address assembly -----------------------------------------------------

  /** The configuration read by the row loop. */
  datatype Settings = Settings(filter: seq<string>, expand: seq<(string, string)>,
                               removeAbbrev: bool, strict: bool)

  /** The options used for a street-and-number field. */
  function StreetOptions(cfg: Settings): Options
  {
    Options(cfg.filter, cfg.expand, cfg.removeAbbrev, true)
  }

  /** The options used for a secondary place name standing alone. */
  function PlaceOptions(cfg: Settings): Options
  {
    Options(cfg.filter, [], false, true)
  }

  /** The name that assembly sends through the normaliser, if any. */
  function ParsedField(f: Fields): Option<string>
  {
    if f.secondary != "" && f.stNameNum != "" then Some(f.stNameNum)
    else if f.secondary != "" then Some(f.secondary)
    else if f.primary != "" && f.stNameNum != "" then Some(f.stNameNum)
    else None
  }

  /**
   * Lines 166-187: the first branch whose fields are populated builds the
   * address; no branch gives `None`; a rejected name makes the concatenation
   * raise.
   */
  function AssembleAddress(f: Fields, cfg: Settings): (r: Result<Option<string>, RowError>)
    ensures r.Success? && r.value.None? <==> ParsedField(f).None?
    ensures r.Failure? <==> ParsedField(f).Some? && FilterHit(ParsedField(f).value, cfg.filter)
    ensures r.Failure? ==> r.error == ConcatenatedFalse
    ensures f.secondary != "" && f.stNameNum != "" && r.Success? ==>
      r.value == Some(Normalize(f.stNameNum, StreetOptions(cfg)).name + ", " + f.secondary + ", " + f.county)
    ensures f.secondary != "" && f.stNameNum == "" && r.Success? ==>
      r.value == Some(Normalize(f.secondary, PlaceOptions(cfg)).name + ", " + f.county)
    ensures f.secondary == "" && f.primary != "" && f.stNameNum != "" && r.Success? ==>
      r.value == (if Lower(f.primary) == Lower(f.county)
                  then Some(Normalize(f.stNameNum, StreetOptions(cfg)).name + ", " + f.primary)
                  else Some(Normalize(f.stNameNum, StreetOptions(cfg)).name + ", " + f.primary + ", " + f.county))
  {
    if f.secondary != "" && f.stNameNum != "" then
      match Normalize(f.stNameNum, StreetOptions(cfg))
      case Rejected => Failure(ConcatenatedFalse)
      case Accepted(p) => Success(Some(p + ", " + f.secondary + ", " + f.county))
    else if f.secondary != "" then
      match Normalize(f.secondary, PlaceOptions(cfg))
      case Rejected => Failure(ConcatenatedFalse)
      case Accepted(p) => Success(Some(p + ", " + f.county))
    else if f.primary != "" && f.stNameNum != "" then
      match Normalize(f.stNameNum, StreetOptions(cfg))
      case Rejected => Failure(ConcatenatedFalse)
      case Accepted(p) =>
        if Lower(f.primary) == Lower(f.county) then Success(Some(p + ", " + f.primary))
        else Success(Some(p + ", " + f.primary + ", " + f.county))
    else Success(None)
  }

  // ----- the strict gate and the progressive search ---------------------------

  /** `re.match(r'^\d+\S*', address)` on a string: it starts with a digit. */
  predicate HasLeadingNumber(a: string)
  {
    a != [] && IsDigit(a[0])
  }

  /** The loop condition of line 202: no results, and a comma is left. */
  predicate Retry(ans: Answer, address: string)
  {
    Occurs(NoResults, ans.status) && Find(address, ',') > -1
  }

  /** Line 205: drop everything up to and including the first comma. */
  function DropFirstPart(a: string): (r: string)
    requires Find(a, ',') > -1
    ensures |r| < |a|
  {
    a[Find(a, ',') + 1..]
  }

  /** The shortened address is a suffix of the address. */
  lemma DropFirstPartSuffix(a: string)
    requires Find(a, ',') > -1
    ensures DropFirstPart(a) == a[|a| - |DropFirstPart(a)|..]
  {
  }

  /** The queries of the progressive search, in the order they are issued. */
  function ProgressiveQueries(a: string, gc: Geocoder): (qs: seq<string>)
    ensures |qs| >= 1 && qs[0] == a
    decreases |a|
  {
    if Retry(gc(a), a) then [a] + ProgressiveQueries(DropFirstPart(a), gc) else [a]
  }

  /**
   * Lines 198-208: query the address; while the answer says no results and a
   * comma is left, drop the first part and query again. Gives the final
   * address, the final answer and every query issued.
   */
  method ProgressiveSearch(a: string, gc: Geocoder) returns (address: string, ans: Answer, queries: seq<string>)
    ensures queries == ProgressiveQueries(a, gc)
    ensures address == queries[|queries| - 1] && ans == gc(address)
  {
    address := a;
    ans := gc(address);
    queries := [address];
    while Retry(ans, address)
      invariant ans == gc(address)
      invariant queries + ProgressiveQueries(address, gc)[1..] == ProgressiveQueries(a, gc)
      invariant queries[|queries| - 1] == address
      decreases |address|
    {
      ghost var prev := address;
      QueriesStep(prev, gc);
      var i := Find(address, ',');
      address := address[i + 1..];
      assert address == DropFirstPart(prev);
      assert ProgressiveQueries(prev, gc)[1..] == ProgressiveQueries(address, gc);
      assert ProgressiveQueries(address, gc) == [address] + ProgressiveQueries(address, gc)[1..];
      ans := gc(address);
      queries := queries + [address];
    }
  }

  /** What the geocoding step of one row gives: final address, answer, queries. */
  datatype Search = Search(address: Option<string>, answer: Answer, queries: seq<string>)

  /** Lines 190-210 as a function of the assembled address and the mode. */
  function GeocodeSpec(address: Option<string>, strict: bool, gc: Geocoder): Result<Search, RowError>
  {
    if strict then
      match address
      case None => Failure(MatchedNone)
      case Some(a) =>
        if HasLeadingNumber(a) then Success(Search(address, gc(a), [a]))
        else Success(Search(address, FakeGC(false, IncorrectAddress), []))
    else
      match address
      case Some(a) =>
        if a != "" then
          var qs := ProgressiveQueries(a, gc);
          Success(Search(Some(qs[|qs| - 1]), gc(qs[|qs| - 1]), qs))
        else Success(Search(address, FakeGC(false, IncorrectAddress), []))
      case None => Success(Search(address, FakeGC(false, IncorrectAddress), []))
  }

  /** The geocoding step of one row: the strict gate or the progressive search. */
  method Geocode(address: Option<string>, strict: bool, gc: Geocoder) returns (r: Result<Search, RowError>)
    ensures r == GeocodeSpec(address, strict, gc)
  {
    if strict {
      if address.None? {
        return Failure(MatchedNone);
      }
      var a := address.value;
      if a != "" && IsDigit(a[0]) {
        return Success(Search(address, gc(a), [a]));
      }
      return Success(Search(address, FakeGC(false, IncorrectAddress), []));
    }
    if address.Some? && address.value != "" {
      var final, ans, queries := ProgressiveSearch(address.value, gc);
      return Success(Search(Some(final), ans, queries));
    }
    return Success(Search(address, FakeGC(false, IncorrectAddress), []));
  }

  // ----- properties of the search -------------------------------------------

  /** Dropping the first part removes exactly one comma. */
  lemma {:induction false} DropFirstPartCount(a: string)
    requires Find(a, ',') > -1
    ensures Count(DropFirstPart(a), ',') == Count(a, ',') - 1
  {
    var i := Find(a, ',');
    FindFirst(a, ',');
    CountSplit(a, i + 1);
    CountNoComma(a[..i]);
    assert a[..i + 1] == a[..i] + [','];
    CountSplit(a[..i + 1], i);
  }

  lemma {:induction false} CountSplit(s: string, k: nat)
    requires k <= |s|
    ensures Count(s, ',') == Count(s[..k], ',') + Count(s[k..], ',')
  {
    assert s == s[..k] + s[k..];
    CountConcat(s[..k], s[k..]);
  }

  lemma {:induction false} CountConcat(a: string, b: string)
    ensures Count(a + b, ',') == Count(a, ',') + Count(b, ',')
  {
    if a != [] {
      assert (a + b)[0] == a[0];
      assert (a + b)[1..] == a[1..] + b;
      CountConcat(a[1..], b);
    } else {
      assert a + b == b;
    }
  }

  lemma CountNoComma(s: string)
    requires ',' !in s
    ensures Count(s, ',') == 0
  {
  }

  /** One step of the search: after a retry come the queries of the shortened address. */
  lemma QueriesStep(a: string, gc: Geocoder)
    requires Retry(gc(a), a)
    ensures ProgressiveQueries(a, gc) == [a] + ProgressiveQueries(DropFirstPart(a), gc)
  {
  }

  /** The progressive search issues at most one query more than the address has commas. */
  lemma {:induction false} ProgressiveQueriesCount(a: string, gc: Geocoder)
    ensures |ProgressiveQueries(a, gc)| <= 1 + Count(a, ',')
    decreases |a|
  {
    if Retry(gc(a), a) {
      QueriesStep(a, gc);
      ProgressiveQueriesCount(DropFirstPart(a), gc);
      DropFirstPartCount(a);
    }
  }

  /** `x` is a tail of `a`. */
  predicate IsSuffix(x: string, a: string)
  {
    |x| <= |a| && x == a[|a| - |x|..]
  }

  /** Every query is a suffix of the first address. */
  lemma {:induction false} ProgressiveQueriesSuffixes(a: string, gc: Geocoder)
    ensures var qs := ProgressiveQueries(a, gc);
      forall k :: 0 <= k < |qs| ==> IsSuffix(qs[k], a)
    decreases |a|
  {
    var qs := ProgressiveQueries(a, gc);
    if Retry(gc(a), a) {
      var b := DropFirstPart(a);
      DropFirstPartSuffix(a);
      QueriesStep(a, gc);
      ProgressiveQueriesSuffixes(b, gc);
      var rest := ProgressiveQueries(b, gc);
      forall k | 0 <= k < |qs| ensures IsSuffix(qs[k], a) {
        if k > 0 {
          assert qs[k] == rest[k - 1];
          SuffixOfSuffix(a, b, rest[k - 1]);
        }
      }
    }
  }

  /** A suffix of a suffix is a suffix. */
  lemma SuffixOfSuffix(a: string, b: string, c: string)
    requires IsSuffix(b, a) && IsSuffix(c, b)
    ensures IsSuffix(c, a)
  {
    assert b[|b| - |c|..] == a[|a| - |c|..];
  }

  /** Each query after the first is the one before with its first part dropped, and it was retried. */
  lemma {:induction false} ProgressiveQueriesSteps(a: string, gc: Geocoder)
    ensures var qs := ProgressiveQueries(a, gc);
      forall k :: 0 <= k < |qs| - 1 ==> Retry(gc(qs[k]), qs[k]) && qs[k + 1] == DropFirstPart(qs[k])
    decreases |a|
  {
    var qs := ProgressiveQueries(a, gc);
    if Retry(gc(a), a) {
      var b := DropFirstPart(a);
      QueriesStep(a, gc);
      ProgressiveQueriesSteps(b, gc);
      var rest := ProgressiveQueries(b, gc);
      forall k | 0 <= k < |qs| - 1 ensures Retry(gc(qs[k]), qs[k]) && qs[k + 1] == DropFirstPart(qs[k]) {
        if k > 0 {
          assert qs[k] == rest[k - 1] && qs[k + 1] == rest[k];
        }
      }
    }
  }

  /** The search stops at an answer other than "No results", or when no comma is left. */
  lemma {:induction false} ProgressiveQueriesStop(a: string, gc: Geocoder)
    ensures var qs := ProgressiveQueries(a, gc); !Retry(gc(qs[|qs| - 1]), qs[|qs| - 1])
    decreases |a|
  {
    if Retry(gc(a), a) {
      var b := DropFirstPart(a);
      QueriesStep(a, gc);
      ProgressiveQueriesStop(b, gc);
      LastOfCons(a, ProgressiveQueries(b, gc));
    }
  }

  lemma LastOfCons(a: string, rest: seq<string>)
    requires |rest| >= 1
    ensures ([a] + rest)[|rest|] == rest[|rest| - 1]
  {
  }

  /** Strict mode queries at most once, and only an address that starts with a digit. */
  lemma StrictQueriesOnce(address: Option<string>, gc: Geocoder)
    ensures GeocodeSpec(address, true, gc).Failure? <==> address.None?
    ensures GeocodeSpec(address, true, gc).Success? ==>
      var s := GeocodeSpec(address, true, gc).value;
      |s.queries| <= 1 &&
      (|s.queries| == 1 <==> HasLeadingNumber(address.value)) &&
      (|s.queries| == 0 ==> s.answer.status == IncorrectAddress && !s.answer.ok)
  {
  }

  /** A missing or empty address is never sent to the geocoder in progressive mode. */
  lemma NoAddressNoQuery(address: Option<string>, gc: Geocoder)
    requires address.None? || address == Some("")
    ensures GeocodeSpec(address, false, gc) == Success(Search(address, FakeGC(false, IncorrectAddress), []))
  {
  }

  // ----- the two outputs ------------------------------------------------------

  /** A shapefile point's record: the row, the final query and the OSM id. */
  datatype PointRecord = PointRecord(row: seq<Cell>, query: Option<string>, osm: string)

  /** A row of the failure sheet: the row, the final query and the failure fields. */
  datatype FailureRecord = FailureRecord(row: seq<Cell>, query: Option<string>,
                                         status: string, statusCode: int, timeout: int)

  /** What one row ends as. */
  datatype RowOutcome = Point(point: PointRecord) | Failed(failure: FailureRecord)

  /** Lines 157-219 for one row, as a function of the row, the settings and the geocoder. */
  function RowSpec(row: seq<Cell>, roles: Roles, cfg: Settings, gc: Geocoder): Result<RowOutcome, RowError>
  {
    match ReadFields(row, roles)
    case Failure(e) => Failure(e)
    case Success(f) =>
      match AssembleAddress(f, cfg)
      case Failure(e) => Failure(e)
      case Success(address) =>
        match GeocodeSpec(address, cfg.strict, gc)
        case Failure(e) => Failure(e)
        case Success(s) =>
          if s.answer.ok then Success(Point(PointRecord(row, s.address, s.answer.osm)))
          else Success(Failed(FailureRecord(row, s.address, s.answer.status, s.answer.statusCode, s.answer.timeout)))
  }

  /** The point record one row's outcome adds: one for a found address, none otherwise. */
  function PointPart(o: Result<RowOutcome, RowError>): (r: seq<PointRecord>)
    ensures |r| <= 1 && (r != [] <==> o.Success? && o.value.Point?)
  {
    if o.Success? && o.value.Point? then [o.value.point] else []
  }

  /** The failure row one row's outcome adds: one for an answer that failed, none otherwise. */
  function FailurePart(o: Result<RowOutcome, RowError>): (r: seq<FailureRecord>)
    ensures |r| <= 1 && (r != [] <==> o.Success? && o.value.Failed?)
  {
    if o.Success? && o.value.Failed? then [o.value.failure] else []
  }

  /** The two parts are the record an outcome names, in its own sink, and nothing else. */
  lemma PartsOfOutcome(o: Result<RowOutcome, RowError>)
    ensures match o
      case Failure(_) => PointPart(o) == [] && FailurePart(o) == []
      case Success(Point(p)) => PointPart(o) == [p] && FailurePart(o) == []
      case Success(Failed(x)) => PointPart(o) == [] && FailurePart(o) == [x]
  {
  }

  /** The point records that the given rows add, in row order. */
  function PointsOf(rows: seq<seq<Cell>>, roles: Roles, cfg: Settings, gc: Geocoder): seq<PointRecord>
  {
    if rows == [] then []
    else PointsOf(rows[..|rows| - 1], roles, cfg, gc) + PointPart(RowSpec(rows[|rows| - 1], roles, cfg, gc))
  }

  /** The failure rows that the given rows add, in row order. */
  function FailuresOf(rows: seq<seq<Cell>>, roles: Roles, cfg: Settings, gc: Geocoder): seq<FailureRecord>
  {
    if rows == [] then []
    else FailuresOf(rows[..|rows| - 1], roles, cfg, gc) + FailurePart(RowSpec(rows[|rows| - 1], roles, cfg, gc))
  }

  lemma Concat3<T>(a: seq<T>, b: seq<T>, c: seq<T>)
    ensures a + b + c == a + (b + c)
  {
  }

  /** One more row adds its own part at the end of each sink. */
  lemma RecordsStep(rows: seq<seq<Cell>>, roles: Roles, cfg: Settings, gc: Geocoder, i: nat)
    requires i < |rows|
    ensures PointsOf(rows[..i + 1], roles, cfg, gc)
         == PointsOf(rows[..i], roles, cfg, gc) + PointPart(RowSpec(rows[i], roles, cfg, gc))
    ensures FailuresOf(rows[..i + 1], roles, cfg, gc)
         == FailuresOf(rows[..i], roles, cfg, gc) + FailurePart(RowSpec(rows[i], roles, cfg, gc))
  {
    assert rows[..i + 1][..i] == rows[..i];
  }

  /** A row that went through adds to exactly one of the sinks. */
  lemma OnePart(o: Result<RowOutcome, RowError>)
    requires o.Success?
    ensures |PointPart(o)| + |FailurePart(o)| == 1
  {
  }

  /** Rows that all went through add exactly one record each, to one sink or the other. */
  lemma {:induction false} OneRecordPerRow(rows: seq<seq<Cell>>, roles: Roles, cfg: Settings, gc: Geocoder)
    requires forall k :: 0 <= k < |rows| ==> RowSpec(rows[k], roles, cfg, gc).Success?
    ensures |PointsOf(rows, roles, cfg, gc)| + |FailuresOf(rows, roles, cfg, gc)| == |rows|
  {
    if rows != [] {
      var init := rows[..|rows| - 1];
      assert forall k :: 0 <= k < |init| ==> init[k] == rows[k];
      OneRecordPerRow(init, roles, cfg, gc);
      OnePart(RowSpec(rows[|rows| - 1], roles, cfg, gc));
    }
  }

  /**
   * The two sinks of a run: the shapefile's points and the failure sheet's rows
   * (its header row is not modelled).
   */
  class GeocodeRun {
    var points: seq<PointRecord>
    var failures: seq<FailureRecord>

    constructor ()
      ensures points == [] && failures == []
    {
      points := [];
      failures := [];
    }

    /** Lines 213-220: a successful answer makes a point, any other a failure row. */
    method Record(row: seq<Cell>, address: Option<string>, ans: Answer)
      modifies this
      ensures ans.ok ==> points == old(points) + [PointRecord(row, address, ans.osm)] && failures == old(failures)
      ensures !ans.ok ==> failures == old(failures) + [FailureRecord(row, address, ans.status, ans.statusCode, ans.timeout)]
                          && points == old(points)
    {
      if ans.ok {
        points := points + [PointRecord(row, address, ans.osm)];
      } else {
        failures := failures + [FailureRecord(row, address, ans.status, ans.statusCode, ans.timeout)];
      }
    }

    /** One pass of the loop body: read, assemble, geocode, record. */
    method ProcessRow(row: seq<Cell>, roles: Roles, cfg: Settings, gc: Geocoder) returns (err: Option<RowError>)
      modifies this
      ensures err.Some? <==> RowSpec(row, roles, cfg, gc).Failure?
      ensures err.Some? ==> RowSpec(row, roles, cfg, gc) == Failure(err.value)
      ensures points == old(points) + PointPart(RowSpec(row, roles, cfg, gc))
      ensures failures == old(failures) + FailurePart(RowSpec(row, roles, cfg, gc))
      ensures err.None? ==> RowSpec(row, roles, cfg, gc).Success? && |points| + |failures| == |old(points)| + |old(failures)| + 1
    {
      var fields := ReadFields(row, roles);
      if fields.Failure? {
        return Some(fields.error);
      }
      var address := AssembleAddress(fields.value, cfg);
      if address.Failure? {
        return Some(address.error);
      }
      var search := Geocode(address.value, cfg.strict, gc);
      if search.Failure? {
        return Some(search.error);
      }
      var sr := search.value;
      assert RowSpec(row, roles, cfg, gc) == Success(
        if sr.answer.ok then Point(PointRecord(row, sr.address, sr.answer.osm))
        else Failed(FailureRecord(row, sr.address, sr.answer.status, sr.answer.statusCode, sr.answer.timeout)));
      Record(row, sr.address, sr.answer);
      return None;
    }

    /**
     * The main loop over the rows (lines 157-225): every row before `done`
     * went through and added its record, in row order, to the sink its
     * answer chose; the first raising row stops the run.
     */
    method Run(rows: seq<seq<Cell>>, roles: Roles, cfg: Settings, gc: Geocoder) returns (done: nat, err: Option<RowError>)
      modifies this
      ensures done <= |rows|
      ensures err.None? ==> done == |rows|
      ensures err.Some? ==> done < |rows| && RowSpec(rows[done], roles, cfg, gc) == Failure(err.value)
      ensures forall k :: 0 <= k < done ==> RowSpec(rows[k], roles, cfg, gc).Success?
      ensures points == old(points) + PointsOf(rows[..done], roles, cfg, gc)
      ensures failures == old(failures) + FailuresOf(rows[..done], roles, cfg, gc)
      ensures |points| + |failures| == |old(points)| + |old(failures)| + done
    {
      done := 0;
      err := None;
      while done < |rows|
        invariant done <= |rows| && err.None?
        invariant forall k :: 0 <= k < done ==> RowSpec(rows[k], roles, cfg, gc).Success?
        invariant points == old(points) + PointsOf(rows[..done], roles, cfg, gc)
        invariant failures == old(failures) + FailuresOf(rows[..done], roles, cfg, gc)
        invariant |points| + |failures| == |old(points)| + |old(failures)| + done
      {
        err := ProcessRow(rows[done], roles, cfg, gc);
        if err.Some? {
          return;
        }
        var o := RowSpec(rows[done], roles, cfg, gc);
        assert o.Success?;
        forall k | 0 <= k < done + 1 ensures RowSpec(rows[k], roles, cfg, gc).Success? {
          if k == done {
            assert rows[k] == rows[done];
          }
        }
        RecordsStep(rows, roles, cfg, gc, done);
        Concat3(old(points), PointsOf(rows[..done], roles, cfg, gc), PointPart(o));
        Concat3(old(failures), FailuresOf(rows[..done], roles, cfg, gc), FailurePart(o));
        done := done + 1;
      }
    }
  }

  // ----- properties of a row ------------------------------------------------

  /** In progressive mode a row whose address cannot be assembled is never queried and ends as a failure row. */
  lemma NoAddressFails(row: seq<Cell>, roles: Roles, cfg: Settings, gc: Geocoder)
    requires ReadFields(row, roles).Success?
    requires ParsedField(ReadFields(row, roles).value).None?
    requires !cfg.strict
    ensures RowSpec(row, roles, cfg, gc) ==
      Success(Failed(FailureRecord(row, None, IncorrectAddress, -999, -999)))
  {
  }

  /**
   * In strict mode a street-and-number row, in a village with a shared
   * postal code or in a place with its own, whose name was reordered (a
   * building number was found) passes the leading-number gate.
   */
  lemma ReorderedStreetPassesGate(f: Fields, cfg: Settings, p: int)
    requires f.stNameNum != "" && (f.secondary != "" || f.primary != "")
    requires !FilterHit(f.stNameNum, cfg.filter)
    requires MatchesAt(Prepared(f.stNameNum, StreetOptions(cfg)), p)
    ensures AssembleAddress(f, cfg).Success? && AssembleAddress(f, cfg).value.Some?
    ensures HasLeadingNumber(AssembleAddress(f, cfg).value.value)
  {
    NormalizedStartsWithNumber(f.stNameNum, StreetOptions(cfg), p);
    var n := Normalize(f.stNameNum, StreetOptions(cfg)).name;
    var a := AssembleAddress(f, cfg).value.value;
    if f.secondary != "" {
      assert a == n + ", " + f.secondary + ", " + f.county;
    } else if Lower(f.primary) == Lower(f.county) {
      assert a == n + ", " + f.primary;
    } else {
      assert a == n + ", " + f.primary + ", " + f.county;
    }
    assert a[0] == n[0];
  }
}
