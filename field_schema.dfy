/**
 * Shapefile field-schema inference from a worksheet (tools/xl.py): the
 * default type table `[letter, length, decimals]`, 'auto' sizing, dictionary
 * overrides and their validation, the choice of the sample row and the
 * per-column loop that builds `[name, letter, length, decimals]` entries.
 */
module FieldSchema {
  import opened Text
  import opened Wrappers
  import opened Cells

  /** A key of the type table: the five supported Python types, `None`, or any other key. */
  datatype TypeKey = TStr | TInt | TFloat | TBool | TDateTime | TNone | TUnsupported(name: string)

  /** One element of a properties list, as a Python value. */
  datatype PVal = PStr(s: string) | PInt(i: int) | PBool(b: bool) | PNone | POther(text: string)

  /** A properties list such as `['C', 255, 0]`, or a field entry with its name in front. */
  type Props = seq<PVal>

  /**
   * The `custom_properties` argument: `None`, the string 'auto', a dictionary
   * (its items in order), or any other value with its truthiness.
   */
  datatype Custom =
    | NoneCustom
    | Auto
    | Overrides(entries: seq<(TypeKey, Props)>)
    | OtherCustom(truthy: bool)

  predicate CustomTruthy(c: Custom)
  {
    match c
    case NoneCustom => false
    case Auto => true
    case Overrides(es) => es != []
    case OtherCustom(t) => t
  }

  /**
   * The exceptions: `TypeError`, `ValueError`, `IndexError`, and whatever
   * `dict.update` raises on a value that is not a mapping.
   */
  datatype SchemaError = TypeError | ValueError | IndexError | UpdateFailed

  type Table = map<TypeKey, Props>

  /** The default table, rebuilt on every call. */
  function DefaultTable(): (t: Table)
    ensures t.Keys == {TStr, TInt, TFloat, TBool, TDateTime, TNone}
  {
    map[TStr := [PStr("C"), PInt(255), PInt(0)],
        TInt := [PStr("N"), PInt(9), PInt(0)],
        TFloat := [PStr("N"), PInt(6), PInt(2)],
        TBool := [PStr("L")],
        TDateTime := [PStr("D")],
        TNone := [PStr("C"), PInt(255), PInt(0)]]
  }

  /** `type(value)` when it is one of the five supported types; bool is not int here. */
  function ExactType(v: Cell): (k: Option<TypeKey>)
    ensures k.Some? ==> k.value in DefaultTable() && k.value != TNone
    ensures k.None? <==> v.NoneCell? || v.Other?
  {
    match v
    case Str(_) => Some(TStr)
    case Int(_) => Some(TInt)
    case Float(_) => Some(TFloat)
    case Bool(_) => Some(TBool)
    case DateTime(_) => Some(TDateTime)
    case NoneCell => None
    case Other(_, _) => None
  }

  // ----- 'auto' sizing --------------------------------------------------------

  /**
   * `s.split('.')` of a float's text, read as the lengths of the first two
   * pieces; None when there is no dot (the second piece does not exist).
   */
  function FloatParts(repr: string): (r: Option<(nat, nat)>)
    ensures r.None? <==> '.' !in repr
    ensures r.Some? ==> r.value.0 + 1 + r.value.1 <= |repr| && '.' !in repr[..r.value.0]
                        && repr[r.value.0] == '.' && '.' !in repr[r.value.0 + 1..r.value.0 + 1 + r.value.1]
    ensures r.Some? ==> r.value.0 + 1 + r.value.1 == |repr| || repr[r.value.0 + 1 + r.value.1] == '.'
  {
    var i := Find(repr, '.');
    FindFirst(repr, '.');
    if i < 0 then None
    else
      SecondPiece(repr, i);
      Some((i, PieceLength(repr[i + 1..])))
  }

  /** The length of the text up to its first dot, or of all of it. */
  function PieceLength(s: string): (d: nat)
    ensures d <= |s| && '.' !in s[..d] && (d == |s| || s[d] == '.')
  {
    var j := Find(s, '.');
    FindFirst(s, '.');
    if j < 0 then (assert s[..|s|] == s; |s|) else j
  }

  /** The piece after the dot at `i` runs to the next dot or to the end. */
  lemma SecondPiece(repr: string, i: nat)
    requires i < |repr|
    ensures var d := PieceLength(repr[i + 1..]);
      i + 1 + d <= |repr| && '.' !in repr[i + 1..i + 1 + d]
      && (i + 1 + d == |repr| || repr[i + 1 + d] == '.')
  {
    var rest := repr[i + 1..];
    var d := PieceLength(rest);
    assert repr[i + 1..i + 1 + d] == rest[..d];
    assert d < |rest| ==> repr[i + 1 + d] == rest[d];
  }

  /** Lines 99-111: the table with the value's own entry sized to the value. */
  function AutoTable(v: Cell): Result<Table, SchemaError>
  {
    var t := DefaultTable();
    match v
    case Str(s) => Success(t[TStr := t[TStr][1 := PInt(|s|)]])
    case Int(i) => Success(t[TInt := t[TInt][1 := PInt(|IntToString(i)|)]])
    case Float(repr) =>
      (match FloatParts(repr)
       case None => Failure(IndexError)
       case Some((l, d)) => Success(t[TFloat := t[TFloat][1 := PInt(l + d)][2 := PInt(d)]]))
    case _ => Success(t)
  }

  // ----- overrides ------------------------------------------------------------

  /** `dict.update` with the items in order: each listed key's entry replaced wholesale. */
  function Updated(t: Table, es: seq<(TypeKey, Props)>): (r: Table)
    ensures t.Keys <= r.Keys
  {
    if es == [] then t
    else Updated(t, es[..|es| - 1])[es[|es| - 1].0 := es[|es| - 1].1]
  }

  /** The last entry listed for a key, if any. */
  function LastEntry(es: seq<(TypeKey, Props)>, k: TypeKey): Option<Props>
  {
    if es == [] then None
    else if es[|es| - 1].0 == k then Some(es[|es| - 1].1)
    else LastEntry(es[..|es| - 1], k)
  }

  /** After the update a listed key has its last listed entry, any other key its old entry. */
  lemma {:induction false} UpdatedLookup(t: Table, es: seq<(TypeKey, Props)>, k: TypeKey)
    requires k in t
    ensures k in Updated(t, es)
    ensures Updated(t, es)[k] == match LastEntry(es, k) case Some(p) => p case None => t[k]
  {
    if es != [] {
      UpdatedLookup(t, es[..|es| - 1], k);
    }
  }

  /** The table a call works from, or the error raised while building it. */
  function TableFor(v: Cell, custom: Custom): (r: Result<Table, SchemaError>)
    ensures r.Success? ==> DefaultTable().Keys <= r.value.Keys
  {
    if custom.Auto? then AutoTable(v)
    else if CustomTruthy(custom) then
      (if custom.Overrides? then Success(Updated(DefaultTable(), custom.entries)) else Failure(UpdateFailed))
    else Success(DefaultTable())
  }

  /** Lines 118-125: the entry of the exact type; a falsy other value gets the None entry. */
  function Lookup(t: Table, v: Cell): Result<Props, SchemaError>
    requires DefaultTable().Keys <= t.Keys
  {
    match ExactType(v)
    case Some(k) => Success(t[k])
    case None => if !Truthy(v) then Success(t[TNone]) else Failure(TypeError)
  }

  /** `determine_field_properties` as a function of its arguments. */
  function FieldProperties(v: Cell, custom: Custom): Result<Props, SchemaError>
  {
    match TableFor(v, custom)
    case Failure(e) => Failure(e)
    case Success(t) => Lookup(t, v)
  }

  /** Lines 98-111: with 'auto', the value's own entry of the table is sized to the value. */
  method AutoSize(table: Table, value: Cell) returns (r: Result<Table, SchemaError>)
    requires table == DefaultTable()
    ensures r == AutoTable(value)
  {
    r := Success(table);
    match value {
      case Str(s) =>
        r := Success(table[TStr := table[TStr][1 := PInt(|s|)]]);
      case Int(i) =>
        r := Success(table[TInt := table[TInt][1 := PInt(|IntToString(i)|)]]);
      case Float(repr) =>
        var dot := Find(repr, '.');
        if dot < 0 {
          return Failure(IndexError);
        }
        var rest := repr[dot + 1..];
        var next := Find(rest, '.');
        var decimal := if next < 0 then |rest| else next;
        assert FloatParts(repr) == Some((dot, decimal));
        r := Success(table[TFloat := table[TFloat][1 := PInt(dot + decimal)][2 := PInt(decimal)]]);
      case _ =>
    }
  }

  /**
   * `determine_field_properties`: builds its own table, sizes or overrides
   * entries in place, and returns a copy of the value's entry.
   */
  method DetermineFieldProperties(value: Cell, custom: Custom) returns (r: Result<Props, SchemaError>)
    ensures r == FieldProperties(value, custom)
  {
    var table := DefaultTable();
    if custom.Auto? {
      var sized := AutoSize(table, value);
      if sized.Failure? {
        return Failure(sized.error);
      }
      table := sized.value;
    } else if CustomTruthy(custom) {
      if !custom.Overrides? {
        return Failure(UpdateFailed);
      }
      var es := custom.entries;
      for i := 0 to |es|
        invariant table == Updated(DefaultTable(), es[..i])
      {
        assert es[..i + 1][..i] == es[..i];
        table := table[es[i].0 := es[i].1];
      }
      assert es[..|es|] == es;
    }
    assert TableFor(value, custom) == Success(table);
    assert DefaultTable().Keys <= table.Keys;
    match ExactType(value) {
      case Some(k) =>
        r := Success(table[k]);
      case None =>
        if !Truthy(value) {
          r := Success(table[TNone]);
        } else {
          r := Failure(TypeError);
        }
    }
  }

  // ----- validation -----------------------------------------------------------

  predicate Supported(k: TypeKey)
  {
    !k.TUnsupported?
  }

  /** `p0 in ['C', 'N', 'F', 'L', 'D'] or p0 is None`. */
  predicate IsTypeLetter(p: PVal)
  {
    p == PStr("C") || p == PStr("N") || p == PStr("F") || p == PStr("L") || p == PStr("D") || p == PNone
  }

  /** `isinstance(p, int)`, which bool satisfies too. */
  predicate IsPyInt(p: PVal)
  {
    p.PInt? || p.PBool?
  }

  /** A supported key's entry passes: three items (else the unpacking raises), letter, two ints. */
  predicate EntryValid(p: Props)
  {
    |p| == 3 && IsTypeLetter(p[0]) && IsPyInt(p[1]) && IsPyInt(p[2])
  }

  /** What `_validate_custom_properties` raises, if anything. */
  function ValidationError(custom: Custom): Option<SchemaError>
  {
    match custom
    case Auto => None
    case Overrides(es) =>
      if exists i :: 0 <= i < |es| && Supported(es[i].0) && !EntryValid(es[i].1) then Some(ValueError)
      else None
    case _ => Some(TypeError)
  }

  /**
   * `_validate_custom_properties`: neither 'auto' nor a dictionary raises
   * TypeError; a supported key with an invalid entry raises ValueError as
   * soon as it is met; other keys pass. Iterating 'auto' yields only its
   * characters, none of them a supported key, so 'auto' passes.
   */
  method ValidateCustomProperties(custom: Custom) returns (r: Option<SchemaError>)
    ensures r == ValidationError(custom)
  {
    var valid: seq<bool> := [];
    if !(custom.Auto? || custom.Overrides?) {
      return Some(TypeError);
    }
    if custom.Auto? {
      return None;
    }
    var es := custom.entries;
    for i := 0 to |es|
      invariant forall j :: 0 <= j < |valid| ==> valid[j]
      invariant forall j :: 0 <= j < i ==> !Supported(es[j].0) || EntryValid(es[j].1)
    {
      if Supported(es[i].0) {
        if |es[i].1| != 3 {
          return Some(ValueError);
        }
        valid := valid + [EntryValid(es[i].1)];
        assert valid[|valid| - 1] == EntryValid(es[i].1);
      }
      if !(forall j :: 0 <= j < |valid| ==> valid[j]) {
        return Some(ValueError);
      }
    }
    return None;
  }

  // ----- sample row -----------------------------------------------------------

  /**
   * A worksheet: its rows from row 1 on, and its width (the number of columns
   * openpyxl gives for a row past the last one, all empty).
   */
  datatype Sheet = Sheet(rows: seq<seq<Cell>>, width: nat)

  /** `ws.max_row`: openpyxl reports at least 1. */
  function MaxRow(ws: Sheet): (n: nat)
    ensures n >= 1 && n >= |ws.rows|
  {
    if |ws.rows| == 0 then 1 else |ws.rows|
  }

  /** `ws[i]`: the row's cells, or empty cells past the last row. */
  function SheetRow(ws: Sheet, i: nat): (r: seq<Cell>)
    requires i >= 1
    ensures i <= |ws.rows| ==> r == ws.rows[i - 1]
    ensures i > |ws.rows| ==> |r| == ws.width && forall k :: 0 <= k < |r| ==> r[k] == NoneCell
  {
    if i <= |ws.rows| then ws.rows[i - 1] else seq(ws.width, _ => NoneCell)
  }

  /** Lines 23-32: a truthy row number within 1..max_row, else row 2 with a header and 1 without. */
  function SampleRowNumber(ws: Sheet, hasHeader: bool, rowNumber: int): (r: Result<nat, SchemaError>)
    ensures r.Failure? <==> rowNumber != 0 && !(1 <= rowNumber <= MaxRow(ws))
    ensures r.Failure? ==> r.error == IndexError
    ensures r.Success? ==> r.value >= 1
    ensures r.Success? && rowNumber != 0 ==> r.value == rowNumber
    ensures rowNumber == 0 ==> r == Success(if hasHeader then 2 else 1)
  {
    if rowNumber != 0 then
      if 1 <= rowNumber <= MaxRow(ws) then Success(rowNumber as nat) else Failure(IndexError)
    else if hasHeader then Success(2)
    else Success(1)
  }

  /** `cell.column_letter` of the n-th column: A..Z, then AA, AB, ... */
  function ColumnLetter(n: nat): (r: string)
    requires n >= 1
    ensures |r| >= 1 && forall k :: 0 <= k < |r| ==> 'A' <= r[k] <= 'Z'
    ensures n <= 26 <==> |r| == 1
  {
    if n <= 26 then [('A' as int + n - 1) as char]
    else ColumnLetter((n - 1) / 26) + [('A' as int + (n - 1) % 26) as char]
  }

  /** Lines 34-39: header texts of row 1, or column letters. */
  function ColumnNames(ws: Sheet, hasHeader: bool): (r: seq<string>)
    ensures |r| == |SheetRow(ws, 1)|
    ensures forall k :: 0 <= k < |r| ==>
      r[k] == (if hasHeader then CellText(SheetRow(ws, 1)[k]) else ColumnLetter(k + 1))
  {
    var first := SheetRow(ws, 1);
    if hasHeader then seq(|first|, k requires 0 <= k < |first| => CellText(first[k]))
    else seq(|first|, k requires 0 <= k < |first| => ColumnLetter(k + 1))
  }

  function Min(a: nat, b: nat): nat
  {
    if a <= b then a else b
  }

  /** `get_column_samples_from_worksheet`: names paired with the sample row's values, zip-truncated. */
  function ColumnSamples(ws: Sheet, hasHeader: bool, rowNumber: int): (r: Result<seq<(string, Cell)>, SchemaError>)
    ensures r.Failure? <==> SampleRowNumber(ws, hasHeader, rowNumber).Failure?
    ensures r.Success? ==>
      var names := ColumnNames(ws, hasHeader);
      var values := SheetRow(ws, SampleRowNumber(ws, hasHeader, rowNumber).value);
      |r.value| == Min(|names|, |values|) &&
      forall k :: 0 <= k < |r.value| ==> r.value[k] == (names[k], values[k])
  {
    match SampleRowNumber(ws, hasHeader, rowNumber)
    case Failure(e) => Failure(e)
    case Success(i) =>
      var names := ColumnNames(ws, hasHeader);
      var values := SheetRow(ws, i);
      Success(seq(Min(|names|, |values|), k requires 0 <= k < Min(|names|, |values|) => (names[k], values[k])))
  }

  // ----- the per-column loop --------------------------------------------------

  /** The entries for the samples in order; the first error stops the loop. */
  function FieldsFrom(samples: seq<(string, Cell)>, custom: Custom): Result<seq<Props>, SchemaError>
  {
    if samples == [] then Success([])
    else
      match FieldsFrom(samples[..|samples| - 1], custom)
      case Failure(e) => Failure(e)
      case Success(ps) =>
        var last := samples[|samples| - 1];
        match FieldProperties(last.1, custom)
        case Failure(e) => Failure(e)
        case Success(p) => Success(ps + [[PStr(last.0)] + p])
  }

  /** `get_fields_properties_from_worksheet` as a function of its arguments. */
  function FieldsSpec(ws: Sheet, hasHeader: bool, rowNumber: int, custom: Custom): Result<seq<Props>, SchemaError>
  {
    match ColumnSamples(ws, hasHeader, rowNumber)
    case Failure(e) => Failure(e)
    case Success(samples) =>
      if CustomTruthy(custom) && ValidationError(custom).Some? then Failure(ValidationError(custom).value)
      else FieldsFrom(samples, custom)
  }

  /**
   * `get_fields_properties_from_worksheet`: the samples, validation when
   * `custom` is truthy, then one `[name] + properties` entry per sample.
   */
  method GetFieldsPropertiesFromWorksheet(ws: Sheet, hasHeader: bool, rowNumber: int, custom: Custom)
    returns (r: Result<seq<Props>, SchemaError>)
    ensures r == FieldsSpec(ws, hasHeader, rowNumber, custom)
  {
    var samples := ColumnSamples(ws, hasHeader, rowNumber);
    if samples.Failure? {
      return Failure(samples.error);
    }
    if CustomTruthy(custom) {
      var invalid := ValidateCustomProperties(custom);
      if invalid.Some? {
        return Failure(invalid.value);
      }
    }
    r := FieldsLoop(samples.value, custom);
  }

  /** Lines 156-164: one `[name] + properties` entry per sample; the first error propagates. */
  method FieldsLoop(s: seq<(string, Cell)>, custom: Custom) returns (r: Result<seq<Props>, SchemaError>)
    ensures r == FieldsFrom(s, custom)
  {
    var properties: seq<Props> := [];
    for i := 0 to |s|
      invariant FieldsFrom(s[..i], custom) == Success(properties)
    {
      var fp := DetermineFieldProperties(s[i].1, custom);
      FieldsFromStep(s, custom, i);
      if fp.Failure? {
        FirstErrorStops(s, custom, i + 1);
        return Failure(fp.error);
      }
      properties := properties + [[PStr(s[i].0)] + fp.value];
    }
    assert s[..|s|] == s;
    return Success(properties);
  }

  // ----- properties -----------------------------------------------------------

  /** One more sample: its error stops the loop, or its entry is appended. */
  lemma FieldsFromStep(samples: seq<(string, Cell)>, custom: Custom, i: nat)
    requires i < |samples| && FieldsFrom(samples[..i], custom).Success?
    ensures var fp := FieldProperties(samples[i].1, custom);
      FieldsFrom(samples[..i + 1], custom) ==
        if fp.Failure? then Failure(fp.error)
        else Success(FieldsFrom(samples[..i], custom).value + [[PStr(samples[i].0)] + fp.value])
  {
    assert samples[..i + 1][..i] == samples[..i];
  }

  /** An error in a prefix of the samples is the error of the whole loop. */
  lemma {:induction false} FirstErrorStops(samples: seq<(string, Cell)>, custom: Custom, n: nat)
    requires n <= |samples| && FieldsFrom(samples[..n], custom).Failure?
    ensures FieldsFrom(samples, custom) == FieldsFrom(samples[..n], custom)
    decreases |samples| - n
  {
    if n < |samples| {
      assert samples[..n + 1][..n] == samples[..n];
      FirstErrorStops(samples, custom, n + 1);
    } else {
      assert samples[..n] == samples;
    }
  }

  /** On success there is one entry per sample, in order: its name, then its properties. */
  lemma {:induction false} OneEntryPerColumn(samples: seq<(string, Cell)>, custom: Custom)
    requires FieldsFrom(samples, custom).Success?
    ensures |FieldsFrom(samples, custom).value| == |samples|
    ensures forall k :: 0 <= k < |samples| ==>
      FieldProperties(samples[k].1, custom).Success? &&
      FieldsFrom(samples, custom).value[k] == [PStr(samples[k].0)] + FieldProperties(samples[k].1, custom).value
  {
    if samples != [] {
      var init := samples[..|samples| - 1];
      OneEntryPerColumn(init, custom);
      forall k | 0 <= k < |samples|
        ensures FieldProperties(samples[k].1, custom).Success? &&
          FieldsFrom(samples, custom).value[k] == [PStr(samples[k].0)] + FieldProperties(samples[k].1, custom).value
      {
        if k < |samples| - 1 {
          assert samples[k] == init[k];
        }
      }
    }
  }

  /** The loop succeeds exactly when every sample's value has properties. */
  lemma {:induction false} FieldsSucceedExactly(samples: seq<(string, Cell)>, custom: Custom)
    ensures FieldsFrom(samples, custom).Success? <==>
      forall k :: 0 <= k < |samples| ==> FieldProperties(samples[k].1, custom).Success?
  {
    if samples != [] {
      var init := samples[..|samples| - 1];
      FieldsSucceedExactly(init, custom);
      if forall k :: 0 <= k < |samples| ==> FieldProperties(samples[k].1, custom).Success? {
        forall k | 0 <= k < |init| ensures FieldProperties(init[k].1, custom).Success? {
          assert init[k] == samples[k];
        }
      } else if FieldsFrom(samples, custom).Success? {
        OneEntryPerColumn(samples, custom);
      }
    }
  }

  /** Without custom properties each supported type gets its default entry. */
  lemma DefaultEntries(s: string, i: int, repr: string, b: bool, text: string)
    ensures FieldProperties(Str(s), NoneCustom) == Success([PStr("C"), PInt(255), PInt(0)])
    ensures FieldProperties(Int(i), NoneCustom) == Success([PStr("N"), PInt(9), PInt(0)])
    ensures FieldProperties(Float(repr), NoneCustom) == Success([PStr("N"), PInt(6), PInt(2)])
    ensures FieldProperties(Bool(b), NoneCustom) == Success([PStr("L")])
    ensures FieldProperties(DateTime(text), NoneCustom) == Success([PStr("D")])
  {
  }

  /** Every falsy custom value behaves as no custom value at all. */
  lemma FalsyCustomIsDefault(v: Cell, custom: Custom)
    requires !CustomTruthy(custom)
    ensures FieldProperties(v, custom) == FieldProperties(v, NoneCustom)
  {
  }

  /**
   * A value of no supported type gets the None entry when falsy (the empty
   * string is a str, not such a value) and raises TypeError when truthy.
   */
  lemma UnsupportedValues(v: Cell, custom: Custom)
    requires v.NoneCell? || v.Other?
    requires TableFor(v, custom).Success?
    ensures !Truthy(v) ==> FieldProperties(v, custom) == Success(TableFor(v, custom).value[TNone])
    ensures Truthy(v) ==> FieldProperties(v, custom) == Failure(TypeError)
    ensures FieldProperties(Str(""), NoneCustom) == Success([PStr("C"), PInt(255), PInt(0)])
  {
  }

  /** 'auto' sizes a string by its length and an int by the length of its decimal text. */
  lemma AutoSizes(s: string, i: int)
    ensures FieldProperties(Str(s), Auto) == Success([PStr("C"), PInt(|s|), PInt(0)])
    ensures FieldProperties(Int(i), Auto) == Success([PStr("N"), PInt(|IntToString(i)|), PInt(0)])
  {
    var t := DefaultTable();
    assert t[TStr][1 := PInt(|s|)] == [PStr("C"), PInt(|s|), PInt(0)];
    assert t[TInt][1 := PInt(|IntToString(i)|)] == [PStr("N"), PInt(|IntToString(i)|), PInt(0)];
  }

  /**
   * 'auto' sizes a float from its text: digits before the dot plus digits
   * after it, and the digits after it as decimals; no dot raises IndexError.
   */
  lemma AutoSizesFloat(repr: string)
    ensures '.' !in repr ==> FieldProperties(Float(repr), Auto) == Failure(IndexError)
    ensures '.' in repr ==>
      var (l, d) := FloatParts(repr).value;
      FieldProperties(Float(repr), Auto) == Success([PStr("N"), PInt(l + d), PInt(d)])
  {
    if '.' in repr {
      var (l, d) := FloatParts(repr).value;
      assert DefaultTable()[TFloat][1 := PInt(l + d)][2 := PInt(d)] == [PStr("N"), PInt(l + d), PInt(d)];
    }
  }

  /** An override replaces a listed type's entry wholesale; other types keep their defaults. */
  lemma OverrideReplaces(v: Cell, es: seq<(TypeKey, Props)>)
    requires es != [] && ExactType(v).Some?
    ensures var k := ExactType(v).value;
      FieldProperties(v, Overrides(es)) ==
        Success(match LastEntry(es, k) case Some(p) => p case None => DefaultTable()[k])
  {
    UpdatedLookup(DefaultTable(), es, ExactType(v).value);
  }

  /** 'auto' passes validation, and so does a dictionary with only unsupported keys. */
  lemma UnsupportedKeysPass(es: seq<(TypeKey, Props)>)
    requires forall i :: 0 <= i < |es| ==> !Supported(es[i].0)
    ensures ValidationError(Overrides(es)).None? && ValidationError(Auto).None?
  {
  }

  /** Validation fails exactly when the value is not 'auto' or a dictionary, or an entry is bad. */
  lemma ValidationDecides(custom: Custom)
    ensures ValidationError(custom) == Some(TypeError) <==> custom.NoneCustom? || custom.OtherCustom?
    ensures ValidationError(custom) == Some(ValueError) <==>
      custom.Overrides? &&
      (exists i :: 0 <= i < |custom.entries| && Supported(custom.entries[i].0) && !EntryValid(custom.entries[i].1))
  {
  }

  /** Validation runs only for a truthy custom value: a falsy one never makes the call fail early. */
  lemma FalsyCustomSkipsValidation(ws: Sheet, hasHeader: bool, rowNumber: int, custom: Custom)
    requires !CustomTruthy(custom) && ColumnSamples(ws, hasHeader, rowNumber).Success?
    ensures FieldsSpec(ws, hasHeader, rowNumber, custom) ==
      FieldsFrom(ColumnSamples(ws, hasHeader, rowNumber).value, custom)
  {
  }
}
