/**
 * tools/shp_template_from_xls.py repeats the four schema functions of
 * tools/xl.py line for line (only messages and documentation are translated,
 * and the worksheet function is spelled `..._workseet`). Each is modelled
 * here by the one shared definition in FieldSchema.
 */
module ShpTemplate {
  import opened Wrappers
  import opened Cells
  import opened FieldSchema

  /** `get_column_samples_from_worksheet`: row choice, names and zip truncation. */
  function GetColumnSamplesFromWorksheet(ws: Sheet, hasHeader: bool, rowNumber: int)
    : (r: Result<seq<(string, Cell)>, SchemaError>)
    ensures r.Failure? <==> rowNumber != 0 && !(1 <= rowNumber <= MaxRow(ws))
    ensures r.Success? ==> |r.value| == Min(|ColumnNames(ws, hasHeader)|,
                                            |SheetRow(ws, SampleRowNumber(ws, hasHeader, rowNumber).value)|)
    ensures r == ColumnSamples(ws, hasHeader, rowNumber)
  {
    ColumnSamples(ws, hasHeader, rowNumber)
  }

  /** `_validate_custom_properties`, the same checks as in tools/xl.py. */
  method ValidateCustomProperties(custom: Custom) returns (r: Option<SchemaError>)
    ensures r.Some? <==> !custom.Auto? && !(custom.Overrides? && ValidationError(custom).None?)
    ensures r == ValidationError(custom)
  {
    r := FieldSchema.ValidateCustomProperties(custom);
  }

  /** `determine_field_properties`, the same table, sizing and overrides as in tools/xl.py. */
  method DetermineFieldProperties(value: Cell, custom: Custom) returns (r: Result<Props, SchemaError>)
    ensures r == FieldProperties(value, custom)
    ensures !CustomTruthy(custom) && value.Str? ==> r == Success([PStr("C"), PInt(255), PInt(0)])
  {
    r := FieldSchema.DetermineFieldProperties(value, custom);
  }

  /** `get_fields_properties_from_workseet` (name spelled as in the script). */
  method GetFieldsPropertiesFromWorkseet(ws: Sheet, hasHeader: bool, rowNumber: int, custom: Custom)
    returns (r: Result<seq<Props>, SchemaError>)
    ensures r == FieldsSpec(ws, hasHeader, rowNumber, custom)
    ensures r.Success? ==> |r.value| == |ColumnSamples(ws, hasHeader, rowNumber).value|
  {
    r := GetFieldsPropertiesFromWorksheet(ws, hasHeader, rowNumber, custom);
    if r.Success? {
      var samples := ColumnSamples(ws, hasHeader, rowNumber).value;
      OneEntryPerColumn(samples, custom);
    }
  }
}
