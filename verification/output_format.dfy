/**
 How `save_outputs_to_file` decides what to write, from the file name's
 suffix and the shape of the data. Creating the directory and writing the
 bytes are not modelled.
 */
module OutputFormat {
  import opened Wrappers
  import opened Text

  const JsonSuffix: string := ".json"
  const TextSuffix: string := ".txt"
  const CsvSuffix: string := ".csv"

  /** JSON document, `str(data)` as plain text, or a table with one row per item. */
  datatype Format = Json | PlainText | Table

  /** The format the data is written in, or `None` when nothing is written.
      `nonEmptyList` says whether the data is a list with at least one item. */
  function SelectFormat(filename: string, nonEmptyList: bool): (r: Option<Format>)
    ensures r == Some(Table) ==> EndsWith(filename, CsvSuffix) && nonEmptyList
    ensures r == None <==>
              !EndsWith(filename, JsonSuffix) && !EndsWith(filename, TextSuffix)
              && !EndsWith(filename, CsvSuffix)
  {
    if EndsWith(filename, JsonSuffix) then Some(Json)
    else if EndsWith(filename, TextSuffix) then Some(PlainText)
    else if EndsWith(filename, CsvSuffix) then
      if nonEmptyList then Some(Table) else Some(PlainText)
    else None
  }

  /** The three suffixes exclude each other, so the order of the checks never
      matters: each suffix alone decides the format. */
  lemma SelectFormatBySuffix(filename: string, nonEmptyList: bool)
    ensures EndsWith(filename, JsonSuffix) ==> SelectFormat(filename, nonEmptyList) == Some(Json)
    ensures EndsWith(filename, TextSuffix) ==> SelectFormat(filename, nonEmptyList) == Some(PlainText)
    ensures EndsWith(filename, CsvSuffix) ==>
              SelectFormat(filename, nonEmptyList) == if nonEmptyList then Some(Table) else Some(PlainText)
  {
    SuffixesExclusive(filename, JsonSuffix, TextSuffix);
    SuffixesExclusive(filename, JsonSuffix, CsvSuffix);
    SuffixesExclusive(filename, TextSuffix, CsvSuffix);
  }

  /** A name built by appending a known suffix selects that suffix's format. */
  lemma SelectFormatForAppendedSuffix(stem: string, nonEmptyList: bool)
    ensures SelectFormat(stem + JsonSuffix, nonEmptyList) == Some(Json)
    ensures SelectFormat(stem + TextSuffix, nonEmptyList) == Some(PlainText)
    ensures SelectFormat(stem + CsvSuffix, nonEmptyList)
            == if nonEmptyList then Some(Table) else Some(PlainText)
  {
    EndsWithAppended(stem, JsonSuffix);
    EndsWithAppended(stem, TextSuffix);
    EndsWithAppended(stem, CsvSuffix);
    SelectFormatBySuffix(stem + JsonSuffix, nonEmptyList);
    SelectFormatBySuffix(stem + TextSuffix, nonEmptyList);
    SelectFormatBySuffix(stem + CsvSuffix, nonEmptyList);
  }
}
