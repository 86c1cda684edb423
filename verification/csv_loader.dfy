/**
 * `SwUtilsCSVLoader`: turns CSV sheets into a map from sheet name to a map
 * from row ID to a row (column name to cell), and answers lookups on it.
 *
 * The CSV reading is a plain comma splitter: quoted fields are not recognised,
 * so a comma inside quotes still separates cells. Header and cell texts are
 * trimmed, blank lines are skipped, and a row is kept only when it has some
 * non-blank cell and a non-blank `ID` cell; a later row with the same ID
 * replaces an earlier one.
 */
module CsvLoader {
  import opened Wrappers
  import opened Strings

  /** A row: column name to trimmed cell text. */
  type Row = map<string, string>
  /** A sheet: row ID to row. */
  type Sheet = map<string, Row>

  // ---------------------------------------------------------------------------
  // Decoding the file bytes

  const Utf8Bom: seq<bv8> := [0xEF, 0xBB, 0xBF]

  predicate HasUtf8Bom(bytes: seq<bv8>) {
    |bytes| >= 3 && bytes[0] == 0xEF && bytes[1] == 0xBB && bytes[2] == 0xBF
  }

  /** The text decoders the loader calls into: UTF-8 for a payload after a
      byte-order mark, and the encoding detection used for everything else. */
  datatype Decoders = Decoders(utf8: seq<bv8> -> string, detect: seq<bv8> -> string)

  /** `DetectAndConvertEncoding`: a UTF-8 byte-order mark is cut off and the
      rest decoded as UTF-8; any other input goes to encoding detection. */
  function DetectAndConvertEncoding(bytes: seq<bv8>, decoders: Decoders): string {
    if HasUtf8Bom(bytes) then decoders.utf8(bytes[3..]) else decoders.detect(bytes)
  }

  /** Exactly the three byte-order-mark bytes are removed before decoding. */
  lemma BomIsStripped(payload: seq<bv8>, decoders: Decoders)
    ensures DetectAndConvertEncoding(Utf8Bom + payload, decoders) == decoders.utf8(payload)
  {
    assert (Utf8Bom + payload)[3..] == payload;
  }

  /** Input without the mark reaches encoding detection unchanged. */
  lemma NoBomIsDetected(bytes: seq<bv8>, decoders: Decoders)
    requires |bytes| < 3 || bytes[..3] != Utf8Bom
    ensures DetectAndConvertEncoding(bytes, decoders) == decoders.detect(bytes)
  {
  }

  // ---------------------------------------------------------------------------
  // Lines, as `StringReader.ReadLine` delivers them

  predicate IsLineBreak(c: char) {
    c == '\n' || c == '\r'
  }

  predicate HasNoLineBreak(line: string) {
    forall j :: 0 <= j < |line| ==> !IsLineBreak(line[j])
  }

  /** Index of the first line break, or `|s|` when there is none. */
  function LineEnd(s: string): (i: nat)
    ensures i <= |s|
    ensures i < |s| ==> IsLineBreak(s[i])
    ensures HasNoLineBreak(s[..i])
    decreases |s|
  {
    if s == [] || IsLineBreak(s[0]) then 0
    else
      var i := 1 + LineEnd(s[1..]);
      assert s[..i] == [s[0]] + s[1..][..i - 1];
      i
  }

  /** The successive results of `ReadLine` until it returns null: lines end at
      "\r\n", "\r" or "\n", and a final line break does not start another line. */
  function Lines(text: string): (lines: seq<string>)
    ensures lines == [] <==> text == []
    decreases |text|
  {
    if text == [] then []
    else
      var i := LineEnd(text);
      if i == |text| then
        assert text[..i] == text;
        [text]
      else if text[i] == '\r' && i + 1 < |text| && text[i + 1] == '\n' then [text[..i]] + Lines(text[i + 2..])
      else [text[..i]] + Lines(text[i + 1..])
  }

  /** No line holds a line break. */
  lemma {:induction false} LinesHaveNoBreak(text: string)
    ensures forall k :: 0 <= k < |Lines(text)| ==> HasNoLineBreak(Lines(text)[k])
    decreases |text|
  {
    if text != [] {
      var i := LineEnd(text);
      if i < |text| {
        if text[i] == '\r' && i + 1 < |text| && text[i + 1] == '\n' {
          LinesHaveNoBreak(text[i + 2..]);
        } else {
          LinesHaveNoBreak(text[i + 1..]);
        }
      } else {
        assert text[..i] == text;
      }
    }
  }

  /** Every line written with a "\n" after it. */
  function Terminated(lines: seq<string>): string
    decreases |lines|
  {
    if lines == [] then "" else lines[0] + "\n" + Terminated(lines[1..])
  }

  /** Reading back lines written one per "\n"-terminated line gives them back. */
  lemma {:induction false} LinesOfTerminated(lines: seq<string>)
    requires forall k :: 0 <= k < |lines| ==> HasNoLineBreak(lines[k])
    ensures Lines(Terminated(lines)) == lines
    decreases |lines|
  {
    if lines != [] {
      var rest := Terminated(lines[1..]);
      var text := lines[0] + "\n" + rest;
      assert Terminated(lines) == text;
      LineEndAt(lines[0], "\n" + rest);
      var i := |lines[0]|;
      assert text[..i] == lines[0];
      assert text[i] == '\n';
      assert text[i + 1..] == rest;
      LinesAtNewline(text, i);
      LinesOfTerminated(lines[1..]);
      assert lines == [lines[0]] + lines[1..];
    }
  }

  lemma LinesAtNewline(text: string, i: nat)
    requires i < |text| && LineEnd(text) == i && text[i] == '\n'
    ensures Lines(text) == [text[..i]] + Lines(text[i + 1..])
  {
  }

  lemma {:induction false} LineEndAt(line: string, tail: string)
    requires HasNoLineBreak(line) && tail != [] && IsLineBreak(tail[0])
    ensures LineEnd(line + tail) == |line|
    decreases |line|
  {
    if line != [] {
      var s := line + tail;
      assert s[0] == line[0] && !IsLineBreak(s[0]);
      assert s[1..] == line[1..] + tail;
      assert HasNoLineBreak(line[1..]) by {
        forall j | 0 <= j < |line| - 1 ensures !IsLineBreak(line[1..][j]) {
          assert line[1..][j] == line[j + 1];
        }
      }
      LineEndAt(line[1..], tail);
    }
  }

  // ---------------------------------------------------------------------------
  // The parse, as specification functions

  /** The header line cut at commas, each name trimmed. */
  function TrimmedHeaders(headerLine: string): seq<string> {
    var parts := Split(headerLine, ',');
    seq(|parts|, i requires 0 <= i < |parts| => Trim(parts[i]))
  }

  function Min(a: int, b: int): int {
    if a < b then a else b
  }

  /** The row after storing the first `n` cells: `rowData[headers[i]] = Trim(values[i])`. */
  function RowFrom(headers: seq<string>, values: seq<string>, n: nat): Row
    requires n <= |headers| && n <= |values|
  {
    if n == 0 then map[] else RowFrom(headers, values, n - 1)[headers[n - 1] := Trim(values[n - 1])]
  }

  /** Some of the first `n` trimmed cells is not blank. */
  predicate HasData(values: seq<string>, n: nat)
    requires n <= |values|
  {
    exists j :: 0 <= j < n && !IsBlank(Trim(values[j]))
  }

  /** The row a data line contributes, if any: blank lines contribute nothing,
      and a row needs a non-blank cell and a non-blank `ID` cell. */
  function ParseRow(headers: seq<string>, line: string): (row: Option<Row>)
    ensures row.Some? ==> "ID" in row.value && !IsBlank(row.value["ID"])
    ensures IsBlank(line) ==> row.None?
  {
    if IsBlank(line) then None
    else
      var values := Split(line, ',');
      var n := Min(|values|, |headers|);
      var rowData := RowFrom(headers, values, n);
      if HasData(values, n) && "ID" in rowData && !IsBlank(rowData["ID"]) then Some(rowData) else None
  }

  /** The sheet built from the data lines: each row stored under its ID, a
      later row replacing an earlier one with the same ID. */
  function SheetFrom(headers: seq<string>, lines: seq<string>): Sheet
    decreases |lines|
  {
    if lines == [] then map[]
    else
      var sheet := SheetFrom(headers, lines[..|lines| - 1]);
      match ParseRow(headers, lines[|lines| - 1])
      case Some(row) => sheet[row["ID"] := row]
      case None => sheet
  }

  /** The sheet a decoded text yields: none when there is no header line. */
  function ParseSheet(csvText: string): Option<Sheet> {
    var lines := Lines(csvText);
    if lines == [] then None else Some(SheetFrom(TrimmedHeaders(lines[0]), lines[1..]))
  }

  /** Every row is stored under its own `ID` cell. */
  predicate KeyedById(sheet: Sheet) {
    forall id :: id in sheet ==> "ID" in sheet[id] && sheet[id]["ID"] == id
  }

  /** The IDs of the data lines that yield a row. */
  function ValidIds(headers: seq<string>, lines: seq<string>): set<string> {
    set k | 0 <= k < |lines| && ParseRow(headers, lines[k]).Some? :: ParseRow(headers, lines[k]).value["ID"]
  }

  // ---------------------------------------------------------------------------
  // Properties of the parse

  /** No sheet comes out of a text exactly when the text is empty, since only
      then does the first `ReadLine` return null. */
  lemma NoHeaderNoSheet(csvText: string)
    ensures ParseSheet(csvText).None? <==> csvText == []
  {
  }

  /** The row's columns are the trimmed headers of the first `n` columns and
      nothing else: cells beyond the header count are dropped, and headers
      beyond the cell count are absent. */
  lemma {:induction false} RowKeys(headers: seq<string>, values: seq<string>, n: nat)
    requires n <= |headers| && n <= |values|
    ensures RowFrom(headers, values, n).Keys == set i | 0 <= i < n :: headers[i]
    decreases n
  {
    if n > 0 {
      RowKeys(headers, values, n - 1);
      assert (set i | 0 <= i < n :: headers[i]) == (set i | 0 <= i < n - 1 :: headers[i]) + {headers[n - 1]};
    }
  }

  /** Column `i` holds its own trimmed cell unless a later column among the
      first `n` has the same header, whose cell then wins. */
  lemma {:induction false} RowCell(headers: seq<string>, values: seq<string>, n: nat, i: nat)
    requires n <= |headers| && n <= |values| && i < n
    requires forall j :: i < j < n ==> headers[j] != headers[i]
    ensures headers[i] in RowFrom(headers, values, n)
    ensures RowFrom(headers, values, n)[headers[i]] == Trim(values[i])
    decreases n
  {
    if i < n - 1 {
      RowCell(headers, values, n - 1, i);
    }
  }

  /** With distinct header names, column `i` maps to its own trimmed cell. */
  lemma DistinctHeadersRow(headers: seq<string>, values: seq<string>, i: nat)
    requires i < |headers| && i < |values|
    requires forall a, b :: 0 <= a < b < |headers| ==> headers[a] != headers[b]
    ensures var row := RowFrom(headers, values, Min(|headers|, |values|));
      headers[i] in row && row[headers[i]] == Trim(values[i])
  {
    RowCell(headers, values, Min(|headers|, |values|), i);
  }

  /** Every cell of the row is the trimmed text of one of the first `n` cells. */
  lemma {:induction false} RowValuesAreCells(headers: seq<string>, values: seq<string>, n: nat, key: string)
    requires n <= |headers| && n <= |values|
    requires key in RowFrom(headers, values, n)
    ensures exists j :: 0 <= j < n && RowFrom(headers, values, n)[key] == Trim(values[j])
    decreases n
  {
    if key == headers[n - 1] {
      assert RowFrom(headers, values, n)[key] == Trim(values[n - 1]);
    } else {
      RowValuesAreCells(headers, values, n - 1, key);
      var j :| 0 <= j < n - 1 && RowFrom(headers, values, n - 1)[key] == Trim(values[j]);
      assert RowFrom(headers, values, n)[key] == Trim(values[j]);
    }
  }

  /** The "some cell has data" test is implied by the ID test: a line yields a
      row exactly when it is not blank and its `ID` cell is present and not blank. */
  lemma RowNeedsOnlyId(headers: seq<string>, line: string)
    ensures var values := Split(line, ',');
      var rowData := RowFrom(headers, values, Min(|values|, |headers|));
      ParseRow(headers, line).Some? <==> !IsBlank(line) && "ID" in rowData && !IsBlank(rowData["ID"])
  {
    var values := Split(line, ',');
    var n := Min(|values|, |headers|);
    var rowData := RowFrom(headers, values, n);
    if !IsBlank(line) && "ID" in rowData && !IsBlank(rowData["ID"]) {
      RowValuesAreCells(headers, values, n, "ID");
    }
  }

  /** Every stored key is the ID of the row stored under it. */
  lemma {:induction false} SheetKeyedById(headers: seq<string>, lines: seq<string>)
    ensures KeyedById(SheetFrom(headers, lines))
    decreases |lines|
  {
    if lines != [] {
      SheetKeyedById(headers, lines[..|lines| - 1]);
    }
  }

  lemma ValidIdsSnoc(headers: seq<string>, lines: seq<string>, line: string)
    ensures ValidIds(headers, lines + [line])
         == ValidIds(headers, lines) + (if ParseRow(headers, line).Some? then {ParseRow(headers, line).value["ID"]} else {})
  {
    var all := lines + [line];
    forall id | id in ValidIds(headers, all) ensures id in ValidIds(headers, lines) || (ParseRow(headers, line).Some? && ParseRow(headers, line).value["ID"] == id) {
      var k :| 0 <= k < |all| && ParseRow(headers, all[k]).Some? && ParseRow(headers, all[k]).value["ID"] == id;
      if k < |lines| { assert all[k] == lines[k]; }
    }
    forall id | id in ValidIds(headers, lines) ensures id in ValidIds(headers, all) {
      var k :| 0 <= k < |lines| && ParseRow(headers, lines[k]).Some? && ParseRow(headers, lines[k]).value["ID"] == id;
      assert all[k] == lines[k];
    }
    if ParseRow(headers, line).Some? {
      assert all[|lines|] == line;
    }
  }

  /** The sheet's keys are exactly the IDs of the rows read. */
  lemma {:induction false} SheetKeysAreValidIds(headers: seq<string>, lines: seq<string>)
    ensures SheetFrom(headers, lines).Keys == ValidIds(headers, lines)
    decreases |lines|
  {
    if lines != [] {
      var init := lines[..|lines| - 1];
      var last := lines[|lines| - 1];
      SheetKeysAreValidIds(headers, init);
      ValidIdsSnoc(headers, init, last);
      assert init + [last] == lines;
    }
  }

  /** The sheet holds one row per distinct valid ID. */
  lemma SheetSize(headers: seq<string>, lines: seq<string>)
    ensures |SheetFrom(headers, lines)| == |ValidIds(headers, lines)|
  {
    SheetKeysAreValidIds(headers, lines);
    assert |SheetFrom(headers, lines)| == |SheetFrom(headers, lines).Keys|;
  }

  /** A row whose ID no later line repeats is the one stored under that ID. */
  lemma {:induction false} LastRowWins(headers: seq<string>, lines: seq<string>, j: nat)
    requires j < |lines| && ParseRow(headers, lines[j]).Some?
    requires forall k :: j < k < |lines| && ParseRow(headers, lines[k]).Some? ==>
               ParseRow(headers, lines[k]).value["ID"] != ParseRow(headers, lines[j]).value["ID"]
    ensures var row := ParseRow(headers, lines[j]).value;
      row["ID"] in SheetFrom(headers, lines) && SheetFrom(headers, lines)[row["ID"]] == row
    decreases |lines|
  {
    if j < |lines| - 1 {
      var init := lines[..|lines| - 1];
      assert init[j] == lines[j];
      forall k | j < k < |init| && ParseRow(headers, init[k]).Some?
        ensures ParseRow(headers, init[k]).value["ID"] != ParseRow(headers, init[j]).value["ID"]
      {
        assert init[k] == lines[k];
      }
      LastRowWins(headers, init, j);
    }
  }

  /** Blank lines may be dropped anywhere without changing the sheet. */
  lemma {:induction false} BlankLinesIgnored(headers: seq<string>, before: seq<string>, blank: string, after: seq<string>)
    requires IsBlank(blank)
    ensures SheetFrom(headers, before + [blank] + after) == SheetFrom(headers, before + after)
    decreases |after|
  {
    if after == [] {
      var all := before + [blank] + after;
      assert all == before + [blank];
      assert all[..|all| - 1] == before && all[|all| - 1] == blank;
      assert ParseRow(headers, blank).None?;
      assert before + after == before;
    } else {
      var init := after[..|after| - 1];
      BlankLinesIgnored(headers, before, blank, init);
      assert (before + [blank] + after)[..|before + [blank] + after| - 1] == before + [blank] + init;
      assert (before + after)[..|before + after| - 1] == before + init;
    }
  }

  // ---------------------------------------------------------------------------
  // The loader object

  datatype SheetMapping = SheetMapping(sheetName: string, csvFile: Option<seq<bv8>>)

  /** The table after one call of `LoadCSVDataFromTextAsset`: the parsed sheet
      is stored under its name; a text without header line stores nothing. */
  function StoreSheet(data: map<string, Sheet>, sheetName: string, csvFile: seq<bv8>, decoders: Decoders): map<string, Sheet> {
    match ParseSheet(DetectAndConvertEncoding(csvFile, decoders))
    case Some(sheet) => data[sheetName := sheet]
    case None => data
  }

  /** The table `InitializeAllSheetData` builds from an empty one: each mapping
      with a file assigned, in order; a mapping without a file is skipped. */
  function LoadAll(mappings: seq<SheetMapping>, decoders: Decoders): map<string, Sheet>
    decreases |mappings|
  {
    if mappings == [] then map[]
    else
      var data := LoadAll(mappings[..|mappings| - 1], decoders);
      var m := mappings[|mappings| - 1];
      if m.csvFile.Some? then StoreSheet(data, m.sheetName, m.csvFile.value, decoders) else data
  }

  /** A mapping that yields a sheet under a name. */
  predicate Yields(m: SheetMapping, sheetName: string, decoders: Decoders) {
    m.sheetName == sheetName && m.csvFile.Some?
    && DetectAndConvertEncoding(m.csvFile.value, decoders) != []
  }

  /** After loading, a name has a sheet exactly when some mapping of that name
      has a file whose decoded text is not empty. */
  lemma {:induction false} LoadAllHasSheet(mappings: seq<SheetMapping>, decoders: Decoders, sheetName: string)
    ensures sheetName in LoadAll(mappings, decoders) <==> exists k :: 0 <= k < |mappings| && Yields(mappings[k], sheetName, decoders)
    decreases |mappings|
  {
    if mappings != [] {
      var init := mappings[..|mappings| - 1];
      LoadAllHasSheet(init, decoders, sheetName);
      var last := mappings[|mappings| - 1];
      if last.csvFile.Some? {
        NoHeaderNoSheet(DetectAndConvertEncoding(last.csvFile.value, decoders));
      }
      if exists k :: 0 <= k < |mappings| && Yields(mappings[k], sheetName, decoders) {
        var k :| 0 <= k < |mappings| && Yields(mappings[k], sheetName, decoders);
        if k < |mappings| - 1 { assert mappings[k] == init[k]; }
      }
      if exists k :: 0 <= k < |init| && Yields(init[k], sheetName, decoders) {
        var k :| 0 <= k < |init| && Yields(init[k], sheetName, decoders);
        assert mappings[k] == init[k];
      }
    }
  }

  /** Every loaded sheet stores each row under its own ID. */
  lemma {:induction false} LoadAllKeyedById(mappings: seq<SheetMapping>, decoders: Decoders)
    ensures forall name :: name in LoadAll(mappings, decoders) ==> KeyedById(LoadAll(mappings, decoders)[name])
    decreases |mappings|
  {
    if mappings != [] {
      LoadAllKeyedById(mappings[..|mappings| - 1], decoders);
      var m := mappings[|mappings| - 1];
      if m.csvFile.Some? {
        var lines := Lines(DetectAndConvertEncoding(m.csvFile.value, decoders));
        if lines != [] {
          SheetKeyedById(TrimmedHeaders(lines[0]), lines[1..]);
        }
      }
    }
  }

  /** `TryGetValue("ID", out rowId) && rowId == id`. */
  predicate RowHasId(row: Row, id: string) {
    "ID" in row && row["ID"] == id
  }

  class SwUtilsCSVLoader {
    var sheetMappings: seq<SheetMapping>
    var excelSheetData: map<string, Sheet>

    /** Every stored sheet keeps each row under its own ID. */
    ghost predicate Valid()
      reads this
    {
      forall name :: name in excelSheetData ==> KeyedById(excelSheetData[name])
    }

    constructor (mappings: seq<SheetMapping>)
      ensures sheetMappings == mappings && excelSheetData == map[]
      ensures Valid()
    {
      sheetMappings := mappings;
      excelSheetData := map[];
    }

    /** `InitializeAllSheetData`: clears the table, then loads every mapping
        that has a file (a missing file is only logged). */
    method InitializeAllSheetData(decoders: Decoders)
      modifies this
      ensures sheetMappings == old(sheetMappings)
      ensures excelSheetData == LoadAll(sheetMappings, decoders)
      ensures Valid()
    {
      excelSheetData := map[];
      for k := 0 to |sheetMappings|
        invariant sheetMappings == old(sheetMappings)
        invariant excelSheetData == LoadAll(sheetMappings[..k], decoders)
      {
        var mapping := sheetMappings[k];
        assert sheetMappings[..k + 1][..k] == sheetMappings[..k];
        if mapping.csvFile.Some? {
          LoadCSVDataFromTextAsset(mapping.sheetName, mapping.csvFile.value, decoders);
        }
      }
      assert sheetMappings[..|sheetMappings|] == sheetMappings;
      LoadAllKeyedById(sheetMappings, decoders);
    }

    /** `LoadCSVDataFromTextAsset`: decodes the file, parses it and stores the
        sheet under its name; a text without header line stores nothing. */
    method LoadCSVDataFromTextAsset(sheetName: string, csvFile: seq<bv8>, decoders: Decoders)
      modifies this
      ensures sheetMappings == old(sheetMappings)
      ensures excelSheetData == StoreSheet(old(excelSheetData), sheetName, csvFile, decoders)
      ensures old(Valid()) ==> Valid()
    {
      var csvText := DetectAndConvertEncoding(csvFile, decoders);
      var sheetData := ParseCsvText(csvText);
      if sheetData.Some? {
        ghost var lines := Lines(csvText);
        SheetKeyedById(TrimmedHeaders(lines[0]), lines[1..]);
        excelSheetData := excelSheetData[sheetName := sheetData.value];
      }
    }

    /** `GetDataSheet`: the sheet stored under the name, or null. */
    function GetDataSheet(sheetName: string): (sheet: Option<Sheet>)
      reads this
      ensures sheet.Some? <==> sheetName in excelSheetData
      ensures Valid() && sheet.Some? ==> KeyedById(sheet.value)
    {
      if sheetName in excelSheetData then Some(excelSheetData[sheetName]) else None
    }

    /** `GetDataById`: searches the sheet for a row whose `ID` cell equals `id`.
        Since every row is stored under its own ID, the row found is the one
        stored under the key `id`. */
    method GetDataById(sheetName: string, id: string) returns (row: Option<Row>)
      ensures row.Some? <==> (sheetName in excelSheetData &&
        exists k :: k in excelSheetData[sheetName] && RowHasId(excelSheetData[sheetName][k], id))
      ensures row.Some? ==> RowHasId(row.value, id) && row.value in excelSheetData[sheetName].Values
      ensures Valid() ==> row == (if sheetName in excelSheetData && id in excelSheetData[sheetName]
                                  then Some(excelSheetData[sheetName][id]) else None)
    {
      if sheetName !in excelSheetData {
        return None;
      }
      var sheet := excelSheetData[sheetName];
      var keys := sheet.Keys;
      while keys != {}
        invariant keys <= sheet.Keys
        invariant forall k :: k in sheet && k !in keys ==> !RowHasId(sheet[k], id)
        decreases keys
      {
        var k :| k in keys;
        if RowHasId(sheet[k], id) {
          return Some(sheet[k]);
        }
        keys := keys - {k};
      }
      return None;
    }

    /** `GetValueById`: the cell of the column in the row found by
        `GetDataById`, or null when the row or the column is missing. */
    method GetValueById(sheetName: string, id: string, columnKey: string) returns (value: Option<string>)
      ensures value.Some? ==> (sheetName in excelSheetData &&
        exists k :: k in excelSheetData[sheetName] && RowHasId(excelSheetData[sheetName][k], id)
                    && columnKey in excelSheetData[sheetName][k] && excelSheetData[sheetName][k][columnKey] == value.value)
      ensures Valid() ==> value == (if sheetName in excelSheetData && id in excelSheetData[sheetName]
                                       && columnKey in excelSheetData[sheetName][id]
                                    then Some(excelSheetData[sheetName][id][columnKey]) else None)
    {
      var rowData := GetDataById(sheetName, id);
      if rowData.Some? && columnKey in rowData.value {
        return Some(rowData.value[columnKey]);
      }
      return None;
    }
  }

  // ---------------------------------------------------------------------------
  // The parse, as the loader runs it

  /** The header loop of `LoadCSVDataFromTextAsset`: the header line is split
      on commas into an array whose names are then trimmed in place. */
  method ReadHeaders(headerLine: string) returns (headers: array<string>)
    ensures fresh(headers)
    ensures headers[..] == TrimmedHeaders(headerLine)
  {
    var parts := Split(headerLine, ',');
    headers := new string[|parts|](i requires 0 <= i < |parts| => parts[i]);
    for i := 0 to headers.Length
      invariant forall j :: 0 <= j < i ==> headers[j] == Trim(parts[j])
      invariant forall j :: i <= j < headers.Length ==> headers[j] == parts[j]
    {
      headers[i] := Trim(headers[i]);
    }
  }

  /** The cell loop of `LoadCSVDataFromTextAsset`: stores each trimmed cell
      under its header, as far as both the cells and the headers go, and
      notes whether some trimmed cell is not blank. */
  method BuildRow(headers: seq<string>, values: seq<string>) returns (rowData: Row, hasValidData: bool)
    ensures rowData == RowFrom(headers, values, Min(|values|, |headers|))
    ensures hasValidData <==> HasData(values, Min(|values|, |headers|))
  {
    rowData := map[];
    hasValidData := false;
    var i := 0;
    while i < |values| && i < |headers|
      invariant 0 <= i <= Min(|values|, |headers|)
      invariant rowData == RowFrom(headers, values, i)
      invariant hasValidData <==> HasData(values, i)
    {
      var value := Trim(values[i]);
      rowData := rowData[headers[i] := value];
      if !IsBlank(value) {
        hasValidData := true;
      }
      i := i + 1;
    }
  }

  /** One more data line read. */
  lemma SheetFromStep(headers: seq<string>, lines: seq<string>, n: nat)
    requires 1 <= n < |lines|
    ensures SheetFrom(headers, lines[1..n + 1])
         == match ParseRow(headers, lines[n])
            case Some(row) => SheetFrom(headers, lines[1..n])[row["ID"] := row]
            case None => SheetFrom(headers, lines[1..n])
  {
    assert lines[1..n + 1][..n - 1] == lines[1..n];
    assert lines[1..n + 1][n - 1] == lines[n];
  }

  /** The body of `LoadCSVDataFromTextAsset` between decoding and storing:
      read the header line, then read the data lines one by one, storing
      each row that has data and a non-blank `ID` under that ID. */
  method ParseCsvText(csvText: string) returns (sheetData: Option<Sheet>)
    ensures sheetData == ParseSheet(csvText)
  {
    var lines := Lines(csvText);
    if |lines| == 0 {
      return None;
    }
    var headerArray := ReadHeaders(lines[0]);
    var headers := headerArray[..];
    var sheet: Sheet := map[];
    var n := 1;
    while n < |lines|
      invariant 1 <= n <= |lines|
      invariant sheet == SheetFrom(headers, lines[1..n])
    {
      var line := lines[n];
      SheetFromStep(headers, lines, n);
      if !IsBlank(line) {
        var values := Split(line, ',');
        var rowData, hasValidData := BuildRow(headers, values);
        if hasValidData && "ID" in rowData && !IsBlank(rowData["ID"]) {
          sheet := sheet[rowData["ID"] := rowData];
        }
      }
      n := n + 1;
    }
    assert lines[1..n] == lines[1..];
    return Some(sheet);
  }
}
