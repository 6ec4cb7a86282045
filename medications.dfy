/**
 * The medications column of a medical record: a text value that is either a
 * JSON array (the current format) or legacy lines of the form
 * name|dosage|instructions|duration, one medication per line.
 * JSON.parse and JSON.stringify are parameters of the operations.
 */
module Medications {
  import opened Wrappers
  import opened Strings
  import opened Json

  datatype Medication = Medication(name: string, dosage: string, instructions: string, duration: string)

  /** A medication as the object the page works with. */
  function MedicationValue(m: Medication): (v: Value)
    ensures v.Obj? && v.fields.Keys == {"name", "dosage", "instructions", "duration"}
    ensures v.fields["name"] == Str(m.name) && v.fields["dosage"] == Str(m.dosage)
    ensures v.fields["instructions"] == Str(m.instructions) && v.fields["duration"] == Str(m.duration)
  {
    Obj(map["name" := Str(m.name), "dosage" := Str(m.dosage),
            "instructions" := Str(m.instructions), "duration" := Str(m.duration)])
  }

  /** A fresh row of the medications editor. */
  function CreateEmptyMedication(): (m: Medication)
    ensures m.name == "" && m.dosage == "" && m.instructions == "" && m.duration == ""
    ensures MedicationValue(m).fields.Values == {Str("")}
  {
    Medication("", "", "", "")
  }

  /** row.trim() === '': the line holds nothing but white space. */
  predicate Blank(row: string) {
    AllSpace(row, IsJsSpace)
  }

  lemma BlankIffTrimEmpty(row: string)
    ensures Blank(row) <==> JsTrim(row) == ""
  {
    TrimEmptyIffAllSpace(row, IsJsSpace);
  }

  /** The non-blank lines, in their original order. */
  function NonBlank(rows: seq<string>): (r: seq<string>)
    ensures |r| <= |rows|
    ensures forall i :: 0 <= i < |r| ==> !Blank(r[i])
  {
    if rows == [] then []
    else (if !Blank(rows[0]) then [rows[0]] else []) + NonBlank(rows[1..])
  }

  /** The i-th trimmed part, or '' when the line has fewer parts (parts[i] || ''). */
  function Field(parts: seq<string>, i: nat): (r: string)
    ensures JsTrim(r) == r
  {
    if i < |parts| then
      TrimIdempotent(parts[i], IsJsSpace);
      JsTrim(parts[i])
    else ""
  }

  /** One legacy line: its first four '|'-separated parts, trimmed. Every
      field comes out trimmed, and a line without '|' is a name alone. */
  function ParseRow(row: string): (m: Medication)
    ensures JsTrim(m.name) == m.name && JsTrim(m.dosage) == m.dosage
    ensures JsTrim(m.instructions) == m.instructions && JsTrim(m.duration) == m.duration
    ensures '|' !in row ==> m == Medication(JsTrim(row), "", "", "")
  {
    var parts := Split(row, '|');
    var m := Medication(Field(parts, 0), Field(parts, 1), Field(parts, 2), Field(parts, 3));
    LoneName(row, parts, m);
    m
  }

  lemma LoneName(row: string, parts: seq<string>, m: Medication)
    requires parts == Split(row, '|')
    requires m == Medication(Field(parts, 0), Field(parts, 1), Field(parts, 2), Field(parts, 3))
    ensures '|' !in row ==> m == Medication(JsTrim(row), "", "", "")
  {
    if '|' !in row {
      SplitNoSep(row, '|');
      OneField(row, parts);
    }
  }

  lemma OneField(row: string, parts: seq<string>)
    requires parts == [row]
    ensures Field(parts, 0) == JsTrim(row) && Field(parts, 1) == "" && Field(parts, 2) == "" && Field(parts, 3) == ""
  {
    assert |parts| == 1 && parts[0] == row;
  }

  /** The legacy format: one medication per non-blank line. */
  function ParseLegacy(s: string): (r: seq<Value>)
    ensures |r| == |NonBlank(Split(s, '\n'))|
  {
    var rows := NonBlank(Split(s, '\n'));
    seq(|rows|, i requires 0 <= i < |rows| => MedicationValue(ParseRow(rows[i])))
  }

  /** parseMedicationsFromString: a missing or blank text is the empty list; a
      text that parses as a JSON array is that array; anything else, including
      JSON that is not an array and text JSON.parse rejects, is read in the
      legacy format. */
  function ParseMedications(s: Option<string>, parse: string -> Result<Value, string>): (r: seq<Value>)
    ensures s.None? ==> r == []
    ensures s.Some? && JsTrim(s.value) == "" ==> r == []
    ensures s.Some? && JsTrim(s.value) != "" && parse(s.value).Ok? && parse(s.value).value.Arr? ==>
      r == parse(s.value).value.items
  {
    match s
    case None => []
    case Some(t) =>
      if JsTrim(t) == "" then []
      else
        match parse(t)
        case Ok(Arr(items)) => items
        case _ => ParseLegacy(t)
  }

  /** stringifyMedications: the empty or missing list is stored as ''; any
      other list as its JSON text. */
  function StringifyMedications(ms: Option<seq<Value>>, stringify: Value -> string): (r: string)
    ensures (ms.None? || ms.value == []) ==> r == ""
    ensures ms.Some? && ms.value != [] ==> r == stringify(Arr(ms.value))
  {
    if ms.None? || |ms.value| == 0 then "" else stringify(Arr(ms.value))
  }

  /** Non-array JSON, and text that is not JSON at all, fall through to the
      legacy reading. */
  lemma NonArrayIsLegacy(t: string, parse: string -> Result<Value, string>)
    requires JsTrim(t) != ""
    requires parse(t).Err? || !parse(t).value.Arr?
    ensures ParseMedications(Some(t), parse) == ParseLegacy(t)
  {
  }

  /** The non-blank lines of a concatenation are those of each half, in order. */
  lemma {:induction false} NonBlankConcat(a: seq<string>, b: seq<string>)
    ensures NonBlank(a + b) == NonBlank(a) + NonBlank(b)
  {
    if a != [] {
      assert (a + b)[0] == a[0];
      assert (a + b)[1..] == a[1..] + b;
      NonBlankConcat(a[1..], b);
      var h := if !Blank(a[0]) then [a[0]] else [];
      assert NonBlank(a + b) == h + NonBlank(a[1..] + b);
      assert NonBlank(a) == h + NonBlank(a[1..]);
      assert h + (NonBlank(a[1..]) + NonBlank(b)) == (h + NonBlank(a[1..])) + NonBlank(b);
    } else {
      assert a + b == b;
    }
  }

  /** Lines that are all non-blank are all kept. */
  lemma {:induction false} NonBlankKeepsAll(rows: seq<string>)
    requires forall i :: 0 <= i < |rows| ==> !Blank(rows[i])
    ensures NonBlank(rows) == rows
  {
    if rows != [] {
      NonBlankKeepsAll(rows[1..]);
    }
  }

  /** Legacy parsing gives exactly one medication per non-blank line, in line
      order: blank lines in between are dropped. */
  lemma LegacyLines(rows: seq<string>)
    requires |rows| >= 1
    requires forall i :: 0 <= i < |rows| ==> '\n' !in rows[i]
    ensures ParseLegacy(Join(rows, "\n")) ==
      seq(|NonBlank(rows)|, i requires 0 <= i < |NonBlank(rows)| => MedicationValue(ParseRow(NonBlank(rows)[i])))
  {
    SplitJoin(rows, '\n');
  }

  /** A legacy line built from separator-free pieces yields the first four
      pieces, trimmed; missing pieces are '' and extra pieces are ignored. */
  lemma RowFields(parts: seq<string>)
    requires |parts| >= 1
    requires forall i :: 0 <= i < |parts| ==> '|' !in parts[i]
    ensures ParseRow(Join(parts, "|")) ==
      Medication(Field(parts, 0), Field(parts, 1), Field(parts, 2), Field(parts, 3))
  {
    SplitJoin(parts, '|');
  }

  /** A legacy line of four trimmed, separator-free fields reads back as the
      medication it was written from. */
  lemma RowRoundTrip(m: Medication)
    requires '|' !in m.name && '|' !in m.dosage && '|' !in m.instructions && '|' !in m.duration
    requires JsTrim(m.name) == m.name && JsTrim(m.dosage) == m.dosage
    requires JsTrim(m.instructions) == m.instructions && JsTrim(m.duration) == m.duration
    ensures ParseRow(Join([m.name, m.dosage, m.instructions, m.duration], "|")) == m
  {
    var parts := [m.name, m.dosage, m.instructions, m.duration];
    forall i | 0 <= i < |parts| ensures '|' !in parts[i] && JsTrim(parts[i]) == parts[i] {
    }
    RowFields(parts);
    FieldsOfTrimmed(parts);
  }

  lemma FieldsOfTrimmed(parts: seq<string>)
    requires |parts| == 4
    requires forall i :: 0 <= i < |parts| ==> JsTrim(parts[i]) == parts[i]
    ensures Medication(Field(parts, 0), Field(parts, 1), Field(parts, 2), Field(parts, 3)) ==
      Medication(parts[0], parts[1], parts[2], parts[3])
  {
  }

  /** The empty list survives a store and a reload. */
  lemma EmptyRoundTrip(parse: string -> Result<Value, string>, stringify: Value -> string)
    ensures ParseMedications(Some(StringifyMedications(Some([]), stringify)), parse) == []
  {
  }

  /** A non-empty list survives a store and a reload, given that JSON.parse
      reads back what JSON.stringify wrote for it (whose text begins with '['). */
  lemma ListRoundTrip(ms: seq<Value>, parse: string -> Result<Value, string>, stringify: Value -> string)
    requires ms != []
    requires |stringify(Arr(ms))| > 0 && stringify(Arr(ms))[0] == '['
    requires parse(stringify(Arr(ms))) == Ok(Arr(ms))
    ensures ParseMedications(Some(StringifyMedications(Some(ms), stringify)), parse) == ms
  {
    var t := stringify(Arr(ms));
    TrimEmptyIffAllSpace(t, IsJsSpace);
    assert !IsJsSpace(t[0]);
  }
}
