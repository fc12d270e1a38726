/** The CSV import engine: mapping, validation, preview and commit (src/domain/importers.ts). */
module Importers {
  import opened Common
  import Csv

  // --------------------------------------------------- rows as header-keyed objects

  function TrimAll(cells: seq<string>): seq<string> {
    seq(|cells|, i requires 0 <= i < |cells| => Trim(cells[i]))
  }

  /** A later column with the same trimmed header overwrites an earlier one; missing cells read as empty. */
  function ObjectOf(headers: seq<string>, cells: seq<string>): map<string, string> {
    if headers == [] then map[]
    else
      var n := |headers| - 1;
      ObjectOf(headers[..n], cells)[headers[n] := if n < |cells| then Trim(cells[n]) else ""]
  }

  function ParseObjects(text: string): seq<map<string, string>> {
    var matrix := Csv.Parse(text);
    if matrix == [] then []
    else
      var headers := TrimAll(matrix[0]);
      seq(|matrix| - 1, i requires 0 <= i < |matrix| - 1 => ObjectOf(headers, matrix[i + 1]))
  }

  // -------------------------------------------------------------------- importers

  datatype Resource = Customers | Suppliers

  datatype Column = Column(key: string, caption: string, required: bool)

  const COLUMNS: seq<Column> := [
    Column("name", "Name", true), Column("code", "Code", false), Column("email", "Email", false),
    Column("phone", "Phone", false), Column("currency", "Currency", false),
    Column("paymentTermsDays", "Payment terms (days)", false), Column("taxId", "Tax ID", false)]

  datatype Party = Party(
    name: string, code: Option<string>, email: Option<string>, phone: Option<string>, currency: Option<string>,
    paymentTermsDays: Option<string>, taxId: Option<string>)

  datatype Issue = NameRequired | CurrencyLength | TermsNotNumber

  function Read(r: map<string, string>, key: string): string {
    if key in r then r[key] else ""
  }

  function Optional(s: string): Option<string> {
    var t := Trim(s);
    if t == "" then None else Some(t)
  }

  predicate AllDigits(s: string) {
    forall c :: c in s ==> '0' <= c <= '9'
  }

  function Issues(res: Resource, r: map<string, string>): seq<Issue> {
    var currency, terms := Read(r, "currency"), Trim(Read(r, "paymentTermsDays"));
    (if Trim(Read(r, "name")) == "" then [NameRequired] else [])
    + (if currency != "" && |Trim(currency)| != 3 then [CurrencyLength] else [])
    + (if res == Customers && terms != "" && !AllDigits(terms) then [TermsNotNumber] else [])
  }

  /** An input row: its number from 1, its data when it has no issue, and whether it repeats a key. */
  datatype Row = Row(index: nat, data: Option<Party>, issues: seq<Issue>, duplicate: bool)

  function Normalize(res: Resource, index: nat, r: map<string, string>): Row {
    var issues := Issues(res, r);
    var data :=
      if issues != [] then None
      else Some(Party(Trim(Read(r, "name")), Optional(Read(r, "code")), Optional(Read(r, "email")),
                      Optional(Read(r, "phone")), Optional(Read(r, "currency")),
                      Optional(Read(r, "paymentTermsDays")), Optional(Read(r, "taxId"))));
    Row(index, data, issues, false)
  }

  function Lower(s: string): string {
    seq(|s|, i requires 0 <= i < |s| => if 'A' <= s[i] <= 'Z' then s[i] + 32 as char else s[i])
  }

  function DedupeKey(p: Party): string {
    Lower(p.code.GetOr(p.name))
  }

  datatype Error = UnknownImport | Forbidden | NoCompany | BadMapping(caption: string)

  /** The first required column that is not mapped to a header. */
  function Unmapped(columns: seq<Column>, mapping: map<string, string>): Option<string> {
    if columns == [] then None
    else if columns[0].required && Read(mapping, columns[0].key) == "" then Some(columns[0].caption)
    else Unmapped(columns[1..], mapping)
  }

  function Mapped(columns: seq<Column>, mapping: map<string, string>, raw: map<string, string>): map<string, string> {
    if columns == [] then map[]
    else
      var header := Read(mapping, columns[0].key);
      Mapped(columns[1..], mapping, raw)[columns[0].key := if header == "" then "" else Read(raw, header)]
  }

  function Build(res: Resource, text: string, mapping: map<string, string>): Result<seq<Row>, Error> {
    var objects := ParseObjects(text);
    match Unmapped(COLUMNS, mapping)
    case Some(caption) => Err(BadMapping(caption))
    case None =>
      Ok(seq(|objects|, i requires 0 <= i < |objects| => Normalize(res, i + 1, Mapped(COLUMNS, mapping, objects[i]))))
  }

  function Importer(name: string): Option<Resource> {
    match name
    case "customers" => Some(Customers)
    case "suppliers" => Some(Suppliers)
    case _ => None
  }

  /** What a request asks: which importer, for which company, and which text under which mapping. */
  datatype Request = Request(
    resource: string, allowed: bool, company: Option<string>, text: string, mapping: map<string, string>)

  /** The rows both operations start from, or their common refusals. */
  function Admitted(q: Request): Result<seq<Row>, Error> {
    match Importer(q.resource)
    case None => Err(UnknownImport)
    case Some(res) =>
      if !q.allowed then Err(Forbidden)
      else if q.company.GetOr("") == "" then Err(NoCompany)
      else Build(res, q.text, q.mapping)
  }

  // --------------------------------------------- from the cells of a text to its import rows

  /** The last column whose header, trimmed, is `h`. */
  predicate LastColumn(headers: seq<string>, h: string, c: nat) {
    c < |headers| && Trim(headers[c]) == h && forall j :: c < j < |headers| ==> Trim(headers[j]) != h
  }

  function CellAt(cells: seq<string>, c: nat): string {
    if c < |cells| then cells[c] else ""
  }

  /** An object has the headers for its keys. */
  lemma {:induction false} ObjectKeys(headers: seq<string>, cells: seq<string>, h: string)
    ensures h in ObjectOf(headers, cells) <==> h in headers
    decreases |headers|
  {
    if headers != [] {
      var n := |headers| - 1;
      ObjectKeys(headers[..n], cells, h);
      assert headers == headers[..n] + [headers[n]];
    }
  }

  /** Under each header a row's object holds the trimmed cell of the last column so headed, empty if the row is short. */
  lemma {:induction false} ObjectReads(headers: seq<string>, cells: seq<string>, h: string, c: nat)
    requires LastColumn(headers, h, c)
    ensures h in ObjectOf(TrimAll(headers), cells) && ObjectOf(TrimAll(headers), cells)[h] == Trim(CellAt(cells, c))
    decreases |headers|
  {
    var n := |headers| - 1;
    assert TrimAll(headers)[..n] == TrimAll(headers[..n]);
    if c < n {
      ObjectReads(headers[..n], cells, h, c);
    } else {
      TrimNothing();
    }
  }

  lemma TrimNothing()
    ensures Trim("") == ""
  {
  }

  /** The first line names the columns, every later one is a row. */
  lemma ObjectsAreRows(text: string)
    ensures var matrix := Csv.Parse(text);
            && |ParseObjects(text)| == (if matrix == [] then 0 else |matrix| - 1)
            && forall i :: 0 <= i < |ParseObjects(text)| ==> ParseObjects(text)[i] == ObjectOf(TrimAll(matrix[0]), matrix[i + 1])
  {
  }

  /** A mapped column reads the object's value under the header it is mapped to; an unmapped or missing one is empty. */
  lemma {:induction false} MappedReads(columns: seq<Column>, mapping: map<string, string>, raw: map<string, string>, key: string)
    ensures key in Mapped(columns, mapping, raw) <==> exists c :: c in columns && c.key == key
    ensures key in Mapped(columns, mapping, raw) ==>
              Mapped(columns, mapping, raw)[key] ==
                if key in mapping && mapping[key] != "" && mapping[key] in raw then raw[mapping[key]] else ""
    decreases |columns|
  {
    if columns != [] { MappedReads(columns[1..], mapping, raw, key); }
  }

  /** Both importers offer the same seven columns. */
  lemma SevenColumns(key: string)
    ensures (exists c :: c in COLUMNS && c.key == key) <==>
              key in {"name", "code", "email", "phone", "currency", "paymentTermsDays", "taxId"}
  {
    var keys := ["name", "code", "email", "phone", "currency", "paymentTermsDays", "taxId"];
    assert |COLUMNS| == 7 && forall i :: 0 <= i < 7 ==> COLUMNS[i].key == keys[i];
    if key in keys {
      var i :| 0 <= i < 7 && keys[i] == key;
      assert COLUMNS[i] in COLUMNS;
    }
    if c :| c in COLUMNS && c.key == key {
      var i :| 0 <= i < 7 && COLUMNS[i] == c;
      assert key == keys[i];
    }
  }

  predicate Blankish(r: map<string, string>, key: string) {
    key !in r || Trim(r[key]) == ""
  }

  predicate Digits(s: string) {
    forall i :: 0 <= i < |s| ==> s[i] in {'0', '1', '2', '3', '4', '5', '6', '7', '8', '9'}
  }

  /** A field of the data: the trimmed text, or none if blank. */
  predicate FieldRead(r: map<string, string>, key: string, field: Option<string>) {
    match field
    case None => Blankish(r, key)
    case Some(t) => key in r && t != "" && t == Trim(r[key])
  }

  /** What makes a row bad: no name, a currency that is not of three characters, or, for customers, terms that are not a number. */
  predicate IssueFound(res: Resource, r: map<string, string>, x: Issue) {
    match x
    case NameRequired => Blankish(r, "name")
    case CurrencyLength => BadCurrency(r)
    case TermsNotNumber => BadTerms(res, r)
  }

  lemma ReadBlank(r: map<string, string>, key: string)
    ensures Trim(Read(r, key)) == "" <==> Blankish(r, key)
    ensures FieldRead(r, key, Optional(Read(r, key)))
  {
    TrimNothing();
  }

  lemma DigitsExactly(s: string)
    ensures AllDigits(s) <==> Digits(s)
  {
    if AllDigits(s) {
      forall i | 0 <= i < |s| ensures s[i] in {'0', '1', '2', '3', '4', '5', '6', '7', '8', '9'} { assert s[i] in s; OneDigit(s[i]); }
    }
    forall c | c in s && Digits(s) ensures '0' <= c <= '9' { var i :| 0 <= i < |s| && s[i] == c; }
  }

  lemma OneDigit(c: char)
    requires '0' <= c <= '9'
    ensures c in {'0', '1', '2', '3', '4', '5', '6', '7', '8', '9'}
  {
    assert c as int in {48, 49, 50, 51, 52, 53, 54, 55, 56, 57};
    assert c == (c as int) as char;
  }

  predicate BadCurrency(r: map<string, string>) {
    "currency" in r && r["currency"] != "" && |Trim(r["currency"])| != 3
  }

  predicate BadTerms(res: Resource, r: map<string, string>) {
    res == Customers && !Blankish(r, "paymentTermsDays") && !Digits(Trim(r["paymentTermsDays"]))
  }

  lemma InThree(a: bool, b: bool, c: bool)
    ensures var s := (if a then [NameRequired] else []) + (if b then [CurrencyLength] else []) + (if c then [TermsNotNumber] else []);
            forall x :: x in s <==> (x == NameRequired && a) || (x == CurrencyLength && b) || (x == TermsNotNumber && c)
  {
  }

  lemma IssuesAre(res: Resource, r: map<string, string>)
    ensures Issues(res, r) == (if Blankish(r, "name") then [NameRequired] else [])
                              + (if BadCurrency(r) then [CurrencyLength] else []) + (if BadTerms(res, r) then [TermsNotNumber] else [])
  {
    ReadBlank(r, "name");
    ReadBlank(r, "paymentTermsDays");
    DigitsExactly(Trim(Read(r, "paymentTermsDays")));
  }

  /** A row carries exactly the issues there are. */
  lemma IssuesExactly(res: Resource, index: nat, r: map<string, string>)
    ensures forall x :: x in Normalize(res, index, r).issues <==> IssueFound(res, r, x)
    ensures Normalize(res, index, r).index == index && !Normalize(res, index, r).duplicate
  {
    IssuesAre(res, r);
    InThree(Blankish(r, "name"), BadCurrency(r), BadTerms(res, r));
  }

  /** And, if there are none, the row's own fields, each in its place. */
  lemma DataExactly(res: Resource, index: nat, r: map<string, string>)
    requires forall x :: !IssueFound(res, r, x)
    ensures var row := Normalize(res, index, r);
            && row.data.Some?
            && var d := row.data.value;
               && FieldRead(r, "name", Some(d.name)) && FieldRead(r, "code", d.code) && FieldRead(r, "email", d.email)
               && FieldRead(r, "phone", d.phone) && FieldRead(r, "currency", d.currency)
               && FieldRead(r, "paymentTermsDays", d.paymentTermsDays) && FieldRead(r, "taxId", d.taxId)
  {
    NoIssues(res, index, r);
    ReadBlank(r, "name");
    ReadBlank(r, "code");
    ReadBlank(r, "email");
    ReadBlank(r, "phone");
    ReadBlank(r, "currency");
    ReadBlank(r, "paymentTermsDays");
    ReadBlank(r, "taxId");
  }

  lemma NoIssues(res: Resource, index: nat, r: map<string, string>)
    requires forall x :: !IssueFound(res, r, x)
    ensures Issues(res, r) == [] && !Blankish(r, "name")
  {
    assert !IssueFound(res, r, NameRequired) && !IssueFound(res, r, CurrencyLength) && !IssueFound(res, r, TermsNotNumber);
    IssuesAre(res, r);
  }

  /** Rows are keyed by their code, or by their name without one, whatever the case of its letters. */
  lemma KeyExactly(p: Party, q: Party)
    requires var a, b := (if p.code.Some? then p.code.value else p.name), (if q.code.Some? then q.code.value else q.name);
             |a| == |b| && forall i :: 0 <= i < |a| ==> a[i] == b[i] || ('A' <= a[i] <= 'Z' && b[i] as int == a[i] as int + 32)
    ensures DedupeKey(p) == DedupeKey(q)
  {
    var a, b := (if p.code.Some? then p.code.value else p.name), (if q.code.Some? then q.code.value else q.name);
    assert Lower(a) == Lower(b);
  }

  lemma LowerKeepsApart(p: Party, q: Party)
    requires DedupeKey(p) == DedupeKey(q)
    ensures var a, b := (if p.code.Some? then p.code.value else p.name), (if q.code.Some? then q.code.value else q.name);
            && |a| == |b|
            && forall i :: 0 <= i < |a| ==> a[i] == b[i] || a[i] as int == b[i] as int + 32 || b[i] as int == a[i] as int + 32
  {
    var a, b := (if p.code.Some? then p.code.value else p.name), (if q.code.Some? then q.code.value else q.name);
    assert |Lower(a)| == |a| && |Lower(b)| == |b|;
    forall i | 0 <= i < |a|
      ensures a[i] == b[i] || a[i] as int == b[i] as int + 32 || b[i] as int == a[i] as int + 32
    {
      assert Lower(a)[i] == Lower(b)[i];
    }
  }

  predicate NameMapped(mapping: map<string, string>) {
    "name" in mapping && mapping["name"] != ""
  }

  /** An import is refused for want of the name column alone; else row i is made of line i, numbered from 1. */
  lemma BuildExactly(res: Resource, text: string, mapping: map<string, string>)
    ensures Build(res, text, mapping).Ok? <==> NameMapped(mapping)
    ensures Build(res, text, mapping).Err? ==> Build(res, text, mapping) == Err(BadMapping("Name"))
    ensures Build(res, text, mapping).Ok? ==> |Build(res, text, mapping).value| == |ParseObjects(text)|
  {
    UnmappedIsName(mapping);
  }

  lemma RowExactly(res: Resource, text: string, mapping: map<string, string>, i: nat)
    requires Build(res, text, mapping).Ok? && i < |ParseObjects(text)|
    ensures i < |Build(res, text, mapping).value|
    ensures Build(res, text, mapping).value[i] == Normalize(res, i + 1, Mapped(COLUMNS, mapping, ParseObjects(text)[i]))
  {
  }

  lemma {:induction false} NoneRequired(columns: seq<Column>, mapping: map<string, string>)
    requires forall c :: c in columns ==> !c.required
    ensures Unmapped(columns, mapping).None?
    decreases |columns|
  {
    if columns != [] {
      assert columns[0] in columns && forall c :: c in columns[1..] ==> c in columns;
      NoneRequired(columns[1..], mapping);
    }
  }

  lemma UnmappedIsName(mapping: map<string, string>)
    ensures Unmapped(COLUMNS, mapping) == if NameMapped(mapping) then None else Some("Name")
  {
    assert COLUMNS[0] == Column("name", "Name", true);
    NoneRequired(COLUMNS[1..], mapping);
  }

  /** Who may import what: the two importers there are, with the right and a company. */
  lemma AdmittedExactly(q: Request)
    ensures Admitted(q).Ok? <==>
              q.resource in {"customers", "suppliers"} && q.allowed && q.company.Some? && q.company.value != "" && NameMapped(q.mapping)
    ensures Admitted(q).Ok? ==> Admitted(q) == Build(if q.resource == "customers" then Customers else Suppliers, q.text, q.mapping)
    ensures Admitted(q) == Err(UnknownImport) <==> q.resource !in {"customers", "suppliers"}
  {
    if Importer(q.resource).Some? { BuildExactly(Importer(q.resource).value, q.text, q.mapping); }
  }

  // ------------------------------------------------- which rows repeat a key, and counts

  predicate Valid(rows: seq<Row>, i: nat) {
    i < |rows| && rows[i].data.Some? && rows[i].issues == []
  }

  predicate HasData(rows: seq<Row>, i: nat) {
    i < |rows| && rows[i].data.Some?
  }

  /** An earlier row with data has the same key. */
  predicate SeenInPreview(rows: seq<Row>, n: nat, key: string) {
    exists j :: 0 <= j < n && HasData(rows, j) && DedupeKey(rows[j].data.value) == key
  }

  predicate DuplicateInPreview(rows: seq<Row>, i: nat, existing: set<string>) {
    HasData(rows, i) &&
    (DedupeKey(rows[i].data.value) in existing || SeenInPreview(rows, i, DedupeKey(rows[i].data.value)))
  }

  /** An earlier row without issues has the same key. */
  predicate SeenInCommit(rows: seq<Row>, n: nat, key: string) {
    exists j :: 0 <= j < n && Valid(rows, j) && DedupeKey(rows[j].data.value) == key
  }

  predicate SkippedInCommit(rows: seq<Row>, i: nat, existing: set<string>) {
    Valid(rows, i) &&
    (DedupeKey(rows[i].data.value) in existing || SeenInCommit(rows, i, DedupeKey(rows[i].data.value)))
  }

  predicate Attempted(rows: seq<Row>, i: nat, existing: set<string>) {
    Valid(rows, i) && !SkippedInCommit(rows, i, existing)
  }

  predicate Importable(rows: seq<Row>, i: nat, existing: set<string>) {
    i < |rows| && rows[i].issues == [] && !DuplicateInPreview(rows, i, existing)
  }

  /** Positions below `n` that satisfy `p`, in order. */
  function Positions(n: nat, p: nat -> bool): seq<nat> {
    if n == 0 then [] else Positions(n - 1, p) + if p(n - 1) then [n - 1] else []
  }

  function Count(n: nat, p: nat -> bool): nat {
    |Positions(n, p)|
  }

  // The classes into which the two loops sort the rows.

  function Duplicates(rows: seq<Row>, existing: set<string>): nat -> bool {
    (i: nat) => DuplicateInPreview(rows, i, existing)
  }

  function Importables(rows: seq<Row>, existing: set<string>): nat -> bool {
    (i: nat) => Importable(rows, i, existing)
  }

  function WithIssues(rows: seq<Row>): nat -> bool {
    (i: nat) => i < |rows| && rows[i].issues != []
  }

  function Skipped(rows: seq<Row>, existing: set<string>): nat -> bool {
    (i: nat) => SkippedInCommit(rows, i, existing)
  }

  function Created(rows: seq<Row>, existing: set<string>, fails: map<nat, string>): nat -> bool {
    (i: nat) => Attempted(rows, i, existing) && i !in fails
  }

  function Failing(rows: seq<Row>, existing: set<string>, fails: map<nat, string>): nat -> bool {
    (i: nat) => Attempted(rows, i, existing) && i in fails
  }

  function Errors(rows: seq<Row>, existing: set<string>, fails: map<nat, string>): nat -> bool {
    (i: nat) => !Valid(rows, i) || (Attempted(rows, i, existing) && i in fails)
  }

  // ------------------------------------------------------------------- the two loops

  datatype Preview = Preview(rows: seq<Row>, total: nat, importable: nat, duplicates: nat, invalid: nat)

  lemma SeenInPreviewStep(rows: seq<Row>, i: nat)
    ensures forall k :: SeenInPreview(rows, i + 1, k) <==>
              SeenInPreview(rows, i, k) || (HasData(rows, i) && DedupeKey(rows[i].data.value) == k)
  {
    forall k
      ensures SeenInPreview(rows, i + 1, k) <==>
              SeenInPreview(rows, i, k) || (HasData(rows, i) && DedupeKey(rows[i].data.value) == k)
    {
      if j :| 0 <= j < i && HasData(rows, j) && DedupeKey(rows[j].data.value) == k {
        assert SeenInPreview(rows, i + 1, k);
      }
    }
  }

  lemma SeenInCommitStep(rows: seq<Row>, i: nat)
    ensures forall k :: SeenInCommit(rows, i + 1, k) <==>
              SeenInCommit(rows, i, k) || (Valid(rows, i) && DedupeKey(rows[i].data.value) == k)
  {
    forall k
      ensures SeenInCommit(rows, i + 1, k) <==>
              SeenInCommit(rows, i, k) || (Valid(rows, i) && DedupeKey(rows[i].data.value) == k)
    {
      if j :| 0 <= j < i && Valid(rows, j) && DedupeKey(rows[j].data.value) == k {
        assert SeenInCommit(rows, i + 1, k);
      }
    }
  }

  predicate Flagged(rows: seq<Row>, flagged: seq<Row>, existing: set<string>) {
    && |flagged| == |rows|
    && forall i :: 0 <= i < |rows| ==> flagged[i] == rows[i].(duplicate := DuplicateInPreview(rows, i, existing))
  }

  /** The first loop of the preview: every key seen is remembered, repeated or not. */
  method FlagDuplicates(rows: seq<Row>, existing: set<string>) returns (flagged: seq<Row>)
    requires forall i :: 0 <= i < |rows| ==> !rows[i].duplicate
    ensures Flagged(rows, flagged, existing)
  {
    var seen: set<string> := {};
    flagged := rows;
    for i := 0 to |rows|
      invariant |flagged| == |rows|
      invariant forall k :: k in seen <==> SeenInPreview(rows, i, k)
      invariant forall j :: 0 <= j < i ==> flagged[j] == rows[j].(duplicate := DuplicateInPreview(rows, j, existing))
      invariant forall j :: i <= j < |rows| ==> flagged[j] == rows[j]
    {
      SeenInPreviewStep(rows, i);
      if flagged[i].data.Some? {
        var k := DedupeKey(flagged[i].data.value);
        if k in existing || k in seen { flagged := flagged[i := flagged[i].(duplicate := true)]; }
        seen := seen + {k};
      }
    }
  }

  method Summarize(ghost rows: seq<Row>, flagged: seq<Row>, ghost existing: set<string>) returns (p: Preview)
    requires Flagged(rows, flagged, existing)
    ensures p.rows == flagged && p.total == |rows|
    ensures p.importable == Count(|rows|, Importables(rows, existing))
    ensures p.duplicates == Count(|rows|, Duplicates(rows, existing))
    ensures p.invalid == Count(|rows|, WithIssues(rows))
  {
    var importable, duplicates, invalid := 0, 0, 0;
    for i := 0 to |flagged|
      invariant importable == Count(i, Importables(rows, existing))
      invariant duplicates == Count(i, Duplicates(rows, existing))
      invariant invalid == Count(i, WithIssues(rows))
    {
      if flagged[i].issues == [] && !flagged[i].duplicate { importable := importable + 1; }
      if flagged[i].duplicate { duplicates := duplicates + 1; }
      if flagged[i].issues != [] { invalid := invalid + 1; }
    }
    return Preview(flagged, |flagged|, importable, duplicates, invalid);
  }

  method PreviewImport(q: Request, existing: set<string>) returns (r: Result<Preview, Error>)
    ensures var built := Admitted(q);
            match r
            case Err(e) => built == Err(e)
            case Ok(p) =>
              && built.Ok?
              && var rows := built.value;
              && Flagged(rows, p.rows, existing) && p.total == |rows|
              && p.importable == Count(|rows|, Importables(rows, existing))
              && p.duplicates == Count(|rows|, Duplicates(rows, existing))
              && p.invalid == Count(|rows|, WithIssues(rows))
  {
    var importer := Importer(q.resource);
    if importer.None? { return Err(UnknownImport); }
    if !q.allowed { return Err(Forbidden); }
    if q.company.GetOr("") == "" { return Err(NoCompany); }
    var built := Build(importer.value, q.text, q.mapping);
    if built.Err? { return Err(built.error); }
    var flagged := FlagDuplicates(built.value, existing);
    var p := Summarize(built.value, flagged, existing);
    return Ok(p);
  }

  /** Why a row was not created: its issues, or what its create call threw. */
  datatype Reason = Invalid(issues: seq<Issue>) | Thrown(message: string)

  datatype RowError = RowError(index: nat, reason: Reason)

  datatype Batch = Batch(failed: bool, created: nat, skipped: nat, errorCount: nat, errors: seq<RowError>)

  function ErrorAt(rows: seq<Row>, fails: map<nat, string>, i: nat): RowError
    requires i < |rows|
  {
    RowError(rows[i].index, if Valid(rows, i) && i in fails then Thrown(fails[i]) else Invalid(rows[i].issues))
  }

  /** The report on the first `n` rows: one entry for each row in error, in order. */
  function Report(rows: seq<Row>, existing: set<string>, fails: map<nat, string>, n: nat): seq<RowError>
    requires n <= |rows|
  {
    if n == 0 then []
    else
      Report(rows, existing, fails, n - 1) +
      if Errors(rows, existing, fails)(n - 1) then [ErrorAt(rows, fails, n - 1)] else []
  }

  lemma {:induction false} ReportCounts(rows: seq<Row>, existing: set<string>, fails: map<nat, string>, n: nat)
    requires n <= |rows|
    ensures |Report(rows, existing, fails, n)| == Count(n, Errors(rows, existing, fails))
    decreases n
  {
    if n > 0 { ReportCounts(rows, existing, fails, n - 1); }
  }

  predicate Committed(rows: seq<Row>, b: Batch, existing: set<string>, fails: map<nat, string>) {
    && b.created == Count(|rows|, Created(rows, existing, fails))
    && b.skipped == Count(|rows|, Skipped(rows, existing))
    && b.errors == Report(rows, existing, fails, |rows|)
    && b.errorCount == Count(|rows|, Errors(rows, existing, fails))
    && (b.failed <==> b.errorCount > 0 && b.created == 0)
  }

  /** The commit loop; `fails` holds what the domain's create call throws, at the positions where it does. */
  method CommitRows(rows: seq<Row>, existing: set<string>, fails: map<nat, string>) returns (b: Batch)
    ensures Committed(rows, b, existing, fails)
  {
    var seen: set<string> := {};
    var created, skipped, errorCount, errors := 0, 0, 0, [];
    for i := 0 to |rows|
      invariant forall k :: k in existing || k in seen <==> k in existing || SeenInCommit(rows, i, k)
      invariant created == Count(i, Created(rows, existing, fails))
      invariant skipped == Count(i, Skipped(rows, existing))
      invariant errors == Report(rows, existing, fails, i) && errorCount == |errors|
    {
      SeenInCommitStep(rows, i);
      var row := rows[i];
      if row.data.None? || row.issues != [] {
        errorCount, errors := errorCount + 1, errors + [RowError(row.index, Invalid(row.issues))];
        continue;
      }
      var k := DedupeKey(row.data.value);
      if k in existing || k in seen {
        skipped := skipped + 1;
        continue;
      }
      seen := seen + {k};
      if i !in fails { created := created + 1; }
      else { errorCount, errors := errorCount + 1, errors + [RowError(row.index, Thrown(fails[i]))]; }
    }
    ReportCounts(rows, existing, fails, |rows|);
    return Batch(errorCount > 0 && created == 0, created, skipped, errorCount, errors);
  }

  /** A batch has failed exactly if there were errors and nothing at all was created. */
  lemma FailedExactly(rows: seq<Row>, b: Batch, existing: set<string>, fails: map<nat, string>)
    requires Committed(rows, b, existing, fails)
    ensures b.failed <==> b.errors != [] && forall i :: 0 <= i < |rows| ==> !Created(rows, existing, fails)(i)
  {
    CountedSome(|rows|, Created(rows, existing, fails));
    ReportCounts(rows, existing, fails, |rows|);
  }

  lemma {:induction false} CountedSome(n: nat, p: nat -> bool)
    ensures Count(n, p) == 0 <==> forall i: nat :: i < n ==> !p(i)
    decreases n
  {
    if n > 0 { CountedSome(n - 1, p); }
  }

  method CommitImport(q: Request, existing: set<string>, fails: map<nat, string>) returns (r: Result<Batch, Error>)
    ensures var built := Admitted(q);
            match r
            case Err(e) => built == Err(e)
            case Ok(b) => built.Ok? && Committed(built.value, b, existing, fails)
  {
    var importer := Importer(q.resource);
    if importer.None? { return Err(UnknownImport); }
    if !q.allowed { return Err(Forbidden); }
    if q.company.GetOr("") == "" { return Err(NoCompany); }
    var built := Build(importer.value, q.text, q.mapping);
    if built.Err? { return Err(built.error); }
    var b := CommitRows(built.value, existing, fails);
    return Ok(b);
  }

  // -------------------------------------------------------------------- agreement

  /** Data is present exactly when there is no issue: what both importers' `normalize` guarantee. */
  predicate WellBuilt(rows: seq<Row>) {
    forall i :: 0 <= i < |rows| ==> (rows[i].data.Some? <==> rows[i].issues == [])
  }

  lemma BuildIsWellBuilt(res: Resource, text: string, mapping: map<string, string>)
    ensures Build(res, text, mapping).Ok? ==> WellBuilt(Build(res, text, mapping).value)
  {
  }

  lemma {:induction false} SameCount(n: nat, p: nat -> bool, q: nat -> bool)
    requires forall i: nat :: i < n ==> p(i) == q(i)
    ensures Positions(n, p) == Positions(n, q)
    decreases n
  {
    if n > 0 { SameCount(n - 1, p, q); }
  }

  lemma {:induction false} CountsSplit(n: nat, whole: nat -> bool, p: nat -> bool, q: nat -> bool)
    requires forall i: nat :: i < n ==> whole(i) == (p(i) || q(i)) && !(p(i) && q(i))
    ensures Count(n, whole) == Count(n, p) + Count(n, q)
    decreases n
  {
    if n > 0 { CountsSplit(n - 1, whole, p, q); }
  }

  lemma {:induction false} CountAll(n: nat, p: nat -> bool)
    requires forall i: nat :: i < n ==> p(i)
    ensures Count(n, p) == n
    decreases n
  {
    if n > 0 { CountAll(n - 1, p); }
  }

  /**
   * For every CSV, mapping, set of existing keys and pattern of failing creates: preview's
   * duplicates are commit's skipped rows, preview's importable rows are the created ones plus
   * those whose create failed, and commit accounts for every row once.
   */
  lemma PreviewPredictsCommit(q: Request, existing: set<string>, fails: map<nat, string>)
    requires Admitted(q).Ok?
    ensures var rows := Admitted(q).value;
            var n := |rows|;
            && Count(n, Duplicates(rows, existing)) == Count(n, Skipped(rows, existing))
            && Count(n, Importables(rows, existing)) ==
                 Count(n, Created(rows, existing, fails)) + Count(n, Failing(rows, existing, fails))
            && Count(n, Errors(rows, existing, fails)) ==
                 Count(n, WithIssues(rows)) + Count(n, Failing(rows, existing, fails))
            && Count(n, Created(rows, existing, fails)) + Count(n, Skipped(rows, existing))
                 + Count(n, Errors(rows, existing, fails)) == n
  {
    BuildIsWellBuilt(Importer(q.resource).value, q.text, q.mapping);
    var rows := Admitted(q).value;
    var n := |rows|;
    SameVerdicts(rows, existing);
    SameCount(n, Duplicates(rows, existing), Skipped(rows, existing));
    CountsSplit(n, Importables(rows, existing), Created(rows, existing, fails), Failing(rows, existing, fails));
    CountsSplit(n, Errors(rows, existing, fails), WithIssues(rows), Failing(rows, existing, fails));
    var settled := (i: nat) => Created(rows, existing, fails)(i) || Skipped(rows, existing)(i);
    CountsSplit(n, settled, Created(rows, existing, fails), Skipped(rows, existing));
    var all := (i: nat) => settled(i) || Errors(rows, existing, fails)(i);
    CountsSplit(n, all, settled, Errors(rows, existing, fails));
    CountAll(n, all);
  }

  /** Preview and commit judge every row alike, though commit does not remember the keys it skips. */
  lemma SameVerdicts(rows: seq<Row>, existing: set<string>)
    requires WellBuilt(rows)
    ensures forall i: nat :: i < |rows| ==> DuplicateInPreview(rows, i, existing) == SkippedInCommit(rows, i, existing)
    ensures forall i: nat :: i < |rows| ==> Importable(rows, i, existing) == Attempted(rows, i, existing)
  {
    assert forall i: nat :: HasData(rows, i) == Valid(rows, i);
  }

  /** No key is created twice, nor one that existed before. */
  lemma CreatedKeysAreNew(rows: seq<Row>, existing: set<string>, i: nat, j: nat)
    requires i < j && Attempted(rows, i, existing) && Attempted(rows, j, existing)
    ensures DedupeKey(rows[i].data.value) != DedupeKey(rows[j].data.value)
    ensures DedupeKey(rows[j].data.value) !in existing
  {
  }
}
