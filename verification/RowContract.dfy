/** _validate_row_contract: every offered row value comes from the canonical facts before any row is written. */
module RowContract {
  import opened Results
  import opened ReviewCertificate

  /** A canonical field value: missing or empty, a text, or anything else. */
  datatype Cell = Absent | Text(text: string) | NotText

  /** None stands for an ill-typed entry, and for a missing or blank id, title or category. */
  datatype Record = Record(id: Option<string>, fields: Option<map<string, Cell>>,
                           title: Option<string>, category: Option<string>)

  datatype DesiredRow = DesiredRow(recordId: string, values: RowDigest)

  datatype Contract = Contract(collection: string, draft: Digest, desired: seq<DesiredRow>, deletes: set<string>,
                               versioned: bool)

  /** A collection is None when it is not a list of records; the exclusions are None when they are ill-typed. */
  datatype Profile = Profile(collections: map<string, Option<seq<Record>>>, exclusions: Option<set<string>>)

  function Collection(p: Profile, key: string): Option<seq<Record>> {
    if key in p.collections then p.collections[key] else Some([])
  }

  predicate Identified(r: Record) {
    r.id.Some? && r.id.value != ""
  }

  predicate Given(c: Cell) {
    c.NotText? || (c.Text? && c.text != "")
  }

  function KnownCells(r: Record): map<string, Cell> {
    if r.fields.None? then map[]
    else map k | k in r.fields.value && Given(r.fields.value[k]) :: r.fields.value[k]
  }

  predicate Agrees(cells: map<string, Cell>, key: string, value: string) {
    key in cells ==> cells[key] == Text(value)
  }

  predicate Titled(r: Record) {
    && r.title.Some? && r.category.Some? && r.category.value in {"project", "research"}
    && Agrees(KnownCells(r), "title", r.title.value) && Agrees(KnownCells(r), "category", r.category.value)
  }

  /** The canonical values of a record, or None when the source refuses it. */
  function Known(r: Record, project: bool): Option<RowDigest> {
    if r.fields.None? || (project && !Titled(r)) then None
    else
      var cells := KnownCells(r);
      var all := if project then cells["title" := Text(r.title.value)]["category" := Text(r.category.value)] else cells;
      if exists k | k in all :: !all[k].Text? then None
      else Some(map k | k in all :: all[k].text)
  }

  function Excluded(p: Profile, key: string, records: seq<Record>): set<string> {
    if key != "projects" || p.exclusions.None? then {}
    else set r | r in records && r.id.Some? && r.id.value in p.exclusions.value :: r.id.value
  }

  /** The records that the site must hold: all but the explicitly excluded ones. */
  function KeptIds(records: seq<Record>, excluded: set<string>): set<string> {
    set r | r in records && r.id.Some? && r.id.value !in excluded :: r.id.value
  }

  predicate DistinctKept(records: seq<Record>, excluded: set<string>) {
    forall i, j | 0 <= i < j < |records| ::
      records[i].id.Some? && records[i].id == records[j].id ==> records[i].id.value in excluded
  }

  predicate IsCanonicalRow(records: seq<Record>, row: DesiredRow, project: bool) {
    exists r | r in records :: r.id == Some(row.recordId) && Known(r, project) == Some(row.values)
  }

  function ValidateContract(p: Profile, c: Contract): bool {
    var found := Collection(p, c.collection);
    if found.None? || !(forall r | r in found.value :: Identified(r)) then false
    else if c.collection == "projects" && p.exclusions.None? then false
    else
      var records := found.value;
      var excluded := Excluded(p, c.collection, records);
      && c.deletes <= excluded
      && (forall row | row in c.desired :: row.recordId != "")
      && DistinctKept(records, excluded)
      && (set row | row in c.desired :: row.recordId) == KeptIds(records, excluded)
      && forall row | row in c.desired :: IsCanonicalRow(records, row, c.collection == "projects")
  }

  /** The expected rows of a binding, by record. */
  function DesiredMap(desired: seq<DesiredRow>): map<string, RowDigest> {
    if desired == [] then map[]
    else DesiredMap(desired[..|desired| - 1])[desired[|desired| - 1].recordId := desired[|desired| - 1].values]
  }

  lemma {:induction false} DesiredMapIn(desired: seq<DesiredRow>, id: string)
    ensures id in DesiredMap(desired) <==> exists row | row in desired :: row.recordId == id
    ensures id in DesiredMap(desired) ==> DesiredRow(id, DesiredMap(desired)[id]) in desired
  {
    if desired != [] {
      var init, last := desired[..|desired| - 1], desired[|desired| - 1];
      DesiredMapIn(init, id);
      assert desired == init + [last];
      if id == last.recordId { assert last in desired && last == DesiredRow(id, last.values); }
    }
  }

  /** The rows are the canonical facts: one for every record that is kept, holding the values known for it. */
  predicate CanonicalRows(p: Profile, key: string, rows: map<string, RowDigest>) {
    && Collection(p, key).Some?
    && var records := Collection(p, key).value;
       var excluded := Excluded(p, key, records);
       && rows.Keys == KeptIds(records, excluded)
       && forall r | r in records && r.id.Some? && r.id.value !in excluded ::
            Known(r, key == "projects") == Some(rows[r.id.value])
  }

  /** A validated contract offers exactly the canonical rows, even if it repeats a record. */
  lemma ValidatedIsCanonical(p: Profile, c: Contract)
    requires ValidateContract(p, c)
    ensures CanonicalRows(p, c.collection, DesiredMap(c.desired))
  {
    var records := Collection(p, c.collection).value;
    var excluded := Excluded(p, c.collection, records);
    var rows := DesiredMap(c.desired);
    var project := c.collection == "projects";
    hide Known;
    forall id ensures id in rows <==> id in KeptIds(records, excluded) {
      DesiredMapIn(c.desired, id);
    }
    forall r | r in records && r.id.Some? && r.id.value !in excluded
      ensures r.id.value in rows && Known(r, project) == Some(rows[r.id.value])
    {
      var id := r.id.value;
      assert id in KeptIds(records, excluded);
      DesiredMapIn(c.desired, id);
      var row := DesiredRow(id, rows[id]);
      assert IsCanonicalRow(records, row, project);
      var q: Record :| q in records && q.id == Some(id) && Known(q, project) == Some(row.values);
      assert q == r by { SameRecord(records, excluded, q, r); }
    }
  }

  lemma SameRecord(records: seq<Record>, excluded: set<string>, q: Record, r: Record)
    requires DistinctKept(records, excluded) && q in records && r in records
    requires q.id.Some? && q.id == r.id && q.id.value !in excluded
    ensures q == r
  {
    var i :| 0 <= i < |records| && records[i] == q;
    var j :| 0 <= j < |records| && records[j] == r;
    assert i < j || j < i || i == j;
  }

  /** Two validated contracts for one collection bind the same rows, on whatever pages they were offered. */
  lemma CanonicalIsUnique(p: Profile, key: string, a: map<string, RowDigest>, b: map<string, RowDigest>)
    requires CanonicalRows(p, key, a) && CanonicalRows(p, key, b)
    ensures a == b
  {
    var records := Collection(p, key).value;
    var excluded := Excluded(p, key, records);
    hide Known;
    forall id | id in a ensures a[id] == b[id] {
      var r: Record :| r in records && r.id == Some(id) && r.id.value !in excluded;
      assert Known(r, key == "projects") == Some(a[id]);
    }
  }
}
