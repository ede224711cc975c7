/** The admin site's two pieces of logic: the CSV import of events, and the list of
    events a user attends shown on the user's admin page. */
module Admin {
  import opened Seqs
  import opened Text
  import opened Models
  import opened Dates

  // ------------------------------------------------------------ the header

  const ExpectedColumns: seq<string> := ["title", "description", "location", "date", "creator", "is_promoted"]

  /** `[col for col in expected_columns if col not in reader.fieldnames]`. */
  function MissingColumns(header: seq<string>): (r: seq<string>)
    ensures forall c :: c in r <==> c in ExpectedColumns && c !in header
    ensures IsSubsequence(r, ExpectedColumns)
    ensures r == [] <==> forall c :: c in ExpectedColumns ==> c in header
  {
    FilterSubsequence(ExpectedColumns, (c: string) => c !in header);
    Filter(ExpectedColumns, (c: string) => c !in header)
  }

  /** The header check passes: every expected column is present. */
  predicate HasExpectedColumns(header: seq<string>) {
    && "title" in header && "description" in header && "location" in header
    && "date" in header && "creator" in header && "is_promoted" in header
  }

  /** `form.is_valid()` for `CsvImportForm`: its `FileField` keeps the default
      `allow_empty_file=False` and so refuses a file with no bytes. A file with
      any text in it gives `csv.reader` at least one record (a blank line is the
      record `[]`), so the records of a file the form accepts are never empty and
      `reader.fieldnames` is always the first of them. */
  predicate FormAccepts(records: seq<seq<string>>) {
    records != []
  }

  // --------------------------------------------------------------- the rows

  /** A row as `csv.DictReader` yields it: the header names mapped to the
      record's values, with Python's None (`None` here) for the names past the
      end of a short record. */
  type Row = map<string, Option<string>>

  function Min(a: nat, b: nat): nat {
    if a < b then a else b
  }

  /** `dict(zip(fieldnames, record))`: a later column of the same name wins. */
  function ZipRow(header: seq<string>, record: seq<string>): Row
    decreases |header|
  {
    var n := Min(|header|, |record|);
    if n == 0 then map[]
    else ZipRow(header[..n - 1], record[..n - 1])[header[n - 1] := Some(record[n - 1])]
  }

  /** `d[key] = restval` for each of `keys`. */
  function PadRow(d: Row, keys: seq<string>): Row
    decreases |keys|
  {
    if keys == [] then d else PadRow(d[keys[0] := None], keys[1..])
  }

  /** One `DictReader` row for a non-blank record. */
  function DictRow(header: seq<string>, record: seq<string>): Row {
    var d := ZipRow(header, record);
    if |header| > |record| then PadRow(d, header[|record|..]) else d
  }

  lemma {:induction false} ZipRowKeys(header: seq<string>, record: seq<string>)
    ensures forall k :: k in ZipRow(header, record) <==> k in header[..Min(|header|, |record|)]
    decreases |header|
  {
    var n := Min(|header|, |record|);
    if n > 0 {
      ZipRowKeys(header[..n - 1], record[..n - 1]);
      assert header[..n - 1][..n - 1] == header[..n - 1];
      assert header[..n] == header[..n - 1] + [header[n - 1]];
    }
  }

  lemma {:induction false} ZipRowValues(header: seq<string>, record: seq<string>)
    requires Distinct(header)
    ensures forall i :: 0 <= i < Min(|header|, |record|) ==>
      header[i] in ZipRow(header, record) && ZipRow(header, record)[header[i]] == Some(record[i])
    decreases |header|
  {
    var n := Min(|header|, |record|);
    if n > 0 {
      var h := header[..n - 1];
      assert Distinct(h);
      ZipRowValues(h, record[..n - 1]);
      forall i | 0 <= i < n - 1 ensures header[i] != header[n - 1] {
      }
    }
  }

  lemma {:induction false} PadRowFacts(d: Row, keys: seq<string>)
    ensures forall k :: k in PadRow(d, keys) <==> k in d || k in keys
    ensures forall k :: k in keys ==> PadRow(d, keys)[k] == None
    ensures forall k :: k in d && k !in keys ==> PadRow(d, keys)[k] == d[k]
    decreases |keys|
  {
    if keys != [] {
      PadRowFacts(d[keys[0] := None], keys[1..]);
    }
  }

  /** A row has exactly the header's names as keys; a name past the end of a short
      record holds None; with distinct names, each of the others holds its own
      value of the record. */
  lemma DictRowFacts(header: seq<string>, record: seq<string>)
    ensures forall k :: k in DictRow(header, record) <==> k in header
    ensures forall i :: |record| <= i < |header| ==> DictRow(header, record)[header[i]] == None
    ensures Distinct(header) ==> forall i :: 0 <= i < |header| && i < |record| ==>
      DictRow(header, record)[header[i]] == Some(record[i])
  {
    ZipRowKeys(header, record);
    var n := Min(|header|, |record|);
    if |header| > |record| {
      PadRowFacts(ZipRow(header, record), header[|record|..]);
      assert header == header[..n] + header[|record|..];
      forall i | |record| <= i < |header| ensures header[i] in header[|record|..] {
        assert header[|record|..][i - |record|] == header[i];
      }
    } else {
      assert header[..n] == header;
    }
    if Distinct(header) {
      ZipRowValues(header, record);
      if |header| > |record| {
        forall i | 0 <= i < |record| ensures header[i] !in header[|record|..] {
          forall m | 0 <= m < |header| - |record| ensures header[|record|..][m] != header[i] {
            assert header[|record|..][m] == header[|record| + m];
          }
        }
      }
    }
  }

  // ---------------------------------------------------------- one row

  /** How the loop dealt with one row. */
  datatype RowOutcome =
    | Imported(fields: EventFields) // the event was created
    | UnknownCreator                // `CustomUser.DoesNotExist`, reported; next row
    | BadValue                      // `ValueError` from `strptime`, reported; next row
    | MissingField                  // `KeyError`, reported; next row
    | Unexpected                    // any other exception, reported; next row
    | Raised                        // `KeyError` on `creator`, outside every handler

  /** `value.strip().lower() in ['true', '1']`. */
  predicate PromotedText(value: string) {
    Lower(Strip(value)) in {"true", "1"}
  }

  /** `row.get('is_promoted', '').strip().lower() in ['true', '1']`; `None` where the
      value is Python's None and `.strip()` raises `AttributeError`. */
  function PromotedFlag(row: Row): Option<bool> {
    if "is_promoted" !in row then Some(PromotedText(""))
    else if row["is_promoted"].None? then None
    else Some(PromotedText(row["is_promoted"].value))
  }

  /** The body of the loop for one row, in the order the code evaluates it: the
      creator lookup, `strptime` on the date, the flag, then the three text columns
      passed to `Event.objects.create` (a None there violates NOT NULL). */
  function ProcessRow(users: seq<User>, row: Row): RowOutcome {
    if "creator" !in row then Raised
    else match FindByUsername(users, row["creator"])
    case None => UnknownCreator
    case Some(creator) =>
      if "date" !in row then MissingField
      else if row["date"].None? then Unexpected
      else match ParseDate(row["date"].value)
      case None => BadValue
      case Some(date) =>
        match PromotedFlag(row)
        case None => Unexpected
        case Some(promoted) =>
          if "title" !in row || "description" !in row || "location" !in row then MissingField
          else if row["title"].None? || row["description"].None? || row["location"].None? then Unexpected
          else Imported(EventFields(row["title"].value, row["description"].value, row["location"].value,
                                    date, creator.id, promoted))
  }

  /** The flag is set exactly when the value, without surrounding whitespace, is
      "true" in any letter case or "1". */
  lemma PromotedTextMeaning(value: string)
    ensures PromotedText(value) <==>
      exists i, j :: 0 <= i <= j <= |value| && AllSpace(value[..i]) && AllSpace(value[j..])
        && Lower(value[i..j]) in {"true", "1"}
  {
    if !PromotedText(value) {
      forall i, j | 0 <= i <= j <= |value| && AllSpace(value[..i]) && AllSpace(value[j..])
        ensures Lower(value[i..j]) !in {"true", "1"}
      {
        if Lower(value[i..j]) in {"true", "1"} {
          var core := value[i..j];
          assert |core| == |Lower(core)| && |core| > 0;
          assert Lower(core)[0] == LowerChar(core[0]);
          assert Lower(core)[|core| - 1] == LowerChar(core[|core| - 1]);
          assert core[0] == value[i] && core[|core| - 1] == value[j - 1];
          StripUnique(value, i, j);
        }
      }
    }
  }

  /** A missing `is_promoted` column reads as false; a None value raises. */
  lemma PromotedFlagCases(row: Row)
    ensures "is_promoted" !in row ==> PromotedFlag(row) == Some(false)
    ensures "is_promoted" in row && row["is_promoted"].None? ==> PromotedFlag(row).None?
  {
    assert Lower("") == "";
  }

  /** What each row leads to, case by case in the order the code checks. */
  lemma ProcessRowOutcomes(users: seq<User>, row: Row)
    requires forall c :: c in ExpectedColumns ==> c in row
    ensures ProcessRow(users, row) != Raised && ProcessRow(users, row) != MissingField
    ensures ProcessRow(users, row) == UnknownCreator <==>
      row["creator"].None? || forall u :: u in users ==> u.username != row["creator"].value
    ensures ProcessRow(users, row) == BadValue <==>
      && FindByUsername(users, row["creator"]).Some?
      && row["date"].Some? && ParseDate(row["date"].value).None?
    ensures ProcessRow(users, row).Imported? <==>
      && FindByUsername(users, row["creator"]).Some?
      && row["date"].Some? && ParseDate(row["date"].value).Some?
      && row["is_promoted"].Some?
      && row["title"].Some? && row["description"].Some? && row["location"].Some?
    ensures ProcessRow(users, row).Imported? ==>
      var f := ProcessRow(users, row).fields;
      && (exists u :: u in users && u.id == f.creator && Some(u.username) == row["creator"])
      && Some(f.title) == row["title"] && Some(f.description) == row["description"]
      && Some(f.location) == row["location"]
      && Some(f.date) == ParseDate(row["date"].value)
      && f.isPromoted == PromotedText(row["is_promoted"].value)
  {
    assert "creator" in ExpectedColumns && "date" in ExpectedColumns && "is_promoted" in ExpectedColumns;
    assert "title" in ExpectedColumns && "description" in ExpectedColumns && "location" in ExpectedColumns;
  }

  // ---------------------------------------------------------- the loop

  /** The event a non-blank record yields, if any; `DictReader` skips blank records. */
  function RowImport(users: seq<User>, header: seq<string>, record: seq<string>): seq<EventFields> {
    if record == [] then []
    else match ProcessRow(users, DictRow(header, record))
      case Imported(f) => [f]
      case _ => []
  }

  /** The events the import creates from `rows`, in order. */
  function ImportRows(users: seq<User>, header: seq<string>, rows: seq<seq<string>>): seq<EventFields>
    decreases |rows|
  {
    if rows == [] then [] else RowImport(users, header, rows[0]) + ImportRows(users, header, rows[1..])
  }

  /** Once the columns are all present, no row raises `KeyError`, so no row stops
      the import. */
  lemma NoKeyError(users: seq<User>, header: seq<string>, record: seq<string>)
    requires MissingColumns(header) == [] && record != []
    ensures ProcessRow(users, DictRow(header, record)) != Raised
    ensures ProcessRow(users, DictRow(header, record)) != MissingField
  {
    DictRowFacts(header, record);
    ProcessRowOutcomes(users, DictRow(header, record));
  }

  /** Rows are handled independently: a failed row is skipped and the rows after
      it are processed as if it were not there. */
  lemma {:induction false} ImportRowsConcat(users: seq<User>, header: seq<string>, a: seq<seq<string>>, b: seq<seq<string>>)
    ensures ImportRows(users, header, a + b) == ImportRows(users, header, a) + ImportRows(users, header, b)
    decreases |a|
  {
    if a == [] {
      assert a + b == b;
    } else {
      assert (a + b)[1..] == a[1..] + b;
      ImportRowsConcat(users, header, a[1..], b);
    }
  }

  /** A row that yields no event, whatever the reason, is skipped: the rows on
      both sides are imported as they would be without it. */
  lemma {:induction false} SkippedRow(users: seq<User>, header: seq<string>, a: seq<seq<string>>,
                                      record: seq<string>, b: seq<seq<string>>)
    requires RowImport(users, header, record) == []
    ensures ImportRows(users, header, a + [record] + b) == ImportRows(users, header, a) + ImportRows(users, header, b)
  {
    assert [record][1..] == [];
    assert ImportRows(users, header, [record]) == RowImport(users, header, record) + ImportRows(users, header, []);
    ImportRowsConcat(users, header, a, [record]);
    ImportRowsConcat(users, header, a + [record], b);
  }

  /** A row whose creator does not exist adds nothing, and the rows on both sides
      are imported as they would be without it. */
  lemma UnknownCreatorSkipped(users: seq<User>, header: seq<string>, a: seq<seq<string>>,
                              record: seq<string>, b: seq<seq<string>>)
    requires record != [] && ProcessRow(users, DictRow(header, record)) == UnknownCreator
    ensures ImportRows(users, header, a + [record] + b) == ImportRows(users, header, a) + ImportRows(users, header, b)
  {
    RowImportCases(users, header, record);
    SkippedRow(users, header, a, record, b);
  }

  /** One more row adds what that row yields. */
  lemma {:induction false} ImportRowsSnoc(users: seq<User>, header: seq<string>, rows: seq<seq<string>>, i: nat)
    requires i < |rows|
    ensures ImportRows(users, header, rows[..i + 1]) == ImportRows(users, header, rows[..i]) + RowImport(users, header, rows[i])
  {
    assert rows[..i + 1] == rows[..i] + [rows[i]];
    ImportRowsConcat(users, header, rows[..i], [rows[i]]);
    assert ImportRows(users, header, [rows[i]]) == RowImport(users, header, rows[i]) + ImportRows(users, header, []);
  }

  /** Every imported event names an existing creator, and there is at most one per row. */
  lemma {:induction false} ImportedCreatorsExist(users: seq<User>, header: seq<string>, rows: seq<seq<string>>)
    ensures |ImportRows(users, header, rows)| <= |rows|
    ensures forall f :: f in ImportRows(users, header, rows) ==> HasUser(users, f.creator)
    decreases |rows|
  {
    if rows != [] {
      ImportedCreatorsExist(users, header, rows[1..]);
      if rows[0] != [] {
        var row := DictRow(header, rows[0]);
        var o := ProcessRow(users, row);
        if o.Imported? {
          var u := FindByUsername(users, row["creator"]).value;
          assert o.fields.creator == u.id;
        }
      }
    }
  }

  /** The rows `Event.objects.create` adds for `fields`, from primary key `next` on. */
  function Materialise(next: EventId, fields: seq<EventFields>): (r: seq<Event>)
    ensures |r| == |fields|
  {
    seq(|fields|, i requires 0 <= i < |fields| => NewEvent(next + i, fields[i]))
  }

  /** The state after inserting the events for `fields`, one after the other. */
  function AddEvents(s: State, fields: seq<EventFields>): State
    decreases |fields|
  {
    if fields == [] then s
    else AddEventRow(AddEvents(s, fields[..|fields| - 1]), fields[|fields| - 1])
  }

  lemma {:induction false} AddEventsSnoc(s: State, fields: seq<EventFields>, f: EventFields)
    ensures AddEvents(s, fields + [f]) == AddEventRow(AddEvents(s, fields), f)
  {
    assert (fields + [f])[..|fields|] == fields;
  }

  lemma {:induction false} AddEventsFacts(s: State, fields: seq<EventFields>)
    ensures AddEvents(s, fields) ==
      s.(events := s.events + Materialise(s.nextEventId, fields), nextEventId := s.nextEventId + |fields|)
    decreases |fields|
  {
    if fields != [] {
      var init := fields[..|fields| - 1];
      AddEventsFacts(s, init);
      var m := Materialise(s.nextEventId, fields);
      assert m == Materialise(s.nextEventId, init) + [NewEvent(s.nextEventId + |init|, fields[|fields| - 1])];
    }
  }

  lemma {:induction false} AddEventsPreservesValid(s: State, fields: seq<EventFields>)
    requires WellFormed(s) && forall f :: f in fields ==> HasUser(s.users, f.creator)
    ensures WellFormed(AddEvents(s, fields)) && AddEvents(s, fields).users == s.users
    decreases |fields|
  {
    if fields != [] {
      var init := fields[..|fields| - 1];
      assert forall f :: f in init ==> f in fields;
      AddEventsPreservesValid(s, init);
      AddEventPreservesValid(AddEvents(s, init), fields[|fields| - 1]);
    }
  }

  /** What the view answers: the upload form again (its file was refused), the
      missing columns, or the number of events imported. */
  datatype ImportReply = FormRefused | ColumnsMissing(columns: seq<string>) | ImportedEvents(count: nat)

  lemma RowImportCases(users: seq<User>, header: seq<string>, record: seq<string>)
    ensures record != [] && ProcessRow(users, DictRow(header, record)).Imported? ==>
      RowImport(users, header, record) == [ProcessRow(users, DictRow(header, record)).fields]
    ensures !(record != [] && ProcessRow(users, DictRow(header, record)).Imported?) ==>
      RowImport(users, header, record) == []
  {
  }

  /** The `for row in reader` loop: each row that passes every check becomes an
      event, and `successCount` counts them. The loop runs only after the header
      check; without a `creator` column, `row['creator']` would raise a `KeyError`
      that no handler catches. */
  method ImportLoop(db: Db, header: seq<string>, rows: seq<seq<string>>) returns (successCount: nat)
    requires HasExpectedColumns(header)
    modifies db
    ensures db.Snapshot() == AddEvents(old(db.Snapshot()), ImportRows(old(db.users), header, rows))
    ensures successCount == |ImportRows(old(db.users), header, rows)|
  {
    ghost var s0 := db.Snapshot();
    successCount := 0;
    var i := 0;
    while i < |rows|
      invariant 0 <= i <= |rows|
      invariant db.users == s0.users
      invariant db.Snapshot() == AddEvents(s0, ImportRows(s0.users, header, rows[..i]))
      invariant successCount == |ImportRows(s0.users, header, rows[..i])|
    {
      ghost var before := ImportRows(s0.users, header, rows[..i]);
      ImportRowsSnoc(s0.users, header, rows, i);
      RowImportCases(s0.users, header, rows[i]);
      if rows[i] != [] {
        var outcome := ProcessRow(db.users, DictRow(header, rows[i]));
        if outcome.Imported? {
          var e := db.InsertEvent(outcome.fields);
          successCount := successCount + 1;
          AddEventsSnoc(s0, before, outcome.fields);
        } else {
          assert before + [] == before;
        }
      } else {
        assert before + [] == before;
      }
      i := i + 1;
    }
    assert rows[..|rows|] == rows;
  }

  /** `EventAdmin.import_csv` for a POSTed form; `records` are the CSV records of
      the uploaded file, header first. */
  method ImportCsv(db: Db, records: seq<seq<string>>) returns (reply: ImportReply)
    requires db.Valid()
    modifies db
    ensures db.Valid()
    ensures !FormAccepts(records) ==> reply == FormRefused && db.Snapshot() == old(db.Snapshot())
    ensures FormAccepts(records) && MissingColumns(records[0]) != [] ==>
      reply == ColumnsMissing(MissingColumns(records[0])) && db.Snapshot() == old(db.Snapshot())
    ensures FormAccepts(records) && MissingColumns(records[0]) == [] ==>
      var fields := ImportRows(old(db.users), records[0], records[1..]);
      && reply == ImportedEvents(|fields|)
      && db.Snapshot() == AddEvents(old(db.Snapshot()), fields)
  {
    if !FormAccepts(records) {
      return FormRefused;
    }
    var header := records[0];
    var missing := MissingColumns(header);
    if missing != [] {
      return ColumnsMissing(missing);
    }
    ghost var s0 := db.Snapshot();
    var rows := records[1..];
    var successCount := ImportLoop(db, header, rows);
    ImportedCreatorsExist(s0.users, header, rows);
    AddEventsPreservesValid(s0, ImportRows(s0.users, header, rows));
    reply := ImportedEvents(successCount);
  }

  // ------------------------------------------------- attending events display

  const NoEvents: string := "No events"
  const LinkSeparator: string := "<br>"

  /** `obj.attending_events.all()`: the events whose attendees include `u`. */
  function AttendingEvents(events: seq<Event>, u: UserId): (r: seq<Event>)
    ensures forall e :: e in r <==> e in events && u in e.attendees
  {
    Filter(events, (e: Event) => u in e.attendees)
  }

  /** `reverse('admin:PerfectSpot_event_change', args=[id])`; `adminRoot` is the
      path at which the project mounts the admin site. */
  function ChangeUrl(adminRoot: string, id: EventId): string {
    adminRoot + "PerfectSpot/event/" + NatToString(id) + "/change/"
  }

  /** The link the loop appends, with the URL and title pasted in as they are. */
  function RawLink(adminRoot: string, e: Event): string {
    "<a href=\"" + ChangeUrl(adminRoot, e.id) + "\">" + e.title + "</a>"
  }

  /** `str.format()` with no arguments: a doubled brace stands for itself, and any
      other brace raises (`IndexError`, `KeyError` or `ValueError`), shown as `None`. */
  function FormatNoArgs(s: string): Option<string>
    decreases |s|
  {
    if s == [] then Some([])
    else if s[0] == '{' || s[0] == '}' then
      if |s| >= 2 && s[1] == s[0] then Prepend(s[0], FormatNoArgs(s[2..])) else None
    else Prepend(s[0], FormatNoArgs(s[1..]))
  }

  function Prepend(c: char, r: Option<string>): Option<string> {
    if r.None? then None else Some([c] + r.value)
  }

  predicate NoBraces(s: string) {
    '{' !in s && '}' !in s
  }

  /** Text without braces goes through `str.format()` unchanged, and so does a
      brace-free prefix of any text. */
  lemma {:induction false} FormatNoArgsPrefix(a: string, b: string)
    requires NoBraces(a)
    ensures FormatNoArgs(a + b) == (if FormatNoArgs(b).None? then None else Some(a + FormatNoArgs(b).value))
    decreases |a|
  {
    if a == [] {
      assert a + b == b;
      if FormatNoArgs(b).Some? {
        assert a + FormatNoArgs(b).value == FormatNoArgs(b).value;
      }
    } else {
      assert (a + b)[0] == a[0] && (a + b)[1..] == a[1..] + b;
      assert a[0] in a;
      assert forall c :: c in a[1..] ==> c in a;
      FormatNoArgsPrefix(a[1..], b);
      if FormatNoArgs(b).Some? {
        assert [a[0]] + (a[1..] + FormatNoArgs(b).value) == a + FormatNoArgs(b).value;
      }
    }
  }

  lemma FormatNoArgsPlain(s: string)
    requires NoBraces(s)
    ensures FormatNoArgs(s) == Some(s)
  {
    FormatNoArgsPrefix(s, []);
    assert s + [] == s;
  }

  /** As written: the joined links go through `format_html` with no arguments, which
      only applies `str.format()` and marks the result safe. `None` is the
      exception that raises. */
  function DisplayAsWritten(events: seq<Event>, u: UserId, adminRoot: string): Option<string> {
    var attending := AttendingEvents(events, u);
    if attending == [] then Some(NoEvents)
    else FormatNoArgs(Join(seq(|attending|, i requires 0 <= i < |attending| => RawLink(adminRoot, attending[i])), LinkSeparator))
  }

  lemma NatToStringDigits(n: nat)
    ensures forall c :: c in NatToString(n) ==> '0' <= c <= '9'
  {
  }

  /** A title with a replacement field makes the page raise instead of listing the
      event. */
  lemma BraceTitleRaises(e: Event, u: UserId, adminRoot: string)
    requires NoBraces(adminRoot) && u in e.attendees && e.title == "{x}"
    ensures DisplayAsWritten([e], u, adminRoot) == None
  {
    var head := "<a href=\"" + ChangeUrl(adminRoot, e.id) + "\">";
    HeadNoBraces(adminRoot, e.id);
    assert AttendingEvents([e], u) == [e];
    var links := seq(1, i requires 0 <= i < 1 => RawLink(adminRoot, e));
    assert Join(links, LinkSeparator) == links[0] == RawLink(adminRoot, e);
    assert RawLink(adminRoot, e) == head + ("{x}" + "</a>");
    FormatNoArgsPrefix(head, "{x}" + "</a>");
  }

  /** A doubled brace in a title is shown as a single one. */
  lemma DoubledBraceTitleAltered(e: Event, u: UserId, adminRoot: string)
    requires NoBraces(adminRoot) && u in e.attendees && e.title == "{{"
    ensures DisplayAsWritten([e], u, adminRoot) ==
      Some("<a href=\"" + ChangeUrl(adminRoot, e.id) + "\">{</a>")
  {
    var head := "<a href=\"" + ChangeUrl(adminRoot, e.id) + "\">";
    HeadNoBraces(adminRoot, e.id);
    assert AttendingEvents([e], u) == [e];
    var links := seq(1, i requires 0 <= i < 1 => RawLink(adminRoot, e));
    assert Join(links, LinkSeparator) == links[0] == RawLink(adminRoot, e);
    assert RawLink(adminRoot, e) == head + ("{{" + "</a>");
    FormatNoArgsPrefix(head, "{{" + "</a>");
    assert FormatNoArgs("{{" + "</a>") == Some("{</a>") by {
      var s := "{{" + "</a>";
      assert s[0] == '{' && s[1] == '{' && s[2..] == "</a>";
      FormatNoArgsPlain("</a>");
      assert FormatNoArgs(s) == Prepend('{', FormatNoArgs("</a>"));
      assert ['{'] + "</a>" == "{</a>";
    }
    assert head + "{</a>" == "<a href=\"" + ChangeUrl(adminRoot, e.id) + "\">{</a>";
  }

  /** Markup in a title reaches the page as markup. */
  lemma MarkupTitleUnescaped(e: Event, u: UserId, adminRoot: string)
    requires NoBraces(adminRoot) && u in e.attendees && e.title == "<b>"
    ensures DisplayAsWritten([e], u, adminRoot) == Some(RawLink(adminRoot, e))
    ensures Escape(e.title) != e.title
  {
    assert AttendingEvents([e], u) == [e];
    var links := seq(1, i requires 0 <= i < 1 => RawLink(adminRoot, e));
    assert Join(links, LinkSeparator) == links[0] == RawLink(adminRoot, e);
    RawLinkNoBraces(adminRoot, e);
    FormatNoArgsPlain(RawLink(adminRoot, e));
    assert IsMarkup(e.title[0]);
    EscapeUnchangedIff(e.title);
  }

  /** `django.utils.html.escape` for one character. */
  function EscapeChar(c: char): string {
    if c == '&' then "&amp;"
    else if c == '<' then "&lt;"
    else if c == '>' then "&gt;"
    else if c == '"' then "&quot;"
    else if c == '\'' then "&#x27;"
    else [c]
  }

  /** `django.utils.html.escape`. */
  function Escape(s: string): string
    decreases |s|
  {
    if s == [] then [] else EscapeChar(s[0]) + Escape(s[1..])
  }

  predicate IsMarkup(c: char) {
    c == '&' || c == '<' || c == '>' || c == '"' || c == '\''
  }

  /** Text in which no tag or quote character appears. */
  predicate Inert(s: string) {
    '<' !in s && '>' !in s && '"' !in s && '\'' !in s
  }

  lemma EscapeCharInert(c: char)
    ensures Inert(EscapeChar(c))
  {
  }

  /** Escaped text holds no tag or quote characters. */
  lemma {:induction false} EscapeRemovesMarkup(s: string)
    ensures Inert(Escape(s))
    decreases |s|
  {
    if s != [] {
      EscapeCharInert(s[0]);
      EscapeRemovesMarkup(s[1..]);
      assert Escape(s) == EscapeChar(s[0]) + Escape(s[1..]);
    }
  }

  /** Escaping never shortens text, and lengthens any text holding a markup character. */
  lemma {:induction false} EscapeLength(s: string)
    ensures |Escape(s)| >= |s|
    ensures (exists k :: 0 <= k < |s| && IsMarkup(s[k])) ==> |Escape(s)| > |s|
    decreases |s|
  {
    if s != [] {
      EscapeLength(s[1..]);
      if exists k :: 0 <= k < |s| && IsMarkup(s[k]) {
        var k :| 0 <= k < |s| && IsMarkup(s[k]);
        if k > 0 {
          assert s[1..][k - 1] == s[k];
        }
      }
    }
  }

  /** Escaping leaves text without markup characters as it is. */
  lemma {:induction false} EscapeKeeps(s: string)
    requires forall k :: 0 <= k < |s| ==> !IsMarkup(s[k])
    ensures Escape(s) == s
    decreases |s|
  {
    if s != [] {
      assert !IsMarkup(s[0]);
      assert forall k :: 0 <= k < |s| - 1 ==> s[1..][k] == s[k + 1];
      EscapeKeeps(s[1..]);
      assert s == [s[0]] + s[1..];
    }
  }

  /** Escaping changes text exactly when it holds a markup character. */
  lemma EscapeUnchangedIff(s: string)
    ensures Escape(s) == s <==> forall k :: 0 <= k < |s| ==> !IsMarkup(s[k])
  {
    EscapeLength(s);
    if forall k :: 0 <= k < |s| ==> !IsMarkup(s[k]) {
      EscapeKeeps(s);
    }
  }

  /** Text with no brace and no markup character. */
  predicate Plain(s: string) {
    forall c :: c in s ==> !IsMarkup(c) && c != '{' && c != '}'
  }

  lemma PlainConcat(a: string, b: string)
    requires Plain(a) && Plain(b)
    ensures Plain(a + b)
  {
    forall c | c in a + b ensures c in a || c in b {
      var i :| 0 <= i < |a + b| && (a + b)[i] == c;
      if i >= |a| {
        assert b[i - |a|] == c;
      }
    }
  }

  lemma NoBracesConcat(a: string, b: string)
    requires NoBraces(a) && NoBraces(b)
    ensures NoBraces(a + b)
  {
    forall c | c in a + b ensures c in a || c in b {
      var i :| 0 <= i < |a + b| && (a + b)[i] == c;
      if i >= |a| {
        assert b[i - |a|] == c;
      }
    }
  }

  /** Escaping leaves plain text as it is. */
  lemma EscapePlain(s: string)
    requires Plain(s)
    ensures Escape(s) == s
  {
    forall k | 0 <= k < |s| ensures !IsMarkup(s[k]) {
      assert s[k] in s;
    }
    EscapeKeeps(s);
  }

  /** The link as intended: URL and title escaped, as
      `format_html('<a href="{}">{}</a>', url, title)` would give it. */
  function SafeLink(adminRoot: string, e: Event): string {
    "<a href=\"" + Escape(ChangeUrl(adminRoot, e.id)) + "\">" + Escape(e.title) + "</a>"
  }

  /** The display as intended: one escaped link per attended event, in order,
      joined by `<br>`, and "No events" when there is none. */
  function Display(events: seq<Event>, u: UserId, adminRoot: string): string {
    var attending := AttendingEvents(events, u);
    if attending == [] then NoEvents
    else Join(seq(|attending|, i requires 0 <= i < |attending| => SafeLink(adminRoot, attending[i])), LinkSeparator)
  }

  /** `attending_events_display` as corrected: the same loop building the `links`
      list and the same join, with each link built by `SafeLink`, so it computes
      `Display`; the code as written is `DisplayAsWritten`. */
  method SafeAttendingEventsDisplay(events: seq<Event>, u: UserId, adminRoot: string) returns (html: string)
    ensures html == Display(events, u, adminRoot)
  {
    var attending := AttendingEvents(events, u);
    if attending == [] {
      return NoEvents;
    }
    var links: seq<string> := [];
    for i := 0 to |attending|
      invariant |links| == i
      invariant forall k :: 0 <= k < i ==> links[k] == SafeLink(adminRoot, attending[k])
    {
      links := links + [SafeLink(adminRoot, attending[i])];
    }
    assert links == seq(|attending|, i requires 0 <= i < |attending| => SafeLink(adminRoot, attending[i]));
    html := Join(links, LinkSeparator);
  }

  /** "No events" exactly when the user attends nothing; otherwise the page starts
      with the link to the first attended event. */
  lemma DisplayShape(events: seq<Event>, u: UserId, adminRoot: string)
    ensures Display(events, u, adminRoot) == NoEvents <==> AttendingEvents(events, u) == []
    ensures AttendingEvents(events, u) != [] ==>
      SafeLink(adminRoot, AttendingEvents(events, u)[0]) <= Display(events, u, adminRoot)
  {
    var attending := AttendingEvents(events, u);
    if attending != [] {
      var links := seq(|attending|, i requires 0 <= i < |attending| => SafeLink(adminRoot, attending[i]));
      JoinHead(links, LinkSeparator);
      assert Display(events, u, adminRoot)[0] == '<';
    }
  }

  lemma ChangeUrlNoBraces(adminRoot: string, id: EventId)
    requires NoBraces(adminRoot)
    ensures NoBraces(ChangeUrl(adminRoot, id))
  {
    NatToStringDigits(id);
    var digits := NatToString(id);
    assert NoBraces(digits);
    NoBracesConcat(adminRoot, "PerfectSpot/event/");
    NoBracesConcat(adminRoot + "PerfectSpot/event/", digits);
    NoBracesConcat(adminRoot + "PerfectSpot/event/" + digits, "/change/");
  }

  lemma HeadNoBraces(adminRoot: string, id: EventId)
    requires NoBraces(adminRoot)
    ensures NoBraces("<a href=\"" + ChangeUrl(adminRoot, id) + "\">")
  {
    ChangeUrlNoBraces(adminRoot, id);
    NoBracesConcat("<a href=\"", ChangeUrl(adminRoot, id));
    NoBracesConcat("<a href=\"" + ChangeUrl(adminRoot, id), "\">");
  }

  /** With no brace in the admin path or the title, the raw link has none. */
  lemma RawLinkNoBraces(adminRoot: string, e: Event)
    requires NoBraces(adminRoot) && NoBraces(e.title)
    ensures NoBraces(RawLink(adminRoot, e))
  {
    var head := "<a href=\"" + ChangeUrl(adminRoot, e.id) + "\">";
    HeadNoBraces(adminRoot, e.id);
    NoBracesConcat(head, e.title);
    NoBracesConcat(head + e.title, "</a>");
  }

  lemma ChangeUrlPlain(adminRoot: string, id: EventId)
    requires Plain(adminRoot)
    ensures Plain(ChangeUrl(adminRoot, id))
  {
    NatToStringDigits(id);
    var digits := NatToString(id);
    assert Plain(digits);
    PlainConcat(adminRoot, "PerfectSpot/event/");
    PlainConcat(adminRoot + "PerfectSpot/event/", digits);
    PlainConcat(adminRoot + "PerfectSpot/event/" + digits, "/change/");
  }

  /** With a plain admin path and title, the raw link is brace-free and equals the
      escaped one. */
  lemma PlainLink(adminRoot: string, e: Event)
    requires Plain(adminRoot) && Plain(e.title)
    ensures RawLink(adminRoot, e) == SafeLink(adminRoot, e) && NoBraces(RawLink(adminRoot, e))
  {
    var url := ChangeUrl(adminRoot, e.id);
    ChangeUrlPlain(adminRoot, e.id);
    EscapePlain(url);
    EscapePlain(e.title);
    assert NoBraces(e.title);
    RawLinkNoBraces(adminRoot, e);
  }

  /** Where no title and not the admin path holds a brace or a markup character,
      the page as written and as intended are the same. */
  lemma DisplayAgreesOnPlainTitles(events: seq<Event>, u: UserId, adminRoot: string)
    requires Plain(adminRoot)
    requires forall e :: e in events && u in e.attendees ==> Plain(e.title)
    ensures DisplayAsWritten(events, u, adminRoot) == Some(Display(events, u, adminRoot))
  {
    var attending := AttendingEvents(events, u);
    if attending != [] {
      var raw := seq(|attending|, i requires 0 <= i < |attending| => RawLink(adminRoot, attending[i]));
      var safe := seq(|attending|, i requires 0 <= i < |attending| => SafeLink(adminRoot, attending[i]));
      forall i | 0 <= i < |attending| ensures raw[i] == safe[i] && NoBraces(raw[i]) {
        assert attending[i] in attending;
        PlainLink(adminRoot, attending[i]);
      }
      assert raw == safe;
      JoinExcludes(raw, LinkSeparator, '{');
      JoinExcludes(raw, LinkSeparator, '}');
      FormatNoArgsPlain(Join(raw, LinkSeparator));
    }
  }
}
