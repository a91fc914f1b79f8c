/**
  The scraping and form-building layer of the XpertDNS client: the records
  table of a domain becomes the domain's `records`, the domains table becomes
  the client's `domains`, and record changes become form payloads. Pages are
  given already parsed (see module Html); fetching them is not modelled.
*/
module XpertDns {
  import opened Wrappers
  import opened Html
  import opened Records
  import opened DomainLink

  /** The errors the client raises. */
  datatype XpertError =
    | MissingParameter(parameter: string)  // MissingParameterException
    | NotAString(index: nat)               // TypeError from str.join: item `index` is not a str

  // ---------------------------------------------------------------------------
  // The records table of a domain
  // ---------------------------------------------------------------------------

  /** Rows of the records table have eleven cells. */
  const RecordColumns: nat := 11

  /** An eleven-cell row whose last cell holds an input element. */
  predicate HasRecordId(row: Row)
  {
    |row| == RecordColumns && |row[10].values| > 0
  }

  /**
    The element lookup `tds[10].find_all('input')[0]` succeeds on every
    eleven-cell row after the first (the first is the header and is not read).
  */
  predicate RecordsPageOk(doc: Document)
  {
    var rows := RowsOfWidth(doc, RecordColumns);
    forall k | 1 <= k < |rows| :: HasRecordId(rows[k])
  }

  /** An attribute as Python sees it: a str, or None when absent. */
  function AttributeValue(a: Option<string>): Value
  {
    match a
    case Some(s) => Str(s)
    case None => Null
  }

  /** The keyword arguments `__parse_records` passes to `Record` for one row. */
  function RowKwargs(row: Row): Kwargs
    requires HasRecordId(row)
  {
    map[
      "name" := Str(row[0].text),
      "type" := Str(Strip(row[1].text)),
      "address" := Str(Strip(row[2].text)),
      "distance" := Str(Strip(row[3].text)),
      "weight" := Str(Strip(row[4].text)),
      "port" := Str(Strip(row[5].text)),
      "caa_flag" := Str(Strip(row[6].text)),
      "caa_tag" := Str(Strip(row[7].text)),
      "ttl" := Str(Strip(row[8].text)),
      "dyndns" := Str(Strip(row[9].text)),
      "record_id" := AttributeValue(row[10].values[0])]
  }

  /** The stripped texts of `cells`, in order. */
  function StrippedTexts(cells: seq<Cell>): (texts: seq<string>)
    ensures |texts| == |cells|
  {
    if cells == [] then []
    else StrippedTexts(cells[..|cells| - 1]) + [Strip(cells[|cells| - 1].text)]
  }

  lemma {:induction false} StrippedTextsAt(cells: seq<Cell>, k: nat)
    requires k < |cells|
    ensures StrippedTexts(cells)[k] == Strip(cells[k].text)
  {
    if k < |cells| - 1 {
      StrippedTextsAt(cells[..|cells| - 1], k);
    }
  }

  /** The record one row of the records table describes: the raw name, cells 1 to 9 stripped, the id. */
  function RecordOfRow(row: Row): Record
    requires HasRecordId(row)
  {
    var texts := StrippedTexts(row[1..10]);
    Record(
      name := Str(row[0].text),
      recordType := Str(texts[0]),
      address := Str(texts[1]),
      distance := Str(texts[2]),
      weight := Str(texts[3]),
      port := Str(texts[4]),
      caaFlag := Str(texts[5]),
      caaTag := Str(texts[6]),
      dyndns := Str(texts[8]),
      ttl := Str(texts[7]),
      recordId := AttributeValue(row[10].values[0]))
  }

  /**
    The column mapping: the name is the raw text of cell 0;
    type, address, distance, weight, port, CAA flag and CAA tag are the
    stripped texts of cells 1 to 7; cell 8 is the ttl and cell 9 the dyndns
    flag, both stripped (so a parsed ttl is a str, never the integer default);
    the record id is the value of the first input in cell 10.
  */
  lemma RecordOfRowFields(row: Row)
    requires HasRecordId(row)
    ensures var r := RecordOfRow(row);
      && r.name == Str(row[0].text)
      && r.recordType == Str(Strip(row[1].text))
      && r.address == Str(Strip(row[2].text))
      && r.distance == Str(Strip(row[3].text))
      && r.weight == Str(Strip(row[4].text))
      && r.port == Str(Strip(row[5].text))
      && r.caaFlag == Str(Strip(row[6].text))
      && r.caaTag == Str(Strip(row[7].text))
      && r.ttl == Str(Strip(row[8].text))
      && r.dyndns == Str(Strip(row[9].text))
      && r.recordId == AttributeValue(row[10].values[0])
  {
    forall k | 0 <= k < 9 ensures StrippedTexts(row[1..10])[k] == Strip(row[k + 1].text) {
      StrippedTextsAt(row[1..10], k);
    }
  }

  /** The record is `Record(**RowKwargs(row))`; every field is passed, so no default applies. */
  lemma RecordOfRowIsKeywordCall(row: Row)
    requires HasRecordId(row)
    ensures RecordOfRow(row) == NewRecord(RowKwargs(row))
  {
    RecordOfRowFields(row);
  }

  function RecordsOfRows(rows: seq<Row>): (rs: seq<Record>)
    requires forall k | 0 <= k < |rows| :: HasRecordId(rows[k])
    ensures |rs| == |rows|
  {
    if rows == [] then []
    else RecordsOfRows(rows[..|rows| - 1]) + [RecordOfRow(rows[|rows| - 1])]
  }

  /** Record k comes from row k. */
  lemma {:induction false} RecordsOfRowsAt(rows: seq<Row>, k: nat)
    requires forall k | 0 <= k < |rows| :: HasRecordId(rows[k])
    requires k < |rows|
    ensures RecordsOfRows(rows)[k] == RecordOfRow(rows[k])
  {
    if k < |rows| - 1 {
      RecordsOfRowsAt(rows[..|rows| - 1], k);
    }
  }

  /** A page whose rows are all acceptable has acceptable prefixes. */
  lemma RecordsPagePrefix(doc: Document, i: nat)
    requires RecordsPageOk(doc) && i <= |doc|
    ensures RecordsPageOk(doc[..i])
  {
    RowsOfWidthPrefix(doc, i, RecordColumns);
  }

  /**
    The last row of an acceptable page is read as a record exactly when it has
    eleven cells and an eleven-cell row (the header) comes before it.
  */
  predicate IsRecordRow(before: Document, row: Row)
  {
    |row| == RecordColumns && RowsOfWidth(before, RecordColumns) != []
  }

  lemma RecordsPageLast(doc: Document)
    requires RecordsPageOk(doc) && doc != []
    ensures RecordsPageOk(doc[..|doc| - 1])
    ensures IsRecordRow(doc[..|doc| - 1], doc[|doc| - 1]) ==> HasRecordId(doc[|doc| - 1])
  {
    RecordsPagePrefix(doc, |doc| - 1);
    var before := RowsOfWidth(doc[..|doc| - 1], RecordColumns);
    if IsRecordRow(doc[..|doc| - 1], doc[|doc| - 1]) {
      assert RowsOfWidth(doc, RecordColumns)[|before|] == doc[|doc| - 1];
    }
  }

  /**
    The records a records page lists, row by row in the order `__parse_records`
    meets them: each eleven-cell row after the first one gives a record.
  */
  function RecordsOf(doc: Document): seq<Record>
    requires RecordsPageOk(doc)
    decreases |doc|
  {
    if doc == [] then []
    else
      var before := doc[..|doc| - 1];
      var row := doc[|doc| - 1];
      RecordsPageLast(doc);
      RecordsOf(before) + (if IsRecordRow(before, row) then [RecordOfRow(row)] else [])
  }

  /** Scanning one more row of a records page adds its record when it is a record row, and nothing otherwise. */
  lemma RecordsOfStep(doc: Document, i: nat)
    requires RecordsPageOk(doc) && i < |doc|
    ensures RecordsPageOk(doc[..i]) && RecordsPageOk(doc[..i + 1])
    ensures IsRecordRow(doc[..i], doc[i]) ==> HasRecordId(doc[i])
    ensures RecordsOf(doc[..i + 1])
         == RecordsOf(doc[..i]) + (if IsRecordRow(doc[..i], doc[i]) then [RecordOfRow(doc[i])] else [])
    ensures (RowsOfWidth(doc[..i + 1], RecordColumns) == [])
        == (RowsOfWidth(doc[..i], RecordColumns) == [] && |doc[i]| != RecordColumns)
  {
    RecordsPagePrefix(doc, i + 1);
    assert doc[..i + 1][..i] == doc[..i];
    RecordsPageLast(doc[..i + 1]);
    RowsOfWidthStep(doc, i, RecordColumns);
  }

  /**
    The records of a page, all at once: none when the page has no eleven-cell
    row, and otherwise one per eleven-cell row after the first, in order.
  */
  lemma {:induction false} RecordsOfRowsForm(doc: Document)
    requires RecordsPageOk(doc)
    ensures var rows := RowsOfWidth(doc, RecordColumns);
      && (rows == [] ==> RecordsOf(doc) == [])
      && (rows != [] ==> RecordsOf(doc) == RecordsOfRows(rows[1..]))
    decreases |doc|
  {
    if doc != [] {
      var before := doc[..|doc| - 1];
      var row := doc[|doc| - 1];
      RecordsPageLast(doc);
      RecordsOfRowsForm(before);
      var rows := RowsOfWidth(before, RecordColumns);
      assert RecordsOf(doc) == RecordsOf(before) + (if IsRecordRow(before, row) then [RecordOfRow(row)] else []);
      assert RowsOfWidth(doc, RecordColumns) == rows + (if |row| == RecordColumns then [row] else []);
      if IsRecordRow(before, row) {
        RecordsOfRowsSnoc(RowsOfWidth(doc, RecordColumns), rows, row);
      } else if |row| == RecordColumns {
        assert RowsOfWidth(doc, RecordColumns)[1..] == [];
        assert RecordsOf(before) == [] && RecordsOf(doc) == [];
      } else {
        assert RowsOfWidth(doc, RecordColumns) == rows && RecordsOf(doc) == RecordsOf(before);
      }
    }
  }

  lemma RecordsOfRowsSnoc(all: seq<Row>, rows: seq<Row>, row: Row)
    requires all == rows + [row] && rows != [] && HasRecordId(row)
    requires forall k | 1 <= k < |rows| :: HasRecordId(rows[k])
    ensures RecordsOfRows(all[1..]) == RecordsOfRows(rows[1..]) + [RecordOfRow(row)]
  {
    var rest := all[1..];
    assert rest == rows[1..] + [row];
    assert rest[..|rest| - 1] == rows[1..];
  }

  /**
    One record per eleven-cell row after the first, in document order: the
    count is max(0, n - 1) for n eleven-cell rows, and record k comes from
    eleven-cell row k + 1.
  */
  lemma RecordsOfShape(doc: Document)
    requires RecordsPageOk(doc)
    ensures var rows := RowsOfWidth(doc, RecordColumns);
      && |RecordsOf(doc)| == (if |rows| == 0 then 0 else |rows| - 1)
      && forall k | 0 <= k < |RecordsOf(doc)| :: RecordsOf(doc)[k] == RecordOfRow(rows[k + 1])
  {
    RecordsOfRowsForm(doc);
    var rows := RowsOfWidth(doc, RecordColumns);
    forall k | 0 <= k < |RecordsOf(doc)|
      ensures RecordsOf(doc)[k] == RecordOfRow(rows[k + 1])
    {
      RecordsOfRowsAt(rows[1..], k);
    }
  }

  /** A row whose width is not eleven, wherever it stands, changes nothing. */
  lemma RecordsIgnoreOtherRows(a: Document, row: Row, b: Document)
    requires |row| != RecordColumns
    requires RecordsPageOk(a + b)
    ensures RecordsPageOk(a + [row] + b)
    ensures RecordsOf(a + [row] + b) == RecordsOf(a + b)
  {
    RowsOfWidthAppend(a, [row], RecordColumns);
    RowsOfWidthAppend(a + [row], b, RecordColumns);
    RowsOfWidthAppend(a, b, RecordColumns);
    RowsOfWidthSingle(row, RecordColumns);
    assert RowsOfWidth(a + [row], RecordColumns) == RowsOfWidth(a, RecordColumns);
    RecordsOfRowsForm(a + [row] + b);
    RecordsOfRowsForm(a + b);
  }

  /**
    The first eleven-cell row is the header: after it, each eleven-cell row
    of the rest of the page is one record.
  */
  lemma RecordsAfterHeader(a: Document, header: Row, b: Document)
    requires RowsOfWidth(a, RecordColumns) == [] && |header| == RecordColumns
    requires RecordsPageOk(a + [header] + b)
    ensures forall k | 0 <= k < |RowsOfWidth(b, RecordColumns)| :: HasRecordId(RowsOfWidth(b, RecordColumns)[k])
    ensures RecordsOf(a + [header] + b) == RecordsOfRows(RowsOfWidth(b, RecordColumns))
  {
    RowsOfWidthAppend(a, [header], RecordColumns);
    RowsOfWidthAppend(a + [header], b, RecordColumns);
    RowsOfWidthSingle(header, RecordColumns);
    var rows := RowsOfWidth(a + [header] + b, RecordColumns);
    assert rows == [header] + RowsOfWidth(b, RecordColumns);
    assert rows[1..] == RowsOfWidth(b, RecordColumns);
    RecordsOfRowsForm(a + [header] + b);
  }

  // ---------------------------------------------------------------------------
  // The domains table
  // ---------------------------------------------------------------------------

  /** Rows of the domains table have eight cells. */
  const DomainColumns: nat := 8

  /** An eight-cell row whose last cell holds an anchor with an href. */
  predicate HasDomainLink(row: Row)
  {
    |row| == DomainColumns && |row[7].hrefs| > 0 && row[7].hrefs[0].Some?
  }

  /** `tds[7].find_all('a')[0].get('href')` is a str on every eight-cell row. */
  predicate DomainsPageOk(doc: Document)
  {
    var rows := RowsOfWidth(doc, DomainColumns);
    forall k | 0 <= k < |rows| :: HasDomainLink(rows[k])
  }

  /** The records page served for every domain the domains page lists parses. */
  predicate RecordPagesOk(doc: Document, recordsPages: string -> Document)
  {
    var rows := RowsOfWidth(doc, DomainColumns);
    forall k | 0 <= k < |rows| :: RecordsPageOk(recordsPages(rows[k][0].text))
  }

  /** What one row of the domains table says about a domain. */
  datatype DomainFields = DomainFields(
    domain: string,
    slave: bool,
    status: string,
    owner: string,
    groupOwner: string,
    domainId: Option<nat>)

  function DomainOfRow(row: Row): DomainFields
    requires HasDomainLink(row)
  {
    DomainFields(
      domain := row[0].text,
      slave := Strip(row[1].text) != "No",
      status := Strip(row[2].text),
      owner := Strip(row[4].text),
      groupOwner := Strip(row[5].text),
      domainId := FindDomainId(row[7].hrefs[0].value))
  }

  /**
    A domain is a slave unless the stripped text of cell 1 is exactly "No",
    so surrounding whitespace does not matter but case does; the other
    fields come from the raw text of cell 0 and the stripped texts of cells
    2, 4 and 5, and the id from the first link of cell 7.
  */
  lemma DomainOfRowFields(row: Row)
    requires HasDomainLink(row)
    ensures var d := DomainOfRow(row);
      && (!d.slave <==> Strip(row[1].text) == "No")
      && d.domain == row[0].text
      && d.status == Strip(row[2].text)
      && d.owner == Strip(row[4].text)
      && d.groupOwner == Strip(row[5].text)
      && (d.domainId.None? <==> forall i :: !MatchAt(row[7].hrefs[0].value, i))
      && (d.domainId.Some? ==> exists i ::
            FirstMatchFrom(row[7].hrefs[0].value, 0, i) && d.domainId.value == CapturedAt(row[7].hrefs[0].value, i))
  {
  }

  /** Padding the slave column with whitespace does not change the flag. */
  lemma SlaveIgnoresPadding(row: Row, left: string, right: string)
    requires HasDomainLink(row)
    requires AllSpace(left) && AllSpace(right)
    requires row[1].text == left + "No" + right
    ensures !DomainOfRow(row).slave
  {
    IsSpaceSpec('N');
    IsSpaceSpec('o');
    StripPadded(left, "No", right);
    assert Strip(row[1].text) == "No";
  }

  // ---------------------------------------------------------------------------
  // Form payloads
  // ---------------------------------------------------------------------------

  /** Python's `{**a, **b}`: every key of either side, and b's value wherever b has the key. */
  function Merge(a: map<string, Value>, b: map<string, Value>): (m: map<string, Value>)
    ensures m.Keys == a.Keys + b.Keys
    ensures forall key | key in b :: m[key] == b[key]
    ensures forall key | key in a && key !in b :: m[key] == a[key]
  {
    a + b
  }

  /** Python's `sep.join(xs)`. */
  function Join(xs: seq<string>, sep: char): string
  {
    if |xs| == 0 then ""
    else if |xs| == 1 then xs[0]
    else xs[0] + [sep] + Join(xs[1..], sep)
  }

  /** Python's `s.split(sep)`, the inverse of Join used to state what a joined id list means. */
  function Split(s: string, sep: char): (parts: seq<string>)
    ensures |parts| > 0
  {
    if |s| == 0 then [""]
    else if s[0] == sep then [""] + Split(s[1..], sep)
    else
      var rest := Split(s[1..], sep);
      [[s[0]] + rest[0]] + rest[1..]
  }

  lemma {:induction false} SplitNoSep(a: string, sep: char)
    requires sep !in a
    ensures Split(a, sep) == [a]
  {
    if |a| > 0 {
      SplitNoSep(a[1..], sep);
      assert [a[0]] + a[1..] == a;
    }
  }

  lemma {:induction false} SplitAfterSep(a: string, sep: char, b: string)
    requires sep !in a
    ensures Split(a + [sep] + b, sep) == [a] + Split(b, sep)
  {
    var s := a + [sep] + b;
    if |a| == 0 {
      assert s[1..] == b;
    } else {
      assert s[1..] == a[1..] + [sep] + b;
      SplitAfterSep(a[1..], sep, b);
      assert [a[0]] + a[1..] == a;
    }
  }

  /** The ids joined with ',' split back into the same ids, provided none contains ','. */
  lemma {:induction false} SplitJoin(xs: seq<string>, sep: char)
    requires |xs| > 0
    requires forall k | 0 <= k < |xs| :: sep !in xs[k]
    ensures Split(Join(xs, sep), sep) == xs
  {
    if |xs| == 1 {
      SplitNoSep(xs[0], sep);
    } else {
      SplitJoin(xs[1..], sep);
      SplitAfterSep(xs[0], sep, Join(xs[1..], sep));
      assert [xs[0]] + xs[1..] == xs;
    }
  }

  /**
    The ids of `records` in list order, or, as `','.join` raises a TypeError,
    the position of the first record whose id is not a str.
  */
  function RecordIds(records: seq<Record>): (r: Result<seq<string>, XpertError>)
    ensures r.Success? <==> forall k | 0 <= k < |records| :: records[k].recordId.Str?
    ensures r.Success? ==>
      && |r.value| == |records|
      && forall k | 0 <= k < |records| :: r.value[k] == records[k].recordId.s
    ensures r.Failure? ==> exists i | 0 <= i < |records| ::
      && r.error == NotAString(i)
      && !records[i].recordId.Str?
      && forall k | 0 <= k < i :: records[k].recordId.Str?
  {
    if records == [] then Success([])
    else if !records[0].recordId.Str? then Failure(NotAString(0))
    else
      match RecordIds(records[1..])
      case Success(ids) => Success([records[0].recordId.s] + ids)
      case Failure(NotAString(i)) => Failure(NotAString(i + 1))
      case Failure(e) => Failure(e)
  }

  /** The keys every record form carries besides the record's own. */
  const FormKeys: set<string> := {"state", "mode", "record_mode", "domain"}

  /** No form key is a record key, so `{**form, **record}` loses nothing of either. */
  lemma FormKeysDisjoint()
    ensures FormKeys !! RecordKeys
  {
  }

  /** The fields every record form starts from. */
  function FormBase(recordMode: string, domain: string): map<string, Value>
  {
    map["state" := Str("logged_in"), "mode" := Str("records"),
        "record_mode" := Str(recordMode), "domain" := Str(domain)]
  }

  /** A record dictionary merged onto the form fields: both survive whole. */
  lemma MergeOntoForm(recordMode: string, domain: string, b: map<string, Value>)
    requires b.Keys == RecordKeys
    ensures var data := Merge(FormBase(recordMode, domain), b);
      && data.Keys == FormKeys + RecordKeys
      && (forall key | key in RecordKeys :: data[key] == b[key])
      && data["state"] == Str("logged_in") && data["mode"] == Str("records")
      && data["record_mode"] == Str(recordMode) && data["domain"] == Str(domain)
  {
    FormKeysDisjoint();
  }

  /** Switching the mode of an add form gives the update form of the same fields. */
  lemma FormModeSwitch(domain: string, b: map<string, Value>)
    requires b.Keys == RecordKeys
    ensures Merge(FormBase("add_record_now", domain), b)["record_mode" := Str("edit_record_now")]
         == Merge(FormBase("edit_record_now", domain), b)
  {
    FormKeysDisjoint();
    MergeUpdate(FormBase("add_record_now", domain), b, "record_mode", Str("edit_record_now"));
    assert FormBase("add_record_now", domain)["record_mode" := Str("edit_record_now")]
        == FormBase("edit_record_now", domain);
  }

  /** Overwriting a key the right-hand side lacks is the same as overwriting it on the left. */
  lemma MergeUpdate(a: map<string, Value>, b: map<string, Value>, key: string, v: Value)
    requires key !in b
    ensures Merge(a, b)[key := v] == Merge(a[key := v], b)
  {
  }

  // ---------------------------------------------------------------------------
  // Domains
  // ---------------------------------------------------------------------------

  /** A value of a domain's dictionary: a plain value, or the list of its records. */
  datatype DomainValue = Scalar(value: Value) | RecordList(records: seq<Record>)

  class Domain {
    const domain: string
    const slave: bool
    const status: string
    const owner: string
    const groupOwner: string
    const domainId: Option<nat>
    var records: seq<Record>

    function Fields(): DomainFields
    {
      DomainFields(domain, slave, status, owner, groupOwner, domainId)
    }

    /** A domain reads its records from its records page as soon as it is made. */
    constructor (domain: string, slave: bool, status: string, owner: string, groupOwner: string,
                 domainId: Option<nat>, recordsPage: Document)
      requires RecordsPageOk(recordsPage)
      ensures Fields() == DomainFields(domain, slave, status, owner, groupOwner, domainId)
      ensures records == RecordsOf(recordsPage)
    {
      this.domain := domain;
      this.slave := slave;
      this.status := status;
      this.owner := owner;
      this.groupOwner := groupOwner;
      this.domainId := domainId;
      records := [];
      new;
      ParseRecords(recordsPage);
    }

    /** Appends the records the page lists, skipping every row but the eleven-cell ones and the first of those. */
    method ParseRecords(page: Document)
      requires RecordsPageOk(page)
      modifies this
      ensures records == old(records) + RecordsOf(page)
    {
      var first := true;
      for i := 0 to |page|
        invariant first <==> RowsOfWidth(page[..i], RecordColumns) == []
        invariant RecordsPageOk(page[..i])
        invariant records == old(records) + RecordsOf(page[..i])
      {
        var tds := page[i];
        RecordsOfStep(page, i);
        if |tds| != RecordColumns {
          continue;
        }
        if first {
          first := false;
          continue;
        }
        ghost var done := RecordsOf(page[..i]);
        var record := RecordOfRow(tds);
        records := records + [record];
        assert records == old(records) + (done + [record]);
      }
      assert page[..|page|] == page;
    }

    /** The form of `add_record` (`recordMode` "add_record_now") and `update_record` ("edit_record_now"). */
    function RecordForm(recordMode: string, record: Record): map<string, Value>
    {
      Merge(FormBase(recordMode, domain), Records.AsDict(record))
    }

    function AddRecordData(record: Record): map<string, Value>
    {
      RecordForm("add_record_now", record)
    }

    function UpdateRecordData(record: Record): map<string, Value>
    {
      RecordForm("edit_record_now", record)
    }

    /** `delete_record`: `del_id` is the record's id, whatever value it holds. */
    function DeleteRecordData(record: Record): (data: map<string, Value>)
    {
      map["state" := Str("logged_in"), "mode" := Str("records"),
          "record_mode" := Str("delete_recs_now"), "domain" := Str(domain),
          "del_id" := record.recordId]
    }

    /** `delete_records`: `del_id` is the ids joined with ','; it fails if an id is not a str. */
    function DeleteRecordsData(records: seq<Record>): (r: Result<map<string, Value>, XpertError>)
      ensures r.Success? <==> RecordIds(records).Success?
      ensures r.Failure? ==> r.error == RecordIds(records).error
    {
      match RecordIds(records)
      case Failure(e) => Failure(e)
      case Success(ids) =>
        Success(map["state" := Str("logged_in"), "mode" := Str("records"),
                    "record_mode" := Str("delete_recs_now"), "domain" := Str(domain),
                    "del_id" := Str(Join(ids, ','))])
    }

    /**
      The add and update forms hold the four form keys and every key of the
      record's dictionary; on a record key the record's value is sent, and
      the form keys keep their own values.
    */
    lemma RecordFormContents(recordMode: string, record: Record)
      ensures var data := RecordForm(recordMode, record);
        && data.Keys == FormKeys + RecordKeys
        && (forall key | key in RecordKeys :: data[key] == Records.AsDict(record)[key])
        && data["state"] == Str("logged_in") && data["mode"] == Str("records")
        && data["record_mode"] == Str(recordMode) && data["domain"] == Str(domain)
    {
      MergeOntoForm(recordMode, domain, Records.AsDict(record));
    }

    /** The two forms differ only in their record mode. */
    lemma AddAndUpdateForms(record: Record)
      ensures AddRecordData(record)["record_mode"] == Str("add_record_now")
      ensures UpdateRecordData(record)["record_mode"] == Str("edit_record_now")
      ensures AddRecordData(record)["record_mode" := Str("edit_record_now")] == UpdateRecordData(record)
    {
      var dict := Records.AsDict(record);
      MergeOntoForm("add_record_now", domain, dict);
      MergeOntoForm("edit_record_now", domain, dict);
      FormModeSwitch(domain, dict);
    }

    /** Deleting a list of one record sends the same form as deleting that record. */
    lemma DeleteOneAsList(record: Record)
      requires record.recordId.Str?
      ensures DeleteRecordsData([record]) == Success(DeleteRecordData(record))
    {
    }

    /**
      The `del_id` of `delete_records` lists the records' ids in order: split
      at ',' it gives them back, provided there is at least one record and no
      id contains ','.
    */
    lemma DeleteRecordsIds(records: seq<Record>)
      requires |records| > 0
      requires forall k | 0 <= k < |records| :: records[k].recordId.Str? && ',' !in records[k].recordId.s
      ensures DeleteRecordsData(records).Success?
      ensures var ids := RecordIds(records).value;
        && DeleteRecordsData(records).value["del_id"] == Str(Join(ids, ','))
        && Split(Join(ids, ','), ',') == ids
        && forall k | 0 <= k < |records| :: ids[k] == records[k].recordId.s
    {
      var ids := RecordIds(records).value;
      SplitJoin(ids, ',');
    }

    /** `Domain.as_dict()`. */
    function AsDict(): (m: map<string, DomainValue>)
      reads this
      ensures m.Keys == {"domain_id", "domain", "slave", "status", "owner", "group_owner", "records"}
      ensures m["domain_id"] == Scalar(if domainId.Some? then Int(domainId.value) else Null)
      ensures m["domain"] == Scalar(Str(domain)) && m["slave"] == Scalar(Bool(slave))
      ensures m["status"] == Scalar(Str(status)) && m["owner"] == Scalar(Str(owner))
      ensures m["group_owner"] == Scalar(Str(groupOwner))
      ensures m["records"] == RecordList(records)
    {
      map[
        "domain_id" := Scalar(match domainId case Some(n) => Int(n) case None => Null),
        "domain" := Scalar(Str(domain)),
        "slave" := Scalar(Bool(slave)),
        "status" := Scalar(Str(status)),
        "owner" := Scalar(Str(owner)),
        "group_owner" := Scalar(Str(groupOwner)),
        "records" := RecordList(records)]
    }
  }

  // ---------------------------------------------------------------------------
  // The client
  // ---------------------------------------------------------------------------

  /** The constructor's argument check: `email` first, then `password`. */
  function CheckParameters(kwargs: Kwargs): (r: Option<XpertError>)
    ensures r.None? <==> "email" in kwargs && "password" in kwargs
    ensures "email" !in kwargs ==> r == Some(MissingParameter("email"))
    ensures "email" in kwargs && "password" !in kwargs ==> r == Some(MissingParameter("password"))
  {
    if "email" !in kwargs then Some(MissingParameter("email"))
    else if "password" !in kwargs then Some(MissingParameter("password"))
    else None
  }

  function NamesOf(ds: seq<Domain>): (names: seq<string>)
    ensures |names| == |ds|
    ensures forall k | 0 <= k < |ds| :: names[k] == ds[k].domain
  {
    if ds == [] then [] else [ds[0].domain] + NamesOf(ds[1..])
  }

  /** A domain object holds what its row of the domains table says, and the records of its page. */
  ghost predicate DomainFromRow(d: Domain, row: Row, recordsPages: string -> Document)
    reads d
  {
    && HasDomainLink(row)
    && d.Fields() == DomainOfRow(row)
    && RecordsPageOk(recordsPages(d.domain))
    && d.records == RecordsOf(recordsPages(d.domain))
  }

  /** One domain object per row, in the same order. */
  ghost predicate DomainsFromRows(ds: seq<Domain>, rows: seq<Row>, recordsPages: string -> Document)
    reads ds
  {
    |ds| == |rows| && forall k | 0 <= k < |ds| :: DomainFromRow(ds[k], rows[k], recordsPages)
  }

  /** An eight-cell row met by the scan of the domains page carries its link and has a records page that parses. */
  lemma DomainRowStep(page: Document, recordsPages: string -> Document, i: nat)
    requires DomainsPageOk(page) && RecordPagesOk(page, recordsPages)
    requires i < |page| && |page[i]| == DomainColumns
    ensures HasDomainLink(page[i]) && RecordsPageOk(recordsPages(page[i][0].text))
    ensures RowsOfWidth(page[..i + 1], DomainColumns) == RowsOfWidth(page[..i], DomainColumns) + [page[i]]
  {
    RowsOfWidthStep(page, i, DomainColumns);
    RowsOfWidthPrefix(page, i + 1, DomainColumns);
    var before := RowsOfWidth(page[..i], DomainColumns);
    assert RowsOfWidth(page[..i + 1], DomainColumns)[|before|] == page[i];
  }

  /** No domain object occurs twice. */
  ghost predicate DistinctDomains(ds: seq<Domain>)
  {
    forall j, k | 0 <= j < k < |ds| :: ds[j] != ds[k]
  }

  lemma DistinctDomainsSnoc(ds: seq<Domain>, d: Domain)
    requires DistinctDomains(ds) && d !in ds
    ensures DistinctDomains(ds + [d])
  {
  }

  lemma DomainsFromRowsConcat(ds: seq<Domain>, rows: seq<Row>, ds': seq<Domain>, rows': seq<Row>,
                              recordsPages: string -> Document)
    requires DomainsFromRows(ds, rows, recordsPages) && DomainsFromRows(ds', rows', recordsPages)
    ensures DomainsFromRows(ds + ds', rows + rows', recordsPages)
  {
    forall k | 0 <= k < |ds + ds'|
      ensures DomainFromRow((ds + ds')[k], (rows + rows')[k], recordsPages)
    {
      if k >= |ds| {
        assert (ds + ds')[k] == ds'[k - |ds|] && (rows + rows')[k] == rows'[k - |ds|];
      }
    }
  }

  class XpertDNS {
    var domains: seq<Domain>

    constructor Empty()
      ensures domains == []
    {
      domains := [];
    }

    /**
      `XpertDNS(**kwargs)`: fails with the missing parameter, or lists one
      domain per eight-cell row of the domains page, in order and with no
      header row skipped, each holding the records of its own records page.
    */
    static method Create(kwargs: Kwargs, domainsPage: Document, recordsPages: string -> Document)
      returns (r: Result<XpertDNS, XpertError>)
      requires CheckParameters(kwargs).None? ==>
        DomainsPageOk(domainsPage) && RecordPagesOk(domainsPage, recordsPages)
      ensures r.Failure? <==> CheckParameters(kwargs).Some?
      ensures r.Failure? ==> r.error == CheckParameters(kwargs).value
      ensures r.Success? ==> fresh(r.value)
      ensures r.Success? ==> forall k | 0 <= k < |r.value.domains| :: fresh(r.value.domains[k])
      ensures r.Success? ==> DistinctDomains(r.value.domains)
      ensures r.Success? ==>
        DomainsFromRows(r.value.domains, RowsOfWidth(domainsPage, DomainColumns), recordsPages)
    {
      var missing := CheckParameters(kwargs);
      if missing.Some? {
        return Failure(missing.value);
      }
      var client := new XpertDNS.Empty();
      client.ParseDomains(domainsPage, recordsPages);
      assert client.domains[0..] == client.domains;
      return Success(client);
    }

    /** The domain object for one row of the domains table, holding the records of its page. */
    static method NewDomain(tds: Row, recordsPages: string -> Document) returns (d: Domain)
      requires HasDomainLink(tds) && RecordsPageOk(recordsPages(tds[0].text))
      ensures fresh(d) && DomainsFromRows([d], [tds], recordsPages)
    {
      var fields := DomainOfRow(tds);
      d := new Domain(fields.domain, fields.slave, fields.status, fields.owner,
                      fields.groupOwner, fields.domainId, recordsPages(tds[0].text));
    }

    /**
      Appends one domain per eight-cell row of the page, in page order. The
      scan collects them and appends them to `domains` when it ends.
    */
    method ParseDomains(page: Document, recordsPages: string -> Document)
      requires DomainsPageOk(page) && RecordPagesOk(page, recordsPages)
      modifies this
      ensures |domains| >= |old(domains)| && domains[..|old(domains)|] == old(domains)
      ensures DomainsFromRows(domains[|old(domains)|..], RowsOfWidth(page, DomainColumns), recordsPages)
      ensures forall k | |old(domains)| <= k < |domains| :: fresh(domains[k])
      ensures DistinctDomains(domains[|old(domains)|..])
    {
      var added: seq<Domain> := [];
      for i := 0 to |page|
        invariant DomainsFromRows(added, RowsOfWidth(page[..i], DomainColumns), recordsPages)
        invariant forall k | 0 <= k < |added| :: fresh(added[k])
        invariant DistinctDomains(added)
        modifies {}
      {
        var tds := page[i];
        if |tds| != DomainColumns {
          RowsOfWidthStep(page, i, DomainColumns);
          continue;
        }
        DomainRowStep(page, recordsPages, i);
        var d := NewDomain(tds, recordsPages);
        DomainsFromRowsConcat(added, RowsOfWidth(page[..i], DomainColumns), [d], [tds], recordsPages);
        assert d !in added;
        DistinctDomainsSnoc(added, d);
        added := added + [d];
      }
      domains := domains + added;
      assert domains[|old(domains)|..] == added;
      assert page[..|page|] == page;
    }

    /** `names()`: the domains' names, in order. */
    function Names(): (names: seq<string>)
      reads this
      ensures |names| == |domains|
      ensures forall k | 0 <= k < |domains| :: names[k] == domains[k].domain
    {
      NamesOf(domains)
    }

    /** `get(name)`: the first domain called `name`, or null (None) when there is none. */
    method Get(name: string) returns (d: Domain?)
      ensures d == null <==> name !in Names()
      ensures d != null ==> exists k | 0 <= k < |domains| ::
        && domains[k] == d && d.domain == name && name !in Names()[..k]
    {
      var i := 0;
      while i < |domains|
        invariant 0 <= i <= |domains|
        invariant name !in Names()[..i]
      {
        if domains[i].domain == name {
          return domains[i];
        }
        assert Names()[..i + 1] == Names()[..i] + [domains[i].domain];
        i := i + 1;
      }
      assert Names()[..i] == Names();
      return null;
    }
  }
}
