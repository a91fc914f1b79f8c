# XpertDNS client: scraping and form model

This project models the core of the python-xpertdns client library
(`src/xpertdns.py`) in Dafny and proves properties of the model. The
library logs in to the XpertDNS web admin panel. It reads the panel's HTML
tables into Python objects and sends record changes back as form posts.

What is modelled:

- **Records** (module `Records`). A `Record` is built from keyword
  arguments. A missing `type` defaults to `"A"`, a missing `ttl` to `3600`,
  and every other missing field to `None`. `as_dict` gives the eleven field
  keys back. Python values are the datatype `Value` (`None`, str, int, bool).
- **Parsed HTML** (module `Html`). A page is its list of `<tr>` rows. A row
  is its list of `<td>` cells. A cell carries its text, the `href` of each
  anchor and the `value` of each input inside it. `Strip` is Python's
  `str.strip()`, using the exact set of characters for which `str.isspace`
  holds. `RowsOfWidth` keeps the rows that survive `if len(tds) != n:
  continue`.
- **The domain-id link** (module `DomainLink`). `re.search(r'domain_id=(\d+)',
  href)` followed by `int(m.group(1))` is written out as a leftmost-first
  scan with a greedy digit run.
- **The records table and the domains table** (module `XpertDns`).
  `Domain.ParseRecords` scans a records page. It skips rows that do not
  have eleven cells, treats the first eleven-cell row as the header, and
  appends one record per later row. `XpertDNS.ParseDomains` scans the
  domains page. It builds one `Domain` per eight-cell row, with no header
  skipped: the slave flag is "stripped text is not `No`", and the id comes
  from the first link of the last cell. Each new domain reads its own
  records page.
- **Form payloads.** These are the `add_record`, `update_record`,
  `delete_record` and `delete_records` payloads, with `{**form,
  **record.as_dict()}` as `Merge`. `delete_records` joins the ids with ','
  and fails the way `str.join` raises `TypeError` when an id is not a str.
- **The client.** Building it checks `email`, then `password`, and fails
  with the first one missing. `names()` and `get(name)` are modelled.

Fetching pages is not modelled. The domains page is a parameter of
`XpertDNS.Create`, and the records page of each domain comes from a
parameter function from domain name to page. The `Domain` constructor
takes its records page directly.

## Model

| member | source | states |
|---|---|---|
| Html.IsSpaceSpec | src/xpertdns.py:77-85 | the whitespace test used by `strip()` is membership in the `str.isspace` character set |
| Html.SpaceFromSpec | src/xpertdns.py:77-85 | the recursive whitespace scan from position i agrees with membership in the rest of the character set |
| Html.Strip | src/xpertdns.py:77-85 | `str.strip()`: drops leading whitespace, then trailing whitespace; its meaning is stated by `StripSpec` |
| Html.StripSpec | src/xpertdns.py:77-85 | `s` is whitespace + `Strip(s)` + whitespace, and the result starts and ends with a non-whitespace character (or is empty) |
| Html.StripOfTrimmed | src/xpertdns.py:77-85 | a string that does not begin or end with whitespace is left unchanged by `strip()` |
| Html.StripPadded | src/xpertdns.py:220 | any whitespace padding around a non-empty core is removed exactly, giving the core back |
| Html.StripIdempotent | src/xpertdns.py:77-85 | stripping twice is the same as stripping once |
| Html.RowsOfWidth | src/xpertdns.py:66-69 | the rows kept by the width filter are no more than the page's rows, and every kept row has exactly the given number of cells |
| Html.RowsOfWidthAppend | src/xpertdns.py:208-211 | filtering a concatenated page is the concatenation of the filtered parts, so the filter keeps document order |
| Html.RowsOfWidthSingle | src/xpertdns.py:208-211 | one row survives the filter exactly when its width matches |
| Html.RowsOfWidthPrefix | src/xpertdns.py:66-69 | the rows kept from a prefix of the page are a prefix of the rows kept from the whole page |
| Html.RowsOfWidthStep | src/xpertdns.py:66-69 | advancing the scan by one row extends the kept rows by that row when its width matches, and by nothing otherwise |
| DomainLink.DigitRun | src/xpertdns.py:214 | the greedy `\d+`: the run is all digits and is followed by the end of the string or by a non-digit |
| DomainLink.SearchFrom | src/xpertdns.py:214 | the leftmost-first scan: at each position, a `domain_id=` followed by a digit gives the value of the greedy digit run there, else the scan moves one position on; its meaning is stated by `SearchFromSpec` |
| DomainLink.DigitsValue | src/xpertdns.py:216 | `int()` of a string of decimal digits, read most significant digit first; `DigitsValueShowNat` and `DigitsValueLeadingZero` state its meaning |
| DomainLink.SearchFromSpec | src/xpertdns.py:214 | the scan from a position finds nothing exactly when no match starts there or later; otherwise it returns the value captured by the leftmost such match |
| DomainLink.FindDomainId | src/xpertdns.py:213-216 | `domain_id` is None exactly when the pattern matches nowhere in the href; otherwise it is the value captured by the leftmost match |
| DomainLink.ShowNat | src/xpertdns.py:216 | the decimal rendering of a number is a non-empty string of digits |
| DomainLink.DigitsValueShowNat | src/xpertdns.py:216 | `int()` of the decimal rendering of n is n |
| DomainLink.DigitsValueLeadingZero | src/xpertdns.py:216 | a leading zero does not change the value `int()` gives |
| DomainLink.FirstMatchUnique | src/xpertdns.py:214 | there is at most one leftmost match |
| DomainLink.FindFirst | src/xpertdns.py:213-216 | when a match at p is the leftmost one, the id found is the value captured at p |
| DomainLink.CapturedDigits | src/xpertdns.py:216 | at a match, the value captured is the value of the longest run of digits after `domain_id=` |
| DomainLink.FindAt | src/xpertdns.py:213-216 | when no match starts before p and `domain_id=` followed by a maximal digit run d stands at p, the id is the value of d |
| DomainLink.LinkRoundTrip | src/xpertdns.py:213-216 | a link holding `domain_id=` and the digits of n, with no earlier match and no digit right after, yields n |
| Records.NewRecord | src/xpertdns.py:9-20 | `Record(**kwargs)`: each field is `kwargs.get` of its key, with "A" for type, 3600 for ttl and None for the rest; `NewRecordFields` states this key by key |
| Records.AsDict | src/xpertdns.py:25-38 | `as_dict()` has exactly the eleven field keys |
| Records.NewRecordFields | src/xpertdns.py:9-20 | each `as_dict` key of `Record(**kwargs)` holds the keyword argument of that name when it is passed, and otherwise the default: "A" for type, 3600 for ttl, None for the rest |
| Records.NewRecordDefaults | src/xpertdns.py:9-20 | without any field keyword, the record is type "A", ttl 3600 and None elsewhere; other keywords are ignored |
| Records.NewRecordIgnoresOtherKeys | src/xpertdns.py:9-20 | only the keywords that are field names affect the record |
| Records.AsDictRoundTrip | src/xpertdns.py:9-38 | `Record(**r.as_dict())` is r again |
| Records.NewRecordRoundTrip | src/xpertdns.py:9-38 | a dictionary with exactly the field keys is the `as_dict` of the record built from it |
| XpertDns.RowKwargs | src/xpertdns.py:75-86 | the keyword arguments `__parse_records` passes for one row: the raw text of cell 0, the stripped texts of cells 1-9, and the first input value of cell 10 |
| XpertDns.RecordOfRow | src/xpertdns.py:75-86 | the record read from one row; `RecordOfRowFields` and `RecordOfRowIsKeywordCall` state its fields |
| XpertDns.RecordsOf | src/xpertdns.py:64-87 | the records a page lists, defined scan-wise: each row adds its record when it has eleven cells and an eleven-cell row came before it; `RecordsOfShape` and `RecordsOfRowsForm` state the result |
| XpertDns.StrippedTextsAt | src/xpertdns.py:77-85 | entry k of the stripped cell texts is the stripped text of cell k |
| XpertDns.RecordOfRowFields | src/xpertdns.py:75-86 | a record row gives name = raw text of cell 0, the stripped texts of cells 1-9 for type, address, distance, weight, port, caa_flag, caa_tag, ttl and dyndns, and record_id = the `value` of the first input of cell 10 (None when absent) |
| XpertDns.RecordOfRowIsKeywordCall | src/xpertdns.py:75-87 | the record read from a row is `Record(**kwargs)` for exactly the keyword arguments the parser passes |
| XpertDns.RecordsOfRows | src/xpertdns.py:75-87 | one record per row |
| XpertDns.RecordsOfRowsAt | src/xpertdns.py:75-87 | record k is read from row k |
| XpertDns.RecordsPagePrefix | src/xpertdns.py:64-87 | a prefix of a well-formed records page is well formed |
| XpertDns.RecordsPageLast | src/xpertdns.py:71-86 | the last row of a well-formed page, when it is read as a record, has its id input |
| XpertDns.RecordsOfStep | src/xpertdns.py:64-87 | one more row of the scan adds its record when it has eleven cells and the header has been seen, and nothing otherwise; the header is the first eleven-cell row |
| XpertDns.RecordsOfRowsForm | src/xpertdns.py:64-87 | a page with no eleven-cell row has no records; otherwise its records are those of its eleven-cell rows after the first |
| XpertDns.RecordsOfRowsSnoc | src/xpertdns.py:75-87 | adding a record row at the end adds its record at the end |
| XpertDns.RecordsOfShape | src/xpertdns.py:64-87 | n eleven-cell rows give max(0, n - 1) records, and record k comes from eleven-cell row k + 1 |
| XpertDns.RecordsIgnoreOtherRows | src/xpertdns.py:67-69 | inserting a row that does not have eleven cells anywhere in the page changes no record |
| XpertDns.RecordsAfterHeader | src/xpertdns.py:64-73 | the first eleven-cell row is skipped as the header, and every later eleven-cell row is one record |
| XpertDns.DomainOfRow | src/xpertdns.py:213-224 | the fields one row of the domains table gives; `DomainOfRowFields` states them |
| XpertDns.DomainOfRowFields | src/xpertdns.py:213-224 | a domain row gives slave false exactly when the stripped text of cell 1 is "No"; domain = raw text of cell 0; status, owner and group owner = stripped texts of cells 2, 4 and 5; domain_id None exactly when the first href of cell 7 has no match, and otherwise the value captured by the leftmost match |
| XpertDns.SlaveIgnoresPadding | src/xpertdns.py:220 | "No" surrounded by any whitespace still gives slave false |
| XpertDns.Merge | src/xpertdns.py:120-125 | `{**a, **b}` has the keys of both, takes b's value on b's keys and a's value elsewhere |
| XpertDns.Join | src/xpertdns.py:155 | `sep.join(xs)`: the items with sep between each two; `SplitJoin` states that splitting gives them back |
| XpertDns.Split | src/xpertdns.py:155 | splitting a string always gives at least one part |
| XpertDns.SplitNoSep | src/xpertdns.py:155 | a string without the separator splits into itself |
| XpertDns.SplitAfterSep | src/xpertdns.py:155 | a separator-free part followed by the separator splits off as the first part |
| XpertDns.SplitJoin | src/xpertdns.py:155 | splitting `sep.join(xs)` at sep gives xs back, when xs is non-empty and no item contains sep |
| XpertDns.RecordIds | src/xpertdns.py:155 | the id list succeeds exactly when every id is a str, and then lists the ids in order; otherwise it fails at the first id that is not a str |
| XpertDns.FormKeysDisjoint | src/xpertdns.py:120-135 | the four form keys are not record keys, so the merged form loses nothing of either side |
| XpertDns.MergeOntoForm | src/xpertdns.py:120-135 | a record dictionary merged onto the form fields keeps all four form values and every record value, with exactly the keys of both |
| XpertDns.FormModeSwitch | src/xpertdns.py:119-137 | changing `record_mode` from add to edit in the merged add form gives the merged edit form |
| XpertDns.MergeUpdate | src/xpertdns.py:120-125 | overwriting a key that the right-hand side lacks commutes with the merge |
| XpertDns.Domain.constructor | src/xpertdns.py:42-53 | a new domain holds the given fields and the records of its records page |
| XpertDns.Domain.ParseRecords | src/xpertdns.py:64-87 | the records list becomes its old contents followed by the records of the page |
| XpertDns.Domain.RecordForm | src/xpertdns.py:119-137 | `{**form, **record.as_dict()}` for a given record mode; `RecordFormContents` states its keys and values |
| XpertDns.Domain.AddRecordData | src/xpertdns.py:119-127 | the `add_record` payload, the record form with mode "add_record_now"; see `AddAndUpdateForms` |
| XpertDns.Domain.UpdateRecordData | src/xpertdns.py:129-137 | the `update_record` payload, the record form with mode "edit_record_now"; see `AddAndUpdateForms` |
| XpertDns.Domain.DeleteRecordData | src/xpertdns.py:139-147 | the `delete_record` payload: state, mode, record mode "delete_recs_now", the domain name, and `del_id` the record's id whatever its value; `DeleteOneAsList` relates it to `delete_records` |
| XpertDns.Domain.RecordFormContents | src/xpertdns.py:119-137 | the add and update forms have keys state, mode, record_mode and domain plus the eleven record keys; each record key carries the record's `as_dict` value, and the form keys keep "logged_in", "records", the record mode and the domain name |
| XpertDns.Domain.AddAndUpdateForms | src/xpertdns.py:119-137 | the add form carries "add_record_now", the update form carries "edit_record_now", and the two forms differ in nothing else |
| XpertDns.Domain.DeleteRecordsData | src/xpertdns.py:149-157 | `delete_records` fails exactly when one of the ids is not a str, with the error of the first such id |
| XpertDns.Domain.DeleteOneAsList | src/xpertdns.py:139-157 | deleting the list of one record with a str id sends the same form as `delete_record` |
| XpertDns.Domain.DeleteRecordsIds | src/xpertdns.py:149-157 | for a non-empty list of str ids without ',', `del_id` is the ids joined with ',', and splitting it gives the ids back in list order |
| XpertDns.Domain.AsDict | src/xpertdns.py:162-171 | `Domain.as_dict()` has exactly the seven keys: "domain_id" is the id (None when absent), "domain", "slave", "status", "owner" and "group_owner" are the domain's fields, and "records" is the domain's record list |
| XpertDns.CheckParameters | src/xpertdns.py:179-183 | construction passes exactly when both email and password are given; a missing email is reported first, then a missing password |
| XpertDns.NamesOf | src/xpertdns.py:230-231 | one name per domain, in order, each the domain's name |
| XpertDns.DomainRowStep | src/xpertdns.py:208-214 | an eight-cell row met by the scan has its link, its records page parses, and the scan's kept rows grow by that row |
| XpertDns.DomainsFromRowsConcat | src/xpertdns.py:208-228 | domain lists built from two runs of rows join into the list built from the joined rows |
| XpertDns.XpertDNS.Empty | src/xpertdns.py:185 | a client starts with no domains |
| XpertDns.XpertDNS.Create | src/xpertdns.py:178-191 | construction fails exactly when email or password is missing, with that error and whatever the pages hold; otherwise the new client has one domain per eight-cell row of the domains page, in order, each a new and distinct object holding that row's fields and the records of its own page |
| XpertDns.XpertDNS.NewDomain | src/xpertdns.py:218-228 | the domain built for a row is new and holds the row's fields and the records of its records page |
| XpertDns.XpertDNS.ParseDomains | src/xpertdns.py:208-228 | the old domains stay in front, and after them come one domain per eight-cell row of the page, in order, each a new object distinct from the others, matching its row and its records page |
| XpertDns.XpertDNS.Names | src/xpertdns.py:230-231 | `names()` lists the names of the domains in order |
| XpertDns.XpertDNS.Get | src/xpertdns.py:233-236 | `get(name)` is None exactly when no domain has that name; otherwise it is the domain with that name at the first position where the name occurs |

## Left out

- Network I/O is left out: the login post, the page fetches, `raise_for_status`, the `requests` session and the base URL. Pages are parameters instead, and HTTP errors are not modelled.
- HTML parsing by BeautifulSoup is left out. A page is given as its rows of cells, with each cell's text, anchor hrefs and input values already extracted.
- `Domain.activate`, `Domain.deactivate` and `Domain.delete` (lines 89-117) are left out. They only post fixed forms over the network and compute nothing.
- `__str__` of the three classes, `XpertDNSEncoder`, the exception classes' messages and `STATUS_ACTIVE`/`STATUS_INACTIVE` are left out. They are formatting or constants that no modelled operation uses. A missing parameter is the error value `MissingParameter(name)`.
- The `Domain` keyword defaults (lines 43-51) are left out. The only caller passes every keyword, so the model's constructor takes typed arguments. The `baseurl` and `session` keywords are part of the network layer.
- Python's dictionary insertion order is left out: payloads and `as_dict` results are maps.
- DomainLink.FindDomainId: `\d` matches ASCII digits only in the model. Python's `re` also accepts other Unicode decimal digits, which `int()` would then read.
- DomainLink.FindDomainId: the limit on integer string conversion is left out. Since Python 3.11 (and the 3.7.14, 3.8.14, 3.9.14 and 3.10.7 security releases), `int()` raises `ValueError` on a run of more than 4300 digits (`sys.int_info.default_max_str_digits`). The model returns the value of a run of any length.
- XpertDns.XpertDNS.Create: modelled as a static method returning a `Result`, where the source has a constructor that raises.
- XpertDns.XpertDNS.ParseDomains: builds the new domains in a local list and appends them to `domains` after the scan. The source appends after each row. No other code can observe the difference.
- XpertDns.XpertDNS.ParseDomains, XpertDns.XpertDNS.Create (when both parameters are present) and XpertDns.Domain.ParseRecords require well-formed pages (`DomainsPageOk`, `RecordPagesOk`, `RecordsPageOk`). The source raises `IndexError` when an eight-cell row has no anchor or a record row has no input, and raises `TypeError` when the anchor has no `href`. Those error paths are not modelled.
- Records pages are given as one function from domain name to page. Two rows with the same name therefore get the same records page, while the source fetches each page separately; the model assumes the server answers the same request the same way.
- `setup.py`, packaging and the README examples are left out.
