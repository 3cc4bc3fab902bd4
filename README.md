# Quotation ERP core, modelled in Dafny

This project models the deterministic rules at the heart of a small quotation
ERP, a Streamlit application that turns customers' requests for quotation
(RFQs) into supplier requests and priced client offers. The database tables the
code reads and writes are held in memory, as sequences (rows in insertion
order, a row's id being its 1-based position) and maps. The modules are:

- `Common`, `Text`: shared types (an `Option`, a JSON document that may be
  missing or unreadable, a small Python value type) and the Python string
  operations the code relies on (`str.strip`, `str.lower`, `str.split`,
  slicing, `str(int)`).
- `PdfTables`: the table text of the two PDF documents in `main.py`.
  - It covers the greedy word wrapper `split_text` of both PDF classes.
  - It covers the rows that `add_table_row` draws, with continuation rows and
    truncated cells.
  - It covers the table loops of both `gerar` methods, which accumulate the
    client document's grand total and total weight.
- `Quotations`: the pricing rules in `main.py`.
  - The margin lookup chain and margin configuration.
  - The sale price `custo * (1 + margem/100)`.
  - The upsert of supplier responses and the RFQ status change from `pendente`
    to `respondido`.
  - Article insertion for a new RFQ and supplier insertion.
  - The tables live in a `QuotationStore` class whose methods update them in
    place.
- `EmailService`: from `services/email_service.py`:
  - the Microsoft Graph settings resolution (environment over stored file
    over sender hint), and the cleaning in `load_graph_config` and
    `save_graph_config`;
  - `_coerce_bool` and the email layout defaults;
  - the decisions `send_email` makes: Graph versus SMTP, missing credentials,
    port/TLS/SSL normalisation, the attachment list and the MIME type split.
- `EmailArchive`: body extraction from an archived e-mail
  (`_extrair_corpo_html`) and the HTML page built around it
  (`_montar_html_email`), with `html.escape` modelled and its round trip
  proved.
- `PdfService`: the `.eml` to `.pdf` upload renaming and the keyed PDF layout
  configuration file (`load_pdf_config`, `save_pdf_config`, also duplicated in
  `main.py`).
- `Processes`: `criar_processo`, which issues `QT{year}-{max+1}`, as a method of
  a class holding the process table.
- `Paging`: `listar_processos`: newest first by opening date, then SQLite
  `LIMIT`/`OFFSET` with `offset = page * page_size`, plus the total count.

Money, margins and weights are `real`. Inputs the code reads from the outside
world become parameters:
- the current year and time;
- the environment variables;
- the contents of the JSON files;
- the system SMTP configuration;
- `mimetypes.guess_type`;
- the `.eml` to PDF converter.

## Model

| member | source | states |
|---|---|---|
| PdfTables.Wrapped | main.py:1180-1198 | `split_text` never returns an empty list |
| PdfTables.SplitText | main.py:1180-1198 | the loop computes `Wrapped`; every line is at most `max_length` long or is one word of the input; joining the lines with single spaces gives the input's words joined with single spaces |
| PdfTables.FillShape | main.py:1184-1194 | for the words of a text, the line being filled is empty only before the first word and has no surrounding whitespace, and no finished line is empty |
| PdfTables.FillFits | main.py:1184-1194 | every finished line fits the limit or is one word of the input |
| PdfTables.FillJoins | main.py:1184-1194 | the finished lines followed by the current line, joined with spaces, are exactly the words consumed so far |
| PdfTables.WrappedLinesFit | main.py:1180-1198 | each returned line is at most `max_length` long or is a single over-long word |
| PdfTables.WrappedKeepsWords | main.py:1182-1198 | no word is split, dropped or reordered; text without words gives `[text[:max_length]]` |
| PdfTables.StripJoinedIsNoOp | main.py:1267-1281 | the client version's `.strip()` of the joined line never changes it |
| PdfTables.ClientWrapsLikeRequest | main.py:1180-1198 | the client and request `split_text` produce the same lines for every text and width |
| PdfTables.RequestLines | main.py:1157-1158 | the description lines are never empty |
| PdfTables.RequestRowsLayout | main.py:1145-1178 | one row per description line (exactly one when the description has at most 45 characters); index, quantity, unit and price placeholder in the first row only; article number cut to 15 characters; the description column holds the lines in order |
| PdfTables.RequestRows | main.py:1145-1178 | a description of at most 45 characters gives the single first row; `RequestRowsLayout` gives the layout of longer ones |
| PdfTables.RequestLinesFit | main.py:1157-1158 | a description of at most 45 characters is one line; longer ones wrap into lines of at most 45 characters, save single over-long words |
| PdfTables.GenerateRequestTable | main.py:1200-1205 | the loop draws every article's rows in order, numbered from 1, and draws one row per description line, so at least one per article |
| PdfTables.RequestTableRows | main.py:1204-1205 | the request table has as many rows as description lines, at least one per article |
| PdfTables.AddClientRow | main.py:1283-1330 | returns `preco_venda * quantidade_final`; the first row has ten cells and shows the unit price and that total |
| PdfTables.ClientRowsLayout | main.py:1283-1330 | one row per description line (one when at most 30 characters); every cell but the description only in the first row; article number and HS code cut to 10 characters, country to 8; delivery defaults to 30 days and a missing weight to 0 |
| PdfTables.ClientLinesFit | main.py:1297-1298 | a description of at most 30 characters stays on one line; longer ones wrap at 30 characters, save single over-long words |
| PdfTables.GenerateClientTable | main.py:1356-1368 | the loop draws the rows of every item in order, `total_geral` is the sum of the line totals and `peso_total` the sum of weight times final quantity, a missing weight counting as 0 |
| PdfTables.TotalsOfConcat | main.py:1361-1366 | the grand total and the total weight of a list are those of any split of it added up |
| PdfTables.ClientTableHasARowPerItem | main.py:1363-1364 | the client table has at least one row per item |
| PdfTables.TwoItemQuotation | main.py:1361-1366 | 3 at 10.00 plus 1 at 56.25 totals 86.25, and an item without weight adds no weight |
| Quotations.LastMatch | main.py:858-861 | `ORDER BY id DESC LIMIT 1`: the result is the last selected row, and there is none exactly when no row is selected |
| Quotations.MarginFor | main.py:850-881 | for a non-empty brand, the margin of the last active row for the supplier and brand; otherwise the last row with NULL supplier and brand, active or not; otherwise 10.0 |
| Quotations.MarginAfterConfigure | main.py:883-907 | after configuring (f, m, p) with a non-empty brand, the lookup for (f, m) returns p |
| Quotations.Configured | main.py:883-907 | exactly the rows whose supplier and brand equal (f, m) under SQL comparison (a NULL matches nothing) are deactivated, every other row is unchanged, and one active row for (f, m, p) is appended; `MarginAfterConfigure` and `ConfigureKeepsOtherLookups` give the lookups after it |
| Quotations.ConfigureKeepsOtherLookups | main.py:889-899 | configuring a pair other than (NULL, NULL) does not change the margin found for any other pair |
| Quotations.ConfigureDefault | main.py:889-899 | configuring with NULL supplier and brand deactivates nothing (SQL `= NULL` never matches) and sets the default margin used whenever no specific margin applies |
| Quotations.LastMatchOfSameSelection | main.py:858-861 | the lookup depends only on which rows are selected and their values |
| Quotations.LastMatchOfUnselected | main.py:858-861 | appending a row the query does not select leaves the lookup unchanged |
| Quotations.SellPriceBounds | main.py:769 | with a non-negative margin the sale price is at least the cost and grows with the cost |
| Quotations.SellPrice | main.py:769 | a zero margin sells at cost and a zero cost sells at zero; `SellPriceBounds` gives the bounds |
| Quotations.Priced | main.py:763-777 | the stored margin is the lookup for the RFQ's supplier and the article's brand; the sale price is `custo * (1 + margem/100)` |
| Quotations.Upserted | main.py:771-777 | after the upserts the table's keys are the old keys plus (fornecedor, rfq, artigo) of each answer |
| Quotations.UpsertedLastWins | main.py:759-777 | for each article the stored response is the last answer given for it |
| Quotations.UpsertedKeepsOthers | main.py:771-777 | responses under other keys are unchanged |
| Quotations.LastForExists | main.py:759-777 | every new key comes from an answer that is the last for its article |
| Quotations.UpsertTwiceIsOnce | main.py:771-777 | saving the same answers twice gives the same table as saving them once (`INSERT OR REPLACE` never duplicates) |
| Quotations.NewArticlesSound | main.py:580-589 | each inserted article comes from an entry with a non-blank description, its `ordem` is that entry's 1-based position, quantity defaults to 1 and unit to `Peças`, and ordens increase |
| Quotations.NewArticlesComplete | main.py:580-589 | every entry with a non-blank description is inserted |
| Quotations.NewArticles | main.py:580-589 | at most one row per input; `NewArticlesSound` and `NewArticlesComplete` give exactly which |
| Quotations.QuotationStore.InsertSupplier | main.py:340-360 | an existing name returns its id and changes nothing; a new name appends one supplier and returns its new id |
| Quotations.QuotationStore.CreateRfq | main.py:563-606 | a taken reference fails and changes nothing; otherwise the RFQ is appended as `pendente` with its articles; the id is returned when the supplier exists and None otherwise, after the commit |
| Quotations.QuotationStore.ConfigureMargin | main.py:883-907 | the margin rows become `Configured(old rows)`; nothing else changes |
| Quotations.QuotationStore.SaveResponses | main.py:742-810 | an unknown RFQ returns False and changes nothing; otherwise the responses are upserted with their prices, the RFQ becomes `respondido`, and True is returned |
| Quotations.PricingExample | main.py:769 | a 25% brand margin prices 8.00 at 10.00, and an unconfigured brand falls back to 10% |
| EmailService.CoerceBool | services/email_service.py:378-387 | None gives the default; the true words give True and the false words give False, ignoring case and surrounding whitespace; anything else is Python truthiness |
| EmailService.WordsDisjoint | services/email_service.py:383-386 | no word is both a true word and a false word |
| EmailService.CoerceBoolRoundTrip | services/email_service.py:378-387 | `str(b)` and `str(int(b))` read back as b; a blank string is truthy |
| EmailService.ReadsAs | services/email_service.py:382-386 | a listed word, in any case, reads as its listed truth value |
| EmailService.BlankReadsTrue | services/email_service.py:381-387 | a non-empty all-whitespace string matches no word and is truthy |
| EmailService.CleanField | services/email_service.py:90-95 | a cleaned setting has no surrounding whitespace; a missing one is empty; a stored string is stripped |
| EmailService.Cleaned | services/email_service.py:87-96 | all four cleaned settings are stripped |
| EmailService.LoadGraphConfig | services/email_service.py:87-96 | the four loaded settings are stripped; a missing, unreadable or non-object file loads as four empty settings (`Cleaned`, `SaveThenLoad` give the rest) |
| EmailService.ResolvePrecedence | services/email_service.py:170-184 | a set, non-empty environment variable wins even when blank; then a non-empty stored value; then the sender hint; stripped |
| EmailService.Resolve | services/email_service.py:171-184 | a resolved setting is stripped (precedence in `ResolvePrecedence`) |
| EmailService.GraphSettings | services/email_service.py:170-193 | Graph settings are returned exactly when the four resolved settings (environment, else stored, else the hint for the sender only) are all non-empty, and they are those resolved values, non-empty and stripped; `ResolvePrecedence` gives each setting's source |
| EmailService.BlankTenantDisablesGraph | services/email_service.py:172-193 | a blank but set tenant variable disables Graph whatever is stored |
| EmailService.StoredSettingsUsed | services/email_service.py:170-193 | with no environment variables, four non-empty stored settings are the Graph configuration |
| EmailService.SenderFromHint | services/email_service.py:178-193 | with no stored sender, the sender hint completes the configuration |
| EmailService.NonEmptyEntriesLookup | services/email_service.py:106 | the saved file holds exactly the non-empty settings |
| EmailService.EnvAfterLookup | services/email_service.py:113-123 | each variable ends set to its non-empty value or unset; other variables are untouched |
| EmailService.SaveGraphConfig | services/email_service.py:99-129 | writes the cleaned non-empty settings (no file when none) and sets or unsets the four variables to match |
| EmailService.EnvAfterSave | services/email_service.py:113-123 | after saving, each of the four variables holds its cleaned value or is unset; nothing else changes |
| EmailService.SaveThenLoad | services/email_service.py:87-111 | loading what was saved gives the cleaned settings back |
| EmailService.SaveThenGraphSettings | services/email_service.py:99-193 | after saving four non-empty settings, Graph resolves to exactly them |
| EmailService.LoadEmailLayout | services/email_service.py:144-151 | the kind's defaults overridden by every stored string value; non-string values and other kinds are ignored |
| EmailService.DefaultLayouts | services/email_service.py:41-72 | without a readable file both known kinds have a subject and a body, equal to their defaults |
| EmailService.SecureTransport | services/email_service.py:417-447 | the host is kept and TLS and SSL are never both on |
| EmailService.NormalizeTransport | services/email_service.py:427-447 | the step-by-step reassignment of port and flags computes `SecureTransport` |
| EmailService.TransportRules | services/email_service.py:427-447 | an Outlook host ends on port 587 without SSL, with STARTTLS unless the caller turned it off on port 587; otherwise the port is kept, 587 means STARTTLS (or the caller's `use_tls`) without SSL, and 465 means SSL |
| EmailService.OutlookHosts | services/email_service.py:423-424 | the three host keys reduce to "outlook" or "office" |
| EmailService.BuildAttachments | services/email_service.py:393-397 | the PDF first, only when its bytes are non-empty, typed `application/pdf`, then the extra attachments in order |
| EmailService.AttachmentsOrder | services/email_service.py:393-397 | the attachment list is the PDF (when its bytes are non-empty) followed by every extra attachment at its position |
| EmailService.IndexOf | services/email_service.py:481 | the first occurrence of the character, or none |
| EmailService.SplitMime | services/email_service.py:480-483 | a type with `/` splits at the first `/`; one without falls back to `application/octet-stream` |
| EmailService.BuildMimeParts | services/email_service.py:479-490 | one MIME part per attachment, in order |
| EmailService.MakePart | services/email_service.py:479-483 | a part's type is the given MIME type, else the one guessed from the file name, else `application/octet-stream`, split at the first `/` (a type without `/` becomes `application/octet-stream`); name and data are kept |
| EmailService.PartTypes | services/email_service.py:479-490 | a part's type is the given, guessed or default type split at `/`, and it keeps the file name and data |
| EmailService.SendEmail | services/email_service.py:361-491 | Graph settings for the sender send through Graph without looking at SMTP credentials; otherwise an empty user or password is refused before connecting; otherwise the normalised transport is used; either path sends the subject and body unchanged, Graph with the attachment list of `BuildAttachments`, SMTP with one MIME part per entry of that list, in order |
| EmailArchive.Escape | services/email_archive_service.py:46 | escaped text holds no `<`, `>`, `"` or `'` and is never shorter |
| EmailArchive.EscapeRoundTrip | services/email_archive_service.py:46 | unescaping the escaped text gives it back |
| EmailArchive.FirstOfType | services/email_archive_service.py:23-34 | the content of the first readable part of the type; none exactly when no readable part has that type |
| EmailArchive.FirstOfTypeConcat | services/email_archive_service.py:23-34 | a match in the earlier parts wins over later ones |
| EmailArchive.ExtractBody | services/email_archive_service.py:19-46 | the loop computes the body: non-empty HTML verbatim, otherwise the escaped text in a `<pre>` block |
| EmailArchive.BodyOf | services/email_archive_service.py:35-46 | the extracted body is never empty: non-empty HTML, else a `<pre>` block; the lemmas after it give its content |
| EmailArchive.SkippedPartIgnored | services/email_archive_service.py:23-28 | inserting a container or attachment part anywhere does not change the body |
| EmailArchive.LaterPartsIgnored | services/email_archive_service.py:29-34 | once a non-empty HTML part is found, appending parts does not change the body |
| EmailArchive.PlainBodyEscaped | services/email_archive_service.py:43-46 | without usable HTML the body is `<pre>` + escaped text + `</pre>`, whose inside holds no markup and unescapes to the text |
| EmailArchive.BuildHtmlEmail | services/email_archive_service.py:49-74 | returns the raw Subject (default empty) and a page containing the escaped Subject, From and Date and the body |
| EmailArchive.PageContains | services/email_archive_service.py:55-74 | the page contains the three escaped headers and the body |
| PdfService.LastIndexOf | services/pdf_service.py:107 | the last occurrence of the character, or -1 |
| PdfService.SplitExt | services/pdf_service.py:107 | `os.path.splitext`: stem and extension concatenate to the name; an extension is a dot followed by no dot or slash |
| PdfService.ProcessUpload | services/pdf_service.py:101-110 | no upload gives (None, None); an `.eml` name, in any case, becomes a `.pdf` name with the converted bytes; anything else is returned unchanged |
| PdfService.EmlRenamed | services/pdf_service.py:106-109 | the four-character `.eml` extension is replaced by `.pdf`; a name that is only dots before it, such as `.eml`, has no extension for `os.path.splitext` and gets `.pdf` appended |
| PdfService.SavePdfConfig | services/pdf_service.py:22-31 | an unreadable file counts as empty; only the given kind is replaced and every other kind is kept |
| PdfService.LoadPdfConfig | services/pdf_service.py:12-19 | the stored settings of the kind when the file is an object holding it, otherwise the `{}` default; `LoadAfterSave` pairs it with `SavePdfConfig` |
| PdfService.LoadAfterSave | services/pdf_service.py:12-31 | loading the saved kind gives its configuration; other kinds load as before |
| Processes.LikeOwnPrefix | db.py:37-41 | a number matches `LIKE 'prefix%'` for its own prefix |
| Processes.MaxSeq | db.py:36-42 | the maximum sequence over the numbers with the prefix, 0 when there are none |
| Processes.NextNumber | db.py:36-43 | the next number extends the year's prefix; `NextNumberSeq`, `NextNumberIsFresh` and `ConsecutiveNumbers` give its sequence and freshness |
| Processes.ProcessTable.CreateProcess | db.py:29-53 | appends exactly one process with the given description and returns its new id and the next number |
| Processes.YearPrefixLength | db.py:32-38 | for a four-digit year the prefix has 7 characters, so `SUBSTR(numero, 8)` is the sequence |
| Processes.IssuedNumber | db.py:42 | an issued number matches its prefix and its sequence reads back |
| Processes.NextNumberIsFresh | db.py:36-43 | the new number differs from every existing number |
| Processes.OtherPrefixIgnored | db.py:36-41 | numbers with another prefix do not affect the next number |
| Processes.MaxSeqSnoc | db.py:36-42 | adding a row raises the maximum only when it matches the prefix with a higher sequence |
| Processes.NextNumberSeq | db.py:42 | the next number has the year's prefix and sequence maximum + 1 (1 when none exists) |
| Processes.ConsecutiveNumbers | tests/test_criar_processo.py:25-38 | two consecutive processes in a year get sequences differing by exactly 1 |
| Paging.Insert | cotacoes.py:28 | inserting a row into a newest-first list keeps it newest first and adds exactly that row |
| Paging.ByDateDesc | cotacoes.py:28 | `ORDER BY data_abertura DESC`: a newest-first permutation of the table |
| Paging.LimitOffset | cotacoes.py:28-31 | SQLite `LIMIT`/`OFFSET`: a contiguous slice starting at the clamped offset, of length `limit` when that fits, to the end for a negative limit |
| Paging.ListProcesses | cotacoes.py:21-34 | the total is the count of all processes whatever the page; a page holds at most `page_size` rows |
| Paging.PageFromTable | cotacoes.py:25-31 | a page is newest first and holds only processes of the table |
| Paging.OffsetIsProduct | cotacoes.py:25 | the offset is `page * page_size` |
| Paging.PageWindow | cotacoes.py:25-31 | page p is the sorted table from `p * size` up to `(p + 1) * size`, clamped |
| Paging.ByDateKeepsUniqueIds | cotacoes.py:28 | sorting keeps process ids distinct |
| Paging.PagesDisjoint | tests/test_paginacao_cotacoes.py:31-47 | two different pages of one order of the table share no process; with distinct opening times `OrderForced` makes that order the database's |
| Paging.ByDateKeepsDistinctDates | cotacoes.py:28 | sorting keeps opening times distinct |
| Paging.SameHead | cotacoes.py:28 | two newest-first arrangements of the same rows without ties start with the same row |
| Paging.NewestFirstUnique | cotacoes.py:28 | without ties of `data_abertura` there is only one newest-first arrangement of a set of rows |
| Paging.OrderForced | cotacoes.py:28-31 | with distinct opening times, whatever newest-first order the database returns is `ByDateDesc`, so each page query sees the same order |
| Paging.EveryProcessListed | cotacoes.py:25-31 | with a positive page size every process appears on some page |
| Paging.TwentyFiveInPagesOfTen | tests/test_paginacao_cotacoes.py:36-47 | 25 processes in pages of 10 give pages of 10, 10, 5 and 0 rows |

## Left out

- User interface, session state and caching are not modelled: the Streamlit pages and `st.cache_data`/`st.cache_resource`. The user id of a new RFQ is a parameter.
- Database plumbing is not modelled: connections, schema creation and migrations. Tables are in-memory sequences and maps, so the error path of each query is absent.
- `MarginFor` does not model the `except` branch that returns 10.0 on a database error, since the in-memory table cannot fail.
- `SaveResponses` models the RFQ status change and the table writes up to the commit. The later client PDF generation and e-mail (`gerar_pdf_cliente`, `enviar_email_orcamento`) are not modelled. The result is True whatever they do, as in the code.
- `SaveResponses` keys responses by (supplier, RFQ, article) in a map. It does not model the row id that `INSERT OR REPLACE` gives the replaced row.
- `CreateRfq` models the supplier lookup after the commit: an unknown supplier leaves the RFQ stored and returns None. It does not model the PDF generation and supplier e-mail that follow. A duplicate reference is treated as the UNIQUE-constraint failure that rolls back.
- The status lifecycle covers only `pendente` to `respondido`; the code has no other transition.
- PDF drawing, fonts, widths and byte output are not modelled. Rows are lists of typed cells, and the `:.2f`/`:.1f` number formatting is left to the drawing step.
- `ClientRowsLayout` reads `prazo_entrega` as optional, where `None` means the key is absent and shows 30 days. The database column is `NOT NULL DEFAULT 1`, so a stored NULL cannot reach it.
- `Text.Lower` folds only ASCII letters, and the Python value type has no floats, lists or dicts. The strings compared here are ASCII words.
- `Processes.ProcessTable.CreateProcess` takes the year and opening time as parameters instead of reading the clock, and assumes a four-digit year.
- The `processo` schema is not modelled. Ids are modelled as 1-based positions and `data_abertura` as an integer timestamp.
- `Processes.SeqOf` reduces `CAST(SUBSTR(numero, 8) AS INTEGER)` to the leading decimal digits read as a natural number. Signs and leading whitespace are ignored.
- `Paging.ByDateDesc` breaks ties of equal `data_abertura` in table order, which SQLite does not promise.
- `Paging.PagesDisjoint`: disjointness rests on one order of the table for every page. Each page is a separate query, and SQLite may order rows with equal `data_abertura` differently in each. Only with distinct opening times does `OrderForced` tie the pages to the database's order.
- `Paging.ListProcesses` does not model the projection of each row to `(id, numero)`.
- SMTP and Graph network calls are not modelled, including MSAL token acquisition, the HTTP POST and the SMTP connection, its caches and error paths. `SendEmail` returns the delivery decision instead.
- `get_system_email_config` and `mimetypes.guess_type` are parameters.
- `EmailArchive.Unescape` covers only the five entities `html.escape` produces, enough for the round trip.
- A single-part message whose type is neither `text/html` nor `text/plain` is taken as text. In the code only `text/*` content is text: for other types such as `application/*` or `image/*`, `get_content()` returns bytes, and `escape` then raises `TypeError` on non-empty content. `EmailArchive.BodyOf` and `EmailArchive.ExtractBody` do not model that error path and return the `<pre>` block instead. `email.parser` decoding and charsets are not modelled.
- The `.eml` to PDF conversion (`pdfkit`/wkhtmltopdf) is a parameter, and `converter_eml_para_pdf`'s HTML assembly is not modelled.
- Writing the JSON files is modelled as the document written or deleted, not as file I/O.
- `PdfService.SavePdfConfig` models `main.py:27-45` too, since that copy is identical.
- `backup_scheduler.py`, `config.py` and the backup and restore code are not modelled: they are file copies, scheduling loops and constants.
