/** The table text layout of the two PDF documents of main.py: the request
    sent to a supplier (`QuotationPDF`) and the quotation sent to a client
    (`ClientQuotationPDF`). A row is the list of its cells; numbers stay
    numbers, since their decimal formatting is done by the drawing library. */
module PdfTables {
  import opened Common
  import opened Text

  /** The greedy wrapper of `split_text` after some words: the finished lines
      and the line being filled. */
  datatype WrapState = WrapState(lines: seq<string>, current: string)

  /** One turn of the `for word in words` loop of `split_text`. The client
      document strips the joined line (`stripJoined`), the request document
      does not. */
  function Step(st: WrapState, word: string, maxLength: nat, stripJoined: bool): WrapState {
    var joined := st.current + " " + word;
    var testLine := if st.current != "" then (if stripJoined then Strip(joined) else joined) else word;
    if |testLine| <= maxLength then WrapState(st.lines, testLine)
    else WrapState(if st.current != "" then st.lines + [st.current] else st.lines, word)
  }

  /** The wrapper's state after all of `words`, in order. */
  function Fill(words: seq<string>, maxLength: nat, stripJoined: bool): WrapState {
    if words == [] then WrapState([], "")
    else Step(Fill(words[..|words| - 1], maxLength, stripJoined), words[|words| - 1], maxLength, stripJoined)
  }

  /** What `split_text(text, max_length)` returns. */
  function Wrapped(text: string, maxLength: nat, stripJoined: bool): (lines: seq<string>)
    ensures lines != []
  {
    var st := Fill(Words(text), maxLength, stripJoined);
    var lines := if st.current != "" then st.lines + [st.current] else st.lines;
    if lines != [] then lines else [Prefix(text, maxLength)]
  }

  /** The loop's next turn is one more `Step`. */
  lemma FillSnoc(words: seq<string>, k: nat, maxLength: nat, stripJoined: bool)
    requires k < |words|
    ensures Fill(words[..k + 1], maxLength, stripJoined) == Step(Fill(words[..k], maxLength, stripJoined), words[k], maxLength, stripJoined)
  {
    assert words[..k + 1][..k] == words[..k];
  }

  /** `split_text` of either PDF class: words are packed greedily into lines
      of at most `maxLength` characters; a word longer than that gets a line
      of its own; text without words gives its first `maxLength` characters. */
  method SplitText(text: string, maxLength: nat, stripJoined: bool) returns (lines: seq<string>)
    ensures lines == Wrapped(text, maxLength, stripJoined)
    ensures lines != []
    ensures forall l :: l in lines ==> |l| <= maxLength || l in Words(text)
    ensures Words(text) != [] ==> JoinSpaced(lines) == JoinSpaced(Words(text))
  {
    lines := [];
    var words := Words(text);
    var current := "";
    for k := 0 to |words|
      invariant WrapState(lines, current) == Fill(words[..k], maxLength, stripJoined)
    {
      FillSnoc(words, k, maxLength, stripJoined);
      var word := words[k];
      var testLine := if current != "" then (if stripJoined then Strip(current + " " + word) else current + " " + word) else word;
      if |testLine| <= maxLength {
        current := testLine;
      } else {
        if current != "" {
          lines := lines + [current];
        }
        current := word;
      }
    }
    assert words[..|words|] == words;
    if current != "" {
      lines := lines + [current];
    }
    if lines == [] {
      lines := [Prefix(text, maxLength)];
    }
    WrappedLinesFit(text, maxLength, stripJoined);
    WrappedKeepsWords(text, maxLength, stripJoined);
  }

  /** A line of `split_text` is short enough, or is one word of the input. */
  predicate Fits(line: string, maxLength: nat, words: seq<string>) {
    |line| <= maxLength || line in words
  }

  lemma JoinSpacedSnoc(xs: seq<string>, x: string)
    ensures JoinSpaced(xs + [x]) == if xs == [] then x else JoinSpaced(xs) + " " + x
  {
    if xs != [] {
      assert (xs + [x])[..|xs + [x]| - 1] == xs;
    }
  }

  /** The line being filled is empty only before the first word, has no white
      space at either end, and no finished line is empty. */
  lemma {:induction false} FillShape(words: seq<string>, maxLength: nat)
    requires forall i :: 0 <= i < |words| ==> IsWord(words[i])
    ensures var st := Fill(words, maxLength, false);
      && (st.current == "" <==> words == [])
      && Trimmed(st.current)
      && (forall l :: l in st.lines ==> l != "")
  {
    if words != [] {
      var prev := words[..|words| - 1];
      var w := words[|words| - 1];
      FillShape(prev, maxLength);
      var st := Fill(prev, maxLength, false);
      assert Trimmed(w) by {
        assert !IsSpace(w[0]) && !IsSpace(w[|w| - 1]);
      }
      if st.current != "" {
        JoinedTrimmed(st.current, w);
      }
    }
  }

  lemma JoinedTrimmed(current: string, w: string)
    requires current != "" && Trimmed(current) && IsWord(w)
    ensures Trimmed(current + " " + w)
  {
    var joined := current + " " + w;
    assert joined[0] == current[0];
    assert joined[|joined| - 1] == w[|w| - 1];
  }

  /** Every line of the wrapper's state fits or is one of the words. */
  lemma {:induction false} FillFits(words: seq<string>, maxLength: nat)
    ensures var st := Fill(words, maxLength, false);
      && (forall l :: l in st.lines ==> Fits(l, maxLength, words))
      && Fits(st.current, maxLength, words)
  {
    if words != [] {
      var prev := words[..|words| - 1];
      var w := words[|words| - 1];
      FillFits(prev, maxLength);
      var st := Fill(prev, maxLength, false);
      assert w in words;
      forall l | l in st.lines + [st.current] && Fits(l, maxLength, prev)
        ensures Fits(l, maxLength, words)
      {
        if l in prev {
          var i :| 0 <= i < |prev| && prev[i] == l;
          assert words[i] == l;
        }
      }
    }
  }

  /** The finished lines and the line being filled, joined by single spaces. */
  function Joined(st: WrapState): string {
    JoinSpaced(st.lines + [st.current])
  }

  /** One turn of the wrapper appends the word to the joined text. */
  lemma StepJoins(st: WrapState, w: string, maxLength: nat)
    requires st.current != ""
    ensures Joined(Step(st, w, maxLength, false)) == Joined(st) + " " + w
  {
    var joined := st.current + " " + w;
    JoinSpacedSnoc(st.lines + [st.current], w);
    JoinSpacedSnoc(st.lines, st.current);
    JoinSpacedSnoc(st.lines, joined);
  }

  /** The wrapper's joined text is the words seen so far joined by single
      spaces. */
  lemma {:induction false} FillJoins(words: seq<string>, maxLength: nat)
    requires forall i :: 0 <= i < |words| ==> IsWord(words[i])
    ensures words != [] ==> Joined(Fill(words, maxLength, false)) == JoinSpaced(words)
  {
    if words != [] {
      var prev := words[..|words| - 1];
      var w := words[|words| - 1];
      assert words == prev + [w];
      FillShape(prev, maxLength);
      JoinSpacedSnoc(prev, w);
      if prev != [] {
        FillJoins(prev, maxLength);
        StepJoins(Fill(prev, maxLength, false), w, maxLength);
      }
    }
  }

  /** Every line of `split_text` has at most `maxLength` characters, except a
      line made of one word longer than that. */
  lemma WrappedLinesFit(text: string, maxLength: nat, stripJoined: bool)
    ensures forall l :: l in Wrapped(text, maxLength, stripJoined) ==> |l| <= maxLength || l in Words(text)
  {
    ClientWrapsLikeRequest(text, maxLength);
    FillFits(Words(text), maxLength);
  }

  /** `split_text` neither splits, drops nor reorders words: its lines, joined
      by single spaces, give the words of the text joined by single spaces;
      and a text without words gives its first `maxLength` characters. */
  lemma WrappedKeepsWords(text: string, maxLength: nat, stripJoined: bool)
    ensures Words(text) != [] ==>
      && JoinSpaced(Wrapped(text, maxLength, stripJoined)) == JoinSpaced(Words(text))
      && forall l :: l in Wrapped(text, maxLength, stripJoined) ==> l != ""
    ensures AllSpace(text) ==> Wrapped(text, maxLength, stripJoined) == [Prefix(text, maxLength)]
  {
    ClientWrapsLikeRequest(text, maxLength);
    FillShape(Words(text), maxLength);
    FillJoins(Words(text), maxLength);
  }

  /** The `.strip()` of the client document's `split_text` never changes the
      joined line, so both PDF classes wrap text the same way. */
  lemma {:induction false} StripJoinedIsNoOp(words: seq<string>, maxLength: nat)
    requires forall i :: 0 <= i < |words| ==> IsWord(words[i])
    ensures Fill(words, maxLength, true) == Fill(words, maxLength, false)
  {
    if words != [] {
      var prev := words[..|words| - 1];
      StripJoinedIsNoOp(prev, maxLength);
      FillShape(prev, maxLength);
      StepStripIsNoOp(Fill(prev, maxLength, false), words[|words| - 1], maxLength);
    }
  }

  lemma StepStripIsNoOp(st: WrapState, w: string, maxLength: nat)
    requires Trimmed(st.current) && IsWord(w)
    ensures Step(st, w, maxLength, true) == Step(st, w, maxLength, false)
  {
    if st.current != "" {
      StripJoined(st.current, w);
    }
  }

  lemma StripJoined(current: string, w: string)
    requires current != "" && Trimmed(current) && IsWord(w)
    ensures Strip(current + " " + w) == current + " " + w
  {
    JoinedTrimmed(current, w);
  }

  lemma ClientWrapsLikeRequest(text: string, maxLength: nat)
    ensures Wrapped(text, maxLength, true) == Wrapped(text, maxLength, false)
  {
    StripJoinedIsNoOp(Words(text), maxLength);
  }

  /** One cell of a table row, before the drawing library formats numbers. */
  datatype Cell = Label(s: string) | Count(n: int) | Money(amount: real) | Kilos(weight: real) | Days(days: int)

  type Row = seq<Cell>

  const Blank := Label("")

  /** An article of the request document. */
  datatype RequestArticle = RequestArticle(artigoNum: string, descricao: string, quantidade: int, unidade: string)

  /** Descriptions longer than this are wrapped in the request document. */
  const RequestWrapWidth: nat := 45
  /** The empty price field the supplier fills in. */
  const PricePlaceholder := "_______"

  function RequestFirstRow(idx: int, a: RequestArticle, description: string): Row {
    [Count(idx), Label(Prefix(a.artigoNum, 15)), Label(description), Count(a.quantidade), Label(a.unidade), Label(PricePlaceholder)]
  }

  function RequestContinuationRow(line: string): Row {
    [Blank, Blank, Label(line), Blank, Blank, Blank]
  }

  /** The description lines of a request row: the description itself when it
      has at most 45 characters, its wrapped lines otherwise. */
  function RequestLines(a: RequestArticle): (lines: seq<string>)
    ensures lines != []
  {
    if |a.descricao| > RequestWrapWidth then Wrapped(a.descricao, RequestWrapWidth, false) else [a.descricao]
  }

  /** The first row carries `lines[0]`, one continuation row follows per
      further line. */
  function RequestRowsOf(idx: int, a: RequestArticle, lines: seq<string>): (rows: seq<Row>)
    requires lines != []
    ensures |rows| == |lines| && rows[0] == RequestFirstRow(idx, a, lines[0])
  {
    seq(|lines|, k requires 0 <= k < |lines| =>
      if k == 0 then RequestFirstRow(idx, a, lines[0]) else RequestContinuationRow(lines[k]))
  }

  /** The rows `QuotationPDF.add_table_row(idx, artigo)` draws. */
  function RequestRows(idx: int, a: RequestArticle): (rows: seq<Row>)
    ensures |a.descricao| <= RequestWrapWidth ==> rows == [RequestFirstRow(idx, a, a.descricao)]
  {
    RequestRowsOf(idx, a, RequestLines(a))
  }

  /** The description column of a table. */
  function DescriptionColumn(rows: seq<Row>): seq<string>
    requires forall k :: 0 <= k < |rows| ==> |rows[k]| > 2 && rows[k][2].Label?
  {
    seq(|rows|, k requires 0 <= k < |rows| => rows[k][2].s)
  }

  /** A request row is one row per description line; the index, quantity,
      unit and price cells are drawn in the first row only, and the
      description column holds the description lines in order. */
  lemma RequestRowsLayout(idx: int, a: RequestArticle)
    ensures var rows := RequestRows(idx, a);
      && |rows| == |RequestLines(a)|
      && (forall k :: 0 <= k < |rows| ==> |rows[k]| == 6 && rows[k][2].Label?)
      && rows[0][0] == Count(idx) && rows[0][3] == Count(a.quantidade)
      && rows[0][4] == Label(a.unidade) && rows[0][5] == Label(PricePlaceholder)
      && |rows[0][1].s| <= 15
      && (forall k :: 1 <= k < |rows| ==> rows[k][0] == rows[k][1] == rows[k][3] == rows[k][4] == rows[k][5] == Blank)
      && DescriptionColumn(rows) == RequestLines(a)
  {
    RequestRowsOfLayout(idx, a, RequestLines(a));
  }

  lemma RequestRowsOfLayout(idx: int, a: RequestArticle, lines: seq<string>)
    requires lines != []
    ensures var rows := RequestRowsOf(idx, a, lines);
      && |rows| == |lines|
      && (forall k :: 0 <= k < |rows| ==> |rows[k]| == 6 && rows[k][2].Label?)
      && rows[0][0] == Count(idx) && rows[0][3] == Count(a.quantidade)
      && rows[0][4] == Label(a.unidade) && rows[0][5] == Label(PricePlaceholder)
      && |rows[0][1].s| <= 15
      && (forall k :: 1 <= k < |rows| ==> rows[k][0] == rows[k][1] == rows[k][3] == rows[k][4] == rows[k][5] == Blank)
      && DescriptionColumn(rows) == lines
  {
    var rows: seq<Row> := RequestRowsOf(idx, a, lines);
    forall k | 0 <= k < |rows| ensures |rows[k]| == 6 && rows[k][2] == Label(lines[k]) {
    }
    forall k | 1 <= k < |rows| ensures rows[k][0] == rows[k][1] == rows[k][3] == rows[k][4] == rows[k][5] == Blank {
      assert rows[k] == RequestContinuationRow(lines[k]);
    }
  }

  /** A description of at most 45 characters stays on one line; a longer one
      is wrapped into lines of at most 45 characters, save a line made of
      one word longer than that. */
  lemma RequestLinesFit(a: RequestArticle)
    ensures |a.descricao| <= RequestWrapWidth ==> RequestLines(a) == [a.descricao]
    ensures forall l :: l in RequestLines(a) ==> |l| <= RequestWrapWidth || l in Words(a.descricao)
  {
    WrappedLinesFit(a.descricao, RequestWrapWidth, false);
  }

  /** The table rows of the request document for `artigos`, numbered from 1. */
  function RequestTable(artigos: seq<RequestArticle>): seq<Row> {
    if artigos == [] then []
    else RequestTable(artigos[..|artigos| - 1]) + RequestRows(|artigos|, artigos[|artigos| - 1])
  }

  /** The number of description lines over all articles. */
  function LineCount(artigos: seq<RequestArticle>): nat {
    if artigos == [] then 0 else LineCount(artigos[..|artigos| - 1]) + |RequestLines(artigos[|artigos| - 1])|
  }

  lemma RequestTableSnoc(artigos: seq<RequestArticle>, k: nat)
    requires k < |artigos|
    ensures RequestTable(artigos[..k + 1]) == RequestTable(artigos[..k]) + RequestRows(k + 1, artigos[k])
  {
    assert artigos[..k + 1][..k] == artigos[..k];
  }

  /** The table part of `QuotationPDF.gerar`: every article's rows, in order. */
  method GenerateRequestTable(artigos: seq<RequestArticle>) returns (rows: seq<Row>)
    ensures rows == RequestTable(artigos)
    ensures |rows| == LineCount(artigos) >= |artigos|
  {
    rows := [];
    for k := 0 to |artigos|
      invariant rows == RequestTable(artigos[..k])
    {
      RequestTableSnoc(artigos, k);
      rows := rows + RequestRows(k + 1, artigos[k]);
    }
    assert artigos[..|artigos|] == artigos;
    RequestTableRows(artigos);
  }

  /** The request table has one row per description line, so at least one
      row per article. */
  lemma {:induction false} RequestTableRows(artigos: seq<RequestArticle>)
    ensures |RequestTable(artigos)| == LineCount(artigos) >= |artigos|
  {
    if artigos != [] {
      RequestTableRows(artigos[..|artigos| - 1]);
    }
  }

  /** An answered item of the client document. */
  datatype ClientItem = ClientItem(
    artigoNum: Option<string>,
    descricao: string,
    quantidadeFinal: int,
    precoVenda: real,
    prazoEntrega: Option<int>,
    peso: Option<real>,
    hsCode: Option<string>,
    paisOrigem: Option<string>)

  /** Descriptions longer than this are wrapped in the client document. */
  const ClientWrapWidth: nat := 30

  /** `preco_venda * quantidade_final` */
  function LineTotal(item: ClientItem): real {
    item.precoVenda * item.quantidadeFinal as real
  }

  /** `item.get('peso') or 0`: a missing weight counts as zero. */
  function WeightOf(item: ClientItem): real {
    item.peso.GetOr(0.0)
  }

  function ClientFirstRow(idx: int, item: ClientItem, description: string): Row {
    [ Count(idx), Label(Prefix(item.artigoNum.GetOr(""), 10)), Label(description),
      Count(item.quantidadeFinal), Money(item.precoVenda), Money(LineTotal(item)),
      Label(Prefix(item.hsCode.GetOr(""), 10)), Label(Prefix(item.paisOrigem.GetOr(""), 8)),
      Days(item.prazoEntrega.GetOr(30)), Kilos(WeightOf(item)) ]
  }

  function ClientContinuationRow(line: string): Row {
    [Blank, Blank, Label(line), Blank, Blank, Blank, Blank, Blank, Blank, Blank]
  }

  /** The description lines of a client row: the description itself when it
      has at most 30 characters, its wrapped lines otherwise. */
  function ClientLines(item: ClientItem): (lines: seq<string>)
    ensures lines != []
  {
    if |item.descricao| > ClientWrapWidth then Wrapped(item.descricao, ClientWrapWidth, true) else [item.descricao]
  }

  function ClientRowsOf(idx: int, item: ClientItem, lines: seq<string>): (rows: seq<Row>)
    requires lines != []
    ensures |rows| == |lines| && rows[0] == ClientFirstRow(idx, item, lines[0])
  {
    seq(|lines|, k requires 0 <= k < |lines| =>
      if k == 0 then ClientFirstRow(idx, item, lines[0]) else ClientContinuationRow(lines[k]))
  }

  /** `ClientQuotationPDF.add_table_row(idx, item)`: the rows it draws and the
      line total it returns. */
  function AddClientRow(idx: int, item: ClientItem): (r: (seq<Row>, real))
    ensures r.0 != [] && |r.0[0]| == 10
    ensures r.1 == item.precoVenda * item.quantidadeFinal as real
    ensures r.0[0][4] == Money(item.precoVenda) && r.0[0][5] == Money(r.1)
  {
    (ClientRowsOf(idx, item, ClientLines(item)), LineTotal(item))
  }

  /** A client row is one row per description line; every cell except the
      description is drawn in the first row only, and the description column
      holds the description lines in order. */
  lemma ClientRowsLayout(idx: int, item: ClientItem)
    ensures var rows := AddClientRow(idx, item).0;
      && |rows| == |ClientLines(item)|
      && (forall k :: 0 <= k < |rows| ==> |rows[k]| == 10 && rows[k][2].Label?)
      && rows[0][0] == Count(idx) && rows[0][3] == Count(item.quantidadeFinal)
      && |rows[0][1].s| <= 10 && |rows[0][6].s| <= 10 && |rows[0][7].s| <= 8
      && rows[0][8] == Days(item.prazoEntrega.GetOr(30)) && rows[0][9] == Kilos(WeightOf(item))
      && (forall k, j :: 1 <= k < |rows| && 0 <= j < 10 && j != 2 ==> rows[k][j] == Blank)
      && DescriptionColumn(rows) == ClientLines(item)
  {
    ClientRowsOfLayout(idx, item, ClientLines(item));
  }

  lemma ClientRowsOfLayout(idx: int, item: ClientItem, lines: seq<string>)
    requires lines != []
    ensures var rows := ClientRowsOf(idx, item, lines);
      && |rows| == |lines|
      && (forall k :: 0 <= k < |rows| ==> |rows[k]| == 10 && rows[k][2].Label?)
      && rows[0][0] == Count(idx) && rows[0][3] == Count(item.quantidadeFinal)
      && |rows[0][1].s| <= 10 && |rows[0][6].s| <= 10 && |rows[0][7].s| <= 8
      && rows[0][8] == Days(item.prazoEntrega.GetOr(30)) && rows[0][9] == Kilos(WeightOf(item))
      && (forall k, j :: 1 <= k < |rows| && 0 <= j < 10 && j != 2 ==> rows[k][j] == Blank)
      && DescriptionColumn(rows) == lines
  {
    var rows: seq<Row> := ClientRowsOf(idx, item, lines);
    forall k | 0 <= k < |rows| ensures |rows[k]| == 10 && rows[k][2] == Label(lines[k]) {
    }
    forall k, j | 1 <= k < |rows| && 0 <= j < 10 && j != 2 ensures rows[k][j] == Blank {
      assert rows[k] == ClientContinuationRow(lines[k]);
    }
  }

  /** A description of at most 30 characters stays on one line; a longer one
      is wrapped into lines of at most 30 characters, save a line made of
      one word longer than that. */
  lemma ClientLinesFit(item: ClientItem)
    ensures |item.descricao| <= ClientWrapWidth ==> ClientLines(item) == [item.descricao]
    ensures forall l :: l in ClientLines(item) ==> |l| <= ClientWrapWidth || l in Words(item.descricao)
  {
    WrappedLinesFit(item.descricao, ClientWrapWidth, true);
  }

  /** The table rows of the client document for `items`, numbered from 1. */
  function ClientTable(items: seq<ClientItem>): seq<Row> {
    if items == [] then []
    else ClientTable(items[..|items| - 1]) + AddClientRow(|items|, items[|items| - 1]).0
  }

  /** `total_geral`: the line totals added up in item order. */
  function GrandTotal(items: seq<ClientItem>): real {
    if items == [] then 0.0 else GrandTotal(items[..|items| - 1]) + LineTotal(items[|items| - 1])
  }

  /** `peso * quantidade_final` of one item. */
  function ItemWeight(item: ClientItem): real {
    WeightOf(item) * item.quantidadeFinal as real
  }

  /** `peso_total`: weight times final quantity, added up in item order. */
  function TotalWeight(items: seq<ClientItem>): real {
    if items == [] then 0.0 else TotalWeight(items[..|items| - 1]) + ItemWeight(items[|items| - 1])
  }

  /** The table, the grand total and the total weight after one more item. */
  lemma TablesSnoc(items: seq<ClientItem>, k: nat)
    requires k < |items|
    ensures ClientTable(items[..k + 1]) == ClientTable(items[..k]) + AddClientRow(k + 1, items[k]).0
    ensures GrandTotal(items[..k + 1]) == GrandTotal(items[..k]) + LineTotal(items[k])
    ensures TotalWeight(items[..k + 1]) == TotalWeight(items[..k]) + ItemWeight(items[k])
  {
    assert items[..k + 1][..k] == items[..k];
  }

  /** The table part of `ClientQuotationPDF.gerar`: draws every item's rows
      and accumulates the grand total and the total weight. */
  method GenerateClientTable(items: seq<ClientItem>) returns (rows: seq<Row>, totalGeral: real, pesoTotal: real)
    ensures rows == ClientTable(items)
    ensures totalGeral == GrandTotal(items)
    ensures pesoTotal == TotalWeight(items)
  {
    rows, totalGeral, pesoTotal := [], 0.0, 0.0;
    for k := 0 to |items|
      invariant rows == ClientTable(items[..k])
      invariant totalGeral == GrandTotal(items[..k])
      invariant pesoTotal == TotalWeight(items[..k])
    {
      TablesSnoc(items, k);
      var drawn := AddClientRow(k + 1, items[k]);
      rows := rows + drawn.0;
      totalGeral := totalGeral + drawn.1;
      pesoTotal := pesoTotal + ItemWeight(items[k]);
    }
    assert items[..|items|] == items;
  }

  /** Totals split over any cut of the item list: the grand total and the
      total weight of a list are those of its parts added up. */
  lemma {:induction false} TotalsOfConcat(a: seq<ClientItem>, b: seq<ClientItem>)
    ensures GrandTotal(a + b) == GrandTotal(a) + GrandTotal(b)
    ensures TotalWeight(a + b) == TotalWeight(a) + TotalWeight(b)
  {
    if b == [] {
      assert a + b == a;
    } else {
      var b' := b[..|b| - 1];
      TotalsOfConcat(a, b');
      assert (a + b)[..|a + b| - 1] == a + b';
    }
  }

  /** Every item draws at least one row. */
  lemma {:induction false} ClientTableHasARowPerItem(items: seq<ClientItem>)
    ensures |ClientTable(items)| >= |items|
  {
    if items != [] {
      ClientTableHasARowPerItem(items[..|items| - 1]);
    }
  }

  /** Two items, 3 at 10.00 and 1 at 56.25, one of them without a weight:
      the grand total is 86.25 and the missing weight counts as zero. */
  lemma TwoItemQuotation()
    ensures var items := [
        ClientItem(None, "Item A", 3, 10.0, Some(5), Some(2.0), None, None),
        ClientItem(None, "Item B", 1, 56.25, None, None, None, None)];
      GrandTotal(items) == 86.25 && TotalWeight(items) == 6.0
  {
    var items := [
        ClientItem(None, "Item A", 3, 10.0, Some(5), Some(2.0), None, None),
        ClientItem(None, "Item B", 1, 56.25, None, None, None, None)];
    assert items[..1] == [items[0]];
    assert items[..1][..0] == [];
  }
}
