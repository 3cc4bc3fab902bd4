/** The quotation tables of main.py and the rules that change them: the
    supplier register, the creation of a request for quotation (RFQ) with its
    articles, the margin configuration and its lookup, and the storing of a
    supplier's answers with their sale prices. A table is a sequence whose
    row `i` has the AUTOINCREMENT id `i + 1`, since the core never deletes. */
module Quotations {
  import opened Common
  import opened Text

  datatype Supplier = Supplier(nome: string, email: string, telefone: string, morada: string, nif: string)

  /** `estado` of an RFQ: 'pendente' or 'respondido'. */
  datatype RfqStatus = Pending | Answered

  datatype Rfq = Rfq(
    fornecedorId: int,
    data: string,
    referencia: string,
    estado: RfqStatus,
    nomeSolicitante: string,
    emailSolicitante: string,
    observacoes: string,
    utilizadorId: Option<int>)

  /** A row of the `artigo` table; `marca` is a nullable column. */
  datatype Article = Article(
    rfqId: int,
    artigoNum: string,
    descricao: string,
    quantidade: int,
    unidade: string,
    especificacoes: string,
    marca: Option<string>,
    ordem: int)

  /** An article as the caller of `criar_rfq` hands it over: a dictionary
      whose keys may be missing. */
  datatype ArticleInput = ArticleInput(
    artigoNum: Option<string>,
    descricao: Option<string>,
    quantidade: Option<int>,
    unidade: Option<string>,
    especificacoes: Option<string>,
    marca: Option<string>)

  /** A row of `configuracao_margens`; supplier and brand are nullable. */
  datatype MarginRow = MarginRow(fornecedorId: Option<int>, marca: Option<string>, percent: real, ativo: bool)

  /** The UNIQUE key of `resposta_fornecedor`. */
  datatype ResponseKey = ResponseKey(fornecedorId: int, rfqId: int, artigoId: int)

  /** One answered article as `guardar_respostas` receives it. */
  datatype ResponseInput = ResponseInput(
    artigoId: int,
    custo: real,
    prazo: int,
    peso: Option<real>,
    hsCode: Option<string>,
    paisOrigem: Option<string>,
    descricao: Option<string>,
    quantidadeFinal: Option<int>)

  /** A stored answer: the input, the margin used and the sale price. */
  datatype Response = Response(
    descricao: Option<string>,
    custo: real,
    prazoEntrega: int,
    peso: Option<real>,
    hsCode: Option<string>,
    paisOrigem: Option<string>,
    margemUtilizada: real,
    precoVenda: real,
    quantidadeFinal: Option<int>)

  /** The margin when no configured row applies. */
  const DefaultMargin: real := 10.0

  // ---------------------------------------------------------------- margins

  /** Python truthiness of the brand: present and non-empty. */
  predicate BrandGiven(m: Option<string>) {
    m.Some? && m.value != ""
  }

  /** The two `WHERE` clauses of `obter_margem_para_marca`. */
  datatype Filter = SpecificFor(f: Option<int>, m: Option<string>) | DefaultRow

  predicate Selects(flt: Filter, row: MarginRow) {
    match flt
    case SpecificFor(f, m) => row.ativo && SqlEq(row.fornecedorId, f) && SqlEq(row.marca, m)
    case DefaultRow => row.fornecedorId.None? && row.marca.None?
  }

  /** Row `i` is the highest-id row the filter selects. */
  predicate IsLast(rows: seq<MarginRow>, flt: Filter, i: int) {
    0 <= i < |rows| && Selects(flt, rows[i]) && forall j | i < j < |rows| :: !Selects(flt, rows[j])
  }

  predicate NoMatch(rows: seq<MarginRow>, flt: Filter) {
    forall j | 0 <= j < |rows| :: !Selects(flt, rows[j])
  }

  /** `ORDER BY id DESC LIMIT 1`: the index of the last selected row. */
  function LastMatch(rows: seq<MarginRow>, flt: Filter): (r: Option<nat>)
    ensures r.Some? ==> IsLast(rows, flt, r.value)
    ensures r.None? <==> NoMatch(rows, flt)
  {
    if rows == [] then None
    else if Selects(flt, rows[|rows| - 1]) then Some(|rows| - 1)
    else LastMatch(rows[..|rows| - 1], flt)
  }

  /** `obter_margem_para_marca(f, m)`: for a non-empty brand, the margin of the
      last active row for exactly that supplier and brand; failing that, the
      margin of the last row with neither supplier nor brand, active or not;
      failing that, 10 per cent. */
  function MarginFor(rows: seq<MarginRow>, f: Option<int>, m: Option<string>): (r: real)
    ensures BrandGiven(m) ==> forall i | IsLast(rows, SpecificFor(f, m), i) :: r == rows[i].percent
    ensures !BrandGiven(m) || NoMatch(rows, SpecificFor(f, m)) ==>
      forall i | IsLast(rows, DefaultRow, i) :: r == rows[i].percent
    ensures (!BrandGiven(m) || NoMatch(rows, SpecificFor(f, m))) && NoMatch(rows, DefaultRow) ==> r == DefaultMargin
  {
    var specific := if BrandGiven(m) then LastMatch(rows, SpecificFor(f, m)) else None;
    if specific.Some? then rows[specific.value].percent
    else
      var fallback := LastMatch(rows, DefaultRow);
      if fallback.Some? then rows[fallback.value].percent else DefaultMargin
  }

  /** The `UPDATE ... SET ativo = FALSE WHERE fornecedor_id = ? AND marca = ?`
      of `configurar_margem_marca`; a NULL supplier or brand matches no row. */
  function Deactivated(rows: seq<MarginRow>, f: Option<int>, m: Option<string>): seq<MarginRow> {
    seq(|rows|, i requires 0 <= i < |rows| =>
      if SqlEq(rows[i].fornecedorId, f) && SqlEq(rows[i].marca, m) then rows[i].(ativo := false) else rows[i])
  }

  /** The margin table after `configurar_margem_marca(f, m, p)`. */
  function Configured(rows: seq<MarginRow>, f: Option<int>, m: Option<string>, p: real): (r: seq<MarginRow>)
    ensures |r| == |rows| + 1 && r[|rows|] == MarginRow(f, m, p, true)
    ensures forall i | 0 <= i < |rows| ::
      r[i] == if SqlEq(rows[i].fornecedorId, f) && SqlEq(rows[i].marca, m) then rows[i].(ativo := false) else rows[i]
  {
    Deactivated(rows, f, m) + [MarginRow(f, m, p, true)]
  }

  /** After configuring a supplier and a non-empty brand, the lookup for that
      pair gives the configured margin. */
  lemma MarginAfterConfigure(rows: seq<MarginRow>, f: int, m: string, p: real)
    requires m != ""
    ensures MarginFor(Configured(rows, Some(f), Some(m), p), Some(f), Some(m)) == p
  {
    var after := Configured(rows, Some(f), Some(m), p);
    assert IsLast(after, SpecificFor(Some(f), Some(m)), |after| - 1);
  }

  /** Two tables select the same rows and carry the same margins there. */
  predicate SameSelection(a: seq<MarginRow>, b: seq<MarginRow>, flt: Filter) {
    && |a| == |b|
    && (forall i | 0 <= i < |a| :: Selects(flt, a[i]) <==> Selects(flt, b[i]))
    && (forall i | 0 <= i < |a| :: a[i].percent == b[i].percent)
  }

  lemma {:induction false} LastMatchOfSameSelection(a: seq<MarginRow>, b: seq<MarginRow>, flt: Filter)
    requires SameSelection(a, b, flt)
    ensures LastMatch(a, flt) == LastMatch(b, flt)
  {
    if a != [] {
      LastMatchOfSameSelection(a[..|a| - 1], b[..|b| - 1], flt);
    }
  }

  /** Appending a row the filter does not select leaves the choice alone. */
  lemma LastMatchOfUnselected(rows: seq<MarginRow>, row: MarginRow, flt: Filter)
    requires !Selects(flt, row)
    ensures LastMatch(rows + [row], flt) == LastMatch(rows, flt)
  {
    assert (rows + [row])[..|rows|] == rows;
  }

  /** Configuring a supplier and brand changes no other lookup; configuring
      with a NULL supplier or brand (but not both) changes no lookup at all. */
  lemma ConfigureKeepsOtherLookups(rows: seq<MarginRow>, f: Option<int>, m: Option<string>, p: real,
                                   f': Option<int>, m': Option<string>)
    requires f.Some? || m.Some?
    requires !(f.Some? && m.Some? && f' == f && m' == m)
    ensures MarginFor(Configured(rows, f, m, p), f', m') == MarginFor(rows, f', m')
  {
    var deact := Deactivated(rows, f, m);
    var row := MarginRow(f, m, p, true);
    var after := Configured(rows, f, m, p);
    assert after == deact + [row];
    forall flt | flt == SpecificFor(f', m') || flt == DefaultRow
      ensures LastMatch(after, flt) == LastMatch(rows, flt)
    {
      LastMatchOfUnselected(deact, row, flt);
      LastMatchOfSameSelection(deact, rows, flt);
    }
  }

  /** Configuring with neither supplier nor brand adds a default row and
      deactivates nothing: every lookup without a specific row gives the new
      margin. */
  lemma ConfigureDefault(rows: seq<MarginRow>, p: real, f': Option<int>, m': Option<string>)
    requires !BrandGiven(m') || NoMatch(rows, SpecificFor(f', m'))
    ensures Deactivated(rows, None, None) == rows
    ensures MarginFor(Configured(rows, None, None, p), f', m') == p
  {
    var after := Configured(rows, None, None, p);
    assert Deactivated(rows, None, None) == rows;
    LastMatchOfUnselected(rows, MarginRow(None, None, p, true), SpecificFor(f', m'));
    assert IsLast(after, DefaultRow, |after| - 1);
  }

  /** `custo * (1 + margem/100)` */
  function SellPrice(custo: real, margem: real): (r: real)
    ensures margem == 0.0 ==> r == custo
    ensures custo == 0.0 ==> r == 0.0
  {
    custo * (1.0 + margem / 100.0)
  }

  /** A non-negative margin never sells below cost, and a higher cost
      gives a higher price. */
  lemma SellPriceBounds(c1: real, c2: real, margem: real)
    requires 0.0 <= c1 <= c2 && margem >= 0.0
    ensures c1 <= SellPrice(c1, margem) <= SellPrice(c2, margem)
  {
    var k := 1.0 + margem / 100.0;
    assert k >= 1.0;
    assert c1 * k <= c2 * k by {
      assert (c2 - c1) * k >= 0.0;
    }
  }

  // -------------------------------------------------------------- responses

  /** `SELECT marca FROM artigo WHERE id = ?`: NULL when there is no such
      article or its brand is NULL. */
  function BrandOf(articles: seq<Article>, artigoId: int): Option<string> {
    if 1 <= artigoId <= |articles| then articles[artigoId - 1].marca else None
  }

  /** The row `guardar_respostas` writes for one answered article, priced with
      the margin for the article's brand. */
  function Priced(margins: seq<MarginRow>, articles: seq<Article>, f: int, r: ResponseInput): (resp: Response)
    ensures resp.margemUtilizada == MarginFor(margins, Some(f), BrandOf(articles, r.artigoId))
    ensures resp.precoVenda == SellPrice(r.custo, resp.margemUtilizada)
  {
    var margem := MarginFor(margins, Some(f), BrandOf(articles, r.artigoId));
    Response(r.descricao, r.custo, r.prazo, r.peso, r.hsCode, r.paisOrigem, margem, SellPrice(r.custo, margem), r.quantidadeFinal)
  }

  /** The `resposta_fornecedor` table after `INSERT OR REPLACE` of each answer
      in order. It keeps one row per key: those of the old keys and of the
      answers' keys. */
  function Upserted(table: map<ResponseKey, Response>, f: int, rfqId: int,
                    margins: seq<MarginRow>, articles: seq<Article>, rs: seq<ResponseInput>): (r: map<ResponseKey, Response>)
    ensures r.Keys == table.Keys + NewKeys(f, rfqId, rs)
  {
    if rs == [] then table
    else
      var last := rs[|rs| - 1];
      NewKeysSnoc(f, rfqId, rs);
      Upserted(table, f, rfqId, margins, articles, rs[..|rs| - 1])[ResponseKey(f, rfqId, last.artigoId) := Priced(margins, articles, f, last)]
  }

  /** The keys the answers write. */
  function NewKeys(f: int, rfqId: int, rs: seq<ResponseInput>): set<ResponseKey> {
    set i | 0 <= i < |rs| :: ResponseKey(f, rfqId, rs[i].artigoId)
  }

  /** Answer `i` is the last one for its article. */
  predicate LastFor(rs: seq<ResponseInput>, i: int) {
    0 <= i < |rs| && forall j | i < j < |rs| :: rs[j].artigoId != rs[i].artigoId
  }

  /** The table after one more answer. */
  lemma UpsertedSnoc(table: map<ResponseKey, Response>, f: int, rfqId: int,
                     margins: seq<MarginRow>, articles: seq<Article>, rs: seq<ResponseInput>, k: nat)
    requires k < |rs|
    ensures Upserted(table, f, rfqId, margins, articles, rs[..k + 1])
         == Upserted(table, f, rfqId, margins, articles, rs[..k])[ResponseKey(f, rfqId, rs[k].artigoId) := Priced(margins, articles, f, rs[k])]
  {
    assert rs[..k + 1][..k] == rs[..k];
  }

  lemma NewKeysSnoc(f: int, rfqId: int, rs: seq<ResponseInput>)
    requires rs != []
    ensures NewKeys(f, rfqId, rs) == NewKeys(f, rfqId, rs[..|rs| - 1]) + {ResponseKey(f, rfqId, rs[|rs| - 1].artigoId)}
  {
    var init := rs[..|rs| - 1];
    assert forall i | 0 <= i < |init| :: init[i] == rs[i];
  }

  /** An article answered several times holds its last answer. */
  lemma {:induction false} UpsertedLastWins(table: map<ResponseKey, Response>, f: int, rfqId: int,
                                            margins: seq<MarginRow>, articles: seq<Article>, rs: seq<ResponseInput>)
    ensures forall i | LastFor(rs, i) ::
      Upserted(table, f, rfqId, margins, articles, rs)[ResponseKey(f, rfqId, rs[i].artigoId)] == Priced(margins, articles, f, rs[i])
  {
    if rs != [] {
      var init := rs[..|rs| - 1];
      var last := rs[|rs| - 1];
      var before := Upserted(table, f, rfqId, margins, articles, init);
      UpsertedLastWins(table, f, rfqId, margins, articles, init);
      forall i | LastFor(rs, i) && i < |rs| - 1
        ensures Upserted(table, f, rfqId, margins, articles, rs)[ResponseKey(f, rfqId, rs[i].artigoId)] == Priced(margins, articles, f, rs[i])
      {
        assert LastFor(init, i) && init[i] == rs[i];
        assert ResponseKey(f, rfqId, rs[i].artigoId) != ResponseKey(f, rfqId, last.artigoId);
      }
    }
  }

  /** Every row whose key no answer writes is untouched. */
  lemma {:induction false} UpsertedKeepsOthers(table: map<ResponseKey, Response>, f: int, rfqId: int,
                                               margins: seq<MarginRow>, articles: seq<Article>, rs: seq<ResponseInput>)
    ensures forall k | k in table && k !in NewKeys(f, rfqId, rs) :: Upserted(table, f, rfqId, margins, articles, rs)[k] == table[k]
  {
    if rs != [] {
      UpsertedKeepsOthers(table, f, rfqId, margins, articles, rs[..|rs| - 1]);
      NewKeysSnoc(f, rfqId, rs);
    }
  }

  /** Every key the answers write has a last answer. */
  lemma {:induction false} LastForExists(f: int, rfqId: int, rs: seq<ResponseInput>, k: ResponseKey)
    requires k in NewKeys(f, rfqId, rs)
    ensures exists i :: LastFor(rs, i) && k == ResponseKey(f, rfqId, rs[i].artigoId)
  {
    var n := |rs| - 1;
    if k == ResponseKey(f, rfqId, rs[n].artigoId) {
      assert LastFor(rs, n);
    } else {
      var init := rs[..n];
      var i0 :| 0 <= i0 < |rs| && k == ResponseKey(f, rfqId, rs[i0].artigoId);
      assert i0 < n && init[i0] == rs[i0];
      LastForExists(f, rfqId, init, k);
      var i :| LastFor(init, i) && k == ResponseKey(f, rfqId, init[i].artigoId);
      assert LastFor(rs, i);
    }
  }

  /** Saving the same answers twice leaves the table as saving them once: a
      repeat replaces rows, it never duplicates them. */
  lemma UpsertTwiceIsOnce(table: map<ResponseKey, Response>, f: int, rfqId: int,
                          margins: seq<MarginRow>, articles: seq<Article>, rs: seq<ResponseInput>)
    ensures var once := Upserted(table, f, rfqId, margins, articles, rs);
      Upserted(once, f, rfqId, margins, articles, rs) == once
  {
    var once := Upserted(table, f, rfqId, margins, articles, rs);
    var twice := Upserted(once, f, rfqId, margins, articles, rs);
    UpsertedLastWins(table, f, rfqId, margins, articles, rs);
    UpsertedLastWins(once, f, rfqId, margins, articles, rs);
    UpsertedKeepsOthers(once, f, rfqId, margins, articles, rs);
    forall k | k in once
      ensures twice[k] == once[k]
    {
      if k in NewKeys(f, rfqId, rs) {
        LastForExists(f, rfqId, rs, k);
      }
    }
  }

  // ---------------------------------------------------------------- articles

  /** The `if art.get("descricao", "").strip()` filter of `criar_rfq`: the
      stripped description is non-empty exactly when the description is not
      all white space. */
  predicate Kept(a: ArticleInput) {
    !AllSpace(a.descricao.GetOr(""))
  }

  /** The `artigo` row inserted for a kept input at 1-based position `ordem`,
      with the defaults of `criar_rfq`; the description is stored as given. */
  function Inserted(rfqId: int, a: ArticleInput, ordem: int): Article {
    Article(rfqId, a.artigoNum.GetOr(""), a.descricao.GetOr(""), a.quantidade.GetOr(1),
            a.unidade.GetOr("Peças"), a.especificacoes.GetOr(""), Some(a.marca.GetOr("")), ordem)
  }

  /** The rows the article loop of `criar_rfq` inserts. */
  function NewArticles(rfqId: int, artigos: seq<ArticleInput>): (r: seq<Article>)
    ensures |r| <= |artigos|
  {
    if artigos == [] then []
    else
      var a := artigos[|artigos| - 1];
      NewArticles(rfqId, artigos[..|artigos| - 1]) + (if Kept(a) then [Inserted(rfqId, a, |artigos|)] else [])
  }

  /** Each inserted row belongs to the new RFQ and is the kept input at the
      position its `ordem` names; the positions increase strictly, so gaps
      mark the skipped inputs. */
  lemma {:induction false} NewArticlesSound(rfqId: int, artigos: seq<ArticleInput>)
    ensures var rows := NewArticles(rfqId, artigos);
      && |rows| <= |artigos|
      && (forall k | 0 <= k < |rows| ::
            1 <= rows[k].ordem <= |artigos| && Kept(artigos[rows[k].ordem - 1])
            && rows[k] == Inserted(rfqId, artigos[rows[k].ordem - 1], rows[k].ordem))
      && (forall k, l | 0 <= k < l < |rows| :: rows[k].ordem < rows[l].ordem)
  {
    if artigos != [] {
      var init := artigos[..|artigos| - 1];
      NewArticlesSound(rfqId, init);
      InsertedRowsSnoc(rfqId, artigos, NewArticles(rfqId, init));
    }
  }

  /** The property of `NewArticlesSound`, for rows taken from `artigos`. */
  predicate InsertedRows(rfqId: int, artigos: seq<ArticleInput>, rows: seq<Article>) {
    && |rows| <= |artigos|
    && (forall k | 0 <= k < |rows| ::
          1 <= rows[k].ordem <= |artigos| && Kept(artigos[rows[k].ordem - 1])
          && rows[k] == Inserted(rfqId, artigos[rows[k].ordem - 1], rows[k].ordem))
    && (forall k, l | 0 <= k < l < |rows| :: rows[k].ordem < rows[l].ordem)
  }

  /** One more input: the rows taken from the inputs before it stay valid,
      and the input itself, when kept, comes last with the highest `ordem`. */
  lemma InsertedRowsSnoc(rfqId: int, artigos: seq<ArticleInput>, prev: seq<Article>)
    requires artigos != [] && InsertedRows(rfqId, artigos[..|artigos| - 1], prev)
    ensures var a := artigos[|artigos| - 1];
      InsertedRows(rfqId, artigos, prev + (if Kept(a) then [Inserted(rfqId, a, |artigos|)] else []))
  {
    var init := artigos[..|artigos| - 1];
    var a := artigos[|artigos| - 1];
    var rows := prev + (if Kept(a) then [Inserted(rfqId, a, |artigos|)] else []);
    forall k | 0 <= k < |prev|
      ensures rows[k] == prev[k] && artigos[prev[k].ordem - 1] == init[prev[k].ordem - 1]
    {
    }
    if Kept(a) {
      assert rows[|prev|].ordem == |artigos|;
    }
  }

  /** Every input with a non-blank description is inserted, at its position. */
  lemma {:induction false} NewArticlesComplete(rfqId: int, artigos: seq<ArticleInput>)
    ensures forall i | 0 <= i < |artigos| && Kept(artigos[i]) :: Inserted(rfqId, artigos[i], i + 1) in NewArticles(rfqId, artigos)
  {
    if artigos != [] {
      var init := artigos[..|artigos| - 1];
      NewArticlesComplete(rfqId, init);
      assert forall i | 0 <= i < |init| :: init[i] == artigos[i];
    }
  }

  // ------------------------------------------------------------------- store

  predicate UniqueNames(suppliers: seq<Supplier>) {
    forall i, j | 0 <= i < j < |suppliers| :: suppliers[i].nome != suppliers[j].nome
  }

  predicate UniqueReferences(rfqs: seq<Rfq>) {
    forall i, j | 0 <= i < j < |rfqs| :: rfqs[i].referencia != rfqs[j].referencia
  }

  predicate ReferenceTaken(rfqs: seq<Rfq>, referencia: string) {
    exists i | 0 <= i < |rfqs| :: rfqs[i].referencia == referencia
  }

  /** The tables of main.py the quotation rules read and write. */
  class QuotationStore {
    var suppliers: seq<Supplier>
    var rfqs: seq<Rfq>
    var articles: seq<Article>
    var margins: seq<MarginRow>
    var responses: map<ResponseKey, Response>

    /** The UNIQUE constraints on `fornecedor.nome` and `rfq.referencia`. */
    predicate Valid()
      reads this
    {
      UniqueNames(suppliers) && UniqueReferences(rfqs)
    }

    constructor()
      ensures Valid()
      ensures suppliers == [] && rfqs == [] && articles == [] && margins == [] && responses == map[]
    {
      suppliers, rfqs, articles, margins, responses := [], [], [], [], map[];
    }

    /** `inserir_fornecedor`: the id of the supplier with that name, which is
        added first when there is none. */
    method InsertSupplier(nome: string, email: string, telefone: string, morada: string, nif: string) returns (id: int)
      requires Valid()
      modifies this
      ensures Valid()
      ensures 1 <= id <= |suppliers| && suppliers[id - 1].nome == nome
      ensures forall i | 0 <= i < |suppliers| && suppliers[i].nome == nome :: id == i + 1
      ensures (exists i | 0 <= i < |old(suppliers)| :: old(suppliers)[i].nome == nome) ==> suppliers == old(suppliers)
      ensures (forall i | 0 <= i < |old(suppliers)| :: old(suppliers)[i].nome != nome) ==>
        suppliers == old(suppliers) + [Supplier(nome, email, telefone, morada, nif)]
      ensures rfqs == old(rfqs) && articles == old(articles) && margins == old(margins) && responses == old(responses)
    {
      var i := 0;
      while i < |suppliers| && suppliers[i].nome != nome
        invariant 0 <= i <= |suppliers|
        invariant forall j | 0 <= j < i :: suppliers[j].nome != nome
      {
        i := i + 1;
      }
      if i == |suppliers| {
        suppliers := suppliers + [Supplier(nome, email, telefone, morada, nif)];
      }
      id := i + 1;
    }

    /** `criar_rfq`: a taken reference makes the insert fail, and nothing
        changes. Otherwise the RFQ is stored as pending and every article
        with a non-blank description is stored with its 1-based position.
        The id is returned only when the supplier exists: otherwise the
        supplier lookup after the commit fails and the rows stay. */
    method CreateRfq(fornecedorId: int, data: string, artigos: seq<ArticleInput>, referencia: string,
                     nomeSolicitante: string, emailSolicitante: string, observacoes: string,
                     utilizadorId: Option<int>)
      returns (rfqId: Option<int>)
      requires Valid()
      modifies this
      ensures Valid()
      ensures ReferenceTaken(old(rfqs), referencia) ==>
        rfqId == None && rfqs == old(rfqs) && articles == old(articles)
      ensures !ReferenceTaken(old(rfqs), referencia) ==>
        && rfqs == old(rfqs) + [Rfq(fornecedorId, data, referencia, Pending, nomeSolicitante, emailSolicitante, observacoes, utilizadorId)]
        && articles == old(articles) + NewArticles(|rfqs|, artigos)
        && rfqId == (if 1 <= fornecedorId <= |suppliers| then Some(|rfqs|) else None)
      ensures suppliers == old(suppliers) && margins == old(margins) && responses == old(responses)
    {
      if exists i | 0 <= i < |rfqs| :: rfqs[i].referencia == referencia {
        return None;
      }
      rfqs := rfqs + [Rfq(fornecedorId, data, referencia, Pending, nomeSolicitante, emailSolicitante, observacoes, utilizadorId)];
      var id := |rfqs|;
      var rows := articles;
      for ordem := 0 to |artigos|
        invariant rows == articles + NewArticles(id, artigos[..ordem])
      {
        assert artigos[..ordem + 1][..ordem] == artigos[..ordem];
        var art := artigos[ordem];
        if Strip(art.descricao.GetOr("")) != "" {
          rows := rows + [Inserted(id, art, ordem + 1)];
        }
      }
      assert artigos[..|artigos|] == artigos;
      articles := rows;
      if 1 <= fornecedorId <= |suppliers| {
        rfqId := Some(id);
      } else {
        rfqId := None;
      }
    }

    /** `configurar_margem_marca`: deactivates the rows of the pair and adds
        an active row with the new margin. */
    method ConfigureMargin(f: Option<int>, m: Option<string>, p: real) returns (ok: bool)
      requires Valid()
      modifies this
      ensures Valid()
      ensures ok
      ensures margins == Configured(old(margins), f, m, p)
      ensures suppliers == old(suppliers) && rfqs == old(rfqs) && articles == old(articles) && responses == old(responses)
    {
      margins := Deactivated(margins, f, m) + [MarginRow(f, m, p, true)];
      ok := true;
    }

    /** `guardar_respostas`: for an existing RFQ, each answer is priced with
        the margin for its article's brand and upserted, and the RFQ becomes
        answered; an unknown RFQ changes nothing. */
    method SaveResponses(rfqId: int, respostas: seq<ResponseInput>) returns (ok: bool)
      requires Valid()
      modifies this
      ensures Valid()
      ensures ok <==> 1 <= rfqId <= |old(rfqs)|
      ensures !ok ==> rfqs == old(rfqs) && responses == old(responses)
      ensures ok ==>
        && responses == Upserted(old(responses), old(rfqs)[rfqId - 1].fornecedorId, rfqId, margins, articles, respostas)
        && rfqs == old(rfqs)[rfqId - 1 := old(rfqs)[rfqId - 1].(estado := Answered)]
      ensures suppliers == old(suppliers) && articles == old(articles) && margins == old(margins)
    {
      if !(1 <= rfqId <= |rfqs|) {
        return false;
      }
      var f := rfqs[rfqId - 1].fornecedorId;
      var table := responses;
      for k := 0 to |respostas|
        invariant table == Upserted(responses, f, rfqId, margins, articles, respostas[..k])
        invariant unchanged(this)
      {
        UpsertedSnoc(responses, f, rfqId, margins, articles, respostas, k);
        var item := respostas[k];
        var marca := BrandOf(articles, item.artigoId);
        var margem := MarginFor(margins, Some(f), marca);
        var precoVenda := SellPrice(item.custo, margem);
        table := table[ResponseKey(f, rfqId, item.artigoId) :=
          Response(item.descricao, item.custo, item.prazo, item.peso, item.hsCode, item.paisOrigem, margem, precoVenda, item.quantidadeFinal)];
      }
      assert respostas[..|respostas|] == respostas;
      responses := table;
      rfqs := rfqs[rfqId - 1 := rfqs[rfqId - 1].(estado := Answered)];
      ok := true;
    }
  }

  /** With a 25 per cent margin configured for a supplier and brand, an
      article of that brand costing 8 sells for 10, and one of another brand
      falls back to the default of 10 per cent. */
  lemma PricingExample()
    ensures var margins := Configured([], Some(1), Some("SKF"), 25.0);
      var articles := [Article(1, "", "Bearing", 1, "Peças", "", Some("SKF"), 1),
                       Article(1, "", "Seal", 1, "Peças", "", Some("FAG"), 2)];
      && Priced(margins, articles, 1, ResponseInput(1, 8.0, 5, None, None, None, None, None)).precoVenda == 10.0
      && Priced(margins, articles, 1, ResponseInput(2, 100.0, 5, None, None, None, None, None)).precoVenda == 110.0
  {
    var margins := Configured([], Some(1), Some("SKF"), 25.0);
    MarginAfterConfigure([], 1, "SKF", 25.0);
    assert NoMatch(margins, SpecificFor(Some(1), Some("FAG")));
    assert NoMatch(margins, DefaultRow);
  }
}
