/** Rows, tables and the whole contents of the store `gestao_empresarial.db`,
    together with the two pieces of SQLite behaviour the operations rely on:
    looking a product up by its primary key, and choosing the next
    AUTOINCREMENT id. */
module Tabelas {

  datatype Option<+T> = None | Some(value: T)

  /** The three tables the schema declares. */
  datatype Tabela = Produtos | Vendas | Clientes

  const TodasAsTabelas: set<Tabela> := {Produtos, Vendas, Clientes}

  /** A row of `produtos`. The schema stores `preco` as REAL; here it is an
      exact whole number of cents, so no rounding is modelled. */
  datatype Produto = Produto(id: int, nome: string, preco: int, quantidade: int)

  /** A row of `vendas`; `valorTotal` (in cents, like `preco`) is the snapshot
      taken when the sale was recorded. */
  datatype Venda = Venda(id: int, produtoId: int, quantidade: int, dataVenda: string, valorTotal: int)

  /** A row of `clientes`: declared by the schema, never read or written. */
  datatype Cliente = Cliente(id: int, nome: string, email: Option<string>, telefone: Option<string>)

  /** The database file: which tables exist, the rows of each in rowid order,
      and the AUTOINCREMENT counters SQLite keeps in `sqlite_sequence`. */
  datatype Db = Db(
    tabelas: set<Tabela>,
    produtos: seq<Produto>,
    vendas: seq<Venda>,
    clientes: seq<Cliente>,
    seqProdutos: int,
    seqVendas: int)

  /** A schema holding the three tables holds exactly them. */
  lemma TodasPresentes(ts: set<Tabela>)
    requires Produtos in ts && Vendas in ts && Clientes in ts
    ensures ts == TodasAsTabelas
  {
    forall t | t in ts
      ensures t in TodasAsTabelas
    {
      match t
      case Produtos =>
      case Vendas =>
      case Clientes =>
    }
  }

  /** The file `sqlite3.connect` creates when none exists: no tables, no rows,
      no AUTOINCREMENT history. */
  const Vazio: Db := Db({}, [], [], [], 0, 0)

  /** The schema both write operations need. */
  predicate Pronto(db: Db)
  {
    Produtos in db.tabelas && Vendas in db.tabelas
  }

  function IdsProdutos(ps: seq<Produto>): (ids: seq<int>)
    ensures |ids| == |ps| && forall k :: 0 <= k < |ps| ==> ids[k] == ps[k].id
  {
    seq(|ps|, k requires 0 <= k < |ps| => ps[k].id)
  }

  function IdsVendas(vs: seq<Venda>): (ids: seq<int>)
    ensures |ids| == |vs| && forall k :: 0 <= k < |vs| ==> ids[k] == vs[k].id
  {
    seq(|vs|, k requires 0 <= k < |vs| => vs[k].id)
  }

  /** `SELECT ... FROM produtos WHERE id = ?` followed by `fetchone()`: the
      position of the first row, in rowid order, whose id is `id`. */
  function IndiceDe(ps: seq<Produto>, id: int): (r: Option<nat>)
    ensures r.Some? ==> r.value < |ps| && ps[r.value].id == id
    ensures r.Some? ==> forall j :: 0 <= j < r.value ==> ps[j].id != id
    ensures r.None? <==> forall j :: 0 <= j < |ps| ==> ps[j].id != id
  {
    if |ps| == 0 then None
    else if ps[0].id == id then Some(0)
    else match IndiceDe(ps[1..], id)
      case None => None
      case Some(k) => Some(k + 1)
  }

  /** The larger of 0 and every id present: for the positive ids this program
      stores, the largest id, or 0 for an empty table (how SQLite treats an
      empty table when it picks a new rowid). Negative ids are clamped to 0. */
  function MaiorOuZero(ids: seq<int>): (m: int)
    ensures 0 <= m
    ensures forall k :: 0 <= k < |ids| ==> ids[k] <= m
    ensures m == 0 || m in ids
  {
    if ids == [] then 0
    else
      var resto := MaiorOuZero(ids[1..]);
      if ids[0] > resto then ids[0] else resto
  }

  /** The id an `INTEGER PRIMARY KEY AUTOINCREMENT` column gives a new row:
      for a non-negative counter and positive ids, one more than the largest
      id the table has ever held, that is, the larger of the
      `sqlite_sequence` entry and the largest id present. */
  function ProximoId(seqAtual: int, ids: seq<int>): (id: int)
    ensures seqAtual < id
    ensures forall k :: 0 <= k < |ids| ==> ids[k] < id
    ensures id - 1 == seqAtual || id - 1 in ids || id == 1
  {
    var m := MaiorOuZero(ids);
    if seqAtual >= m then seqAtual + 1 else m + 1
  }

  /** Ids in strictly increasing storage order, each between 1 and the
      table's AUTOINCREMENT counter. */
  ghost predicate IdsCrescentes(ids: seq<int>, teto: int)
  {
    && (forall i, j :: 0 <= i < j < |ids| ==> ids[i] < ids[j])
    && (forall i :: 0 <= i < |ids| ==> 1 <= ids[i] <= teto)
  }

  /** A sale references an existing product and its total is that product's
      price times the quantity sold. Prices never change, so the price seen
      now is the one read when the sale was recorded. */
  ghost predicate VendaCoerente(ps: seq<Produto>, v: Venda)
  {
    match IndiceDe(ps, v.produtoId)
    case None => false
    case Some(i) => v.valorTotal == ps[i].preco * v.quantidade
  }

  ghost predicate VendasCoerentes(ps: seq<Produto>, vs: seq<Venda>)
  {
    forall k :: 0 <= k < |vs| ==> VendaCoerente(ps, vs[k])
  }

  /** What every database built by this program satisfies. */
  ghost predicate Consistente(db: Db)
  {
    && (Produtos !in db.tabelas ==> db.produtos == [] && db.seqProdutos == 0)
    && (Vendas !in db.tabelas ==> db.vendas == [] && db.seqVendas == 0)
    && (Clientes !in db.tabelas ==> db.clientes == [])
    && 0 <= db.seqProdutos && 0 <= db.seqVendas
    && IdsCrescentes(IdsProdutos(db.produtos), db.seqProdutos)
    && IdsCrescentes(IdsVendas(db.vendas), db.seqVendas)
    && VendasCoerentes(db.produtos, db.vendas)
  }

  /** The invariant holds from the start: a freshly created file satisfies it. */
  lemma ConsistenteVazio()
    ensures Consistente(Vazio)
  {
  }

  ghost predicate EstoqueNaoNegativo(ps: seq<Produto>)
  {
    forall k :: 0 <= k < |ps| ==> ps[k].quantidade >= 0
  }

  /** With ids kept unique, the lookup finds exactly the row that holds the id. */
  lemma IndiceDeUnico(ps: seq<Produto>, teto: int, i: int)
    requires IdsCrescentes(IdsProdutos(ps), teto)
    requires 0 <= i < |ps|
    ensures IndiceDe(ps, ps[i].id) == Some(i)
  {
    var ids := IdsProdutos(ps);
    assert ids[i] == ps[i].id;
  }

  /** The lookup depends only on the ids, in order. */
  lemma IndiceDeMesmosIds(ps: seq<Produto>, qs: seq<Produto>, id: int)
    requires IdsProdutos(ps) == IdsProdutos(qs)
    ensures IndiceDe(ps, id) == IndiceDe(qs, id)
  {
    assert |ps| == |qs|;
    assert forall k :: 0 <= k < |ps| ==> ps[k].id == IdsProdutos(ps)[k] == qs[k].id;
  }

  /** Appending a row does not change what the lookup finds for ids already present. */
  lemma IndiceDeAnexo(ps: seq<Produto>, p: Produto, id: int)
    requires IndiceDe(ps, id).Some? || p.id != id
    ensures IndiceDe(ps + [p], id) == IndiceDe(ps, id)
  {
    assert forall k :: 0 <= k < |ps| ==> (ps + [p])[k] == ps[k];
  }

  /** Appending an id above the counter keeps the ids increasing, with the new id as counter. */
  lemma IdsCrescentesAnexo(ids: seq<int>, teto: int, novo: int)
    requires IdsCrescentes(ids, teto) && 1 <= novo && teto < novo
    ensures IdsCrescentes(ids + [novo], novo)
  {
  }

  /** Under the invariant, AUTOINCREMENT hands out the counter plus one. */
  lemma ProximoIdSequencial(teto: int, ids: seq<int>)
    requires IdsCrescentes(ids, teto) && 0 <= teto
    ensures ProximoId(teto, ids) == teto + 1
  {
    var m := MaiorOuZero(ids);
    if m != 0 {
      var k :| 0 <= k < |ids| && ids[k] == m;
    }
  }
}
