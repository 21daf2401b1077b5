/** The five operations of the store, each as a function from the database
    before to the database after (or to the rows a listing returns), with the
    properties the program relies on proved about them. */
module Operacoes {
  import opened Tabelas

  // ---------------------------------------------------------------------------
  // criar_tabelas
  // ---------------------------------------------------------------------------

  /** Three `CREATE TABLE IF NOT EXISTS` statements: a missing table is created
      empty (with no AUTOINCREMENT history), an existing one is left alone. */
  function CriarTabelas(db: Db): (r: Db)
    ensures r.tabelas == TodasAsTabelas && Pronto(r)
  {
    Db(TodasAsTabelas,
       if Produtos in db.tabelas then db.produtos else [],
       if Vendas in db.tabelas then db.vendas else [],
       if Clientes in db.tabelas then db.clientes else [],
       if Produtos in db.tabelas then db.seqProdutos else 0,
       if Vendas in db.tabelas then db.seqVendas else 0)
  }

  /** Calling it twice is the same as calling it once. */
  lemma CriarTabelasIdempotente(db: Db)
    ensures CriarTabelas(CriarTabelas(db)) == CriarTabelas(db)
  {
  }

  /** On a consistent database it only adds the missing tables: no row and no
      counter changes, and the result is consistent. */
  lemma CriarTabelasNaoDestrutiva(db: Db)
    requires Consistente(db)
    ensures CriarTabelas(db) == db.(tabelas := TodasAsTabelas)
    ensures Consistente(CriarTabelas(db))
  {
  }

  // ---------------------------------------------------------------------------
  // adicionar_produto
  // ---------------------------------------------------------------------------

  /** `INSERT INTO produtos (nome, preco, quantidade) VALUES (?, ?, ?)`; no
      value is checked, so a negative price or quantity is stored as given. */
  function AdicionarProduto(db: Db, nome: string, preco: int, quantidade: int): (r: Db)
    requires Produtos in db.tabelas
    ensures |r.produtos| == |db.produtos| + 1 && r.produtos[..|db.produtos|] == db.produtos
    ensures var p := r.produtos[|db.produtos|];
      && p.nome == nome && p.preco == preco && p.quantidade == quantidade
      && p.id > db.seqProdutos
      && (forall k :: 0 <= k < |db.produtos| ==> db.produtos[k].id < p.id)
      && r.seqProdutos == p.id
    ensures r.tabelas == db.tabelas && r.vendas == db.vendas && r.seqVendas == db.seqVendas
    ensures r.clientes == db.clientes
  {
    var id := ProximoId(db.seqProdutos, IdsProdutos(db.produtos));
    db.(produtos := db.produtos + [Produto(id, nome, preco, quantidade)], seqProdutos := id)
  }

  /** On a consistent database the new id is the counter plus one, and the
      result is consistent again. */
  lemma AdicionarProdutoPreservaConsistencia(db: Db, nome: string, preco: int, quantidade: int)
    requires Consistente(db) && Produtos in db.tabelas
    ensures AdicionarProduto(db, nome, preco, quantidade).produtos[|db.produtos|].id == db.seqProdutos + 1
    ensures Consistente(AdicionarProduto(db, nome, preco, quantidade))
  {
    var r := AdicionarProduto(db, nome, preco, quantidade);
    var p := r.produtos[|db.produtos|];
    ProximoIdSequencial(db.seqProdutos, IdsProdutos(db.produtos));
    assert r.produtos == db.produtos + [p];
    assert IdsProdutos(r.produtos) == IdsProdutos(db.produtos) + [p.id];
    forall k | 0 <= k < |r.vendas|
      ensures VendaCoerente(r.produtos, r.vendas[k])
    {
      assert VendaCoerente(db.produtos, db.vendas[k]);
      IndiceDeAnexo(db.produtos, p, db.vendas[k].produtoId);
    }
  }

  /** A product added with a non-negative quantity keeps every stock non-negative. */
  lemma AdicionarProdutoPreservaEstoqueNaoNegativo(db: Db, nome: string, preco: int, quantidade: int)
    requires Produtos in db.tabelas && EstoqueNaoNegativo(db.produtos) && quantidade >= 0
    ensures EstoqueNaoNegativo(AdicionarProduto(db, nome, preco, quantidade).produtos)
  {
    var r := AdicionarProduto(db, nome, preco, quantidade);
    assert r.produtos == db.produtos + [r.produtos[|db.produtos|]];
  }

  // ---------------------------------------------------------------------------
  // registrar_venda
  // ---------------------------------------------------------------------------

  /** The database after a sale attempt, and which of the two messages the
      program prints (`true`: recorded; `false`: unknown product or not
      enough stock). */
  datatype Registro = Registro(db: Db, registrada: bool)

  /** `UPDATE produtos SET quantidade = quantidade - ? WHERE id = ?`. */
  function BaixarEstoque(ps: seq<Produto>, id: int, quantidade: int): seq<Produto>
  {
    seq(|ps|, k requires 0 <= k < |ps| =>
      if ps[k].id == id then ps[k].(quantidade := ps[k].quantidade - quantidade) else ps[k])
  }

  /** What the UPDATE does to any table, unique ids or not: the rows, their
      ids, names and prices stay; every row with that id loses `quantidade`
      of stock and every other row is left as it was. */
  lemma BaixarEstoqueEfeito(ps: seq<Produto>, id: int, quantidade: int)
    ensures var r := BaixarEstoque(ps, id, quantidade);
      && |r| == |ps| && IdsProdutos(r) == IdsProdutos(ps)
      && (forall k :: 0 <= k < |ps| ==> r[k].nome == ps[k].nome && r[k].preco == ps[k].preco)
      && (forall k :: 0 <= k < |ps| && ps[k].id == id ==> r[k].quantidade == ps[k].quantidade - quantidade)
      && (forall k :: 0 <= k < |ps| && ps[k].id != id ==> r[k] == ps[k])
  {
  }

  /** Read the product's stock and price; when the product exists and its
      stock is at least `quantidade`, take the stock down and insert a sale
      whose total is the price read times `quantidade`, both in one commit.
      Nothing checks that `quantidade` is positive. */
  function RegistrarVenda(db: Db, produtoId: int, quantidade: int, dataVenda: string): (r: Registro)
    requires Pronto(db)
    ensures r.registrada <==>
      var i := IndiceDe(db.produtos, produtoId);
      i.Some? && db.produtos[i.value].quantidade >= quantidade
    ensures !r.registrada ==> r.db == db
    ensures r.registrada ==>
      && |r.db.vendas| == |db.vendas| + 1 && r.db.vendas[..|db.vendas|] == db.vendas
      && |r.db.produtos| == |db.produtos|
      && r.db.tabelas == db.tabelas && r.db.clientes == db.clientes
      && r.db.seqProdutos == db.seqProdutos
  {
    match IndiceDe(db.produtos, produtoId)
    case None => Registro(db, false)
    case Some(i) =>
      if db.produtos[i].quantidade >= quantidade then
        var valorTotal := db.produtos[i].preco * quantidade;
        var id := ProximoId(db.seqVendas, IdsVendas(db.vendas));
        var venda := Venda(id, produtoId, quantidade, dataVenda, valorTotal);
        Registro(db.(produtos := BaixarEstoque(db.produtos, produtoId, quantidade),
                     vendas := db.vendas + [venda],
                     seqVendas := id),
                 true)
      else
        Registro(db, false)
  }

  /** A sale of an unknown product, or of more than the product's stock, is
      refused and changes neither table. */
  lemma VendaRecusada(db: Db, produtoId: int, quantidade: int, dataVenda: string)
    requires Consistente(db) && Pronto(db)
    requires (forall j :: 0 <= j < |db.produtos| ==> db.produtos[j].id != produtoId)
          || (exists j :: 0 <= j < |db.produtos| && db.produtos[j].id == produtoId
                                                 && db.produtos[j].quantidade < quantidade)
    ensures RegistrarVenda(db, produtoId, quantidade, dataVenda) == Registro(db, false)
  {
    if j :| 0 <= j < |db.produtos| && db.produtos[j].id == produtoId && db.produtos[j].quantidade < quantidade {
      IndiceDeUnico(db.produtos, db.seqProdutos, j);
    }
  }

  /** With ids kept unique, the UPDATE touches exactly the row that holds the id. */
  lemma BaixarEstoqueUnico(ps: seq<Produto>, teto: int, i: int, quantidade: int)
    requires IdsCrescentes(IdsProdutos(ps), teto)
    requires 0 <= i < |ps|
    ensures BaixarEstoque(ps, ps[i].id, quantidade) == ps[i := ps[i].(quantidade := ps[i].quantidade - quantidade)]
  {
    var ids := IdsProdutos(ps);
    forall k | 0 <= k < |ps| && k != i
      ensures ps[k].id != ps[i].id
    {
      if k < i { assert ids[k] < ids[i]; } else { assert ids[i] < ids[k]; }
    }
  }

  /** A sale of an existing product with enough stock is recorded: that
      product's stock drops by `quantidade` and nothing else about any product
      changes; exactly one sale is appended, with the next id, the given
      product, quantity and date, and the price read times the quantity as
      its total; the stock left is never negative. */
  lemma VendaAceita(db: Db, produtoId: int, quantidade: int, dataVenda: string, i: int)
    requires Consistente(db) && Pronto(db)
    requires 0 <= i < |db.produtos| && db.produtos[i].id == produtoId
    requires db.produtos[i].quantidade >= quantidade
    ensures RegistrarVenda(db, produtoId, quantidade, dataVenda) == Registro(
      db.(produtos := db.produtos[i := db.produtos[i].(quantidade := db.produtos[i].quantidade - quantidade)],
          vendas := db.vendas + [Venda(db.seqVendas + 1, produtoId, quantidade, dataVenda,
                                       db.produtos[i].preco * quantidade)],
          seqVendas := db.seqVendas + 1),
      true)
    ensures RegistrarVenda(db, produtoId, quantidade, dataVenda).db.produtos[i].quantidade >= 0
  {
    IndiceDeUnico(db.produtos, db.seqProdutos, i);
    BaixarEstoqueUnico(db.produtos, db.seqProdutos, i, quantidade);
    ProximoIdSequencial(db.seqVendas, IdsVendas(db.vendas));
    var r := RegistrarVenda(db, produtoId, quantidade, dataVenda);
    assert r.db.vendas == db.vendas + [r.db.vendas[|db.vendas|]];
  }

  /** `depois` is `antes` after a recorded sale: some row with id `produtoId`
      has its stock lowered by `quantidade` to a non-negative value, every
      other product row is kept, and one sale with the next id, the given
      product, quantity and date, and that row's price times `quantidade` is
      appended. */
  ghost predicate BaixaEAnexo(antes: Db, depois: Db, produtoId: int, quantidade: int, dataVenda: string)
  {
    exists i :: 0 <= i < |depois.produtos| && depois.produtos[i].id == produtoId && depois.produtos[i].quantidade >= 0
      && i < |antes.produtos| && antes.produtos[i].quantidade - quantidade == depois.produtos[i].quantidade
      && depois.produtos == antes.produtos[i := antes.produtos[i].(quantidade := antes.produtos[i].quantidade - quantidade)]
      && depois.vendas == antes.vendas + [Venda(depois.seqVendas, produtoId, quantidade, dataVenda,
                                                antes.produtos[i].preco * quantidade)]
      && depois.seqVendas == antes.seqVendas + 1
  }

  /** The closed form of `VendaAceita` is such a step, with row `i` as witness. */
  lemma BaixaEAnexoExiste(db: Db, n: Db, produtoId: int, quantidade: int, dataVenda: string, i: int)
    requires 0 <= i < |db.produtos| && db.produtos[i].id == produtoId
    requires db.produtos[i].quantidade - quantidade >= 0
    requires n == db.(produtos := db.produtos[i := db.produtos[i].(quantidade := db.produtos[i].quantidade - quantidade)],
                      vendas := db.vendas + [Venda(db.seqVendas + 1, produtoId, quantidade, dataVenda,
                                                   db.produtos[i].preco * quantidade)],
                      seqVendas := db.seqVendas + 1)
    ensures BaixaEAnexo(db, n, produtoId, quantidade, dataVenda)
  {
    assert n.produtos[i] == db.produtos[i].(quantidade := db.produtos[i].quantidade - quantidade);
  }

  /** Whatever the sale, when it is recorded on a consistent database the new
      state is such a step for the row the lookup found. */
  lemma VendaRegistrada(db: Db, produtoId: int, quantidade: int, dataVenda: string)
    requires Consistente(db) && Pronto(db)
    requires RegistrarVenda(db, produtoId, quantidade, dataVenda).registrada
    ensures BaixaEAnexo(db, RegistrarVenda(db, produtoId, quantidade, dataVenda).db, produtoId, quantidade, dataVenda)
  {
    var i := IndiceDe(db.produtos, produtoId).value;
    VendaAceita(db, produtoId, quantidade, dataVenda, i);
    BaixaEAnexoExiste(db, RegistrarVenda(db, produtoId, quantidade, dataVenda).db, produtoId, quantidade, dataVenda, i);
  }

  /** A negative quantity passes the stock check whenever the product exists
      with non-negative stock: the sale is recorded, the stock grows, and the
      total is the price times the negative quantity. */
  lemma VendaComQuantidadeNegativa(db: Db, produtoId: int, quantidade: int, dataVenda: string, i: int)
    requires Consistente(db) && Pronto(db)
    requires 0 <= i < |db.produtos| && db.produtos[i].id == produtoId && db.produtos[i].quantidade >= 0
    requires quantidade < 0
    ensures var r := RegistrarVenda(db, produtoId, quantidade, dataVenda);
      && r.registrada
      && r.db.produtos[i].quantidade > db.produtos[i].quantidade
      && r.db.vendas[|db.vendas|].valorTotal == db.produtos[i].preco * quantidade
  {
    VendaAceita(db, produtoId, quantidade, dataVenda, i);
  }

  /** Changing stock alone keeps every sale coherent: the lookup sees the
      same ids and every price is unchanged. */
  lemma VendasCoerentesMesmosPrecos(ps: seq<Produto>, qs: seq<Produto>, vs: seq<Venda>)
    requires |ps| == |qs|
    requires forall k :: 0 <= k < |ps| ==> qs[k].id == ps[k].id && qs[k].preco == ps[k].preco
    requires VendasCoerentes(ps, vs)
    ensures VendasCoerentes(qs, vs)
  {
    assert IdsProdutos(ps) == IdsProdutos(qs);
    forall k | 0 <= k < |vs|
      ensures VendaCoerente(qs, vs[k])
    {
      assert VendaCoerente(ps, vs[k]);
      IndiceDeMesmosIds(ps, qs, vs[k].produtoId);
    }
  }

  /** Lowering one product's stock and appending one coherent sale with the
      next id keeps a consistent database consistent. */
  lemma ConsistenteAposVenda(db: Db, i: int, estoque: int, v: Venda)
    requires Consistente(db) && Pronto(db)
    requires 0 <= i < |db.produtos|
    requires v.id == db.seqVendas + 1 && v.produtoId == db.produtos[i].id
    requires v.valorTotal == db.produtos[i].preco * v.quantidade
    ensures Consistente(db.(produtos := db.produtos[i := db.produtos[i].(quantidade := estoque)],
                            vendas := db.vendas + [v],
                            seqVendas := db.seqVendas + 1))
  {
    var ps := db.produtos;
    var ps' := ps[i := ps[i].(quantidade := estoque)];
    assert IdsCrescentes(IdsProdutos(ps'), db.seqProdutos) by {
      assert IdsProdutos(ps') == IdsProdutos(ps);
    }
    assert IdsCrescentes(IdsVendas(db.vendas + [v]), db.seqVendas + 1) by {
      assert IdsVendas(db.vendas + [v]) == IdsVendas(db.vendas) + [v.id];
      IdsCrescentesAnexo(IdsVendas(db.vendas), db.seqVendas, v.id);
    }
    assert VendasCoerentes(ps', db.vendas + [v]) by {
      VendasCoerentesMesmosPrecos(ps, ps', db.vendas);
      IndiceDeUnico(ps, db.seqProdutos, i);
      IndiceDeMesmosIds(ps, ps', v.produtoId);
      assert VendaCoerente(ps', v);
      forall k | 0 <= k < |db.vendas| + 1
        ensures VendaCoerente(ps', (db.vendas + [v])[k])
      {
        if k < |db.vendas| {
          assert (db.vendas + [v])[k] == db.vendas[k];
        }
      }
    }
  }

  /** Every sale attempt leaves a consistent database consistent: ids stay
      unique and increasing, every sale still references an existing product,
      and every total is still its product's price times its quantity. */
  lemma VendaPreservaConsistencia(db: Db, produtoId: int, quantidade: int, dataVenda: string)
    requires Consistente(db) && Pronto(db)
    ensures Consistente(RegistrarVenda(db, produtoId, quantidade, dataVenda).db)
  {
    var r := RegistrarVenda(db, produtoId, quantidade, dataVenda);
    if r.registrada {
      var i := IndiceDe(db.produtos, produtoId).value;
      var p := db.produtos[i];
      var v := Venda(db.seqVendas + 1, produtoId, quantidade, dataVenda, p.preco * quantidade);
      var novo := db.(produtos := db.produtos[i := p.(quantidade := p.quantidade - quantidade)],
                      vendas := db.vendas + [v],
                      seqVendas := db.seqVendas + 1);
      assert r.db == novo by {
        VendaAceita(db, produtoId, quantidade, dataVenda, i);
      }
      ConsistenteAposVenda(db, i, p.quantidade - quantidade, v);
    } else {
      assert r.db == db;
    }
  }

  /** On a consistent database no sale drives any stock below zero. */
  lemma VendaPreservaEstoqueNaoNegativo(db: Db, produtoId: int, quantidade: int, dataVenda: string)
    requires Consistente(db) && Pronto(db) && EstoqueNaoNegativo(db.produtos)
    ensures EstoqueNaoNegativo(RegistrarVenda(db, produtoId, quantidade, dataVenda).db.produtos)
  {
    var r := RegistrarVenda(db, produtoId, quantidade, dataVenda);
    if r.registrada {
      VendaAceita(db, produtoId, quantidade, dataVenda, IndiceDe(db.produtos, produtoId).value);
    }
  }

  // ---------------------------------------------------------------------------
  // Stock conservation
  // ---------------------------------------------------------------------------

  /** The stock of the product with id `id`, or 0 when there is none. */
  function Estoque(ps: seq<Produto>, id: int): int
  {
    match IndiceDe(ps, id)
    case None => 0
    case Some(i) => ps[i].quantidade
  }

  /** The total quantity sold of the product with id `id`. */
  function Vendido(vs: seq<Venda>, id: int): int
  {
    if vs == [] then 0
    else Vendido(vs[..|vs| - 1], id) + (if vs[|vs| - 1].produtoId == id then vs[|vs| - 1].quantidade else 0)
  }

  /** Nothing is sold of a product no sale references. */
  lemma {:induction false} VendidoSemReferencia(vs: seq<Venda>, id: int)
    requires forall k :: 0 <= k < |vs| ==> vs[k].produtoId != id
    ensures Vendido(vs, id) == 0
  {
    if vs != [] {
      VendidoSemReferencia(vs[..|vs| - 1], id);
    }
  }

  /** A sale attempt moves stock into sales and creates none: for every
      product, stock plus quantity sold is the same before and after. */
  lemma VendaConservaEstoque(db: Db, produtoId: int, quantidade: int, dataVenda: string, id: int)
    requires Consistente(db) && Pronto(db)
    ensures var r := RegistrarVenda(db, produtoId, quantidade, dataVenda).db;
      Estoque(r.produtos, id) + Vendido(r.vendas, id) == Estoque(db.produtos, id) + Vendido(db.vendas, id)
  {
    var r := RegistrarVenda(db, produtoId, quantidade, dataVenda);
    if r.registrada {
      var i := IndiceDe(db.produtos, produtoId).value;
      VendaAceita(db, produtoId, quantidade, dataVenda, i);
      assert IdsProdutos(r.db.produtos) == IdsProdutos(db.produtos);
      IndiceDeMesmosIds(db.produtos, r.db.produtos, id);
      assert r.db.vendas[..|r.db.vendas| - 1] == db.vendas;
    }
  }

  /** Adding a product leaves every other product's stock and sales as they
      were; the new product starts with its given quantity and no sales. */
  lemma AdicionarProdutoConservaEstoque(db: Db, nome: string, preco: int, quantidade: int, id: int)
    requires Consistente(db) && Produtos in db.tabelas
    ensures var r := AdicionarProduto(db, nome, preco, quantidade);
      var novo := r.produtos[|db.produtos|].id;
      && (id != novo ==> Estoque(r.produtos, id) == Estoque(db.produtos, id)
                         && Vendido(r.vendas, id) == Vendido(db.vendas, id))
      && (id == novo ==> Estoque(r.produtos, id) == quantidade && Vendido(r.vendas, id) == 0)
  {
    var r := AdicionarProduto(db, nome, preco, quantidade);
    var p := r.produtos[|db.produtos|];
    assert r.produtos == db.produtos + [p];
    if id == p.id {
      assert IndiceDe(db.produtos, id).None?;
      assert IndiceDe(r.produtos, id) == Some(|db.produtos|);
      forall k | 0 <= k < |db.vendas|
        ensures db.vendas[k].produtoId != id
      {
        assert VendaCoerente(db.produtos, db.vendas[k]);
      }
      VendidoSemReferencia(db.vendas, id);
    } else {
      IndiceDeAnexo(db.produtos, p, id);
    }
  }

  // ---------------------------------------------------------------------------
  // visualizar_estoque and visualizar_vendas
  // ---------------------------------------------------------------------------

  /** `SELECT * FROM produtos`: every product row, in storage order. */
  function VisualizarEstoque(db: Db): seq<Produto>
  {
    db.produtos
  }

  /** On a consistent database the stock listing shows each product once, in
      increasing id order, and each listed row is exactly the row a sale of
      that id reads: its stock is the stock a sale checks. */
  lemma VisualizarEstoqueConsistente(db: Db)
    requires Consistente(db)
    ensures var linhas := VisualizarEstoque(db);
      && |linhas| == |db.produtos|
      && (forall j, k :: 0 <= j < k < |linhas| ==> linhas[j].id < linhas[k].id)
      && forall k :: 0 <= k < |linhas| ==>
           IndiceDe(db.produtos, linhas[k].id) == Some(k) && Estoque(db.produtos, linhas[k].id) == linhas[k].quantidade
  {
    var ids := IdsProdutos(db.produtos);
    forall j, k | 0 <= j < k < |db.produtos|
      ensures db.produtos[j].id < db.produtos[k].id
    {
      assert ids[j] < ids[k];
    }
    forall k | 0 <= k < |db.produtos|
      ensures IndiceDe(db.produtos, db.produtos[k].id) == Some(k)
    {
      IndiceDeUnico(db.produtos, db.seqProdutos, k);
    }
  }

  /** One row of the sales listing. */
  datatype LinhaVenda = LinhaVenda(id: int, nomeProduto: string, quantidade: int, dataVenda: string, valorTotal: int)

  /** `l` is a row of the join built from sale `v`: the sale's own columns,
      and the name of a product whose id is the sale's `produtoId`. */
  ghost predicate Corresponde(ps: seq<Produto>, v: Venda, l: LinhaVenda)
  {
    && l.id == v.id && l.quantidade == v.quantidade
    && l.dataVenda == v.dataVenda && l.valorTotal == v.valorTotal
    && exists i :: 0 <= i < |ps| && ps[i].id == v.produtoId && ps[i].nome == l.nomeProduto
  }

  /** What one sale contributes to the inner join: one row carrying its
      product's name, or nothing when no product has its `produtoId`. */
  function LinhasDaVenda(ps: seq<Produto>, v: Venda): (ls: seq<LinhaVenda>)
    ensures |ls| <= 1
    ensures |ls| == 1 <==> exists i :: 0 <= i < |ps| && ps[i].id == v.produtoId
    ensures |ls| == 1 ==> Corresponde(ps, v, ls[0])
  {
    match IndiceDe(ps, v.produtoId)
    case None => []
    case Some(i) => [LinhaVenda(v.id, ps[i].nome, v.quantidade, v.dataVenda, v.valorTotal)]
  }

  /** `vendas JOIN produtos ON vendas.produto_id = produtos.id`, sales in
      storage order. */
  function Juncao(vs: seq<Venda>, ps: seq<Produto>): (linhas: seq<LinhaVenda>)
    ensures |linhas| <= |vs|
    ensures forall k :: 0 <= k < |linhas| ==> exists j :: 0 <= j < |vs| && Corresponde(ps, vs[j], linhas[k])
  {
    if vs == [] then [] else LinhasDaVenda(ps, vs[0]) + Juncao(vs[1..], ps)
  }

  /** The sales listing: no more rows than sales, and every row is built
      from a stored sale and a stored product it references. */
  function VisualizarVendas(db: Db): (linhas: seq<LinhaVenda>)
    ensures |linhas| <= |db.vendas|
    ensures forall k :: 0 <= k < |linhas| ==>
      exists j :: 0 <= j < |db.vendas| && Corresponde(db.produtos, db.vendas[j], linhas[k])
  {
    Juncao(db.vendas, db.produtos)
  }

  /** The join treats each sale on its own, in order. */
  lemma {:induction false} JuncaoConcatena(a: seq<Venda>, b: seq<Venda>, ps: seq<Produto>)
    ensures Juncao(a + b, ps) == Juncao(a, ps) + Juncao(b, ps)
  {
    if a == [] {
      assert a + b == b;
    } else {
      assert (a + b)[1..] == a[1..] + b;
      JuncaoConcatena(a[1..], b, ps);
    }
  }

  /** Sales whose product id matches no product are dropped. */
  lemma {:induction false} JuncaoOmiteOrfas(vs: seq<Venda>, ps: seq<Produto>)
    requires forall k :: 0 <= k < |vs| ==> IndiceDe(ps, vs[k].produtoId).None?
    ensures Juncao(vs, ps) == []
  {
    if vs != [] {
      JuncaoOmiteOrfas(vs[1..], ps);
    }
  }

  /** When every sale references a product, the join has one row per sale, in
      the same order, carrying that product's name. */
  lemma {:induction false} JuncaoCompleta(vs: seq<Venda>, ps: seq<Produto>)
    requires forall k :: 0 <= k < |vs| ==> IndiceDe(ps, vs[k].produtoId).Some?
    ensures |Juncao(vs, ps)| == |vs|
    ensures forall k :: 0 <= k < |vs| ==>
      var v := vs[k];
      Juncao(vs, ps)[k] == LinhaVenda(v.id, ps[IndiceDe(ps, v.produtoId).value].nome, v.quantidade, v.dataVenda, v.valorTotal)
  {
    if vs != [] {
      JuncaoCompleta(vs[1..], ps);
      assert Juncao(vs, ps) == LinhasDaVenda(ps, vs[0]) + Juncao(vs[1..], ps);
      forall k | 0 <= k < |vs|
        ensures Juncao(vs, ps)[k] == LinhaVenda(vs[k].id, ps[IndiceDe(ps, vs[k].produtoId).value].nome,
                                                vs[k].quantidade, vs[k].dataVenda, vs[k].valorTotal)
      {
        if k > 0 {
          assert vs[1..][k - 1] == vs[k];
        }
      }
    }
  }

  /** On a consistent database the sales listing shows every sale, in storage
      order, with the name of the product it references and a total equal to
      that product's price times the quantity sold. */
  lemma VisualizarVendasConsistente(db: Db)
    requires Consistente(db)
    ensures |VisualizarVendas(db)| == |db.vendas|
    ensures forall k :: 0 <= k < |db.vendas| ==>
      var v, l := db.vendas[k], VisualizarVendas(db)[k];
      && l.id == v.id && l.quantidade == v.quantidade && l.dataVenda == v.dataVenda
      && l.valorTotal == v.valorTotal
      && exists j :: 0 <= j < |db.produtos| && db.produtos[j].id == v.produtoId
                  && l.nomeProduto == db.produtos[j].nome
                  && l.valorTotal == db.produtos[j].preco * l.quantidade
  {
    forall k | 0 <= k < |db.vendas|
      ensures IndiceDe(db.produtos, db.vendas[k].produtoId).Some?
    {
      assert VendaCoerente(db.produtos, db.vendas[k]);
    }
    JuncaoCompleta(db.vendas, db.produtos);
    var linhas := VisualizarVendas(db);
    forall k | 0 <= k < |db.vendas|
      ensures var v, l := db.vendas[k], linhas[k];
        && l.id == v.id && l.quantidade == v.quantidade && l.dataVenda == v.dataVenda
        && l.valorTotal == v.valorTotal
        && exists j :: 0 <= j < |db.produtos| && db.produtos[j].id == v.produtoId
                    && l.nomeProduto == db.produtos[j].nome
                    && l.valorTotal == db.produtos[j].preco * l.quantidade
    {
      assert VendaCoerente(db.produtos, db.vendas[k]);
      var j := IndiceDe(db.produtos, db.vendas[k].produtoId).value;
      assert db.produtos[j].id == db.vendas[k].produtoId && linhas[k].nomeProduto == db.produtos[j].nome;
    }
  }
}
