/** The connection to `gestao_empresarial.db` as the program uses it: one
    object whose fields are the stored tables, updated in place by the write
    operations. Each write commits as soon as it finishes, so each method is
    one atomic step from the old contents to the new. */
module Conexao {
  import opened Tabelas
  import Operacoes

  class Banco {
    var tabelas: set<Tabela>
    var produtos: seq<Produto>
    var vendas: seq<Venda>
    var clientes: seq<Cliente>
    var seqProdutos: int
    var seqVendas: int

    /** The whole contents of the file. */
    function Estado(): Db
      reads this
    {
      Db(tabelas, produtos, vendas, clientes, seqProdutos, seqVendas)
    }

    /** The invariant the program keeps. */
    ghost predicate Valido()
      reads this
    {
      Consistente(Estado())
    }

    /** `conectar_banco_dados`: open the file with whatever it already holds
        (nothing, the first time). */
    constructor Conectar(arquivo: Db)
      ensures Estado() == arquivo
      ensures arquivo == Vazio ==> Valido()
    {
      tabelas := arquivo.tabelas;
      produtos := arquivo.produtos;
      vendas := arquivo.vendas;
      clientes := arquivo.clientes;
      seqProdutos := arquivo.seqProdutos;
      seqVendas := arquivo.seqVendas;
      ConsistenteVazio();
    }

    /** `criar_tabelas`: create each missing table, empty; leave existing ones
        and their rows alone. */
    method CriarTabelas()
      modifies this
      ensures Estado() == Operacoes.CriarTabelas(old(Estado()))
      ensures tabelas == TodasAsTabelas
      ensures old(Valido()) ==> Valido() && Estado() == old(Estado()).(tabelas := TodasAsTabelas)
    {
      if Produtos !in tabelas {
        tabelas, produtos, seqProdutos := tabelas + {Produtos}, [], 0;
      }
      if Vendas !in tabelas {
        tabelas, vendas, seqVendas := tabelas + {Vendas}, [], 0;
      }
      if Clientes !in tabelas {
        tabelas, clientes := tabelas + {Clientes}, [];
      }
      TodasPresentes(tabelas);
      if old(Valido()) {
        Operacoes.CriarTabelasNaoDestrutiva(old(Estado()));
      }
    }

    /** `adicionar_produto`: insert one product row with the next
        AUTOINCREMENT id; the sales table is untouched. */
    method AdicionarProduto(nome: string, preco: int, quantidade: int)
      requires Produtos in tabelas
      modifies this
      ensures Estado() == Operacoes.AdicionarProduto(old(Estado()), nome, preco, quantidade)
      ensures produtos == old(produtos) + [Produto(seqProdutos, nome, preco, quantidade)]
      ensures seqProdutos > old(seqProdutos)
      ensures forall k :: 0 <= k < |old(produtos)| ==> old(produtos)[k].id < seqProdutos
      ensures vendas == old(vendas) && clientes == old(clientes) && tabelas == old(tabelas)
      ensures old(Valido()) ==> Valido() && seqProdutos == old(seqProdutos) + 1
    {
      var id := ProximoId(seqProdutos, IdsProdutos(produtos));
      produtos := produtos + [Produto(id, nome, preco, quantidade)];
      seqProdutos := id;
      if old(Valido()) {
        Operacoes.AdicionarProdutoPreservaConsistencia(old(Estado()), nome, preco, quantidade);
      }
    }

    /** `registrar_venda`: look the product up; if it exists and has at least
        `quantidade` in stock, take the stock down and insert the sale, with
        the price read times `quantidade` as its total; otherwise change
        nothing. `registrada` tells which message the program prints. */
    method RegistrarVenda(produtoId: int, quantidade: int, dataVenda: string) returns (registrada: bool)
      requires Produtos in tabelas && Vendas in tabelas
      modifies this
      ensures Operacoes.RegistrarVenda(old(Estado()), produtoId, quantidade, dataVenda) == Operacoes.Registro(Estado(), registrada)
      ensures !registrada ==> Estado() == old(Estado())
      ensures old(Valido()) ==> Valido()
      ensures old(Valido()) && registrada ==>
        Operacoes.BaixaEAnexo(old(Estado()), Estado(), produtoId, quantidade, dataVenda)
    {
      var produto := IndiceDe(produtos, produtoId);
      if produto.Some? && produtos[produto.value].quantidade >= quantidade {
        var i := produto.value;
        var valorTotal := produtos[i].preco * quantidade;
        produtos := Operacoes.BaixarEstoque(produtos, produtoId, quantidade);
        var id := ProximoId(seqVendas, IdsVendas(vendas));
        vendas := vendas + [Venda(id, produtoId, quantidade, dataVenda, valorTotal)];
        seqVendas := id;
        registrada := true;
      } else {
        registrada := false;
      }
      if old(Valido()) {
        Operacoes.VendaPreservaConsistencia(old(Estado()), produtoId, quantidade, dataVenda);
        if registrada {
          Operacoes.VendaRegistrada(old(Estado()), produtoId, quantidade, dataVenda);
        }
      }
    }

    /** `visualizar_estoque`: every product row, in storage order; nothing changes. */
    method VisualizarEstoque() returns (linhas: seq<Produto>)
      ensures linhas == Operacoes.VisualizarEstoque(Estado())
    {
      linhas := produtos;
    }

    /** `visualizar_vendas`: the sales joined with their products' names;
        nothing changes. */
    method VisualizarVendas() returns (linhas: seq<Operacoes.LinhaVenda>)
      ensures linhas == Operacoes.VisualizarVendas(Estado())
    {
      linhas := Operacoes.Juncao(vendas, produtos);
    }
  }
}
