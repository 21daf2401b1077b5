# Inventory and sales store of `projeto.py`, in Dafny

`projeto.py` is a small business-management tool over an SQLite file,
`gestao_empresarial.db`. The file holds three tables: `produtos` (id, nome,
preco, quantidade), `vendas` (id, produto_id, quantidade, data_venda,
valor_total) and `clientes`. Nothing reads or writes `clientes`. The program
offers five operations:

- `criar_tabelas` creates each missing table.
- `adicionar_produto` inserts a product.
- `registrar_venda` is the only rule with a consistency obligation. It reads
  the product's stock and price. If the product exists and its stock is at
  least the requested quantity, it lowers the stock, inserts a sale whose
  total is the price read times the quantity, and commits both together.
  Otherwise it changes nothing.
- `visualizar_estoque` and `visualizar_vendas` list the products, and the
  sales joined with their products' names.

The model has three modules:

- `tabelas.dfy` (module `Tabelas`) holds the rows, the whole file as one
  value `Db`, and the two pieces of SQLite behaviour the operations rely on.
  The first is the primary-key lookup `IndiceDe`. The second is
  AUTOINCREMENT (`ProximoId`): a new id is one more than the larger of the
  `sqlite_sequence` counter and the largest id present. The module also
  defines the invariant `Consistente`. Under it, ids are strictly increasing
  in storage order and never above their counter. Every sale references an
  existing product, and its total is that product's price times its quantity.
- `operacoes.dfy` (module `Operacoes`) gives each operation as a function
  from the database before to the database after, or to the listed rows.
  Each property below is a contract or a lemma about those functions.
- `conexao.dfy` (module `Conexao`) holds the class `Banco`. Its fields are
  the stored tables and counters. Its methods update them in place, one
  atomic step per committed write. Each method is proved equal to the
  corresponding function of `Operacoes` and to preserve `Consistente`.

Prices and totals are whole numbers of cents. Quantities and ids are
unbounded integers (see "## Left out" for the 64-bit storage limit).

Nothing in the code checks that a sale's quantity is positive, or that a
product's price and stock are non-negative. `adicionar_produto` stores
whatever it is given. `registrar_venda` compares the stock with the quantity
and nothing else. So for a product whose stock is not negative, a negative
quantity passes the check. That sale then raises the stock and records the
price times that quantity as its total (`VendaComQuantidadeNegativa`). So
"stock is never negative" is not an invariant of the program. What holds is
this: a sale never leaves stock below zero, and stock that starts
non-negative stays non-negative as long as products are added with
non-negative quantities. The invariant `Consistente` holds from the very
first run: the empty file that opening a missing database creates satisfies
it (`ConsistenteVazio`).

## Model

| member | source | states |
|---|---|---|
| Tabelas.IndiceDe | projeto.py:80-81 | the lookup returns the first row, in storage order, whose id is the one asked for; it returns nothing exactly when no row has that id |
| Tabelas.MaiorOuZero | projeto.py:24 | the result is at least 0 and every id present, and is either 0 or one of those ids; for positive ids it is the largest id, or 0 for an empty table |
| Tabelas.ProximoId | projeto.py:24 | the AUTOINCREMENT id is above the counter and above every id present; for a non-negative counter and positive ids it is the least such value (one more than the counter, one more than an id present, or 1) |
| Tabelas.ProximoIdSequencial | projeto.py:24 | under the invariant, the new id is exactly the counter plus one |
| Tabelas.IndiceDeUnico | projeto.py:80-81 | with unique ids, the lookup of a row's id finds exactly that row |
| Tabelas.ConsistenteVazio | projeto.py:7-9 | the empty file that opening a missing database creates (no tables, no rows, counters at 0) satisfies the invariant |
| Operacoes.CriarTabelas | projeto.py:13-51 | afterwards all three tables exist |
| Operacoes.CriarTabelasIdempotente | projeto.py:22-49 | creating the tables twice gives the same database as creating them once |
| Operacoes.CriarTabelasNaoDestrutiva | projeto.py:22-49 | on a consistent database only the set of tables changes: every row and counter is kept, and the result is consistent |
| Operacoes.AdicionarProduto | projeto.py:54-67 | exactly one product row is appended, with the given name, price and quantity; its id is above the counter and every existing id and becomes the new counter; sales, customers and schema are unchanged |
| Operacoes.AdicionarProdutoPreservaConsistencia | projeto.py:63-66 | on a consistent database the new id is the counter plus one, and the result is consistent |
| Operacoes.AdicionarProdutoPreservaEstoqueNaoNegativo | projeto.py:63-66 | adding a product with a non-negative quantity keeps every stock non-negative |
| Operacoes.AdicionarProdutoConservaEstoque | projeto.py:63-66 | every other product keeps its stock and quantity sold; the new product has its given stock and nothing sold |
| Operacoes.RegistrarVenda | projeto.py:70-98 | the sale is recorded exactly when the product is found and its stock is at least the quantity; a refused sale changes nothing; a recorded one appends one sale and keeps schema, customers, product count and product counter |
| Operacoes.VendaRecusada | projeto.py:80-82 | with no product of that id, or one whose stock is below the quantity, the result is the unchanged database and the failure outcome |
| Operacoes.BaixarEstoqueEfeito | projeto.py:85-89 | for any table, unique ids or not, the UPDATE keeps the row count and every row's id, name and price; every row with that id loses exactly the quantity of stock; every other row is unchanged |
| Operacoes.BaixarEstoqueUnico | projeto.py:85-89 | with unique ids, the UPDATE changes only the stock of the one row with that id, by exactly the quantity |
| Operacoes.VendaAceita | projeto.py:82-95 | a sale of an existing product with enough stock succeeds; only that product's stock changes, dropping by the quantity; one sale is appended with the next id, the given product, quantity and date, and the price read times the quantity; the stock left is not negative |
| Operacoes.BaixaEAnexoExiste | projeto.py:85-94 | the closed-form state of an accepted sale is a recorded-sale step (`BaixaEAnexo`): one row with that id loses the quantity of stock to a non-negative value, every other row is kept, and one sale with the next id and that row's price times the quantity is appended |
| Operacoes.VendaRegistrada | projeto.py:80-95 | on a consistent database, every sale the program records is such a step for the row the lookup found |
| Operacoes.VendaComQuantidadeNegativa | projeto.py:82-89 | a negative quantity passes the stock check for any existing product with non-negative stock, raises its stock, and records the price times that negative quantity as the total |
| Operacoes.ConsistenteAposVenda | projeto.py:85-94 | lowering one product's stock and appending a sale of that product with the next id and its price times its quantity keeps the database consistent |
| Operacoes.VendaPreservaConsistencia | projeto.py:80-94 | every sale attempt keeps the database consistent: unique increasing ids, every sale referencing an existing product, every total equal to price times quantity |
| Operacoes.VendaPreservaEstoqueNaoNegativo | projeto.py:82-89 | on a consistent database whose stocks are all non-negative, they stay non-negative after any sale attempt |
| Operacoes.VendaConservaEstoque | projeto.py:85-94 | for every product, stock plus total quantity sold is the same before and after a sale attempt |
| Operacoes.VisualizarEstoqueConsistente | projeto.py:107-108 | the stock listing (`VisualizarEstoque`, the full scan of `produtos` in storage order) covers every product: on a consistent database it has one row per product, in strictly increasing id order, and each listed row is exactly the row a sale of that id looks up, with the stock that sale checks |
| Operacoes.LinhasDaVenda | projeto.py:121-123 | one sale gives at most one row; it gives one exactly when some product has the sale's product id, and that row carries the sale's id, quantity, date and total with the name of such a product |
| Operacoes.Juncao | projeto.py:120-125 | the join has at most one row per sale, and every row is built from some sale of the table with the name of a product that sale references |
| Operacoes.JuncaoConcatena | projeto.py:120-125 | the join of two runs of sales is the join of the first followed by the join of the second, so each sale contributes independently and in order |
| Operacoes.JuncaoOmiteOrfas | projeto.py:120-125 | sales whose product id matches no product contribute no row |
| Operacoes.JuncaoCompleta | projeto.py:120-125 | when every sale's product exists, the join has one row per sale, in order, carrying the sale's fields and its product's name |
| Operacoes.VisualizarVendas | projeto.py:120-125 | the sales listing has no more rows than there are sales, and every row comes from a stored sale and the name of a stored product that sale references |
| Operacoes.VisualizarVendasConsistente | projeto.py:120-125 | on a consistent database the sales listing shows every sale in storage order, each with the name of an existing product of its id and a total equal to that product's price times the quantity |
| Conexao.Banco.Conectar | projeto.py:4-10 | opening the file yields exactly the contents it holds; opening a missing file (an empty database) yields a state that satisfies the invariant |
| Conexao.Banco.CriarTabelas | projeto.py:13-51 | runs the three create-if-absent statements in place; the new state is `Operacoes.CriarTabelas` of the old; on a consistent database only the set of tables changes |
| Conexao.Banco.AdicionarProduto | projeto.py:54-67 | appends the product in place with the next id, leaving the sales table, customers and schema unchanged; the new state is `Operacoes.AdicionarProduto` of the old, and consistency is preserved |
| Conexao.Banco.RegistrarVenda | projeto.py:70-98 | performs the lookup, the stock update and the sale insert in place; the state and outcome are those of `Operacoes.RegistrarVenda`; a refused sale changes nothing; on a consistent database a recorded sale is a `BaixaEAnexo` step: exactly one product's stock drops by the quantity to a non-negative value, its id, name and price and every other product row are kept, and one sale with the next id and the price times the quantity is appended; consistency is preserved |
| Conexao.Banco.VisualizarEstoque | projeto.py:101-111 | returns the stock listing of the current state and changes nothing |
| Conexao.Banco.VisualizarVendas | projeto.py:114-128 | returns the sales listing of the current state and changes nothing |

## Left out

- The SQLite connection and its `commit` and `close` calls are not modelled. Each write operation is one atomic step from the old contents to the new. The constructor `Banco.Conectar` stands for opening the file with the contents it already holds.
- Failures inside SQLite are not modelled: disk errors, a full id space at 2^63-1, or an exception between the UPDATE and the INSERT.
- SQLite stores INTEGER values in 64 bits; the model uses unbounded integers. A `produto_id`, `quantidade` or product quantity outside the signed 64-bit range makes SQLite raise `OverflowError` when the value is bound (projeto.py:63-66, 80, 85-89), where the model instead refuses the sale, records it or appends the product. When `quantidade - ?` overflows 64 bits, SQLite stores the stock as a REAL, where the model keeps an exact integer.
- Operations on a table that does not exist would raise an SQLite error. The program always calls `criar_tabelas` first, so the write operations require the tables they touch to exist.
- The interactive `menu` loop, its `input` prompts, and the `float()`/`int()` parsing are not modelled. They are terminal I/O, and a parse failure simply ends the process.
- The printed confirmations, error notices and listing text are not modelled. The listings are returned as sequences of rows. Which message `registrar_venda` prints is returned as a boolean.
- Prices and totals are REAL in the schema and Python floats in the code. They are modelled as exact integers (cents), so float rounding is not captured.
- SQLite gives no row order without ORDER BY. The listings are modelled in storage (rowid) order: a full scan of `produtos`, and for the join, sales in storage order, each with its product found by primary key.
- The `FOREIGN KEY` clause is not modelled. SQLite does not enforce it unless enabled. References stay valid because of the stock check before the insert (`VendaPreservaConsistencia`).
- No operation reads or writes the `clientes` table. It is kept only as a table that `criar_tabelas` creates and otherwise leaves alone.
