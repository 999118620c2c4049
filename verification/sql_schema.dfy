/**
 * The catalogue the SQL validator checks against: ten tables of an online-shop database, their
 * columns in declaration order, and the comparison operators a condition may use.
 */
module SqlSchema {
  import opened Text

  /** Table name (lower-case) to its columns, in their original case and declaration order. */
  const DatabaseSchema: map<string, seq<string>> := map[
    "categoria" := ["idCategoria", "Descricao"],
    "produto" := ["idProduto", "Nome", "Descricao", "Preco", "QuantEstoque", "Categoria_idCategoria"],
    "tipocliente" := ["idTipoCliente", "Descricao"],
    "cliente" := ["idCliente", "Nome", "Email", "Nascimento", "Senha", "TipoCliente_idTipoCliente", "DataRegistro"],
    "tipoendereco" := ["idTipoEndereco", "Descricao"],
    "endereco" := ["idEndereco", "EnderecoPadrao", "Logradouro", "Numero", "Complemento", "Bairro", "Cidade",
                   "UF", "CEP", "TipoEndereco_idTipoEndereco", "Cliente_idCliente"],
    "telefone" := ["Numero", "Cliente_idCliente"],
    "status" := ["idStatus", "Descricao"],
    "pedido" := ["idPedido", "Status_idStatus", "DataPedido", "ValorTotalPedido", "Cliente_idCliente"],
    "pedido_has_produto" := ["idPedidoProduto", "Pedido_idPedido", "Produto_idProduto", "Quantidade", "PrecoUnitario"]
  ]

  /** A catalogue: table name to its columns. The validator is written over any catalogue and is
      applied to `DatabaseSchema`. */
  type Schema = map<string, seq<string>>

  const AllowedOperators: set<string> := {"=", ">", "<", "<=", ">=", "<>"}

  /** No upper-case ASCII letter: what `Lower` produces. */
  predicate LowerCased(s: string)
  {
    forall i :: 0 <= i < |s| ==> !('A' <= s[i] <= 'Z')
  }

  /** `_normalize_name`: lower-case, then strip. */
  function NormalizeName(name: string): (r: string)
    ensures Stripped(r) && |r| <= |name|
  {
    Strip(Lower(name))
  }

  /** A normalised name has no upper-case letter. */
  lemma NormalizedLowerCased(name: string)
    ensures LowerCased(NormalizeName(name))
  {
    LowerIsLowerCased(name);
    StripKeepsLowerCased(Lower(name));
  }

  lemma LowerIsLowerCased(s: string)
    ensures LowerCased(Lower(s))
  {
    forall i | 0 <= i < |s|
      ensures !('A' <= Lower(s)[i] <= 'Z')
    {
      assert Lower(s)[i] == LowerChar(s[i]);
    }
  }

  lemma StripKeepsLowerCased(s: string)
    requires LowerCased(s)
    ensures LowerCased(Strip(s))
  {
    var t := TrimLeft(s);
    TrimLeftRemovesSpace(s);
    assert LowerCased(t);
    var r := TrimRight(t);
    TrimRightRemovesSpace(t);
  }

  /** Normalising a normalised name changes nothing. */
  lemma NormalizeIdempotent(name: string)
    ensures NormalizeName(NormalizeName(name)) == NormalizeName(name)
  {
    var n := NormalizeName(name);
    NormalizedLowerCased(name);
    assert Lower(n) == n;
    StripStripped(n);
  }

  /** The columns of a known table as the validator compares them: normalised. */
  function LowerColumns(schema: Schema, table: string): (cols: seq<string>)
    requires table in schema
    ensures |cols| == |schema[table]|
  {
    var cs := schema[table];
    seq(|cs|, i requires 0 <= i < |cs| => NormalizeName(cs[i]))
  }

  /**
   * The normalised columns of `table`, none when the catalogue does not have it. The validator only
   * asks about tables it has registered, which the catalogue always has.
   */
  function ColumnsOf(schema: Schema, table: string): seq<string>
  {
    if table in schema then LowerColumns(schema, table) else []
  }
}
