/** One row of the CEAPS expense files, column by column, in the files' order.
    The DATA and VALOR_REEMBOLSADO columns change type while the rows are cleaned,
    so their types are parameters. */
module Records {
  import opened Basics
  import opened Dates

  datatype Row<D, V> = Row(
    ano: Option<string>,
    mes: Option<string>,
    senador: Option<string>,
    tipoDespesa: Option<string>,
    cnpjCpf: Option<string>,
    fornecedor: Option<string>,
    documento: Option<string>,
    data: D,
    detalhamento: Option<string>,
    valorReembolsado: V,
    codDocumento: Option<string>)

  /** A row as the files give it: every cell is its text, or missing (a cell read_csv reads as NaN). */
  type RawRecord = Row<Option<string>, Option<string>>

  /** A cleaned row: DATA is a day or NaT, VALOR_REEMBOLSADO a number or NaN. */
  type Record = Row<Option<Date>, Option<real>>

  /** The row with a new VALOR_REEMBOLSADO column. */
  function WithAmount<D, V, W>(r: Row<D, V>, v: W): (o: Row<D, W>)
    ensures o.valorReembolsado == v && o.data == r.data
  {
    Row(r.ano, r.mes, r.senador, r.tipoDespesa, r.cnpjCpf, r.fornecedor, r.documento,
        r.data, r.detalhamento, v, r.codDocumento)
  }

  /** The row with a new DATA column. */
  function WithDate<D, E, V>(r: Row<D, V>, d: E): (o: Row<E, V>)
    ensures o.data == d && o.valorReembolsado == r.valorReembolsado
  {
    Row(r.ano, r.mes, r.senador, r.tipoDespesa, r.cnpjCpf, r.fornecedor, r.documento,
        d, r.detalhamento, r.valorReembolsado, r.codDocumento)
  }

  /** The nine text columns other than DATA and VALOR_REEMBOLSADO agree. */
  predicate SameText<D, V, E, W>(a: Row<D, V>, b: Row<E, W>)
  {
    && a.ano == b.ano && a.mes == b.mes && a.senador == b.senador && a.tipoDespesa == b.tipoDespesa
    && a.cnpjCpf == b.cnpjCpf && a.fornecedor == b.fornecedor && a.documento == b.documento
    && a.detalhamento == b.detalhamento && a.codDocumento == b.codDocumento
  }
}
