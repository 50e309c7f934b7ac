/** A saved favourite: one row of the `livros` table. */
module Books {
  import opened Wrappers

  /**
   * `id` is 0 until the store assigns one; `dataAdicionado` is the creation
   * time in milliseconds, supplied by the caller.
   */
  datatype Book = Book(
    id: int,
    isbn: Option<string>,
    titulo: string,
    autor: Option<string>,
    ano: Option<string>,
    capaUrl: Option<string>,
    descricao: Option<string>,
    dataAdicionado: int)

  /** The placeholders both the scan dialog and the library show for absent fields. */
  const UnknownTitle: string := "Título desconhecido"
  const UnknownAuthor: string := "Autor desconhecido"
  const UnknownYear: string := "Ano desconhecido"
  const NoDescription: string := "Sem descrição disponível"
}
