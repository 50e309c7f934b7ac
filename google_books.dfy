/**
 * The shape of a Google Books volume search response. Every leaf the API may
 * omit is an Option; the JSON decoding itself is not part of this model.
 */
module GoogleBooks {
  import opened Wrappers

  datatype IndustryIdentifier = IndustryIdentifier(kind: Option<string>, identifier: Option<string>)

  datatype ImageLinks = ImageLinks(thumbnail: Option<string>)

  datatype VolumeInfo = VolumeInfo(
    title: Option<string>,
    authors: Option<seq<string>>,
    publisher: Option<string>,
    publishedDate: Option<string>,
    description: Option<string>,
    imageLinks: Option<ImageLinks>,
    industryIdentifiers: Option<seq<IndustryIdentifier>>)

  datatype BookItem = BookItem(volumeInfo: VolumeInfo)

  datatype GoogleBooksResponse = GoogleBooksResponse(items: Option<seq<BookItem>>)
}
