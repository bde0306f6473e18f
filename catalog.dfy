/** The book catalog and the per-record mapping of `data_preprocessing`
    (backend/chatbot_class.py): each catalog record becomes a descriptive text
    plus a metadata record whose searchable fields are lower-cased. */
module Catalog {
  import opened Strings
  import opened Decimal

  /** One record of the catalog file. Prices are modelled as integers. */
  datatype Book = Book(id: int, title: string, author: string, genre: string,
                       summary: string, price: int, stock: int)

  /** The metadata dictionary stored with each document, under the source's
      keys `id`, `kitap_adi` (title), `yazar` (author), `tur` (genre),
      `fiyat` (price) and `stok` (stock). */
  datatype Metadata = Metadata(id: int, kitapAdi: string, yazar: string, tur: string,
                               fiyat: int, stok: int)

  /** A document as handed to the text splitter: its text and its metadata. */
  datatype Document = Document(pageContent: string, metadata: Metadata)

  /** The descriptive text of a record; the summary is followed directly by the
      price, without a separating space, as in the source. */
  function Content(b: Book): string
  {
    b.title + " - " + b.genre + " türünde bir kitaptır, " + b.author + " tarafından yazılmıştır. "
      + b.summary + IntToString(b.price) + " TL. Stok: " + IntToString(b.stock) + " adet."
  }

  /** The metadata dictionary of a record. */
  function MetadataOf(b: Book): Metadata
  {
    Metadata(b.id, Lower(b.title), Lower(b.author), Lower(b.genre), b.price, b.stock)
  }

  /** The stored title is already lower-case, so the second `.lower()` that
      `add_book` and `delete_book` apply to it changes nothing, and a
      lower-cased fragment occurs in the stored title exactly when it occurs in
      the lower-cased catalog title. */
  lemma MetadataTitleSearchable(b: Book, fragment: string)
    ensures IsLower(MetadataOf(b).kitapAdi)
    ensures Lower(MetadataOf(b).kitapAdi) == MetadataOf(b).kitapAdi
    ensures IsSubstring(Lower(fragment), Lower(MetadataOf(b).kitapAdi)) <==> IsSubstring(Lower(fragment), Lower(b.title))
  {
    LowerIdempotent(b.title);
  }

  /** The loop of `data_preprocessing` before the text splitter: one document
      per catalog record, in catalog order, whose metadata holds the
      lower-cased title, author and genre and the unchanged id, price and stock. */
  method Preprocess(books: seq<Book>) returns (docs: seq<Document>)
    ensures |docs| == |books|
    ensures forall i :: 0 <= i < |books| ==>
      && docs[i].pageContent == Content(books[i])
      && docs[i].metadata.id == books[i].id
      && docs[i].metadata.kitapAdi == Lower(books[i].title)
      && docs[i].metadata.yazar == Lower(books[i].author)
      && docs[i].metadata.tur == Lower(books[i].genre)
      && docs[i].metadata.fiyat == books[i].price
      && docs[i].metadata.stok == books[i].stock
  {
    docs := [];
    var n := 0;
    while n < |books|
      invariant 0 <= n <= |books|
      invariant |docs| == n
      invariant forall i :: 0 <= i < n ==> docs[i] == Document(Content(books[i]), MetadataOf(books[i]))
    {
      var book := books[n];
      var metadata := MetadataOf(book);
      docs := docs + [Document(Content(book), metadata)];
      n := n + 1;
    }
  }
}
