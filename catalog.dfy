/** What the engine reads of a catalogue item: the metadata dictionary stored beside each
    vector in the index, and the (document, score) pairs the index returns. */
module Catalog {
  import opened Basics

  /** The value found under the `price` key: an explicit null, a value `float()` accepts,
      or one it rejects. */
  datatype PriceValue = NullPrice | Numeric(amount: real) | Unparsable

  /** A metadata dictionary. `None` stands for a key that is absent or holds null;
      `price == None` is an absent key (an explicit null is `Some(NullPrice)`). */
  datatype Metadata = Metadata(
    productId: Option<string>,
    name: Option<string>,
    brand: Option<string>,
    category: Option<string>,
    price: Option<PriceValue>,
    rating: Option<real>,
    reviewsCount: Option<real>)

  /** A stored document: its embedded text and its metadata. */
  datatype Doc = Doc(content: string, meta: Metadata)

  /** One `(doc, score)` pair, as the index returns it and as the re-ranker emits it. */
  datatype Hit = Hit(doc: Doc, score: real)
}
