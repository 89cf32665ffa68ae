/** The product records and the shipped six-item catalog (`PRODUCTS`). */
module Catalog {

  /** One catalog entry. The JavaScript record's numeric `id` and `price` are
      integers here; `image` is an opaque path. */
  datatype Product = Product(
    id: int,
    name: string,
    category: string,
    price: int,
    image: string,
    description: string)

  const PRODUCTS: seq<Product> := [
    Product(1, "Budget Phone X1", "Phone", 299, "/images/Budget Phone X1.jpg",
            "Entry-level smartphone with decent camera and battery life."),
    Product(2, "Pro Phone Z5", "Phone", 799, "/images/Pro Phone Z5.jpg",
            "Flagship smartphone with OLED display and excellent performance."),
    Product(3, "Smartwatch Lite", "Watch", 149, "/images/Smartwatch Lite.jpg",
            "Lightweight smartwatch with fitness tracking features."),
    Product(4, "Gaming Laptop G15", "Laptop", 1200, "/images/Gaming Laptop G15.jpg",
            "High-performance laptop suitable for gaming and heavy workloads."),
    Product(5, "Everyday Laptop E3", "Laptop", 550, "/images/Everyday Laptop E3.jpg",
            "Affordable laptop for students and office work."),
    Product(6, "Wireless Earbuds", "Audio", 89, "/images/Wireless Earbuds.jpg",
            "Noise-cancelling wireless earbuds with long battery life.")
  ]

  /** No two entries share an identifier. */
  predicate UniqueIds(ps: seq<Product>) {
    forall i, j :: 0 <= i < j < |ps| ==> ps[i].id != ps[j].id
  }

  /** The shipped catalog numbers its entries 1 to 6, each once, and no
      price is negative. */
  lemma CatalogFacts()
    ensures |PRODUCTS| == 6
    ensures forall i :: 0 <= i < |PRODUCTS| ==> PRODUCTS[i].id == i + 1
    ensures UniqueIds(PRODUCTS)
    ensures forall p :: p in PRODUCTS ==> p.price >= 0
  {
  }
}
