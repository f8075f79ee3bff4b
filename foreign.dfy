/** The three library calls the scorer makes, whose internals are not part of
    this model. They are passed in as total functions, so every property
    below holds whatever these libraries compute. */
module Foreign {

  datatype Oracles = Oracles(
    /** `DamerauLevenshtein.distance(brand, word)` from rapidfuzz. */
    dist: (string, string) -> nat,
    /** `wordninja.split(token)`; may return any list, the empty one included. */
    segment: string -> seq<string>,
    /** `unidecode(token)`. */
    translit: string -> string)
}
