/**
 * JSON.stringify and JSON.parse at one value type, taken as given: the
 * model never looks inside the text. Where a property needs serialising
 * and then parsing to give the value back, the lemma that states it
 * requires exactly that of the codec.
 */
module Json {
  import opened Wrappers

  /** `stringify(v)` is None when JSON.stringify throws; `parse(t)` is None when JSON.parse throws. */
  datatype Codec<!V> = Codec(stringify: V -> Option<string>, parse: string -> Option<V>)
}
