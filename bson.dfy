/** The document-store values the query layer builds: filters (`bson.M`), sort options (`bson.D`) and stored documents. */
module Bson {
  import opened ObjectIds

  /** A filter value: a plain string, or a parsed identifier for the `_id` key. */
  datatype FilterValue = StringValue(s: string) | IdValue(id: ObjectId)

  /** `bson.M`: key to value, unordered. */
  type Filter = map<string, FilterValue>

  /** `bson.E{Key, Value}` with an integer sort direction. */
  datatype SortEntry = SortEntry(key: string, value: int)

  /** `bson.D`: an ordered list of entries. */
  type SortOptions = seq<SortEntry>

  /** A stored document as the cursor returns it, before decoding. */
  type Document = map<string, string>
}
