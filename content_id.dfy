/** Content identifier: a document's id is the SHA-256 hex digest of its
    item serialised with sorted keys (`generate_doc_id` and its call site).
    Neither the serialiser nor the hash is modelled; both are carried as
    function values, so nothing is assumed about them beyond being
    functions. */
module ContentId {
  import opened JsonValue

  /** The two foreign functions the id is built from:
      `json.dumps(item, sort_keys=True)`, and `sha256(s.encode('utf-8')).hexdigest()`. */
  datatype Hashing = Hashing(dumpsSorted: Json -> string, sha256Hex: string -> string)

  /** `generate_doc_id(content_str)`. */
  function GenerateDocId(content: string, h: Hashing): string
  {
    h.sha256Hex(content)
  }

  /** The id given to an item: the hash of its sorted serialisation. */
  function ItemId(item: Json, h: Hashing): string
  {
    GenerateDocId(h.dumpsSorted(item), h)
  }
}
