/**
  The persistent vector collection ("docs") as an abstract map from chunk
  ID to the stored embedding, chunk text and `{filename}` metadata, with
  the four operations the backend relies on. Nearest-neighbour
  ranking is not part of this model.
 */
module Store {

  type Embedding = seq<real>

  /** One stored chunk: its embedding, its text and its `filename` metadata. */
  datatype Entry = Entry(embedding: Embedding, document: string, filename: string)

  type Collection = map<string, Entry>

  /** `collection.delete(ids=ids)`: the listed IDs are gone, every other entry is kept as it was. */
  function DeleteIds(c: Collection, ids: seq<string>): (r: Collection)
    ensures forall id :: id in r <==> id in c && id !in ids
    ensures forall id :: id in r ==> r[id] == c[id]
  {
    map id | id in c && id !in ids :: c[id]
  }

  /**
    `collection.add(...)` of one entry: the ID is present afterwards, an
    entry already stored under it is kept (the store skips existing IDs),
    and nothing else changes.
   */
  function AddIfAbsent(c: Collection, id: string, e: Entry): (r: Collection)
    ensures r.Keys == c.Keys + {id}
    ensures forall k :: k in c ==> r[k] == c[k]
    ensures id !in c ==> r[id] == e
  {
    if id in c then c else c[id := e]
  }

  /**
    `collection.delete(where={"filename": {"$ne": "null"}})`: only the
    entries whose filename metadata is the string "null" remain.
   */
  function DeleteWhereFilenameNotNull(c: Collection): (r: Collection)
    ensures forall id :: id in r <==> id in c && c[id].filename == "null"
    ensures forall id :: id in r ==> r[id] == c[id]
  {
    map id | id in c && c[id].filename == "null" :: c[id]
  }

  /** The IDs a query filtered on `{"filename": f}` ranks. */
  function WithFilename(c: Collection, f: string): (ids: set<string>)
    ensures forall id :: id in ids <==> id in c && c[id].filename == f
  {
    set id | id in c && c[id].filename == f
  }
}
