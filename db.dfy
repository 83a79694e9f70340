/** The document store the routes talk to. A MongoDB collection is a class
    whose one field is the sequence of its documents in insertion order. No
    route of the backend deletes a document, so a document's ObjectId is
    modelled by its position in that sequence. */
module Db {

  class Collection<T> {
    var docs: seq<T>

    constructor (initial: seq<T>)
      ensures docs == initial
    {
      docs := initial;
    }

    /** `new Model(data).save()` on a new document: it is appended. */
    method Insert(d: T)
      modifies this
      ensures docs == old(docs) + [d]
    {
      docs := docs + [d];
    }

    /** Writing back one stored document (`doc.save()` on a document read
        earlier, or `findByIdAndUpdate`): only position `i` changes. */
    method Put(i: nat, d: T)
      requires i < |docs|
      modifies this
      ensures docs == old(docs)[i := d]
    {
      docs := docs[i := d];
    }
  }

  /** A route's `:id` parameter after Mongoose casts it to an ObjectId: either
      the id of a position (which may hold no document) or a string that is
      not an ObjectId at all, on which the cast throws. */
  datatype IdParam = ObjectId(index: nat) | Malformed
}
