/** Documents and `Database`, the in-memory store of indexed documents. */
module Documents {
  import opened Wrappers

  /** A document record: its id and its text (the dict `{'id': …, 'text': …}`). */
  datatype Document = Document(id: string, text: string)

  /** `dict.get(id, None)` on the store. */
  function Fetch(docs: map<string, Document>, id: string): (r: Option<Document>)
    ensures r.None? <==> id !in docs
    ensures r.Some? ==> r.value == docs[id]
  {
    if id in docs then Some(docs[id]) else None
  }

  /**
    Get after add, stated on the store itself: after adding `d`, fetching its
    id gives `d`; every other id is unaffected.
  */
  lemma FetchAfterAdd(docs: map<string, Document>, d: Document, id: string)
    ensures Fetch(docs[d.id := d], id) == if id == d.id then Some(d) else Fetch(docs, id)
  {
  }

  /**
    Get after remove, stated on the store itself: after removing `d`'s id,
    fetching it gives nothing; every other id is unaffected.
  */
  lemma FetchAfterRemove(docs: map<string, Document>, d: Document, id: string)
    ensures Fetch(docs - {d.id}, id) == if id == d.id then None else Fetch(docs, id)
  {
  }

  class Database {
    /** `self.db`: document id to the stored document. */
    var docs: map<string, Document>

    constructor ()
      ensures docs == map[]
    {
      docs := map[];
    }

    /** The stored document with this id, `None` when there is none. */
    method Get(id: string) returns (r: Option<Document>)
      ensures r == Fetch(docs, id)
    {
      r := Fetch(docs, id);
    }

    /** Stores `document` under its id, replacing any document with that id. */
    method Add(document: Document)
      modifies this
      ensures docs == old(docs)[document.id := document]
      ensures Fetch(docs, document.id) == Some(document)
      ensures forall id :: id != document.id ==> Fetch(docs, id) == Fetch(old(docs), id)
    {
      docs := docs[document.id := document];
    }

    /** Drops the document with `document`'s id and returns what was stored there. */
    method Remove(document: Document) returns (r: Option<Document>)
      modifies this
      ensures r == Fetch(old(docs), document.id)
      ensures docs == old(docs) - {document.id}
      ensures Fetch(docs, document.id) == None
      ensures forall id :: id != document.id ==> Fetch(docs, id) == Fetch(old(docs), id)
    {
      r := Fetch(docs, document.id);
      docs := docs - {document.id};
    }
  }
}
