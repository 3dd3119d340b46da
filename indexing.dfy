/** `InvertedIndex`: the term index together with the database it fills. */
module Indexing {
  import opened Tokenize
  import opened Postings
  import opened Documents
  import opened Wrappers

  class InvertedIndex {
    /** `self.index`: term to its posting list. */
    var index: Index
    /** `self.db`, fixed at construction. */
    const db: Database

    constructor (db: Database)
      ensures index == map[] && this.db == db
    {
      index := map[];
      this.db := db;
    }

    /** Every document id in a posting list names a stored document. */
    ghost predicate PostingsBacked()
      reads this, db
    {
      ReferencesWithin(index, db.docs.Keys)
    }

    /**
      Cleans and splits the text, counts each term, appends one appearance
      per distinct term to its posting list, stores the document and
      returns it.
    */
    method IndexDocument(document: Document) returns (r: Document)
      modifies this, db
      ensures r == document
      ensures index == AfterIndexing(old(index), document.id, Terms(document.text))
      ensures forall t :: t in old(index) ==> t in index && old(index)[t] <= index[t]
      ensures forall t :: t in Terms(document.text) ==>
        t in index && index[t][|index[t]| - 1] == Appearance(document.id, multiset(Terms(document.text))[t])
      ensures forall t :: t in old(index) && t !in Terms(document.text) ==> index[t] == old(index)[t]
      ensures db.docs == old(db.docs)[document.id := document]
      ensures Fetch(db.docs, document.id) == Some(document)
      ensures old(PostingsBacked()) ==> PostingsBacked()
    {
      ghost var before := index;
      ghost var stored := db.docs;
      var cleanText := Clean(document.text);
      var terms := Split(cleanText);
      assert terms == Terms(document.text);
      var appearances := CountAppearances(document.id, terms);
      var updateDict := UpdateDict(index, appearances);
      index := index + updateDict;
      CountsAreOccurrences(document.id, terms, appearances);
      MergeIsAfterIndexing(before, document.id, terms, appearances);
      LastAppearanceIsCount(before, document.id, terms);
      db.Add(document);
      r := document;
      if ReferencesWithin(before, stored.Keys) {
        ReferencesAfterIndexing(before, document.id, terms, stored.Keys);
        assert stored.Keys + {document.id} == db.docs.Keys;
      }
    }

    /**
      The sub-map of the index for the `' '`-separated query terms that are
      keys of the index.
    */
    function LookupQuery(query: string): (r: Index)
      reads this
      ensures forall t :: t in r <==> t in Split(query) && t in index
      ensures forall t :: t in r ==> r[t] == index[t]
    {
      map term | term in Split(query) && term in index :: index[term]
    }
  }

  /**
    The dict comprehension `update_dict` of `index_document`: for every
    counted term, its old posting list (or none) followed by the new appearance.
  */
  function UpdateDict(index: Index, appearances: map<string, Appearance>): (u: Index)
    ensures forall t :: t in u <==> t in appearances
    ensures forall t :: t in u ==> u[t] == PostingList(index, t) + [appearances[t]]
  {
    map key | key in appearances ::
      if key !in index then [appearances[key]] else index[key] + [appearances[key]]
  }

  /** The dict update of `index_document` computes `AfterIndexing`. */
  lemma MergeIsAfterIndexing(index: Index, docId: string, terms: seq<string>, appearances: map<string, Appearance>)
    requires forall t :: t in appearances <==> t in terms
    requires forall t :: t in appearances ==> appearances[t] == Appearance(docId, Occurrences(terms, t))
    ensures index + UpdateDict(index, appearances) == AfterIndexing(index, docId, terms)
  {
    var merged := index + UpdateDict(index, appearances);
    var r := AfterIndexing(index, docId, terms);
    assert merged.Keys == r.Keys;
    forall t | t in merged ensures merged[t] == r[t] {
      if t in terms {
        assert merged[t] == PostingList(index, t) + [appearances[t]];
      } else {
        assert merged[t] == index[t];
      }
    }
  }

  /** The counts of `CountAppearances`, restated with `Occurrences`. */
  lemma CountsAreOccurrences(docId: string, terms: seq<string>, appearances: map<string, Appearance>)
    requires forall t :: t in appearances ==>
      appearances[t].docId == docId && appearances[t].frequency == multiset(terms)[t]
    ensures forall t :: t in appearances ==> appearances[t] == Appearance(docId, Occurrences(terms, t))
  {
    forall t | t in appearances ensures appearances[t] == Appearance(docId, Occurrences(terms, t)) {
      OccurrencesIsMultiplicity(terms, t);
    }
  }

  /** The appearance appended for a term carries the term's multiplicity in the term list. */
  lemma LastAppearanceIsCount(index: Index, docId: string, terms: seq<string>)
    ensures var r := AfterIndexing(index, docId, terms);
      forall t :: t in terms ==> t in r && r[t][|r[t]| - 1] == Appearance(docId, multiset(terms)[t])
  {
    forall t | t in terms ensures Occurrences(terms, t) == multiset(terms)[t] {
      OccurrencesIsMultiplicity(terms, t);
    }
  }

  /** Looking up a query keeps fewer keys when it names fewer terms. */
  lemma LookupMonotone(ix: InvertedIndex, q1: string, q2: string)
    requires forall t :: t in Split(q1) ==> t in Split(q2)
    ensures forall t :: t in ix.LookupQuery(q1) ==> t in ix.LookupQuery(q2)
  {
  }

  /**
    A query made of space-free terms joined by single spaces returns exactly
    those of its terms that are indexed, each with its full posting list.
  */
  lemma LookupJoinedTerms(ix: InvertedIndex, ts: seq<string>)
    requires |ts| >= 1
    requires forall i :: 0 <= i < |ts| ==> ' ' !in ts[i]
    ensures forall t :: t in ix.LookupQuery(Join(ts)) <==> t in ts && t in ix.index
    ensures forall t :: t in ts && t in ix.index ==> ix.LookupQuery(Join(ts))[t] == ix.index[t]
  {
    JoinSplit(ts);
  }
  /**
    A text that cleans to nothing still yields one term, the empty string,
    so indexing it records `""` with frequency one.
  */
  lemma NoKeptTextIndexesEmptyTerm(index: Index, docId: string, text: string)
    requires Clean(text) == ""
    ensures Terms(text) == [""]
    ensures var r := AfterIndexing(index, docId, Terms(text));
      "" in r && r[""][|r[""]| - 1] == Appearance(docId, 1)
  {
  }

  /** A punctuation mark standing alone between two spaces produces an empty term. */
  lemma IsolatedPunctuationGivesEmptyTerm(a: string, c: char, b: string)
    requires !IsKept(c)
    ensures "" in Terms(a + " " + [c] + " " + b)
  {
    var mid := [' ', c, ' '];
    assert Clean(mid) == "  " by {
      assert mid[1..] == [c, ' '] && [c, ' '][1..] == " ";
      assert Clean(" ") == " ";
    }
    assert a + " " + [c] + " " + b == a + (mid + b);
    CleanConcat(mid, b);
    CleanConcat(a, mid + b);
    assert Clean(a) + ("  " + Clean(b)) == Clean(a) + "  " + Clean(b);
    AdjacentSpacesGiveEmptyTerm(Clean(a), Clean(b));
  }
}

