/**
  Posting lists: `Appearance` records, per-document term counting, and the
  reference definition of what one call of `index_document` does to the index.
*/
module Postings {

  /** One occurrence record: the document that holds a term and how often it does. */
  datatype Appearance = Appearance(docId: string, frequency: nat)

  /** `InvertedIndex.index`: term to its posting list, in indexing order. */
  type Index = map<string, seq<Appearance>>

  /** How many times `t` occurs in `terms`. */
  function Occurrences(terms: seq<string>, t: string): (r: nat)
    ensures r <= |terms|
    ensures r > 0 <==> t in terms
  {
    if terms == [] then 0
    else Occurrences(terms[..|terms| - 1], t) + (if terms[|terms| - 1] == t then 1 else 0)
  }

  /** The counting function agrees with the multiplicity in the term multiset. */
  lemma {:induction false} OccurrencesIsMultiplicity(terms: seq<string>, t: string)
    ensures Occurrences(terms, t) == multiset(terms)[t]
  {
    if terms != [] {
      var init := terms[..|terms| - 1];
      OccurrencesIsMultiplicity(init, t);
      assert terms == init + [terms[|terms| - 1]];
    }
  }

  ghost predicate NoDuplicates<T>(s: seq<T>) {
    forall i, j :: 0 <= i < j < |s| ==> s[i] != s[j]
  }

  /** The distinct terms of a term list, each once (the keys of `appearances_dict`). */
  function Distinct(terms: seq<string>): (r: seq<string>)
    ensures NoDuplicates(r)
    ensures forall t :: t in r <==> t in terms
  {
    if terms == [] then []
    else
      var d := Distinct(terms[..|terms| - 1]);
      var x := terms[|terms| - 1];
      assert forall t :: t in terms <==> t in terms[..|terms| - 1] || t == x by {
        assert terms == terms[..|terms| - 1] + [x];
      }
      if x in d then d else d + [x]
  }

  /**
    The counting loop of `index_document`: one `Appearance` per distinct
    term, whose frequency is the number of times the term occurs.
  */
  method CountAppearances(docId: string, terms: seq<string>) returns (appearances: map<string, Appearance>)
    ensures forall t :: t in appearances <==> t in terms
    ensures forall t :: t in appearances ==>
      appearances[t].docId == docId && appearances[t].frequency == multiset(terms)[t]
  {
    appearances := map[];
    var i := 0;
    while i < |terms|
      invariant 0 <= i <= |terms|
      invariant forall t :: t in appearances <==> t in terms[..i]
      invariant forall t :: t in appearances ==> appearances[t] == Appearance(docId, Occurrences(terms[..i], t))
    {
      var term := terms[i];
      var termFrequency := if term in appearances then appearances[term].frequency else 0;
      appearances := appearances[term := Appearance(docId, termFrequency + 1)];
      assert terms[..i + 1][..i] == terms[..i];
      assert terms[..i + 1] == terms[..i] + [term];
      i := i + 1;
    }
    assert terms[..i] == terms;
    forall t | t in appearances
      ensures appearances[t].frequency == multiset(terms)[t]
    {
      OccurrencesIsMultiplicity(terms, t);
    }
  }

  /** The posting list of `t`, empty when `t` is not a key. */
  function PostingList(index: Index, t: string): seq<Appearance> {
    if t in index then index[t] else []
  }

  /**
    The index after one document with id `docId` and term list `terms` has
    been recorded: each distinct term gets one `Appearance` appended, with its
    count; every other key keeps its list.
  */
  function AfterIndexing(index: Index, docId: string, terms: seq<string>): (r: Index)
    ensures forall t :: t in r <==> t in index || t in terms
    ensures forall t :: t in index ==> index[t] <= r[t]
    ensures forall t :: t in terms ==>
      |r[t]| == |PostingList(index, t)| + 1
      && r[t][|r[t]| - 1] == Appearance(docId, Occurrences(terms, t))
    ensures forall t :: t in terms && t !in index ==> r[t] == [Appearance(docId, Occurrences(terms, t))]
    ensures forall t :: t in index && t !in terms ==> r[t] == index[t]
  {
    map t | t in index.Keys + (set x | x in terms) ::
      if t in terms then PostingList(index, t) + [Appearance(docId, Occurrences(terms, t))]
      else index[t]
  }

  /** Every frequency written is at least one. */
  lemma FrequenciesPositive(index: Index, docId: string, terms: seq<string>, t: string)
    requires t in terms
    ensures var r := AfterIndexing(index, docId, terms); r[t][|r[t]| - 1].frequency >= 1
  {
  }

  /** Sum of the counts of the terms `ds` within `terms`. */
  function SumOccurrences(ds: seq<string>, terms: seq<string>): nat {
    if ds == [] then 0
    else SumOccurrences(ds[..|ds| - 1], terms) + Occurrences(terms, ds[|ds| - 1])
  }

  lemma {:induction false} SumOccurrencesSnoc(ds: seq<string>, init: seq<string>, x: string)
    ensures SumOccurrences(ds, init + [x]) == SumOccurrences(ds, init) + Occurrences(ds, x)
  {
    if ds != [] {
      SumOccurrencesSnoc(ds[..|ds| - 1], init, x);
      assert (init + [x])[..|init + [x]| - 1] == init;
    }
  }

  lemma {:induction false} OccursOnce(ds: seq<string>, x: string)
    requires NoDuplicates(ds)
    requires x in ds
    ensures Occurrences(ds, x) == 1
  {
    var init := ds[..|ds| - 1];
    assert NoDuplicates(init);
    if ds[|ds| - 1] == x {
      assert x !in init;
    } else {
      assert ds == init + [ds[|ds| - 1]];
      OccursOnce(init, x);
    }
  }

  /** The counts of duplicate-free keys covering every term add up to the term count. */
  lemma {:induction false} SumOverCover(ds: seq<string>, terms: seq<string>)
    requires NoDuplicates(ds)
    requires forall t :: t in terms ==> t in ds
    ensures SumOccurrences(ds, terms) == |terms|
  {
    if terms == [] {
      SumZero(ds);
    } else {
      var init := terms[..|terms| - 1];
      var x := terms[|terms| - 1];
      assert terms == init + [x];
      SumOverCover(ds, init);
      SumOccurrencesSnoc(ds, init, x);
      OccursOnce(ds, x);
    }
  }

  lemma {:induction false} SumZero(ds: seq<string>)
    ensures SumOccurrences(ds, []) == 0
  {
    if ds != [] {
      SumZero(ds[..|ds| - 1]);
    }
  }

  /** Frequency of the last appearance of each term in `ds` (zero for absent or empty lists). */
  function AddedFrequencies(r: Index, ds: seq<string>): nat {
    if ds == [] then 0
    else
      var t := ds[|ds| - 1];
      AddedFrequencies(r, ds[..|ds| - 1])
      + (if t in r && |r[t]| > 0 then r[t][|r[t]| - 1].frequency else 0)
  }

  lemma {:induction false} AddedIsSumOccurrences(index: Index, docId: string, terms: seq<string>, ds: seq<string>)
    requires forall t :: t in ds ==> t in terms
    ensures AddedFrequencies(AfterIndexing(index, docId, terms), ds) == SumOccurrences(ds, terms)
  {
    if ds != [] {
      AddedIsSumOccurrences(index, docId, terms, ds[..|ds| - 1]);
      assert ds[|ds| - 1] in terms;
    }
  }

  /** The frequencies appended by one indexing step add up to the length of the term list. */
  lemma FrequenciesSumToTermCount(index: Index, docId: string, terms: seq<string>)
    ensures AddedFrequencies(AfterIndexing(index, docId, terms), Distinct(terms)) == |terms|
  {
    AddedIsSumOccurrences(index, docId, terms, Distinct(terms));
    SumOverCover(Distinct(terms), terms);
  }

  /** Every document id held by some posting list of `index` is in `ids`. */
  ghost predicate ReferencesWithin(index: Index, ids: set<string>) {
    forall t, i :: t in index && 0 <= i < |index[t]| ==> index[t][i].docId in ids
  }

  /** Indexing a document references only ids already referenced and its own. */
  lemma ReferencesAfterIndexing(index: Index, docId: string, terms: seq<string>, ids: set<string>)
    requires ReferencesWithin(index, ids)
    ensures ReferencesWithin(AfterIndexing(index, docId, terms), ids + {docId})
  {
    var r: Index := AfterIndexing(index, docId, terms);
    forall t: string, i: int | t in r && 0 <= i < |r[t]| ensures r[t][i].docId in ids + {docId} {
      if t in terms && i < |r[t]| - 1 {
        assert r[t][i] == PostingList(index, t)[i];
      }
    }
  }

  /** One posting list per term holds at most one appearance per document. */
  ghost predicate DocIdsUnique(index: Index) {
    forall t, i, j :: t in index && 0 <= i < j < |index[t]| ==> index[t][i].docId != index[t][j].docId
  }

  /** Indexing a document id not seen before keeps at most one appearance per document. */
  lemma FreshDocumentKeepsUnique(index: Index, docId: string, terms: seq<string>, ids: set<string>)
    requires DocIdsUnique(index)
    requires ReferencesWithin(index, ids)
    requires docId !in ids
    ensures DocIdsUnique(AfterIndexing(index, docId, terms))
  {
  }

  /**
    Indexing the same document id twice without removing anything (the
    source allows this) leaves every term of the text with two appearances
    for that id, as the last two entries of its posting list.
  */
  lemma ReindexingDuplicatesAppearances(index: Index, docId: string, terms: seq<string>, t: string)
    requires t in terms
    ensures var r := AfterIndexing(AfterIndexing(index, docId, terms), docId, terms);
      |r[t]| >= 2 && r[t][|r[t]| - 2].docId == docId && r[t][|r[t]| - 1].docId == docId
  {
    var once := AfterIndexing(index, docId, terms);
    var twice := AfterIndexing(once, docId, terms);
    assert once[t] <= twice[t];
    assert twice[t][|twice[t]| - 2] == once[t][|once[t]| - 1];
  }
}
