# In-memory inverted index

This is a Dafny model of the inverted index in `ii_try.py`. The model has four parts:

- `Database` keeps documents by id. `get` returns the stored document or `None`. `add` stores a document and overwrites any earlier document with the same id. `remove` deletes the entry for an id and returns what was stored there.
- `InvertedIndex.index_document` builds the term list in two steps:
  - it deletes every character that is neither a word character (`\w`) nor whitespace (`\s`);
  - it splits the cleaned text at each single space, so two spaces in a row give an empty term.

  It then counts each term and appends one `Appearance(doc_id, frequency)` per distinct term to that term's posting list. Finally it stores the document in the database and returns it.
- `InvertedIndex.lookup_query` splits a query at single spaces. It returns the part of the index whose keys are among the query terms.
- `Appearance` is a record of a document id and a frequency.

Modules, one file each:

- `Wrappers` (`wrappers.dfy`): `Option`, the model of Python's `None`.
- `Tokenize` (`tokenize.dfy`): the character classes, `Clean` (the `re.sub`), `Split` (`str.split(' ')`), its inverse `Join`, and `Terms` (clean, then split).
- `Postings` (`postings.dfy`): `Appearance`, the `Index` type, term counting, and `AfterIndexing`. `AfterIndexing` defines what one call of `index_document` does to the index; the lemmas about it live here too.
- `Documents` (`documents.dfy`): `Document` and the `Database` class.
- `Indexing` (`indexing.dfy`): the `InvertedIndex` class, the `update_dict` comprehension, and the lemmas that connect lookup with indexing.

`InvertedIndex.IndexDocument` is proved against `AfterIndexing`. Its `ensures` states the new index as a function of the old index, and the new database as the old one with the document added. The promises of the source are proved about `AfterIndexing` in its own `ensures` and in lemmas:

- append-only posting lists;
- one new appearance per distinct term, whose frequency is that term's count;
- terms not in the document left untouched;
- frequencies that sum to the number of terms.

The counting loop of `index_document` (lines 74-78) is written as the method `Postings.CountAppearances`, with its loop. The sample documents use string ids; the model takes ids and texts to be strings.

Behaviours one might expect of such an index but which this code does not have, and what the model does instead:

- There is no bigram tokenisation, no AND/OR query mode and no ranking. Tokenising is punctuation removal and a split on `' '`, and a query returns the posting lists of its terms.
- An empty text does not index nothing. In the code, `''.split(' ')` is `['']`, so indexing a text that cleans to nothing records the empty term `""` with frequency 1 (`Indexing.NoKeptTextIndexesEmptyTerm`). Two spaces in a row, or a punctuation mark standing alone between spaces, also produce `""` (`Tokenize.AdjacentSpacesGiveEmptyTerm`, `Indexing.IsolatedPunctuationGivesEmptyTerm`).
- Document ids are not required to be unique; the code does not check this. Indexing the same id twice appends a second appearance with that id to each of its terms (`Postings.ReindexingDuplicatesAppearances`). With a fresh id, there stays at most one appearance per document in each list (`Postings.FreshDocumentKeepsUnique`).

## Model

| member | source | states |
|---|---|---|
| Tokenize.Clean | ii_try.py:72 | every character of the cleaned text is a word or whitespace character, and the result is no longer than the input |
| Tokenize.CleanCounts | ii_try.py:72 | each word or whitespace character survives cleaning exactly as many times as it occurs; every other character disappears |
| Tokenize.CleanIsSubsequence | ii_try.py:72 | the cleaned text is a subsequence of the original, so the kept characters keep their order |
| Tokenize.CleanConcat | ii_try.py:72 | cleaning works on each character on its own: cleaning `a + b` is cleaning `a`, then `b` |
| Tokenize.CleanFixedPoint | ii_try.py:72 | cleaning leaves a text unchanged if and only if every character of it is kept |
| Tokenize.CleanIdempotent | ii_try.py:72 | cleaning twice gives the same text as cleaning once |
| Tokenize.Split | ii_try.py:73 | `split(' ')` returns at least one piece, and no piece contains a space |
| Tokenize.Terms | ii_try.py:72-73 | the term list is never empty, and joining it with spaces gives back the cleaned text |
| Tokenize.SplitJoin | ii_try.py:73 | joining the pieces of a split with `' '` gives back the original string |
| Tokenize.JoinSplit | ii_try.py:73 | splitting a space-joined list of space-free pieces gives back exactly that list |
| Tokenize.SplitCount | ii_try.py:73 | the number of pieces is the number of spaces plus one |
| Tokenize.SplitConcat | ii_try.py:73 | splitting `a + " " + b` gives the pieces of `a` followed by the pieces of `b` |
| Tokenize.SplitNoSpace | ii_try.py:73 | a string without spaces splits into the single piece that is the string itself |
| Tokenize.AdjacentSpacesGiveEmptyTerm | ii_try.py:73 | two adjacent spaces always yield an empty-string term |
| Postings.Occurrences | ii_try.py:76-78 | the count of a term is at most the list length, and positive if and only if the term occurs |
| Postings.OccurrencesIsMultiplicity | ii_try.py:76-78 | the count equals the term's multiplicity in the multiset of terms |
| Postings.Distinct | ii_try.py:74-78 | the distinct terms (the keys of `appearances_dict`) contain no duplicates and are exactly the terms that occur |
| Postings.CountAppearances | ii_try.py:74-78 | the counting loop gives an appearance for exactly the terms that occur; each has the document's id and the term's multiplicity in the term list |
| Postings.AfterIndexing | ii_try.py:80-83 | keys are the old keys plus the document's terms; each old list is a prefix of the new one; each document term gains exactly one appearance at the end, with the document id and the term's count; a term new to the index gets a list of length one; terms not in the document keep their lists |
| Postings.FrequenciesPositive | ii_try.py:77-78 | every frequency written is at least 1 |
| Postings.SumOverCover | ii_try.py:76-78 | the counts over any duplicate-free list covering the terms add up to the number of terms |
| Postings.FrequenciesSumToTermCount | ii_try.py:76-83 | the frequencies appended for the distinct terms of a document add up to the length of its term list |
| Postings.ReferencesAfterIndexing | ii_try.py:81-85 | after indexing, every document id in a posting list is an id seen before or the indexed document's id |
| Postings.FreshDocumentKeepsUnique | ii_try.py:81-83 | indexing an id that no posting list mentions keeps at most one appearance per document in every posting list |
| Postings.ReindexingDuplicatesAppearances | ii_try.py:81-83 | indexing the same id and terms twice leaves each of its terms with two appearances of that id as the last two entries of its posting list |
| Documents.Fetch | ii_try.py:35-36 | `dict.get(id, None)`: `None` exactly when the id is absent, otherwise the stored document |
| Documents.FetchAfterAdd | ii_try.py:38-42 | after adding `d`, its id gives `d` and every other id gives what it gave before |
| Documents.FetchAfterRemove | ii_try.py:44-48 | after removing `d`'s id, that id gives `None` and every other id gives what it gave before |
| Documents.Database.constructor | ii_try.py:26-27 | a new database is empty |
| Documents.Database.Get | ii_try.py:35-36 | returns the stored document for the id, `None` if there is none; changes nothing |
| Documents.Database.Add | ii_try.py:38-42 | the store becomes the old store with the document put under its id, overwriting; `get` of that id returns the document; other ids are unaffected |
| Documents.Database.Remove | ii_try.py:44-48 | returns what was stored under the document's id (or `None`); the id is gone afterwards; other ids are unaffected |
| Indexing.InvertedIndex.constructor | ii_try.py:56-58 | a new index is empty and holds the given database |
| Indexing.InvertedIndex.IndexDocument | ii_try.py:66-87 | the new index is `AfterIndexing` of the old index, the document's id and its term list; old lists are prefixes of the new ones; each term ends with `Appearance(id, count)`; other terms are unchanged; the database gains the document, so `get(id)` returns it; the document is returned unchanged; if every referenced id was stored before, it still is |
| Indexing.InvertedIndex.LookupQuery | ii_try.py:89-95 | the result's keys are exactly the space-split query terms that are keys of the index, each mapped to its posting list, and nothing is modified |
| Indexing.UpdateDict | ii_try.py:81-82 | `update_dict` has a key for every counted term, mapped to that term's old list (or none) followed by its new appearance |
| Indexing.MergeIsAfterIndexing | ii_try.py:81-83 | updating the index with `update_dict` built from correct counts gives exactly `AfterIndexing` |
| Indexing.LookupMonotone | ii_try.py:95 | a query whose terms are among another query's terms returns a subset of the other query's keys |
| Indexing.LookupJoinedTerms | ii_try.py:95 | a query made of space-free terms joined by spaces returns exactly those terms that are indexed, each with its full posting list |
| Indexing.NoKeptTextIndexesEmptyTerm | ii_try.py:72-83 | a text that cleans to nothing has the single term `""`, and indexing it records `""` with frequency 1 |
| Indexing.IsolatedPunctuationGivesEmptyTerm | ii_try.py:72-73 | a punctuation mark between two spaces produces an empty term |

## Left out

- Tokenize.IsWordChar: the full Unicode `\w` class is not modelled. Only ASCII letters, digits, `_` and the CJK Unified Ideographs block (U+4E00 to U+9FFF) count as word characters. No proof depends on which characters are in the class.
- Tokenize.IsSpaceChar: this lists the code points Python's `re` treats as `\s` in a str pattern. The proofs rely only on U+0020 (the space) being whitespace.
- Indexing.InvertedIndex.LookupQuery: does not model the key order of the returned dict, which is query order in Python; the model's `map` has no order.
- Dict insertion order in general: `appearances_dict`, `update_dict` and the index are unordered `map`s. `Postings.Distinct`, which the frequency-sum lemma uses, lists the keys of `appearances_dict` without promising their order. The order does not affect the resulting index.
- Documents are records of `id` and `text`. The source stores whatever dict it is given, extra keys included, and accepts any hashable id; the model uses string ids as in the sample.
- `Database.add` returns `None` in the source; the model's `Add` returns nothing.
- Removing a document from the database does not touch the index, so ids in posting lists can then name missing documents. The model proves that `IndexDocument` keeps every referenced id stored; it does not claim this for `Remove`, because the source does not ensure it.
- `highlight_term` (ii_try.py:98-101): presentation only, string replacement with terminal colour codes.
- The `__main__` console loop (ii_try.py:104-130): interactive input and output. Its two sample documents are not evaluated as concrete values.
- `__repr__` methods (ii_try.py:14-18, 29-33, 60-64): debug rendering.
- Reader.py is not part of this model. It reads a JSON file, calls the external `jieba` segmentation library, and swallows errors with a bare `except`. Its keyword filter (score above 0.1, joined with `"@"`) depends on that library's output.
