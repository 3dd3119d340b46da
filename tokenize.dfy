/**
  Text preparation done by `InvertedIndex.index_document` and `lookup_query`:
  `re.sub(r'[^\w\s]', '', text)` deletes every character that is neither a
  word character nor whitespace, and `str.split(' ')` cuts the result at every
  single space character.
*/
module Tokenize {

  /**
    A word character (`\w`). Only ASCII letters, digits, the underscore and the
    CJK Unified Ideographs block are classified; no lemma depends on the
    exact class.
  */
  predicate IsWordChar(c: char) {
    ('a' <= c <= 'z') || ('A' <= c <= 'Z') || ('0' <= c <= '9') || c == '_'
    || (0x4E00 <= c as int <= 0x9FFF)
  }

  /** A whitespace character (`\s`): Python's whitespace code points for str patterns. */
  predicate IsSpaceChar(c: char) {
    var n := c as int;
    (0x09 <= n <= 0x0D) || (0x1C <= n <= 0x20) || n == 0x85 || n == 0xA0 || n == 0x1680
    || (0x2000 <= n <= 0x200A) || n == 0x2028 || n == 0x2029 || n == 0x202F
    || n == 0x205F || n == 0x3000
  }

  /** A character that the pattern `[^\w\s]` does not match, so cleaning keeps it. */
  predicate IsKept(c: char) {
    IsWordChar(c) || IsSpaceChar(c)
  }

  /** `r` can be obtained from `s` by deleting characters; the order is kept. */
  ghost predicate IsSubsequence(r: string, s: string)
    decreases |s|
  {
    if r == [] then true
    else if s == [] then false
    else if r[0] == s[0] then IsSubsequence(r[1..], s[1..])
    else IsSubsequence(r, s[1..])
  }

  /** Punctuation removal: every character outside `\w` and `\s` is deleted. */
  function Clean(text: string): (r: string)
    ensures |r| <= |text|
    ensures forall i :: 0 <= i < |r| ==> IsKept(r[i])
  {
    if text == [] then []
    else (if IsKept(text[0]) then [text[0]] else []) + Clean(text[1..])
  }

  /** Cleaning keeps every kept character as often as it occurs, and no other character. */
  lemma {:induction false} CleanCounts(text: string, c: char)
    ensures multiset(Clean(text))[c] == if IsKept(c) then multiset(text)[c] else 0
  {
    if text != [] {
      CleanCounts(text[1..], c);
      assert text == [text[0]] + text[1..];
      assert multiset(text) == multiset{text[0]} + multiset(text[1..]);
    }
  }

  /** Cleaning keeps the surviving characters in their original order. */
  lemma {:induction false} CleanIsSubsequence(text: string)
    ensures IsSubsequence(Clean(text), text)
  {
    if text != [] {
      CleanIsSubsequence(text[1..]);
      var rest := Clean(text[1..]);
      if IsKept(text[0]) {
        assert Clean(text) == [text[0]] + rest;
        assert Clean(text)[1..] == rest;
      } else {
        assert Clean(text) == rest;
        assert rest != [] ==> rest[0] != text[0];
      }
    }
  }

  /** Cleaning works character by character, so it distributes over concatenation. */
  lemma {:induction false} CleanConcat(a: string, b: string)
    ensures Clean(a + b) == Clean(a) + Clean(b)
  {
    if a != [] {
      assert (a + b)[0] == a[0];
      assert (a + b)[1..] == a[1..] + b;
      CleanConcat(a[1..], b);
    } else {
      assert a + b == b;
    }
  }

  /** A text is left unchanged by cleaning exactly when all of its characters are kept. */
  lemma {:induction false} CleanFixedPoint(text: string)
    ensures Clean(text) == text <==> forall i :: 0 <= i < |text| ==> IsKept(text[i])
  {
    if text != [] {
      CleanFixedPoint(text[1..]);
      if !IsKept(text[0]) {
        assert |Clean(text)| < |text|;
      } else {
        assert forall i :: 1 <= i < |text| ==> text[i] == text[1..][i - 1];
      }
    }
  }

  /** Cleaning twice is the same as cleaning once. */
  lemma CleanIdempotent(text: string)
    ensures Clean(Clean(text)) == Clean(text)
  {
    CleanFixedPoint(Clean(text));
  }

  /** `sep.join(parts)` with `sep == ' '`. */
  function Join(parts: seq<string>): string {
    if |parts| == 0 then ""
    else if |parts| == 1 then parts[0]
    else parts[0] + " " + Join(parts[1..])
  }

  /** `s.split(' ')`: never empty, and no piece contains a space. */
  function Split(s: string): (r: seq<string>)
    ensures |r| >= 1
    ensures forall i :: 0 <= i < |r| ==> ' ' !in r[i]
  {
    if s == [] then [""]
    else
      var rest := Split(s[1..]);
      if s[0] == ' ' then [""] + rest
      else [[s[0]] + rest[0]] + rest[1..]
  }

  /** The term list that `index_document` counts: split of the cleaned text. */
  function Terms(text: string): (r: seq<string>)
    ensures |r| >= 1
    ensures Join(r) == Clean(text)
  {
    SplitJoin(Clean(text));
    Split(Clean(text))
  }

  lemma JoinCons(p: string, parts: seq<string>)
    requires |parts| >= 1
    ensures Join([p] + parts) == p + " " + Join(parts)
  {
  }

  /** Rejoining the pieces with a space gives back the split text. */
  lemma {:induction false} SplitJoin(s: string)
    ensures Join(Split(s)) == s
  {
    if s != [] {
      SplitJoin(s[1..]);
      var rest := Split(s[1..]);
      if s[0] == ' ' {
        JoinCons("", rest);
      } else if |rest| == 1 {
        assert Split(s) == [[s[0]] + rest[0]];
      } else {
        assert Join(rest) == rest[0] + " " + Join(rest[1..]);
        JoinCons([s[0]] + rest[0], rest[1..]);
      }
    }
  }

  /** The piece count is one more than the number of spaces. */
  lemma {:induction false} SplitCount(s: string)
    ensures |Split(s)| == multiset(s)[' '] + 1
  {
    if s != [] {
      SplitCount(s[1..]);
      assert s == [s[0]] + s[1..];
      assert multiset(s) == multiset{s[0]} + multiset(s[1..]);
    }
  }

  /** Splitting at one space splits each side independently. */
  lemma {:induction false} SplitConcat(a: string, b: string)
    ensures Split(a + " " + b) == Split(a) + Split(b)
  {
    var s := a + " " + b;
    if a == [] {
      assert s == " " + b;
      assert s[1..] == b;
    } else {
      assert s[0] == a[0];
      assert s[1..] == a[1..] + " " + b;
      SplitConcat(a[1..], b);
    }
  }

  /** A text without spaces is a single piece. */
  lemma {:induction false} SplitNoSpace(p: string)
    requires ' ' !in p
    ensures Split(p) == [p]
  {
    if p != [] {
      assert ' ' !in p[1..] by {
        assert forall i :: 0 <= i < |p[1..]| ==> p[1..][i] == p[i + 1];
      }
      SplitNoSpace(p[1..]);
      assert p == [p[0]] + p[1..];
    }
  }

  /** Splitting undoes joining when no piece contains a space. */
  lemma {:induction false} JoinSplit(parts: seq<string>)
    requires |parts| >= 1
    requires forall i :: 0 <= i < |parts| ==> ' ' !in parts[i]
    ensures Split(Join(parts)) == parts
  {
    if |parts| == 1 {
      SplitNoSpace(parts[0]);
    } else {
      JoinSplit(parts[1..]);
      SplitConcat(parts[0], Join(parts[1..]));
      SplitNoSpace(parts[0]);
    }
  }

  /** Two adjacent spaces always produce an empty piece between them. */
  lemma AdjacentSpacesGiveEmptyTerm(a: string, b: string)
    ensures "" in Split(a + "  " + b)
  {
    assert a + "  " + b == a + " " + (" " + b);
    SplitConcat(a, " " + b);
    assert (" " + b)[1..] == b;
    assert Split(" " + b)[0] == "";
    assert Split(a + "  " + b)[|Split(a)|] == "";
  }
}
