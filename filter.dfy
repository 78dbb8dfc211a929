/**
  Keyword filtering of a displayed table (filter_dataframe). Which rows match
  a keyword (lower-casing the row's cells and the keyword and searching each
  cell as a pattern) is left abstract as the predicate `matches`; what is
  modelled is the structure: a blank keyword keeps the table as it is,
  otherwise exactly the matching rows are kept, in their original order.
*/
module Filter {

  /** The characters a string's strip() removes: those whose isspace() holds. */
  predicate IsSpace(c: char)
  {
    ('\t' <= c <= '\r') || ('\U{1C}' <= c <= ' ') || c == '\U{85}' || c == '\U{A0}'
    || c == '\U{1680}' || ('\U{2000}' <= c <= '\U{200A}') || c == '\U{2028}' || c == '\U{2029}'
    || c == '\U{202F}' || c == '\U{205F}' || c == '\U{3000}'
  }

  /** A keyword that strips to the empty string: empty or all white space. */
  predicate IsBlank(keyword: string)
  {
    forall i :: 0 <= i < |keyword| ==> IsSpace(keyword[i])
  }

  /** `sub` is `s` with some elements left out and the rest in their order. */
  ghost predicate IsSubsequence<T>(sub: seq<T>, s: seq<T>)
    decreases |s|
  {
    sub == [] ||
    (s != [] && ((sub[0] == s[0] && IsSubsequence(sub[1..], s[1..])) || IsSubsequence(sub, s[1..])))
  }

  /** The rows of `rows` that match `keyword`, in order. */
  function KeepMatching<T(==,!new)>(rows: seq<T>, keyword: string, matches: (T, string) -> bool): (r: seq<T>)
    ensures |r| <= |rows|
    ensures forall x :: x in r ==> x in rows && matches(x, keyword)
    ensures forall i :: 0 <= i < |rows| && matches(rows[i], keyword) ==> rows[i] in r
    // Each matching row is kept as often as it occurs; no other row is kept.
    ensures forall x :: multiset(r)[x] == if matches(x, keyword) then multiset(rows)[x] else 0
  {
    if rows == [] then []
    else
      var rest := KeepMatching(rows[1..], keyword, matches);
      assert rows == [rows[0]] + rows[1..];
      if matches(rows[0], keyword) then [rows[0]] + rest else rest
  }

  /** Keeping the matching rows keeps their order. */
  lemma {:induction false} KeepMatchingIsSubsequence<T(!new)>(rows: seq<T>, keyword: string, matches: (T, string) -> bool)
    ensures IsSubsequence(KeepMatching(rows, keyword, matches), rows)
  {
    if rows != [] {
      KeepMatchingIsSubsequence(rows[1..], keyword, matches);
      var rest := KeepMatching(rows[1..], keyword, matches);
      if matches(rows[0], keyword) {
        assert ([rows[0]] + rest)[1..] == rest;
      }
    }
  }

  /**
    The displayed table for `keyword`: the whole table when the keyword is
    blank; otherwise the rows that match it, as an order-keeping subsequence.
  */
  function FilterRows<T(==,!new)>(rows: seq<T>, keyword: string, matches: (T, string) -> bool): (r: seq<T>)
    ensures IsBlank(keyword) ==> r == rows
    ensures IsSubsequence(r, rows)
    ensures !IsBlank(keyword) ==>
      && (forall x :: x in r ==> matches(x, keyword))
      && (forall i :: 0 <= i < |rows| && matches(rows[i], keyword) ==> rows[i] in r)
      && (forall x :: multiset(r)[x] == if matches(x, keyword) then multiset(rows)[x] else 0)
  {
    if IsBlank(keyword) then
      SubsequenceOfItself(rows);
      rows
    else
      KeepMatchingIsSubsequence(rows, keyword, matches);
      KeepMatching(rows, keyword, matches)
  }

  /** Every sequence is a subsequence of itself. */
  lemma {:induction false} SubsequenceOfItself<T>(s: seq<T>)
    ensures IsSubsequence(s, s)
  {
    if s != [] {
      SubsequenceOfItself(s[1..]);
    }
  }
}
