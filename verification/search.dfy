/** The two search boxes of the catalog page: books by title, isbn or author name,
    and authors by name or description, each a case-insensitive substring match
    that keeps the records in their stored order. */
module Search {
  import opened Strings
  import opened Catalog

  /** `a` is `b` with some elements left out, the rest in their original order. */
  ghost predicate IsSubsequence<T>(a: seq<T>, b: seq<T>)
    decreases |b|
  {
    if |a| == 0 then true
    else if |b| == 0 then false
    else (a[0] == b[0] && IsSubsequence(a[1..], b[1..])) || IsSubsequence(a, b[1..])
  }

  /** `xs.filter(keep)`. */
  function Filter<T(!new)>(xs: seq<T>, keep: T -> bool): (r: seq<T>)
    ensures IsSubsequence(r, xs)
    ensures forall x :: x in r ==> x in xs && keep(x)
    ensures forall i :: 0 <= i < |xs| && keep(xs[i]) ==> xs[i] in r
    ensures forall x :: multiset(r)[x] == if keep(x) then multiset(xs)[x] else 0
  {
    if |xs| == 0 then []
    else
      var rest := Filter(xs[1..], keep);
      assert forall i :: 1 <= i < |xs| ==> xs[i] == xs[1..][i - 1];
      assert xs == [xs[0]] + xs[1..];
      assert multiset(xs) == multiset{xs[0]} + multiset(xs[1..]);
      if keep(xs[0]) then
        assert multiset([xs[0]] + rest) == multiset{xs[0]} + multiset(rest);
        [xs[0]] + rest
      else rest
  }

  /** When every element passes, the filter returns the whole list. */
  lemma {:induction false} FilterAll<T(!new)>(xs: seq<T>, keep: T -> bool)
    requires forall i :: 0 <= i < |xs| ==> keep(xs[i])
    ensures Filter(xs, keep) == xs
  {
    if |xs| > 0 {
      FilterAll(xs[1..], keep);
    }
  }

  /** When no element passes, the filter returns nothing. */
  lemma FilterNone<T(!new)>(xs: seq<T>, keep: T -> bool)
    requires forall i :: 0 <= i < |xs| ==> !keep(xs[i])
    ensures Filter(xs, keep) == []
  {
  }

  /** Two tests that agree on every element of the list filter it alike. */
  lemma {:induction false} FilterAgree<T(!new)>(xs: seq<T>, keep1: T -> bool, keep2: T -> bool)
    requires forall i :: 0 <= i < |xs| ==> keep1(xs[i]) == keep2(xs[i])
    ensures Filter(xs, keep1) == Filter(xs, keep2)
  {
    if |xs| > 0 {
      FilterAgree(xs[1..], keep1, keep2);
    }
  }

  /** The case-insensitive match: the lower-cased query occurs in the lower-cased text. */
  predicate MatchesText(text: string, query: string) {
    Includes(Lower(text), Lower(query))
  }

  /** A book matches when the query occurs in its title, its isbn or one of the names of
      the authors it refers to (the names as copied when the book was added). */
  predicate BookMatches(b: Book, query: string)
    ensures BookMatches(b, query) <==>
      exists t, i :: t in SearchedTexts(b) && OccursAt(Lower(t), Lower(query), i)
  {
    var texts := SearchedTexts(b);
    assert (exists a :: a in b.authors && MatchesText(a.name, query))
           <==> (exists k :: 2 <= k < |texts| && MatchesText(texts[k], query)) by {
      forall a | a in b.authors && MatchesText(a.name, query)
        ensures exists k :: 2 <= k < |texts| && MatchesText(texts[k], query)
      {
        var j :| 0 <= j < |b.authors| && b.authors[j] == a;
        assert texts[j + 2] == a.name;
      }
      forall k | 2 <= k < |texts| && MatchesText(texts[k], query)
        ensures exists a :: a in b.authors && MatchesText(a.name, query)
      {
        assert b.authors[k - 2] in b.authors;
      }
    }
    assert (exists t, i :: t in texts && OccursAt(Lower(t), Lower(query), i))
           <==> (exists k :: 0 <= k < |texts| && MatchesText(texts[k], query)) by {
      forall t, i | t in texts && OccursAt(Lower(t), Lower(query), i)
        ensures exists k :: 0 <= k < |texts| && MatchesText(texts[k], query)
      {
        var k :| 0 <= k < |texts| && texts[k] == t;
        assert MatchesText(texts[k], query);
      }
    }
    assert texts[0] == b.name && texts[1] == b.isbn;
    || MatchesText(b.name, query)
    || MatchesText(b.isbn, query)
    || exists a :: a in b.authors && MatchesText(a.name, query)
  }

  /** The texts the book search looks in: the title, the isbn and the author names. */
  function SearchedTexts(b: Book): seq<string> {
    [b.name, b.isbn] + seq(|b.authors|, i requires 0 <= i < |b.authors| => b.authors[i].name)
  }

  /** An author matches when the query occurs in its name or its description. Every
      author the catalog creates has a description; one without would not match on it. */
  predicate AuthorMatches(a: Entity, query: string)
    ensures AuthorMatches(a, query) <==>
      || (exists i :: OccursAt(Lower(a.name), Lower(query), i))
      || (a.description.Some? && exists i :: OccursAt(Lower(a.description.value), Lower(query), i))
  {
    || MatchesText(a.name, query)
    || (a.description.Some? && MatchesText(a.description.value, query))
  }

  /** `searchBooks`: the books that match, in stored order. */
  function SearchBooks(books: seq<Book>, query: string): (r: seq<Book>)
    ensures IsSubsequence(r, books)
    ensures forall b :: b in r ==> BookMatches(b, query)
    ensures forall i :: 0 <= i < |books| ==> (books[i] in r <==> BookMatches(books[i], query))
    ensures forall b :: multiset(r)[b] == if BookMatches(b, query) then multiset(books)[b] else 0
  {
    Filter(books, b => BookMatches(b, query))
  }

  /** `searchAuthors`: the authors that match, in stored order. */
  function SearchAuthors(authors: seq<Entity>, query: string): (r: seq<Entity>)
    ensures IsSubsequence(r, authors)
    ensures forall a :: a in r ==> AuthorMatches(a, query)
    ensures forall i :: 0 <= i < |authors| ==> (authors[i] in r <==> AuthorMatches(authors[i], query))
    ensures forall a :: multiset(r)[a] == if AuthorMatches(a, query) then multiset(authors)[a] else 0
  {
    Filter(authors, a => AuthorMatches(a, query))
  }

  /** An empty query lists every book. */
  lemma SearchBooksEmptyQuery(books: seq<Book>)
    ensures SearchBooks(books, "") == books
  {
    forall i | 0 <= i < |books| ensures BookMatches(books[i], "") {
      IncludesEmpty(Lower(books[i].name));
    }
    FilterAll(books, b => BookMatches(b, ""));
  }

  /** An empty query lists every author. */
  lemma SearchAuthorsEmptyQuery(authors: seq<Entity>)
    ensures SearchAuthors(authors, "") == authors
  {
    forall i | 0 <= i < |authors| ensures AuthorMatches(authors[i], "") {
      IncludesEmpty(Lower(authors[i].name));
    }
    FilterAll(authors, a => AuthorMatches(a, ""));
  }

  /** A query found in no searched field of any book lists no book. */
  lemma SearchBooksNoMatch(books: seq<Book>, query: string)
    requires forall i :: 0 <= i < |books| ==> !BookMatches(books[i], query)
    ensures SearchBooks(books, query) == []
  {
    FilterNone(books, b => BookMatches(b, query));
  }

  /** A query found in no author's name or description lists no author. */
  lemma SearchAuthorsNoMatch(authors: seq<Entity>, query: string)
    requires forall i :: 0 <= i < |authors| ==> !AuthorMatches(authors[i], query)
    ensures SearchAuthors(authors, query) == []
  {
    FilterNone(authors, a => AuthorMatches(a, query));
  }

  /** The search ignores ASCII case in the query. */
  lemma SearchBooksIgnoresCase(books: seq<Book>, query: string)
    ensures SearchBooks(books, query) == SearchBooks(books, Lower(query))
  {
    LowerIdempotent(query);
    FilterAgree(books, b => BookMatches(b, query), b => BookMatches(b, Lower(query)));
  }
}
