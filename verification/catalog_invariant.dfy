/** The counter invariant of the catalog: every author's, category's and publisher's
    `booksCount` equals the number of book references to its id. The fixture data
    satisfies it; adding and deleting books keep it (they are the only operations
    that touch the counters); the update and entity-delete operations keep it for the
    entities that remain. Each list must hold distinct ids, because the operations
    find entities by id and act on the first match only. */
module CatalogInvariant {
  import opened Options
  import opened Catalog

  /** The number of references of kind `k` to id `id` over all of `books`. */
  function RefCount(books: seq<Book>, k: Kind, id: int): nat
  {
    if |books| == 0 then 0
    else Occurrences(books[0].Refs(k), id) + RefCount(books[1..], k, id)
  }

  /** No two entries of `es` share an id. */
  ghost predicate UniqueIds(es: seq<Entity>) {
    forall i, j :: 0 <= i < j < |es| ==> es[i].id != es[j].id
  }

  /** No list of the store holds two entities with the same id. */
  ghost predicate WellKeyed(s: Store) {
    forall k :: UniqueIds(s.List(k))
  }

  /** Every entity's counter equals the number of book references to it. */
  ghost predicate CountsAgree(s: Store) {
    forall k, j :: 0 <= j < |s.List(k)| ==>
      s.List(k)[j].booksCount == RefCount(s.books, k, s.List(k)[j].id)
  }

  ghost predicate Consistent(s: Store) {
    WellKeyed(s) && CountsAgree(s)
  }

  // ---------------------------------------------------------------------------
  // Counting lemmas

  lemma {:induction false} RefCountAppend(a: seq<Book>, b: seq<Book>, k: Kind, id: int)
    ensures RefCount(a + b, k, id) == RefCount(a, k, id) + RefCount(b, k, id)
    decreases |a|
  {
    if |a| == 0 {
      assert a + b == b;
    } else {
      assert (a + b)[1..] == a[1..] + b;
      RefCountAppend(a[1..], b, k, id);
    }
  }

  /** Removing one book takes away exactly its own references. */
  lemma RefCountRemoveAt(books: seq<Book>, i: nat, k: Kind, id: int)
    requires i < |books|
    ensures RefCount(RemoveAt(books, i), k, id)
            == RefCount(books, k, id) - Occurrences(books[i].Refs(k), id)
  {
    assert books == books[..i] + ([books[i]] + books[i + 1..]);
    RefCountAppend(books[..i], [books[i]] + books[i + 1..], k, id);
    RefCountAppend([books[i]], books[i + 1..], k, id);
    RefCountAppend(books[..i], books[i + 1..], k, id);
    assert RefCount([books[i]], k, id) == Occurrences(books[i].Refs(k), id) by {
      assert [books[i]][1..] == [];
    }
  }

  /** With distinct ids, every entity is the one `find` lands on for its id. */
  lemma UniqueIdsFirst(es: seq<Entity>, j: nat)
    requires UniqueIds(es) && j < |es|
    ensures FirstWithItsId(es, j)
  {
  }

  lemma OccurrencesSingle(r: Ref, x: int)
    ensures Occurrences([r], x) == if r.id == x then 1 else 0
  {
    assert [r][1..] == [];
  }

  lemma RefCountSingle(b: Book, k: Kind, x: int)
    ensures RefCount([b], k, x) == Occurrences(b.Refs(k), x)
  {
    assert [b][1..] == [];
  }

  /** Two stores with the same books whose lists agree on every id and every counter
      agree on consistency. */
  lemma SameKeysAndCounts(s: Store, r: Store)
    requires Consistent(s)
    requires r.books == s.books
    requires forall k :: |r.List(k)| == |s.List(k)|
    requires forall k, j :: 0 <= j < |s.List(k)| ==>
      r.List(k)[j].id == s.List(k)[j].id && r.List(k)[j].booksCount == s.List(k)[j].booksCount
    ensures Consistent(r)
  {
  }

  // ---------------------------------------------------------------------------
  // Fixture data

  lemma RefCountThree(a: Book, b: Book, c: Book, k: Kind, x: int)
    ensures RefCount([a, b, c], k, x)
            == Occurrences(a.Refs(k), x) + Occurrences(b.Refs(k), x) + Occurrences(c.Refs(k), x)
  {
    assert [a, b, c][1..] == [b, c];
    assert [b, c][1..] == [c];
    RefCountSingle(c, k, x);
    assert RefCount([b, c], k, x) == Occurrences(b.Refs(k), x) + RefCount([c], k, x);
  }

  /** The sample catalog is consistent: each counter matches the books. */
  lemma SampleDataConsistent()
    ensures Consistent(SampleData())
  {
    var s := SampleData();
    var bs := s.books;
    assert bs == [bs[0], bs[1], bs[2]];
    forall k, x ensures RefCount(bs, k, x)
      == (if bs[0].Refs(k)[0].id == x then 1 else 0) + (if bs[1].Refs(k)[0].id == x then 1 else 0)
         + (if bs[2].Refs(k)[0].id == x then 1 else 0)
    {
      RefCountThree(bs[0], bs[1], bs[2], k, x);
      OccurrencesSingle(bs[0].Refs(k)[0], x);
      OccurrencesSingle(bs[1].Refs(k)[0], x);
      OccurrencesSingle(bs[2].Refs(k)[0], x);
    }
    forall k ensures UniqueIds(s.List(k)) {
      var es := s.List(k);
      assert forall j :: 0 <= j < |es| ==> es[j].id == Ids(es)[j];
    }
  }

  /** Every reference in the sample books names an entity of its kind by id and name. */
  lemma SampleDataResolves()
    ensures forall i, k :: 0 <= i < |SampleData().books| ==>
      Resolves(SampleData().books[i].Refs(k), SampleData().List(k))
  {
    var s := SampleData();
    forall i, k | 0 <= i < |s.books| ensures Resolves(s.books[i].Refs(k), s.List(k)) {
      var x := s.books[i].Refs(k)[0];
      assert s.books[i].Refs(k) == [x];
      var j := x.id - 1;
      assert s.List(k)[j].id == x.id && s.List(k)[j].name == x.name;
      assert s.List(k)[j] in s.List(k);
    }
  }

  // ---------------------------------------------------------------------------
  // Books

  /** The id that `AddBook` counts the new book against in the list of kind `k`. */
  function Chosen(k: Kind, authorId: int, categoryId: int, publisherId: int): int {
    match k
    case Authors => authorId
    case Categories => categoryId
    case Publishers => publisherId
  }

  /** Adding a book keeps the store consistent. */
  lemma AddBookKeepsConsistent(s: Store, id: int, isbn: string, name: string, serialName: string,
                               description: string, authorId: int, categoryId: int, publisherId: int)
    requires Consistent(s)
    requires authorId in Ids(s.authors)
    requires categoryId in Ids(s.categories)
    requires publisherId in Ids(s.publishers)
    ensures Consistent(AddBook(s, id, isbn, name, serialName, description, authorId, categoryId, publisherId))
  {
    var r := AddBook(s, id, isbn, name, serialName, description, authorId, categoryId, publisherId);
    var nb := r.books[|s.books|];
    assert r.books == s.books + [nb];
    forall k, j | 0 <= j < |r.List(k)|
      ensures r.List(k)[j].booksCount == RefCount(r.books, k, r.List(k)[j].id)
    {
      var x := Chosen(k, authorId, categoryId, publisherId);
      var es := s.List(k);
      var j0 := IndexOf(Ids(es), x);
      assert Shifted(es, r.List(k), j0, 1);
      assert nb.Refs(k) == [Ref(x, es[j0].name)];
      RefCountAppend(s.books, [nb], k, es[j].id);
      RefCountSingle(nb, k, es[j].id);
      OccurrencesSingle(Ref(x, es[j0].name), es[j].id);
      if j != j0 {
        assert es[j0].id == x;
      }
    }
    assert forall k :: Ids(r.List(k)) == Ids(s.List(k));
    forall k ensures UniqueIds(r.List(k)) {
      assert forall j :: 0 <= j < |s.List(k)| ==> r.List(k)[j].id == Ids(r.List(k))[j];
    }
  }

  /** Deleting a book keeps the store consistent. */
  lemma DeleteBookKeepsConsistent(s: Store, id: int)
    requires Consistent(s)
    ensures Consistent(DeleteBook(s, id))
  {
    var r := DeleteBook(s, id);
    if id in BookIds(s.books) {
      var i := IndexOf(BookIds(s.books), id);
      forall k, j | 0 <= j < |r.List(k)|
        ensures r.List(k)[j].booksCount == RefCount(r.books, k, r.List(k)[j].id)
      {
        UniqueIdsFirst(s.List(k), j);
        RefCountRemoveAt(s.books, i, k, s.List(k)[j].id);
      }
      forall k ensures UniqueIds(r.List(k)) {
        assert forall j :: 0 <= j < |s.List(k)| ==> r.List(k)[j].id == s.List(k)[j].id;
      }
    }
  }

  /** Updating a book keeps the store consistent. */
  lemma UpdateBookKeepsConsistent(s: Store, id: int, isbn: string, name: string, serialName: string,
                                  description: string)
    requires Consistent(s)
    ensures Consistent(UpdateBook(s, id, isbn, name, serialName, description))
  {
    var r := UpdateBook(s, id, isbn, name, serialName, description);
    assert forall k :: r.List(k) == s.List(k);
    forall k, x ensures RefCount(r.books, k, x) == RefCount(s.books, k, x) {
      SameRefsSameCount(s.books, r.books, k, x);
    }
  }

  /** Two book lists that agree position by position on their references have the same counts. */
  lemma {:induction false} SameRefsSameCount(a: seq<Book>, b: seq<Book>, k: Kind, x: int)
    requires |a| == |b|
    requires forall i :: 0 <= i < |a| ==> a[i].Refs(k) == b[i].Refs(k)
    ensures RefCount(a, k, x) == RefCount(b, k, x)
    decreases |a|
  {
    if |a| > 0 {
      SameRefsSameCount(a[1..], b[1..], k, x);
    }
  }

  /** Counting one book on the first entity with id `x` and then releasing a single
      reference to `x` gives back the list unchanged. */
  lemma BumpThenRelease(es: seq<Entity>, x: int, name: string)
    requires x in Ids(es)
    ensures Release(Bump(es, x, 1), [Ref(x, name)]) == es
  {
    var b := Bump(es, x, 1);
    var j0 := IndexOf(Ids(es), x);
    var d := Release(b, [Ref(x, name)]);
    forall j | 0 <= j < |es| ensures d[j] == es[j] {
      OccurrencesSingle(Ref(x, name), b[j].id);
      assert b[j].id == Ids(b)[j] == Ids(es)[j] == es[j].id;
      if j == j0 {
        assert FirstWithItsId(b, j);
      }
    }
  }

  /** Adding a book and then deleting it, by the fresh id it was given, restores the store. */
  lemma AddThenDeleteBook(s: Store, id: int, isbn: string, name: string, serialName: string,
                          description: string, authorId: int, categoryId: int, publisherId: int)
    requires id !in BookIds(s.books)
    requires authorId in Ids(s.authors)
    requires categoryId in Ids(s.categories)
    requires publisherId in Ids(s.publishers)
    ensures DeleteBook(AddBook(s, id, isbn, name, serialName, description,
                               authorId, categoryId, publisherId), id) == s
  {
    var a := AddBook(s, id, isbn, name, serialName, description, authorId, categoryId, publisherId);
    var n := |s.books|;
    assert BookIds(a.books)[..n] == BookIds(s.books);
    assert IndexOf(BookIds(a.books), id) == n;
    var nb := a.books[n];
    assert a.books == s.books + [nb];
    assert RemoveAt(a.books, n) == s.books;
    BumpThenRelease(s.authors, authorId, nb.authors[0].name);
    BumpThenRelease(s.categories, categoryId, nb.categories[0].name);
    BumpThenRelease(s.publishers, publisherId, nb.publishers[0].name);
  }

  // ---------------------------------------------------------------------------
  // Authors, categories and publishers

  /** A new entity keeps the store consistent when its id is fresh in its list and
      no book refers to that id (not even a dangling reference to a deleted entity). */
  lemma AddEntityKeepsConsistent(s: Store, k: Kind, id: int, name: string, description: Option<string>)
    requires Consistent(s)
    requires id !in Ids(s.List(k))
    requires RefCount(s.books, k, id) == 0
    ensures Consistent(AddEntity(s, k, id, name, description))
  {
    var r := AddEntity(s, k, id, name, description);
    forall j | 0 <= j < |s.List(k)| ensures s.List(k)[j].id != id {
      assert Ids(s.List(k))[j] == s.List(k)[j].id;
    }
  }

  /** Renaming an entity touches neither ids nor counters, so consistency is kept. */
  lemma RenameKeepsConsistent(s: Store, k: Kind, id: int, name: string)
    requires Consistent(s)
    ensures Consistent(Rename(s, k, id, name))
  {
    var r := Rename(s, k, id, name);
    forall j | 0 <= j < |s.List(k)| ensures r.List(k)[j].id == s.List(k)[j].id {
      assert Ids(r.List(k))[j] == Ids(s.List(k))[j];
    }
    SameKeysAndCounts(s, r);
  }

  /** Changing an author's name and description keeps consistency. */
  lemma UpdateAuthorKeepsConsistent(s: Store, id: int, name: string, description: string)
    requires Consistent(s)
    ensures Consistent(UpdateAuthor(s, id, name, description))
  {
    var r := UpdateAuthor(s, id, name, description);
    forall j | 0 <= j < |s.authors| ensures r.authors[j].id == s.authors[j].id {
      assert Ids(r.authors)[j] == Ids(s.authors)[j];
    }
    assert r.List(Categories) == s.List(Categories) && r.List(Publishers) == s.List(Publishers);
    SameKeysAndCounts(s, r);
  }

  /** Deleting an entity leaves every remaining entity's counter in agreement with the
      books; the references to the deleted one are left dangling in the books. */
  lemma DeleteEntityKeepsConsistent(s: Store, k: Kind, id: int)
    requires Consistent(s)
    ensures Consistent(DeleteEntity(s, k, id))
    ensures id !in Ids(DeleteEntity(s, k, id).List(k))
    ensures DeleteEntity(s, k, id).books == s.books
  {
    var r := DeleteEntity(s, k, id);
    var es := s.List(k);
    if id in Ids(es) {
      var i := IndexOf(Ids(es), id);
      assert r.List(k) == RemoveAt(es, i);
      forall j | 0 <= j < |r.List(k)| ensures r.List(k)[j].id != id {
        var jj := if j < i then j else j + 1;
        assert r.List(k)[j] == es[jj];
        assert es[i].id == id;
      }
      assert id !in Ids(r.List(k)) by {
        forall j | 0 <= j < |r.List(k)| ensures Ids(r.List(k))[j] != id { }
      }
    }
  }
}
